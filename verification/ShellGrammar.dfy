/** The command language of user/sh.c: tokens, command trees, the recursive-descent parser as
    functions on the text that is left, and a fully parenthesised printer. */
module ShellGrammar {
  const MAXARGS := 10

  /** The three redirection forms: `<` opens for reading on 0, `>` creates and truncates on 1,
      `>>` creates on 1. */
  datatype Redirection = In | Out | Append

  datatype Cmd =
    | Exec(argv: seq<string>)
    | Redir(cmd: Cmd, file: string, form: Redirection)
    | Pipe(left: Cmd, right: Cmd)
    | List(left: Cmd, right: Cmd)
    | Back(cmd: Cmd)

  /** A panic of the parser, or a value and the text that is left. */
  datatype Outcome<T> = Syntax | Ok(value: T, rest: string)

  // ---------------------------------------------------------------- tokens

  predicate IsSpace(c: char) {
    c == ' ' || c == '\t' || c == '\r' || c == '\n' || c == '\U{0B}'
  }

  predicate IsSymbol(c: char) {
    c == '<' || c == '|' || c == '>' || c == '&' || c == ';' || c == '(' || c == ')'
  }

  predicate IsWordChar(c: char) {
    !IsSpace(c) && !IsSymbol(c)
  }

  datatype Token = End | Sym(c: char) | Into | Word(w: string)

  function Skip(t: string): (r: string)
    ensures |r| <= |t| && (r == [] || !IsSpace(r[0]))
  {
    if t != [] && IsSpace(t[0]) then Skip(t[1..]) else t
  }

  function WordLen(t: string): (n: nat)
    ensures n <= |t| && (forall i | 0 <= i < n :: IsWordChar(t[i])) && (n < |t| ==> !IsWordChar(t[n]))
  {
    if t != [] && IsWordChar(t[0]) then 1 + WordLen(t[1..]) else 0
  }

  /** gettoken on text without leading space: the token and what is left, without leading space. */
  function Token1(t: string): (r: (Token, string))
    requires t == [] || !IsSpace(t[0])
    ensures |r.1| <= |t| && (r.1 == [] || !IsSpace(r.1[0]))
    ensures t != [] ==> |r.1| < |t| && r.0 != End
    ensures r.0.Word? ==> |r.0.w| > 0 && forall c | c in r.0.w :: IsWordChar(c)
  {
    if t == [] then (End, [])
    else if t[0] == '>' && |t| > 1 && t[1] == '>' then (Into, Skip(t[2..]))
    else if IsSymbol(t[0]) then (Sym(t[0]), Skip(t[1..]))
    else (Word(t[..WordLen(t)]), Skip(t[WordLen(t)..]))
  }

  function GetToken(t: string): (r: (Token, string))
    ensures |r.1| <= |t| && (r.1 == [] || !IsSpace(r.1[0]))
    ensures Skip(t) != [] ==> |r.1| < |t| && r.0 != End
    ensures r.0.Word? ==> |r.0.w| > 0 && forall c | c in r.0.w :: IsWordChar(c)
  {
    Token1(Skip(t))
  }

  /** peek: the next character that is not a space is one of `toks`. */
  predicate Peek(t: string, toks: string) {
    Skip(t) != [] && Skip(t)[0] in toks
  }

  // ---------------------------------------------------------------- parsing

  /** The redirections wrap the command, the first one innermost. */
  function Wrap(c: Cmd, rs: seq<(Redirection, string)>): (c': Cmd)
    ensures Good(c) && Redirections(rs) ==> Good(c')
    decreases |rs|
  {
    if rs == [] then c else Wrap(Redir(c, rs[0].1, rs[0].0), rs[1..])
  }

  predicate Redirections(rs: seq<(Redirection, string)>) {
    forall r | r in rs :: IsWord(r.1)
  }

  predicate IsWord(w: string) {
    |w| > 0 && forall c | c in w :: IsWordChar(c)
  }

  /** parseredirs: the redirections in the order in which they wrap the command. */
  function ParseRedirs(t: string, rs: seq<(Redirection, string)>): (r: Outcome<seq<(Redirection, string)>>)
    requires Redirections(rs)
    ensures r.Ok? ==> |r.rest| <= |t| && r.rest == Skip(r.rest) && Redirections(r.value)
    decreases |t|
  {
    if !Peek(t, "<>") then Ok(rs, Skip(t))
    else
      var (tok, t1) := GetToken(t);
      var (file, t2) := GetToken(t1);
      if !file.Word? then Syntax
      else ParseRedirs(t2, rs + [(if tok == Sym('<') then In else if tok == Sym('>') then Out else Append, file.w)])
  }

  /** The loop of parseexec. */
  function ParseArgs(t: string, argv: seq<string>, rs: seq<(Redirection, string)>): (r: Outcome<Cmd>)
    requires Redirections(rs) && |argv| < MAXARGS && forall w | w in argv :: IsWord(w)
    ensures r.Ok? ==> |r.rest| <= |t| && r.rest == Skip(r.rest) && Good(r.value)
    decreases |t|
  {
    if Peek(t, "|)&;") then Ok(Wrap(Exec(argv), rs), Skip(t))
    else
      var (tok, t1) := GetToken(t);
      if tok == End then Ok(Wrap(Exec(argv), rs), t1)
      else if !tok.Word? then Syntax
      else if |argv| + 1 >= MAXARGS then Syntax
      else
        match ParseRedirs(t1, rs)
        case Syntax => Syntax
        case Ok(rs', t2) => ParseArgs(t2, argv + [tok.w], rs')
  }

  function ParseExec(t: string): (r: Outcome<Cmd>)
    ensures r.Ok? ==> |r.rest| <= |t| && r.rest == Skip(r.rest) && Good(r.value)
    decreases |t|, 1
  {
    if Peek(t, "(") then ParseBlock(t)
    else
      match ParseRedirs(t, [])
      case Syntax => Syntax
      case Ok(rs, t1) => ParseArgs(t1, [], rs)
  }

  function ParseBlock(t: string): (r: Outcome<Cmd>)
    requires Peek(t, "(")
    ensures r.Ok? ==> |r.rest| <= |t| && r.rest == Skip(r.rest) && Good(r.value)
    decreases |t|, 0
  {
    match ParseLine(GetToken(t).1)
    case Syntax => Syntax
    case Ok(c, t1) =>
      if !Peek(t1, ")") then Syntax
      else
        match ParseRedirs(GetToken(t1).1, [])
        case Syntax => Syntax
        case Ok(rs, t2) => Ok(Wrap(c, rs), t2)
  }

  function ParsePipe(t: string): (r: Outcome<Cmd>)
    ensures r.Ok? ==> |r.rest| <= |t| && r.rest == Skip(r.rest) && Good(r.value)
    decreases |t|, 2
  {
    match ParseExec(t)
    case Syntax => Syntax
    case Ok(c, t1) =>
      if !Peek(t1, "|") then Ok(c, Skip(t1))
      else
        match ParsePipe(GetToken(t1).1)
        case Syntax => Syntax
        case Ok(d, t2) => Ok(Pipe(c, d), t2)
  }

  /** The loop of parseline over `&`. */
  function Backs(c: Cmd, t: string): (r: (Cmd, string))
    requires Good(c)
    ensures |r.1| <= |t| && r.1 == Skip(r.1) && Good(r.0)
    decreases |t|
  {
    if Peek(t, "&") then Backs(Back(c), GetToken(t).1) else (c, Skip(t))
  }

  function ParseLine(t: string): (r: Outcome<Cmd>)
    ensures r.Ok? ==> |r.rest| <= |t| && r.rest == Skip(r.rest) && Good(r.value)
    decreases |t|, 3
  {
    match ParsePipe(t)
    case Syntax => Syntax
    case Ok(c, t1) =>
      var (d, t2) := Backs(c, t1);
      if !Peek(t2, ";") then Ok(d, Skip(t2))
      else
        match ParseLine(GetToken(t2).1)
        case Syntax => Syntax
        case Ok(e, t3) => Ok(List(d, e), t3)
  }

  /** parsecmd: the whole text or a syntax error. */
  function ParseCmd(t: string): (r: Outcome<Cmd>)
    ensures r.Ok? ==> r.rest == [] && Good(r.value)
  {
    match ParseLine(t)
    case Syntax => Syntax
    case Ok(c, t1) => if Skip(t1) == [] then Ok(c, []) else Syntax
  }

  // ---------------------------------------------------------------- command trees

  /** The trees the parser can build: proper words, and at most nine of them per command. */
  predicate Good(c: Cmd) {
    match c
    case Exec(argv) => |argv| < MAXARGS && forall w | w in argv :: IsWord(w)
    case Redir(d, file, _) => Good(d) && IsWord(file)
    case Pipe(l, r) => Good(l) && Good(r)
    case List(l, r) => Good(l) && Good(r)
    case Back(d) => Good(d)
  }

  function PrintWords(ws: seq<string>): (t: string) {
    if ws == [] then "" else if |ws| == 1 then ws[0] else ws[0] + " " + PrintWords(ws[1..])
  }

  function PrintForm(f: Redirection): (t: string) {
    match f
    case In => "<"
    case Out => ">"
    case Append => ">>"
  }

  function Print(c: Cmd): (t: string) {
    match c
    case Exec(argv) => PrintWords(argv)
    case Redir(d, file, f) => "(" + Print(d) + ")" + PrintForm(f) + file
    case Pipe(l, r) => "(" + Print(l) + ")|(" + Print(r) + ")"
    case List(l, r) => "(" + Print(l) + ");(" + Print(r) + ")"
    case Back(d) => "(" + Print(d) + ")&"
  }
}
