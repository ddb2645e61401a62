/** How the operators of user/sh.c bind: printed with parentheses only where the grammar needs
    them, every command tree is what the parser makes of the text. */
module ShellPrecedence {
  import opened ShellGrammar
  import opened ShellRoundTrip

  // ---------------------------------------------------------------- the printer

  const EXEC: nat := 0
  const PIPE: nat := 1
  const BACK: nat := 2
  const LINE: nat := 3

  /** How loosely the outermost operator binds: redirections bind tightest, then `|`, then
      `&`, then `;`. */
  function Level(c: Cmd): (n: nat) {
    match c
    case Exec(_) => EXEC
    case Redir(_, _, _) => EXEC
    case Pipe(_, _) => PIPE
    case Back(_) => BACK
    case List(_, _) => LINE
  }

  /** The command where an operator of the level may stand: `|` and `;` group to the right,
      `&` and the redirections to the left. */
  function Text(c: Cmd, level: nat): (t: string)
    decreases c, Level(c) > level
  {
    if Level(c) > level then "(" + Text(c, Level(c)) + ")"
    else
      match c
      case Exec(argv) => PrintWords(argv)
      case Redir(d, file, f) => Text(d, EXEC) + (PrintForm(f) + file)
      case Pipe(l, r) => Text(l, EXEC) + "|" + Text(r, PIPE)
      case Back(d) => Text(d, BACK) + "&"
      case List(l, r) => Text(l, BACK) + ";" + Text(r, LINE)
  }

  // ---------------------------------------------------------------- redirections

  /** What a command redirects. */
  function Core(c: Cmd): (k: Cmd)
    ensures !k.Redir? && (if c.Redir? then k < c else k == c) && (Good(c) ==> Good(k))
  {
    if c.Redir? then Core(c.cmd) else c
  }

  /** Its redirections, the innermost first. */
  function Forms(c: Cmd): (rs: seq<(Redirection, string)>)
    ensures Good(c) ==> Redirections(rs)
  {
    if c.Redir? then Forms(c.cmd) + [(c.form, c.file)] else []
  }

  lemma {:induction false} WrapMore(c: Cmd, rs: seq<(Redirection, string)>, r: (Redirection, string))
    ensures Wrap(c, rs + [r]) == Redir(Wrap(c, rs), r.1, r.0)
    decreases |rs|
  {
    if rs == [] {
      assert rs + [r] == [r] && [r][1..] == [];
    } else {
      assert (rs + [r])[1..] == rs[1..] + [r];
      WrapMore(Redir(c, rs[0].1, rs[0].0), rs[1..], r);
    }
  }

  lemma {:induction false} WrapForms(c: Cmd)
    ensures Wrap(Core(c), Forms(c)) == c
  {
    if c.Redir? {
      WrapForms(c.cmd);
      WrapMore(Core(c), Forms(c.cmd), (c.form, c.file));
    }
  }

  function FormsText(rs: seq<(Redirection, string)>): (t: string) {
    if rs == [] then "" else PrintForm(rs[0].0) + rs[0].1 + FormsText(rs[1..])
  }

  lemma {:induction false} FormsMore(rs: seq<(Redirection, string)>, r: (Redirection, string))
    ensures FormsText(rs + [r]) == FormsText(rs) + (PrintForm(r.0) + r.1)
    decreases |rs|
  {
    if rs == [] {
      assert rs + [r] == [r] && [r][1..] == [];
      assert PrintForm(r.0) + r.1 + "" == PrintForm(r.0) + r.1;
      assert "" + (PrintForm(r.0) + r.1) == PrintForm(r.0) + r.1;
    } else {
      assert (rs + [r])[0] == rs[0] && (rs + [r])[1..] == rs[1..] + [r];
      FormsMore(rs[1..], r);
      Assoc(PrintForm(rs[0].0) + rs[0].1, FormsText(rs[1..]), PrintForm(r.0) + r.1);
    }
  }

  lemma Assoc(a: string, b: string, c: string)
    ensures a + b + c == a + (b + c)
  {
  }

  /** What the redirections of c follow. */
  function Head(c: Cmd): (t: string) {
    if Core(c).Exec? then PrintWords(Core(c).argv) else "(" + Text(Core(c), LINE) + ")"
  }

  lemma HighLevel(c: Cmd)
    ensures Text(c, Level(c)) == Text(c, LINE)
  {
  }

  lemma {:induction false} ExecText(c: Cmd)
    ensures Text(c, EXEC) == Head(c) + FormsText(Forms(c))
  {
    if c.Redir? {
      var form := PrintForm(c.form) + c.file;
      ExecText(c.cmd);
      FormsMore(Forms(c.cmd), (c.form, c.file));
      Assoc(Head(c), FormsText(Forms(c.cmd)), form);
      assert Text(c, EXEC) == Text(c.cmd, EXEC) + form;
    } else {
      HighLevel(c);
      assert Head(c) + "" == Head(c);
    }
  }

  /** What may follow a command in a pipeline. */
  predicate Ends(rest: string) {
    rest == "" || rest[0] in "|&;)"
  }

  /** What may follow words. */
  predicate Follows(tail: string) {
    tail == "" || IsSymbol(tail[0])
  }

  lemma OneForm(f: Redirection, file: string, rest: string, acc: seq<(Redirection, string)>)
    requires IsWord(file) && Redirections(acc) && Follows(rest)
    ensures Redirections(acc + [(f, file)])
    ensures ParseRedirs(PrintForm(f) + file + rest, acc) == ParseRedirs(rest, acc + [(f, file)])
  {
    var t := PrintForm(f) + file + rest;
    var t1 := file + rest;
    assert t == PrintForm(f) + t1;
    WordToken(file, rest);
    SkipNone(rest);
    assert file[0] in file && t1[0] == file[0];
    FormToken(f, t1);
  }

  lemma FormsFollow(rs: seq<(Redirection, string)>, rest: string)
    requires Follows(rest)
    ensures Follows(FormsText(rs) + rest) && (rs == [] ==> FormsText(rs) + rest == rest)
    ensures rs != [] ==> FormsText(rs) + rest == PrintForm(rs[0].0) + rs[0].1 + (FormsText(rs[1..]) + rest)
  {
    if rs != [] {
      Assoc(PrintForm(rs[0].0) + rs[0].1, FormsText(rs[1..]), rest);
      assert (FormsText(rs) + rest)[0] == PrintForm(rs[0].0)[0];
    }
  }

  /** parseredirs reads the redirections one after the other. */
  lemma {:induction false} FormsParse(rs: seq<(Redirection, string)>, rest: string, acc: seq<(Redirection, string)>)
    requires Redirections(rs) && Redirections(acc) && Ends(rest)
    ensures ParseRedirs(FormsText(rs) + rest, acc) == Ok(acc + rs, rest)
    decreases |rs|
  {
    FormsFollow(rs, rest);
    if rs == [] {
      FormsDone(rest, acc, rs);
    } else {
      MoveForm(rs, acc);
      FormsFollow(rs[1..], rest);
      OneForm(rs[0].0, rs[0].1, FormsText(rs[1..]) + rest, acc);
      FormsParse(rs[1..], rest, acc + [rs[0]]);
    }
  }

  lemma FormsDone(rest: string, acc: seq<(Redirection, string)>, none: seq<(Redirection, string)>)
    requires Redirections(acc) && Ends(rest) && none == []
    ensures ParseRedirs(rest, acc) == Ok(acc + none, rest)
  {
    assert acc + none == acc;
    SkipNone(rest);
  }

  lemma MoveForm(rs: seq<(Redirection, string)>, acc: seq<(Redirection, string)>)
    requires rs != [] && Redirections(rs) && Redirections(acc)
    ensures IsWord(rs[0].1) && Redirections(rs[1..]) && [(rs[0].0, rs[0].1)] == [rs[0]] && acc + rs == acc + [rs[0]] + rs[1..]
  {
    assert rs[0] in rs;
  }

  // ---------------------------------------------------------------- simple commands

  lemma WordsThen(ws: seq<string>, tail: string)
    requires Follows(tail) && forall w | w in ws :: IsWord(w)
    ensures var t := PrintWords(ws) + tail;
            && Skip(t) == t && (ws == [] ==> t == tail)
            && (ws != [] ==> t != "" && IsWordChar(t[0]))
  {
    var t := PrintWords(ws) + tail;
    if ws != [] {
      assert ws[0] in ws;
      assert t[0] == ws[0][0] && ws[0][0] in ws[0];
    }
    SkipNone(t);
  }

  lemma NextWord(ws: seq<string>, tail: string)
    requires ws != [] && Follows(tail) && forall w | w in ws :: IsWord(w)
    ensures GetToken(PrintWords(ws) + tail) == (Word(ws[0]), PrintWords(ws[1..]) + tail)
  {
    var t1 := PrintWords(ws[1..]) + tail;
    WordsThen(ws[1..], tail);
    WordsSplit(ws, tail);
    assert ws[0] in ws;
    if |ws| == 1 {
      SkipNone(tail);
      WordToken(ws[0], tail);
    } else {
      SkipSpace(t1);
      WordToken(ws[0], " " + t1);
    }
  }

  lemma ArgsGo(t: string, argv: seq<string>, w: string, t1: string, rs: seq<(Redirection, string)>, t2: string)
    requires (forall v | v in argv :: IsWord(v)) && |argv| + 1 < MAXARGS
    requires !Peek(t, "|)&;") && GetToken(t) == (Word(w), t1) && ParseRedirs(t1, []) == Ok(rs, t2)
    ensures IsWord(w) && ParseArgs(t, argv, []) == ParseArgs(t2, argv + [w], rs)
  {
  }

  lemma ArgsStop(argv: seq<string>, rs: seq<(Redirection, string)>, rest: string)
    requires (forall v | v in argv :: IsWord(v)) && |argv| < MAXARGS && Redirections(rs) && Ends(rest)
    ensures ParseArgs(rest, argv, rs) == Ok(Wrap(Exec(argv), rs), rest)
  {
    SkipNone(rest);
  }

  /** The loop of parseexec over words that redirections follow. */
  lemma {:induction false} ArgsParse(ws: seq<string>, argv: seq<string>, rs: seq<(Redirection, string)>, rest: string)
    requires ws != [] && (forall w | w in ws :: IsWord(w)) && (forall w | w in argv :: IsWord(w))
    requires |argv| + |ws| < MAXARGS && Redirections(rs) && Ends(rest)
    ensures ParseArgs(PrintWords(ws) + (FormsText(rs) + rest), argv, []) == Ok(Wrap(Exec(argv + ws), rs), rest)
    decreases |ws|
  {
    var tail := FormsText(rs) + rest;
    FormsFollow(rs, rest);
    WordsThen(ws, tail);
    NextWord(ws, tail);
    MoveWord(argv, ws);
    var t1 := PrintWords(ws[1..]) + tail;
    WordsThen(ws[1..], tail);
    if |ws| == 1 {
      FormsParse(rs, rest, []);
      assert [] + rs == rs && argv + ws == argv + [ws[0]];
      ArgsGo(PrintWords(ws) + tail, argv, ws[0], t1, rs, rest);
      ArgsStop(argv + ws, rs, rest);
    } else {
      RedirsNone(t1);
      ArgsGo(PrintWords(ws) + tail, argv, ws[0], t1, [], t1);
      ArgsParse(ws[1..], argv + [ws[0]], rs, rest);
    }
  }

  lemma SimpleParse(argv: seq<string>, rs: seq<(Redirection, string)>, rest: string)
    requires Good(Exec(argv)) && Redirections(rs) && Ends(rest)
    ensures ParseExec(PrintWords(argv) + (FormsText(rs) + rest)) == Ok(Wrap(Exec(argv), rs), rest)
  {
    var tail := FormsText(rs) + rest;
    FormsFollow(rs, rest);
    WordsThen(argv, tail);
    if argv == [] {
      NoWords(rs, rest);
    } else {
      RedirsNone(PrintWords(argv) + tail);
      ArgsParse(argv, [], rs, rest);
      assert [] + argv == argv;
      ExecGo(PrintWords(argv) + tail, [], PrintWords(argv) + tail);
    }
  }

  lemma NoWords(rs: seq<(Redirection, string)>, rest: string)
    requires Redirections(rs) && Ends(rest)
    ensures ParseExec(FormsText(rs) + rest) == Ok(Wrap(Exec([]), rs), rest)
  {
    FormsParse(rs, rest, []);
    assert [] + rs == rs;
    FormsNoBlock(rs, rest);
    ExecGo(FormsText(rs) + rest, rs, rest);
    ArgsStop([], rs, rest);
  }

  lemma ExecGo(t: string, rs: seq<(Redirection, string)>, t1: string)
    requires !Peek(t, "(") && ParseRedirs(t, []) == Ok(rs, t1)
    ensures ParseExec(t) == ParseArgs(t1, [], rs)
  {
  }

  lemma FormsNoBlock(rs: seq<(Redirection, string)>, rest: string)
    requires Ends(rest)
    ensures !Peek(FormsText(rs) + rest, "(")
  {
    FormsFollow(rs, rest);
    SkipNone(FormsText(rs) + rest);
    if rs != [] {
      assert (FormsText(rs) + rest)[0] == PrintForm(rs[0].0)[0];
    }
  }

  // ---------------------------------------------------------------- blocks

  /** A command does not begin with a space. */
  lemma {:induction false} TextHead(c: Cmd, level: nat)
    requires Good(c)
    ensures Text(c, level) == "" || !IsSpace(Text(c, level)[0])
    decreases c
  {
    if Level(c) <= level {
      match c
      case Exec(argv) => WordsHead(argv);
      case Redir(d, file, f) => TextHead(d, EXEC);
      case Pipe(l, r) => TextHead(l, EXEC);
      case Back(d) => TextHead(d, BACK);
      case List(l, r) => TextHead(l, BACK);
    }
  }

  lemma WordsHead(ws: seq<string>)
    requires forall w | w in ws :: IsWord(w)
    ensures PrintWords(ws) == "" || !IsSpace(PrintWords(ws)[0])
  {
    if ws != [] {
      assert ws[0] in ws;
      assert PrintWords(ws)[0] == ws[0][0] && ws[0][0] in ws[0];
    }
  }

  lemma TextStart(c: Cmd, level: nat, rest: string)
    requires Good(c) && Follows(rest)
    ensures Skip(Text(c, level) + rest) == Text(c, level) + rest
  {
    TextHead(c, level);
    HeadSkips(Text(c, level), rest);
  }

  lemma HeadSkips(t: string, rest: string)
    requires (t == "" || !IsSpace(t[0])) && Follows(rest)
    ensures Skip(t + rest) == t + rest
  {
    SkipNone(t + rest);
  }

  lemma {:induction false} BlockParse(d: Cmd, rs: seq<(Redirection, string)>, rest: string)
    requires Good(d) && Redirections(rs) && Ends(rest)
    requires var tail := ")" + (FormsText(rs) + rest); ParseLine(Text(d, LINE) + tail) == Ok(d, tail)
    ensures ParseExec("(" + Text(d, LINE) + ")" + (FormsText(rs) + rest)) == Ok(Wrap(d, rs), rest)
  {
    var forms := FormsText(rs) + rest;
    TextStart(d, LINE, ")" + forms);
    FormsFollow(rs, rest);
    SkipNone(forms);
    FormsParse(rs, rest, []);
    assert [] + rs == rs;
    BlockOf(Text(d, LINE), d, forms, rs, rest);
  }

  lemma BlockOf(text: string, d: Cmd, forms: string, rs: seq<(Redirection, string)>, rest: string)
    requires ParseLine(text + (")" + forms)) == Ok(d, ")" + forms) && Skip(text + (")" + forms)) == text + (")" + forms)
    requires Skip(forms) == forms && ParseRedirs(forms, []) == Ok(rs, rest)
    ensures ParseExec("(" + text + ")" + forms) == Ok(Wrap(d, rs), rest)
  {
    var inner := text + (")" + forms);
    var t := "(" + text + ")" + forms;
    assert t == "(" + inner;
    SymToken('(', inner);
    SymToken(')', forms);
    BlockStep(t, d, ")" + forms, rs, rest);
  }

  // ---------------------------------------------------------------- operators

  lemma EndsPeeks(rest: string)
    requires Ends(rest)
    ensures Skip(rest) == rest && (forall c | c in "|&;" :: Peek(rest, [c]) <==> rest != "" && rest[0] == c)
  {
    SkipNone(rest);
  }

  /** c behind n more `&`. */
  function Backed(c: Cmd, n: nat): (d: Cmd)
    ensures Good(c) ==> Good(d)
    decreases n
  {
    if n == 0 then c else Backed(Back(c), n - 1)
  }

  function Amps(n: nat): (t: string) {
    if n == 0 then "" else "&" + Amps(n - 1)
  }

  lemma {:induction false} BackedLast(c: Cmd, n: nat)
    ensures Backed(c, n + 1) == Back(Backed(c, n)) && Amps(n + 1) == Amps(n) + "&"
    decreases n
  {
    if n > 0 {
      BackedLast(Back(c), n - 1);
      Assoc("&", Amps(n - 1), "&");
    }
  }

  /** A command is a pipeline behind some number of `&`. */
  lemma {:induction false} BackText(c: Cmd) returns (d: Cmd, n: nat)
    ensures !d.Back? && c == Backed(d, n) && Text(c, BACK) == Text(d, PIPE) + Amps(n)
    ensures (d == c || d < c) && (Good(c) ==> Good(d))
  {
    if c.Back? {
      d, n := BackText(c.cmd);
      BackedLast(d, n);
      Assoc(Text(d, PIPE), Amps(n), "&");
      n := n + 1;
    } else {
      d, n := c, 0;
      assert Text(c, BACK) + "" == Text(c, BACK);
    }
  }

  /** The loop of parseline over `&`. */
  lemma {:induction false} BacksParse(c: Cmd, n: nat, rest: string)
    requires Good(c) && Ends(rest) && (rest == "" || rest[0] != '&')
    ensures Backs(c, Amps(n) + rest) == (Backed(c, n), rest)
    decreases n
  {
    if n == 0 {
      assert "" + rest == rest;
      EndsPeeks(rest);
    } else {
      var t := Amps(n - 1) + rest;
      assert Amps(n) + rest == "&" + t;
      assert Ends(t);
      SymToken('&', t);
      SkipNone(t);
      BacksParse(Back(c), n - 1, rest);
    }
  }

  lemma LineStop(t: string, c: Cmd, t1: string, d: Cmd, rest: string)
    requires ParsePipe(t) == Ok(c, t1) && Good(c) && Backs(c, t1) == (d, rest) && Skip(rest) == rest && !Peek(rest, ";")
    ensures ParseLine(t) == Ok(d, rest)
  {
  }

  lemma LineMore(t: string, c: Cmd, t1: string, d: Cmd, t2: string, e: Cmd, rest: string)
    requires ParsePipe(t) == Ok(c, t1) && Good(c) && Backs(c, t1) == (d, t2) && Peek(t2, ";")
    requires ParseLine(GetToken(t2).1) == Ok(e, rest)
    ensures ParseLine(t) == Ok(List(d, e), rest)
  {
  }

  // ---------------------------------------------------------------- whole commands

  /** parseexec gives the command back where an operand of `|` may stand. */
  lemma {:induction false} ExecParse(c: Cmd, rest: string)
    requires Good(c) && Ends(rest)
    ensures ParseExec(Text(c, EXEC) + rest) == Ok(c, rest)
    decreases c, 4
  {
    var k, rs := Core(c), Forms(c);
    ExecText(c);
    WrapForms(c);
    Assoc(Head(c), FormsText(rs), rest);
    if k.Exec? {
      SimpleParse(k.argv, rs, rest);
    } else {
      InnerParse(k, ")" + (FormsText(rs) + rest));
      BlockParse(k, rs, rest);
    }
  }

  /** parsepipe. */
  lemma {:induction false} PipeParse(c: Cmd, rest: string)
    requires Good(c) && Ends(rest) && (rest == "" || rest[0] != '|')
    ensures ParsePipe(Text(c, PIPE) + rest) == Ok(c, rest)
    decreases c, 5
  {
    EndsPeeks(rest);
    if c.Pipe? {
      PairParse(c, rest);
    } else {
      assert Text(c, PIPE) == Text(c, EXEC);
      ExecParse(c, rest);
      PipeEnd(Text(c, PIPE) + rest, c, rest);
    }
  }

  lemma {:induction false} PairParse(c: Cmd, rest: string)
    requires c.Pipe? && Good(c) && Ends(rest) && (rest == "" || rest[0] != '|')
    ensures ParsePipe(Text(c, PIPE) + rest) == Ok(c, rest)
    decreases c, 0
  {
    var right := Text(c.right, PIPE) + rest;
    assert Text(c, PIPE) + rest == Text(c.left, EXEC) + ("|" + right);
    PipeParse(c.right, rest);
    ExecParse(c.left, "|" + right);
    TextStart(c.right, PIPE, rest);
    SymToken('|', right);
    PipeStep(Text(c, PIPE) + rest, c.left, "|" + right, c.right, rest);
  }

  /** A block holds a pipeline, `&` or `;`. */
  lemma {:induction false} InnerParse(c: Cmd, rest: string)
    requires !c.Exec? && !c.Redir? && Good(c) && Stops(rest)
    ensures ParseLine(Text(c, LINE) + rest) == Ok(c, rest)
    decreases c, 3
  {
    if c.List? {
      ListParse(c, rest);
    } else if c.Back? {
      BackParse(c, rest);
    } else {
      assert Text(c, LINE) == Text(c, PIPE);
      PairParse(c, rest);
      EndsPeeks(rest);
      LineEnd(Text(c, LINE) + rest, c, rest);
    }
  }

  lemma {:induction false} BackParse(c: Cmd, rest: string)
    requires c.Back? && Good(c) && Stops(rest)
    ensures ParseLine(Text(c, LINE) + rest) == Ok(c, rest)
    decreases c, 1
  {
    var d, n := BackText(c);
    assert Text(c, LINE) == Text(c, BACK);
    Assoc(Text(d, PIPE), Amps(n), rest);
    AmpsEnd(n, rest);
    assert d < c;
    PipeParse(d, Amps(n) + rest);
    BacksParse(d, n, rest);
    EndsPeeks(rest);
    LineStop(Text(c, LINE) + rest, d, Amps(n) + rest, c, rest);
  }

  lemma AmpsEnd(n: nat, rest: string)
    requires Ends(rest) && (rest == "" || rest[0] != '|')
    ensures Ends(Amps(n) + rest) && (Amps(n) + rest == "" || (Amps(n) + rest)[0] != '|')
  {
    if n == 0 { assert "" + rest == rest; }
  }

  lemma {:induction false} ListParse(c: Cmd, rest: string)
    requires c.List? && Good(c) && Stops(rest)
    ensures ParseLine(Text(c, LINE) + rest) == Ok(c, rest)
    decreases c, 2
  {
    var right := Text(c.right, LINE) + rest;
    var d, n := BackText(c.left);
    assert Text(c, LINE) + rest == Text(c.left, BACK) + (";" + right);
    Assoc(Text(d, PIPE), Amps(n), ";" + right);
    AmpsEnd(n, ";" + right);
    assert d < c;
    PipeParse(d, Amps(n) + (";" + right));
    BacksParse(d, n, ";" + right);
    LineParse(c.right, rest);
    TextStart(c.right, LINE, rest);
    SymToken(';', right);
    LineMore(Text(c, LINE) + rest, d, Amps(n) + (";" + right), c.left, ";" + right, c.right, rest);
  }

  /** parseline. */
  lemma {:induction false} LineParse(c: Cmd, rest: string)
    requires Good(c) && Stops(rest)
    ensures ParseLine(Text(c, LINE) + rest) == Ok(c, rest)
    decreases c, 6
  {
    if c.Exec? || c.Redir? {
      assert Text(c, LINE) == Text(c, EXEC);
      ExecParse(c, rest);
      EndsPeeks(rest);
      PipeEnd(Text(c, LINE) + rest, c, rest);
      LineEnd(Text(c, LINE) + rest, c, rest);
    } else {
      InnerParse(c, rest);
    }
  }

  /** Every command tree is what parsecmd makes of its text: this is how `|`, `&`, `;` and the
      redirections bind and group. */
  lemma Precedence(c: Cmd)
    requires Good(c)
    ensures ParseCmd(Text(c, LINE)) == Ok(c, [])
  {
    assert Text(c, LINE) + "" == Text(c, LINE);
    LineParse(c, "");
  }

  /** The first of two redirections is the inner one. */
  lemma {:induction false} TwoRedirections(argv: seq<string>, f: Redirection, x: string, g: Redirection, y: string)
    requires Good(Exec(argv)) && IsWord(x) && IsWord(y)
    ensures ParseCmd(PrintWords(argv) + (PrintForm(f) + x) + (PrintForm(g) + y)) == Ok(Redir(Redir(Exec(argv), x, f), y, g), [])
  {
    var c := Exec(argv);
    assert Text(c, EXEC) == PrintWords(argv);
    assert Text(Redir(c, x, f), EXEC) == PrintWords(argv) + (PrintForm(f) + x);
    Precedence(Redir(Redir(c, x, f), y, g));
  }

  /** `a | b & ; c` is a list of a background pipeline and a command. */
  lemma {:induction false} PipeBackList(a: seq<string>, b: seq<string>, c: seq<string>)
    requires Good(Exec(a)) && Good(Exec(b)) && Good(Exec(c))
    ensures ParseCmd(PrintWords(a) + "|" + PrintWords(b) + "&" + ";" + PrintWords(c)) ==
            Ok(List(Back(Pipe(Exec(a), Exec(b))), Exec(c)), [])
  {
    var l := Pipe(Exec(a), Exec(b));
    PipeOfTwo(Exec(a), Exec(b));
    BackListText(l, Exec(c));
    Precedence(List(Back(l), Exec(c)));
  }

  /** `a & ; b` is a list of a background command and a command. */
  lemma {:induction false} BackList(a: seq<string>, b: seq<string>)
    requires Good(Exec(a)) && Good(Exec(b))
    ensures ParseCmd(PrintWords(a) + "&" + ";" + PrintWords(b)) == Ok(List(Back(Exec(a)), Exec(b)), [])
  {
    assert Text(Exec(a), BACK) == PrintWords(a);
    BackListText(Exec(a), Exec(b));
    Precedence(List(Back(Exec(a)), Exec(b)));
  }

  lemma {:induction false} BackListText(l: Cmd, c: Cmd)
    requires c.Exec?
    ensures Text(List(Back(l), c), LINE) == Text(l, BACK) + "&" + ";" + PrintWords(c.argv)
  {
    assert Text(Back(l), BACK) == Text(l, BACK) + "&";
    assert Text(c, LINE) == PrintWords(c.argv);
  }

  lemma {:induction false} PipeOfTwo(a: Cmd, b: Cmd)
    requires a.Exec? && b.Exec?
    ensures Text(Pipe(a, b), BACK) == PrintWords(a.argv) + "|" + PrintWords(b.argv)
  {
    assert Text(a, EXEC) == PrintWords(a.argv) && Text(b, PIPE) == PrintWords(b.argv);
  }
}
