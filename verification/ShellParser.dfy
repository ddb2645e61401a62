/** The parser of user/sh.c with its moving cursor, proved against ShellGrammar. */
module ShellParser {
  import opened Options
  import opened ShellGrammar

  /** A word in the text: where it begins and where it ends. */
  type Span = (nat, nat)

  /** struct cmd and its kin: trees whose words are pairs of pointers into the text. */
  datatype Node =
    | ExecNode(argv: seq<Span>)
    | RedirNode(sub: Node, file: Span, form: Redirection)
    | PipeNode(left: Node, right: Node)
    | ListNode(left: Node, right: Node)
    | BackNode(sub: Node)

  /** The span is a whole word of the text: no longer one begins there. */
  predicate WordAt(s: string, w: Span) {
    && w.0 < w.1 <= |s| && (forall i | w.0 <= i < w.1 :: IsWordChar(s[i]))
    && (w.1 < |s| ==> !IsWordChar(s[w.1]))
  }

  function Text(s: string, w: Span): (t: string)
    requires WordAt(s, w)
    ensures IsWord(t)
  {
    s[w.0..w.1]
  }

  predicate Proper(s: string, n: Node) {
    match n
    case ExecNode(argv) => forall w | w in argv :: WordAt(s, w)
    case RedirNode(m, file, _) => Proper(s, m) && WordAt(s, file)
    case PipeNode(l, r) => Proper(s, l) && Proper(s, r)
    case ListNode(l, r) => Proper(s, l) && Proper(s, r)
    case BackNode(m) => Proper(s, m)
  }

  function Texts(s: string, argv: seq<Span>): (ws: seq<string>)
    requires forall w | w in argv :: WordAt(s, w)
    ensures |ws| == |argv| && forall w | w in ws :: IsWord(w)
  {
    seq(|argv|, i requires 0 <= i < |argv| => Text(s, argv[i]))
  }

  predicate FilesAt(s: string, rs: seq<(Redirection, Span)>) {
    forall r | r in rs :: WordAt(s, r.1)
  }

  function Files(s: string, rs: seq<(Redirection, Span)>): (fs: seq<(Redirection, string)>)
    requires FilesAt(s, rs)
    ensures |fs| == |rs| && Redirections(fs)
  {
    seq(|rs|, i requires 0 <= i < |rs| => (rs[i].0, Text(s, rs[i].1)))
  }

  /** The command tree that a node stands for. */
  function Value(s: string, n: Node): (c: Cmd)
    requires Proper(s, n)
  {
    match n
    case ExecNode(argv) => Exec(Texts(s, argv))
    case RedirNode(m, file, form) => Redir(Value(s, m), Text(s, file), form)
    case PipeNode(l, r) => Pipe(Value(s, l), Value(s, r))
    case ListNode(l, r) => List(Value(s, l), Value(s, r))
    case BackNode(m) => Back(Value(s, m))
  }

  /** redircmd, for each redirection in turn. */
  function WrapNode(n: Node, rs: seq<(Redirection, Span)>): (m: Node)
    decreases |rs|
  {
    if rs == [] then n else WrapNode(RedirNode(n, rs[0].1, rs[0].0), rs[1..])
  }

  lemma {:induction false} WrapValue(s: string, n: Node, rs: seq<(Redirection, Span)>)
    requires Proper(s, n) && FilesAt(s, rs)
    ensures Proper(s, WrapNode(n, rs)) && Value(s, WrapNode(n, rs)) == Wrap(Value(s, n), Files(s, rs))
    decreases |rs|
  {
    if rs != [] {
      assert rs[0] in rs;
      assert Files(s, rs)[1..] == Files(s, rs[1..]);
      WrapValue(s, RedirNode(n, rs[0].1, rs[0].0), rs[1..]);
    }
  }

  lemma MoreFiles(s: string, rs: seq<(Redirection, Span)>, r: (Redirection, Span))
    requires FilesAt(s, rs) && WordAt(s, r.1)
    ensures FilesAt(s, rs + [r]) && Files(s, rs + [r]) == Files(s, rs) + [(r.0, Text(s, r.1))]
  {
  }

  lemma MoreTexts(s: string, argv: seq<Span>, w: Span)
    requires (forall v | v in argv :: WordAt(s, v)) && WordAt(s, w)
    ensures (forall v | v in argv + [w] :: WordAt(s, v)) && Texts(s, argv + [w]) == Texts(s, argv) + [Text(s, w)]
  {
  }

  /** A panic of the parser is None. */
  class Parser {
    const s: string
    var pos: nat

    /** The text that is left. */
    ghost function Left(): (t: string)
      reads this
      requires pos <= |s|
    {
      s[pos..]
    }

    constructor (s: string)
      ensures this.s == s && pos == 0
    {
      this.s := s;
      pos := 0;
    }

    /** The loop over white space in gettoken and peek. */
    method SkipSpaces()
      requires pos <= |s|
      modifies this
      ensures old(pos) <= pos <= |s| && Left() == Skip(old(Left()))
    {
      while pos < |s| && IsSpace(s[pos])
        invariant old(pos) <= pos <= |s| && Skip(Left()) == Skip(old(Left()))
      {
        DropOne(s, pos);
        pos := pos + 1;
      }
    }

    /** The loop over a word in gettoken. */
    method SkipWord() returns (w: string)
      requires pos <= |s|
      modifies this
      ensures old(pos) <= pos <= |s| && w == s[old(pos)..pos] && (forall i | old(pos) <= i < pos :: IsWordChar(s[i]))
      ensures pos < |s| ==> !IsWordChar(s[pos])
      ensures w == old(Left())[..WordLen(old(Left()))] && Left() == old(Left())[WordLen(old(Left()))..]
    {
      ghost var t := Left();
      var q := pos;
      while pos < |s| && IsWordChar(s[pos])
        invariant q <= pos <= |s| && WordLen(t) == pos - q + WordLen(Left()) && forall i | q <= i < pos :: IsWordChar(s[i])
      {
        DropOne(s, pos);
        pos := pos + 1;
      }
      w := s[q..pos];
      Slices(s, q, pos);
    }

    /** gettoken, with the span of the token. */
    method Gettoken() returns (tok: Token, at: Span)
      requires pos <= |s|
      modifies this
      ensures tok.Word? ==> WordAt(s, at) && tok.w == Text(s, at)
      ensures old(pos) <= pos <= |s| && (tok, Left()) == GetToken(old(Left()))
      ensures Skip(old(Left())) != [] ==> pos > old(pos)
    {
      SkipSpaces();
      ghost var t := Left();
      var q := pos;
      if pos == |s| {
        tok := End;
      } else if s[pos] == '>' && pos + 1 < |s| && s[pos + 1] == '>' {
        tok := Into;
        pos := pos + 2;
        assert Left() == t[2..];
      } else if IsSymbol(s[pos]) {
        tok := Sym(s[pos]);
        pos := pos + 1;
        assert Left() == t[1..];
      } else {
        var w := SkipWord();
        tok := Word(w);
      }
      at := (q, pos);
      SkipSpaces();
    }

    /** peek */
    method PeekAt(toks: string) returns (b: bool)
      requires pos <= |s|
      modifies this
      ensures old(pos) <= pos <= |s| && Left() == Skip(old(Left())) && b == Peek(old(Left()), toks)
    {
      SkipSpaces();
      b := pos < |s| && s[pos] in toks;
    }

    /** parseredirs, with the redirections around the command so far. */
    method Parseredirs(rs: seq<(Redirection, Span)>) returns (r: Option<seq<(Redirection, Span)>>)
      requires pos <= |s| && FilesAt(s, rs)
      modifies this
      ensures old(pos) <= pos <= |s|
      ensures r.Some? ==> FilesAt(s, r.value) && ParseRedirs(old(Left()), Files(s, rs)) == Ok(Files(s, r.value), Left())
      ensures r.None? ==> ParseRedirs(old(Left()), Files(s, rs)) == Syntax
    {
      var all := rs;
      ghost var t := Left();
      var more := PeekAt("<>");
      SkipTwice(t);
      RedirsSkip(t, Files(s, rs));
      while more
        invariant old(pos) <= pos <= |s| && FilesAt(s, all) && Left() == Skip(Left())
        invariant ParseRedirs(t, Files(s, rs)) == ParseRedirs(Left(), Files(s, all))
        invariant more == Peek(Left(), "<>")
        decreases |s| - pos
      {
        RedirsStep(Left(), Files(s, all));
        var tok, _ := Gettoken();
        var file, at := Gettoken();
        if !file.Word? {
          return None;
        }
        var form := if tok == Sym('<') then In else if tok == Sym('>') then Out else Append;
        MoreFiles(s, all, (form, at));
        all := all + [(form, at)];
        ghost var t2 := Left();
        more := PeekAt("<>");
        SkipTwice(t2);
        RedirsSkip(t2, Files(s, all));
      }
      return Some(all);
    }

    /** parseexec */
    method Parseexec() returns (r: Option<Node>)
      requires pos <= |s|
      modifies this
      ensures old(pos) <= pos <= |s|
      ensures r.Some? ==> Proper(s, r.value) && ParseExec(old(Left())) == Ok(Value(s, r.value), Left())
      ensures r.None? ==> ParseExec(old(Left())) == Syntax
      decreases |s| - pos, 1
    {
      ghost var t := Left();
      var block := PeekAt("(");
      SkipTwice(t);
      ExecUnfold(t);
      if block {
        r := Parseblock();
        return;
      }
      assert Files(s, []) == [];
      var redirs := Parseredirs([]);
      if redirs.None? {
        return None;
      }
      r := ParseWords(redirs.value);
    }

    /** The loop of parseexec. */
    method ParseWords(redirs: seq<(Redirection, Span)>) returns (r: Option<Node>)
      requires pos <= |s| && FilesAt(s, redirs)
      modifies this
      ensures old(pos) <= pos <= |s|
      ensures r.Some? ==> Proper(s, r.value) && ParseArgs(old(Left()), [], Files(s, redirs)) == Ok(Value(s, r.value), Left())
      ensures r.None? ==> ParseArgs(old(Left()), [], Files(s, redirs)) == Syntax
    {
      ghost var t := Left();
      var argv: seq<Span>, rs := [], redirs;
      assert Texts(s, argv) == [];
      var stop := PeekAt("|)&;");
      SkipTwice(t);
      ArgsSkip(t, [], Files(s, rs));
      while !stop
        invariant old(pos) <= pos <= |s| && FilesAt(s, rs) && |argv| < MAXARGS && (forall w | w in argv :: WordAt(s, w))
        invariant Left() == Skip(Left()) && stop == Peek(Left(), "|)&;")
        invariant ParseArgs(t, [], Files(s, redirs)) == ParseArgs(Left(), Texts(s, argv), Files(s, rs))
        decreases |s| - pos
      {
        ArgsStep(Left(), Texts(s, argv), Files(s, rs));
        var tok, at := Gettoken();
        if tok == End {
          WrapValue(s, ExecNode(argv), rs);
          return Some(WrapNode(ExecNode(argv), rs));
        }
        if !tok.Word? {
          return None;
        }
        if |argv| + 1 >= MAXARGS {
          return None;
        }
        var more := Parseredirs(rs);
        if more.None? {
          return None;
        }
        MoreTexts(s, argv, at);
        argv := argv + [at];
        rs := more.value;
        ghost var t2 := Left();
        stop := PeekAt("|)&;");
        SkipTwice(t2);
        ArgsSkip(t2, Texts(s, argv), Files(s, rs));
      }
      ArgsStep(Left(), Texts(s, argv), Files(s, rs));
      WrapValue(s, ExecNode(argv), rs);
      return Some(WrapNode(ExecNode(argv), rs));
    }

    /** parseblock */
    method Parseblock() returns (r: Option<Node>)
      requires pos <= |s| && Peek(Left(), "(")
      modifies this
      ensures old(pos) <= pos <= |s|
      ensures r.Some? ==> Proper(s, r.value) && ParseBlock(old(Left())) == Ok(Value(s, r.value), Left())
      ensures r.None? ==> ParseBlock(old(Left())) == Syntax
      decreases |s| - pos, 0
    {
      ghost var t := Left();
      var open := PeekAt("(");
      SkipTwice(t);
      var _, _ := Gettoken();
      var c := Parseline();
      if c.None? {
        return None;
      }
      ghost var t1 := Left();
      var close := PeekAt(")");
      SkipTwice(t1);
      if !close {
        return None;
      }
      var _, _ := Gettoken();
      assert Files(s, []) == [];
      var rs := Parseredirs([]);
      if rs.None? {
        return None;
      }
      WrapValue(s, c.value, rs.value);
      return Some(WrapNode(c.value, rs.value));
    }

    /** parsepipe */
    method Parsepipe() returns (r: Option<Node>)
      requires pos <= |s|
      modifies this
      ensures old(pos) <= pos <= |s|
      ensures r.Some? ==> Proper(s, r.value) && ParsePipe(old(Left())) == Ok(Value(s, r.value), Left())
      ensures r.None? ==> ParsePipe(old(Left())) == Syntax
      decreases |s| - pos, 2
    {
      r := Parseexec();
      if r.None? {
        return;
      }
      ghost var t1 := Left();
      var bar := PeekAt("|");
      SkipTwice(t1);
      if bar {
        var _, _ := Gettoken();
        var right := Parsepipe();
        r := if right.None? then None else Some(PipeNode(r.value, right.value));
      }
    }

    /** parseline */
    method Parseline() returns (r: Option<Node>)
      requires pos <= |s|
      modifies this
      ensures old(pos) <= pos <= |s|
      ensures r.Some? ==> Proper(s, r.value) && ParseLine(old(Left())) == Ok(Value(s, r.value), Left())
      ensures r.None? ==> ParseLine(old(Left())) == Syntax
      decreases |s| - pos, 3
    {
      r := Parsepipe();
      if r.None? {
        return;
      }
      var c := ParseBacks(r.value);
      ghost var t2 := Left();
      var semi := PeekAt(";");
      SkipTwice(t2);
      r := Some(c);
      if semi {
        var _, _ := Gettoken();
        var right := Parseline();
        r := if right.None? then None else Some(ListNode(c, right.value));
      }
    }

    /** The loop of parseline over `&`. */
    method ParseBacks(n: Node) returns (m: Node)
      requires pos <= |s| && Proper(s, n) && Good(Value(s, n))
      modifies this
      ensures old(pos) <= pos <= |s| && Proper(s, m) && Backs(Value(s, n), old(Left())) == (Value(s, m), Left())
    {
      m := n;
      ghost var t := Left();
      var more := PeekAt("&");
      SkipTwice(t);
      while more
        invariant old(pos) <= pos <= |s| && Proper(s, m) && Good(Value(s, m)) && Left() == Skip(Left()) && more == Peek(Left(), "&")
        invariant Backs(Value(s, n), t) == Backs(Value(s, m), Left())
        decreases |s| - pos
      {
        var _, _ := Gettoken();
        m := BackNode(m);
        ghost var t1 := Left();
        more := PeekAt("&");
        SkipTwice(t1);
      }
    }

    /** parsecmd: the tree of the whole text, or a syntax error.  `buf` is the text as a C
        string; afterwards every word of the tree is a C string of its own in it. */
    method Parsecmd(buf: array<char>) returns (r: Option<Node>)
      requires pos == 0 && buf[..] == s + ['\0'] && '\0' !in s
      modifies this, buf
      ensures r.Some? ==> Proper(s, r.value) && ParseCmd(s) == Ok(Value(s, r.value), []) && pos == |s|
      ensures r.Some? ==> forall w | w in Spans(r.value) :: WordAt(s, w) && CString(buf[..], w.0) == Text(s, w)
      ensures r.None? ==> ParseCmd(s) == Syntax
    {
      assert Left() == s;
      r := Parseline();
      if r.None? {
        return;
      }
      var _ := PeekAt("");
      if pos != |s| {
        assert Left() != [];
        return None;
      }
      ProperSpans(s, r.value);
      Nulterminate(r.value, buf);
      forall w | w in Spans(r.value) ensures CString(buf[..], w.0) == Text(s, w) {
        ReadBack(s, buf[..], r.value, w);
      }
    }
  }

  /** Space is skipped once; looking again changes nothing. */
  lemma SkipTwice(t: string)
    ensures Skip(Skip(t)) == Skip(t) && GetToken(Skip(t)) == GetToken(t)
    ensures forall toks :: Peek(Skip(t), toks) == Peek(t, toks)
  {
  }

  lemma DropOne(s: string, pos: nat)
    requires pos < |s|
    ensures s[pos..][1..] == s[pos + 1..]
    ensures Skip(s[pos..]) == if IsSpace(s[pos]) then Skip(s[pos + 1..]) else s[pos..]
    ensures WordLen(s[pos..]) == if IsWordChar(s[pos]) then 1 + WordLen(s[pos + 1..]) else 0
  {
    assert s[pos..][1..] == s[pos + 1..];
  }

  lemma Slices(s: string, q: nat, p: nat)
    requires q <= p <= |s|
    ensures s[q..][..p - q] == s[q..p] && s[q..][p - q..] == s[p..]
  {
  }

  lemma RedirsSkip(t: string, rs: seq<(Redirection, string)>)
    requires Redirections(rs)
    ensures ParseRedirs(Skip(t), rs) == ParseRedirs(t, rs)
  {
    SkipTwice(t);
  }

  lemma RedirsStep(t: string, rs: seq<(Redirection, string)>)
    requires Redirections(rs) && Peek(t, "<>")
    ensures var (tok, t1) := GetToken(t);
            var (file, t2) := GetToken(t1);
            if !file.Word? then ParseRedirs(t, rs) == Syntax
            else
              var rs' := rs + [(if tok == Sym('<') then In else if tok == Sym('>') then Out else Append, file.w)];
              Redirections(rs') && ParseRedirs(t, rs) == ParseRedirs(t2, rs')
  {
  }

  /** parseexec, after it has looked for a parenthesis. */
  lemma ExecUnfold(t: string)
    ensures Peek(t, "(") ==> Peek(Skip(t), "(") && ParseExec(t) == ParseBlock(Skip(t))
    ensures !Peek(t, "(") ==>
              var r := ParseRedirs(Skip(t), []);
              ParseExec(t) == if r.Ok? then ParseArgs(r.rest, [], r.value) else Syntax
  {
    SkipTwice(t);
    RedirsSkip(t, []);
  }

  lemma ArgsSkip(t: string, argv: seq<string>, rs: seq<(Redirection, string)>)
    requires Redirections(rs) && |argv| < MAXARGS && forall w | w in argv :: IsWord(w)
    ensures ParseArgs(Skip(t), argv, rs) == ParseArgs(t, argv, rs)
  {
    SkipTwice(t);
  }

  /** A turn of the loop of parseexec, in the grammar. */
  lemma ArgsStep(t: string, argv: seq<string>, rs: seq<(Redirection, string)>)
    requires Redirections(rs) && |argv| < MAXARGS && forall w | w in argv :: IsWord(w)
    ensures Peek(t, "|)&;") ==> ParseArgs(t, argv, rs) == Ok(Wrap(Exec(argv), rs), Skip(t))
    ensures !Peek(t, "|)&;") ==>
              var (tok, t1) := GetToken(t);
              ParseArgs(t, argv, rs)
              == if tok == End then Ok(Wrap(Exec(argv), rs), t1)
                 else if !tok.Word? || |argv| + 1 >= MAXARGS then Syntax
                 else
                   var r := ParseRedirs(t1, rs);
                   if r.Ok? then ParseArgs(r.rest, argv + [tok.w], r.value) else Syntax
  {
  }

  // ---------------------------------------------------------------- terminating the words

  /** The words of a tree, file names included. */
  function Spans(n: Node): (ws: set<Span>) {
    match n
    case ExecNode(argv) => set w | w in argv
    case RedirNode(m, file, _) => Spans(m) + {file}
    case PipeNode(l, r) => Spans(l) + Spans(r)
    case ListNode(l, r) => Spans(l) + Spans(r)
    case BackNode(m) => Spans(m)
  }

  lemma ProperSpans(s: string, n: Node)
    requires Proper(s, n)
    ensures forall w | w in Spans(n) :: WordAt(s, w)
  {
  }

  /** The C string that begins at q. */
  function CString(b: string, q: nat): (t: string)
    decreases |b| - q
  {
    if q < |b| && b[q] != '\0' then [b[q]] + CString(b, q + 1) else ""
  }

  predicate EndsAt(ws: set<Span>, i: nat) {
    exists w | w in ws :: w.1 == i
  }

  /** The buffer with a NUL behind each of the words. */
  ghost predicate Cut(b: string, b': string, ws: set<Span>) {
    |b'| == |b| && forall i | 0 <= i < |b| :: b'[i] == if EndsAt(ws, i) then '\0' else b[i]
  }

  /** nulterminate */
  method Nulterminate(n: Node, buf: array<char>)
    requires forall w | w in Spans(n) :: w.1 < buf.Length
    modifies buf
    ensures Cut(old(buf[..]), buf[..], Spans(n))
    decreases n
  {
    match n {
      case ExecNode(argv) =>
        ghost var done: set<Span> := {};
        for i := 0 to |argv|
          invariant done == (set w | w in argv[..i]) && Cut(old(buf[..]), buf[..], done)
        {
          assert argv[i] in Spans(n);
          assert argv[..i + 1] == argv[..i] + [argv[i]];
          CutOne(old(buf[..]), buf[..], done, argv[i]);
          buf[argv[i].1] := '\0';
          done := done + {argv[i]};
        }
        assert argv[..|argv|] == argv;
      case RedirNode(m, file, _) =>
        Nulterminate(m, buf);
        CutOne(old(buf[..]), buf[..], Spans(m), file);
        buf[file.1] := '\0';
      case PipeNode(l, r) =>
        Nulterminate(l, buf);
        ghost var b := buf[..];
        Nulterminate(r, buf);
        CutBoth(old(buf[..]), b, buf[..], Spans(l), Spans(r));
      case ListNode(l, r) =>
        Nulterminate(l, buf);
        ghost var b := buf[..];
        Nulterminate(r, buf);
        CutBoth(old(buf[..]), b, buf[..], Spans(l), Spans(r));
      case BackNode(m) =>
        Nulterminate(m, buf);
    }
  }

  lemma CutOne(b: string, b1: string, ws: set<Span>, w: Span)
    requires Cut(b, b1, ws) && w.1 < |b|
    ensures Cut(b, b1[w.1 := '\0'], ws + {w})
  {
    forall i | 0 <= i < |b| ensures EndsAt(ws + {w}, i) <==> EndsAt(ws, i) || i == w.1 {
      if EndsAt(ws, i) {
        var v :| v in ws && v.1 == i;
        assert v in ws + {w};
      }
      if i == w.1 { assert w in ws + {w}; }
    }
  }

  lemma CutBoth(b: string, b1: string, b2: string, ws: set<Span>, vs: set<Span>)
    requires Cut(b, b1, ws) && Cut(b1, b2, vs)
    ensures Cut(b, b2, ws + vs)
  {
    forall i | 0 <= i < |b| ensures EndsAt(ws + vs, i) <==> EndsAt(ws, i) || EndsAt(vs, i) {
      if EndsAt(ws, i) {
        var v :| v in ws && v.1 == i;
        assert v in ws + vs;
      }
      if EndsAt(vs, i) {
        var v :| v in vs && v.1 == i;
        assert v in ws + vs;
      }
    }
  }

  /** No NUL falls inside a word, and one falls right behind it. */
  lemma ReadBack(s: string, b: string, n: Node, w: Span)
    requires Proper(s, n) && w in Spans(n) && Cut(s + ['\0'], b, Spans(n)) && '\0' !in s
    ensures WordAt(s, w) && CString(b, w.0) == Text(s, w)
  {
    ProperSpans(s, n);
    assert EndsAt(Spans(n), w.1);
    forall i | w.0 <= i < w.1 ensures b[i] == s[i] != '\0' {
      assert WordAt(s, w) && IsWordChar(s[i]);
      assert forall v | v in Spans(n) :: v.1 != i;
    }
    ReadsWord(s, b, w.0, w.1);
  }

  lemma {:induction false} ReadsWord(s: string, b: string, q: nat, e: nat)
    requires q <= e <= |s| < |b| && b[e] == '\0' && forall i | q <= i < e :: b[i] == s[i] != '\0'
    ensures CString(b, q) == s[q..e]
    decreases e - q
  {
    if q < e {
      ReadsWord(s, b, q + 1, e);
      assert s[q..e] == [s[q]] + s[q + 1..e];
    }
  }
}
