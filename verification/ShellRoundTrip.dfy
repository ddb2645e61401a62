/** Parsing a printed command tree gives the tree back. */
module ShellRoundTrip {
  import opened ShellGrammar

  /** What may follow a printed command: the end, or the parenthesis that closes it. */
  predicate Stops(rest: string) {
    rest == "" || rest[0] == ')'
  }

  lemma SkipNone(t: string)
    requires t == "" || !IsSpace(t[0])
    ensures Skip(t) == t
  {
  }

  // ---------------------------------------------------------------- words

  lemma {:induction false} WordLenOf(w: string, rest: string)
    requires forall c | c in w :: IsWordChar(c)
    requires rest == "" || !IsWordChar(rest[0])
    ensures WordLen(w + rest) == |w|
    decreases |w|
  {
    if w == "" {
      assert w + rest == rest;
    } else {
      assert (w + rest)[1..] == w[1..] + rest;
      assert (w + rest)[0] == w[0] && w[0] in w;
      WordLenOf(w[1..], rest);
    }
  }

  lemma WordToken(w: string, rest: string)
    requires IsWord(w) && (rest == "" || !IsWordChar(rest[0]))
    ensures Skip(w + rest) == w + rest && GetToken(w + rest) == (Word(w), Skip(rest))
  {
    var t := w + rest;
    assert t[0] == w[0] && w[0] in w;
    SkipNone(t);
    WordLenOf(w, rest);
    assert t[..|w|] == w && t[|w|..] == rest;
  }

  /** Printed words do not begin with a space, and only with '(' if they are none. */
  lemma WordsStart(ws: seq<string>, rest: string)
    requires Stops(rest) && forall w | w in ws :: IsWord(w)
    ensures var t := PrintWords(ws) + rest;
            && Skip(t) == t && !Peek(t, "<>") && !Peek(t, "(")
            && (ws != [] ==> t != "" && IsWordChar(t[0]))
            && (ws == [] ==> t == rest)
  {
    var t := PrintWords(ws) + rest;
    if ws != [] {
      assert ws[0] in ws;
      assert t[0] == ws[0][0] && ws[0][0] in ws[0];
    }
    SkipNone(t);
  }

  lemma ArgsWord(t: string, argv: seq<string>, w: string, t1: string)
    requires (forall v | v in argv :: IsWord(v)) && |argv| + 1 < MAXARGS
    requires !Peek(t, "|)&;") && GetToken(t) == (Word(w), t1) && ParseRedirs(t1, []) == Ok([], t1)
    ensures IsWord(w) && ParseArgs(t, argv, []) == ParseArgs(t1, argv + [w], [])
  {
  }

  lemma ArgsEnd(argv: seq<string>, rest: string)
    requires (forall v | v in argv :: IsWord(v)) && |argv| < MAXARGS && Stops(rest)
    ensures ParseArgs(rest, argv, []) == Ok(Exec(argv), rest)
  {
    SkipNone(rest);
  }

  /** Printed words are the first word, a space if there are more, and the rest. */
  lemma {:induction false} WordsSplit(ws: seq<string>, rest: string)
    requires ws != []
    ensures PrintWords(ws) + rest == ws[0] + (if |ws| == 1 then rest else " " + (PrintWords(ws[1..]) + rest))
    ensures |ws| == 1 ==> PrintWords(ws[1..]) + rest == rest
  {
    if |ws| == 1 {
      assert ws[1..] == [];
      assert "" + rest == rest;
    } else {
      Regroup(ws[0], " ", PrintWords(ws[1..]), rest);
    }
  }

  lemma Regroup(a: string, b: string, c: string, d: string)
    ensures a + b + c + d == a + (b + (c + d))
  {
  }

  lemma MoveWord(argv: seq<string>, ws: seq<string>)
    requires ws != [] && (forall w | w in ws :: IsWord(w)) && (forall w | w in argv :: IsWord(w))
    ensures argv + ws == argv + [ws[0]] + ws[1..]
    ensures forall w | w in argv + [ws[0]] :: IsWord(w)
    ensures forall w | w in ws[1..] :: IsWord(w)
  {
    assert ws[0] in ws;
  }

  lemma SkipSpace(t: string)
    requires Skip(t) == t
    ensures Skip(" " + t) == t
  {
    assert (" " + t)[1..] == t;
  }

  /** The text of words behind the first, and the first token. */
  lemma FirstWord(ws: seq<string>, rest: string)
    requires ws != [] && Stops(rest) && forall w | w in ws :: IsWord(w)
    ensures GetToken(PrintWords(ws) + rest) == (Word(ws[0]), PrintWords(ws[1..]) + rest)
  {
    var t1 := PrintWords(ws[1..]) + rest;
    WordsStart(ws[1..], rest);
    WordsSplit(ws, rest);
    assert ws[0] in ws;
    if |ws| == 1 {
      SkipNone(rest);
      WordToken(ws[0], rest);
    } else {
      SkipSpace(t1);
      WordToken(ws[0], " " + t1);
    }
  }

  lemma ArgsFirst(t: string, ws: seq<string>, argv: seq<string>, rest: string)
    requires ws != [] && Stops(rest) && (forall w | w in ws :: IsWord(w)) && (forall w | w in argv :: IsWord(w))
    requires |argv| + 1 < MAXARGS && t == PrintWords(ws) + rest
    ensures IsWord(ws[0]) && ParseArgs(t, argv, []) == ParseArgs(PrintWords(ws[1..]) + rest, argv + [ws[0]], [])
  {
    var t1 := PrintWords(ws[1..]) + rest;
    FirstWord(ws, rest);
    WordsStart(ws, rest);
    WordsStart(ws[1..], rest);
    RedirsNone(t1);
    ArgsWord(t, argv, ws[0], t1);
  }

  lemma {:induction false} ArgsRoundTrip(t: string, ws: seq<string>, argv: seq<string>, rest: string)
    requires Stops(rest) && (forall w | w in ws :: IsWord(w)) && (forall w | w in argv :: IsWord(w))
    requires |argv| + |ws| < MAXARGS && t == PrintWords(ws) + rest
    ensures ParseArgs(t, argv, []) == Ok(Exec(argv + ws), rest)
    decreases |ws|
  {
    if ws == [] {
      assert argv + ws == argv && t == rest;
      ArgsEnd(argv, rest);
    } else {
      var t1 := PrintWords(ws[1..]) + rest;
      MoveWord(argv, ws);
      ArgsFirst(t, ws, argv, rest);
      ArgsRoundTrip(t1, ws[1..], argv + [ws[0]], rest);
    }
  }

  // ---------------------------------------------------------------- blocks

  /** A printed command does not begin with a space. */
  lemma PrintStart(c: Cmd, rest: string)
    requires Good(c) && Stops(rest)
    ensures Skip(Print(c) + rest) == Print(c) + rest
  {
    if c.Exec? {
      WordsStart(c.argv, rest);
    } else {
      assert (Print(c) + rest)[0] == '(';
      SkipNone(Print(c) + rest);
    }
  }

  lemma SymToken(c: char, t: string)
    requires IsSymbol(c) && c != '>'
    ensures Skip([c] + t) == [c] + t && GetToken([c] + t) == (Sym(c), Skip(t))
  {
    assert ([c] + t)[1..] == t;
  }

  lemma BlockStep(t: string, c: Cmd, t1: string, rs: seq<(Redirection, string)>, t2: string)
    requires Peek(t, "(") && ParseLine(GetToken(t).1) == Ok(c, t1)
    requires Peek(t1, ")") && ParseRedirs(GetToken(t1).1, []) == Ok(rs, t2)
    ensures ParseExec(t) == Ok(Wrap(c, rs), t2)
  {
  }

  /** A parenthesised command, and the redirections that follow it. */
  lemma BlockRoundTrip(t: string, d: Cmd, tail: string, rs: seq<(Redirection, string)>, t2: string)
    requires Good(d) && ParseLine(Print(d) + (")" + tail)) == Ok(d, ")" + tail)
    requires t == "(" + Print(d) + ")" + tail && Skip(tail) == tail && ParseRedirs(tail, []) == Ok(rs, t2)
    ensures ParseExec(t) == Ok(Wrap(d, rs), t2)
  {
    var inner := Print(d) + (")" + tail);
    assert t == "(" + inner;
    SymToken('(', inner);
    PrintStart(d, ")" + tail);
    SymToken(')', tail);
    BlockStep(t, d, ")" + tail, rs, t2);
  }

  lemma RedirsNone(t: string)
    requires Skip(t) == t && !Peek(t, "<>")
    ensures ParseRedirs(t, []) == Ok([], t)
  {
  }

  lemma RedirsOne(t: string, f: Redirection, file: string, t1: string, rest: string)
    requires Peek(t, "<>") && GetToken(t).1 == t1 && GetToken(t1) == (Word(file), rest)
    requires GetToken(t).0 == (match f case In => Sym('<') case Out => Sym('>') case Append => Into)
    requires Skip(rest) == rest && !Peek(rest, "<>")
    ensures IsWord(file) && ParseRedirs(t, []) == Ok([(f, file)], rest)
  {
    assert [] + [(f, file)] == [(f, file)];
    assert ParseRedirs(rest, [(f, file)]) == Ok([(f, file)], rest);
  }

  lemma FormToken(f: Redirection, t1: string)
    requires t1 != "" && IsWordChar(t1[0])
    ensures var t := PrintForm(f) + t1;
            && Skip(t) == t && Peek(t, "<>")
            && GetToken(t) == (match f case In => Sym('<') case Out => Sym('>') case Append => Into, t1)
  {
    SkipNone(t1);
    var t := PrintForm(f) + t1;
    match f
    case In => assert t[1..] == t1;
    case Out => assert t[1..] == t1;
    case Append => assert t[2..] == t1;
  }

  lemma RedirRoundTrip(f: Redirection, file: string, rest: string)
    requires IsWord(file) && Stops(rest)
    ensures var t := PrintForm(f) + file + rest; Skip(t) == t && ParseRedirs(t, []) == Ok([(f, file)], rest)
  {
    var t := PrintForm(f) + file + rest;
    var t1 := file + rest;
    assert t == PrintForm(f) + t1;
    WordToken(file, rest);
    StopsPeeks(rest);
    assert file[0] in file && t1[0] == file[0];
    FormToken(f, t1);
    RedirsOne(t, f, file, t1, rest);
  }

  // ---------------------------------------------------------------- whole commands

  lemma StopsPeeks(rest: string)
    requires Stops(rest)
    ensures Skip(rest) == rest && !Peek(rest, "|") && !Peek(rest, "&") && !Peek(rest, ";") && !Peek(rest, "<>")
  {
    SkipNone(rest);
  }

  lemma PipeEnd(t: string, c: Cmd, t1: string)
    requires ParseExec(t) == Ok(c, t1) && Skip(t1) == t1 && !Peek(t1, "|")
    ensures ParsePipe(t) == Ok(c, t1)
  {
  }

  lemma PipeStep(t: string, c: Cmd, t1: string, d: Cmd, t2: string)
    requires ParseExec(t) == Ok(c, t1) && Peek(t1, "|") && ParsePipe(GetToken(t1).1) == Ok(d, t2)
    ensures ParsePipe(t) == Ok(Pipe(c, d), t2)
  {
  }

  lemma LineEnd(t: string, c: Cmd, t1: string)
    requires ParsePipe(t) == Ok(c, t1) && Skip(t1) == t1 && !Peek(t1, "&") && !Peek(t1, ";")
    ensures ParseLine(t) == Ok(c, t1)
  {
  }

  lemma LineBack(t: string, c: Cmd, t1: string, t2: string)
    requires ParsePipe(t) == Ok(c, t1) && Peek(t1, "&") && GetToken(t1).1 == t2
    requires Skip(t2) == t2 && !Peek(t2, "&") && !Peek(t2, ";")
    ensures ParseLine(t) == Ok(Back(c), t2)
  {
    assert Good(c);
    assert Backs(Back(c), t2) == (Back(c), t2);
    assert Backs(c, t1) == (Back(c), t2);
  }

  lemma LineList(t: string, c: Cmd, t1: string, d: Cmd, t2: string)
    requires ParsePipe(t) == Ok(c, t1) && Skip(t1) == t1 && !Peek(t1, "&") && Peek(t1, ";")
    requires ParseLine(GetToken(t1).1) == Ok(d, t2)
    ensures ParseLine(t) == Ok(List(c, d), t2)
  {
    assert Backs(c, t1) == (c, t1);
  }

  /** A symbol after a block that does not continue it. */
  lemma AfterBlock(t: string, d: Cmd, c: char, more: string)
    requires Good(d) && ParseLine(Print(d) + (")" + ([c] + more))) == Ok(d, ")" + ([c] + more))
    requires c in "|&;" && t == "(" + Print(d) + ")" + ([c] + more)
    ensures ParseExec(t) == Ok(d, [c] + more)
  {
    SymToken(c, more);
    RedirsNone([c] + more);
    BlockRoundTrip(t, d, [c] + more, [], [c] + more);
  }

  lemma BlockAlone(d: Cmd, rest: string)
    requires Good(d) && Stops(rest) && ParseLine(Print(d) + (")" + rest)) == Ok(d, ")" + rest)
    ensures ParsePipe("(" + Print(d) + ")" + rest) == Ok(d, rest)
  {
    var t := "(" + Print(d) + ")" + rest;
    StopsPeeks(rest);
    RedirsNone(rest);
    BlockRoundTrip(t, d, rest, [], rest);
    PipeEnd(t, d, rest);
  }

  /** parseline gives back any printed tree, and stops where the print ended. */
  lemma {:induction false} LineRoundTrip(c: Cmd, rest: string)
    requires Good(c) && Stops(rest)
    ensures ParseLine(Print(c) + rest) == Ok(c, rest)
    decreases c
  {
    var t := Print(c) + rest;
    match c
    case Exec(argv) => ExecRoundTrip(argv, rest);
    case Redir(d, file, f) =>
      LineRoundTrip(d, ")" + (PrintForm(f) + file + rest));
      FormRoundTrip(d, file, f, rest);
    case Back(d) =>
      LineRoundTrip(d, ")" + ("&" + rest));
      BackRoundTrip(d, rest);
    case Pipe(l, r) =>
      var right := "(" + Print(r) + ")" + rest;
      LineRoundTrip(r, ")" + rest);
      LineRoundTrip(l, ")" + ("|" + right));
      PipeRoundTrip(l, r, rest);
    case List(l, r) =>
      var right := "(" + Print(r) + ")" + rest;
      LineRoundTrip(r, ")" + rest);
      LineRoundTrip(l, ")" + (";" + right));
      ListRoundTrip(l, r, rest);
  }

  lemma ExecRoundTrip(argv: seq<string>, rest: string)
    requires Good(Exec(argv)) && Stops(rest)
    ensures ParseLine(PrintWords(argv) + rest) == Ok(Exec(argv), rest)
  {
    var t := PrintWords(argv) + rest;
    WordsStart(argv, rest);
    ArgsRoundTrip(t, argv, [], rest);
    assert [] + argv == argv;
    RedirsNone(t);
    assert ParseExec(t) == Ok(Exec(argv), rest);
    StopsPeeks(rest);
    PipeEnd(t, Exec(argv), rest);
    LineEnd(t, Exec(argv), rest);
  }

  lemma FormRoundTrip(d: Cmd, file: string, f: Redirection, rest: string)
    requires Good(d) && IsWord(file) && Stops(rest)
    requires var tail := PrintForm(f) + file + rest; ParseLine(Print(d) + (")" + tail)) == Ok(d, ")" + tail)
    ensures ParseLine(Print(Redir(d, file, f)) + rest) == Ok(Redir(d, file, f), rest)
  {
    var tail := PrintForm(f) + file + rest;
    var t := Print(Redir(d, file, f)) + rest;
    assert t == "(" + Print(d) + ")" + tail;
    RedirRoundTrip(f, file, rest);
    BlockRoundTrip(t, d, tail, [(f, file)], rest);
    assert Wrap(d, [(f, file)]) == Redir(d, file, f);
    StopsPeeks(rest);
    PipeEnd(t, Redir(d, file, f), rest);
    LineEnd(t, Redir(d, file, f), rest);
  }

  lemma BackRoundTrip(d: Cmd, rest: string)
    requires Good(d) && Stops(rest) && ParseLine(Print(d) + (")" + ("&" + rest))) == Ok(d, ")" + ("&" + rest))
    ensures ParseLine(Print(Back(d)) + rest) == Ok(Back(d), rest)
  {
    var t := Print(Back(d)) + rest;
    assert t == "(" + Print(d) + ")" + ("&" + rest);
    AfterBlock(t, d, '&', rest);
    SymToken('&', rest);
    StopsPeeks(rest);
    PipeEnd(t, d, "&" + rest);
    LineBack(t, d, "&" + rest, rest);
  }

  lemma PairText(l: string, c: char, r: string, rest: string)
    ensures "(" + l + (")" + [c] + "(") + r + ")" + rest == "(" + l + ")" + ([c] + ("(" + r + ")" + rest))
    ensures ")" + ['|'] + "(" == ")|(" && ")" + [';'] + "(" == ");("
  {
  }

  lemma PipeRoundTrip(l: Cmd, r: Cmd, rest: string)
    requires Good(l) && Good(r) && Stops(rest) && ParseLine(Print(r) + (")" + rest)) == Ok(r, ")" + rest)
    requires var tail := "|" + ("(" + Print(r) + ")" + rest); ParseLine(Print(l) + (")" + tail)) == Ok(l, ")" + tail)
    ensures ParseLine(Print(Pipe(l, r)) + rest) == Ok(Pipe(l, r), rest)
  {
    var right := "(" + Print(r) + ")" + rest;
    var t := Print(Pipe(l, r)) + rest;
    BlockAlone(r, rest);
    PairText(Print(l), '|', Print(r), rest);
    AfterBlock(t, l, '|', right);
    SymToken('|', right);
    SkipNone(right);
    PipeStep(t, l, "|" + right, r, rest);
    StopsPeeks(rest);
    LineEnd(t, Pipe(l, r), rest);
  }

  lemma ListRoundTrip(l: Cmd, r: Cmd, rest: string)
    requires Good(l) && Good(r) && Stops(rest) && ParseLine(Print(r) + (")" + rest)) == Ok(r, ")" + rest)
    requires var tail := ";" + ("(" + Print(r) + ")" + rest); ParseLine(Print(l) + (")" + tail)) == Ok(l, ")" + tail)
    ensures ParseLine(Print(List(l, r)) + rest) == Ok(List(l, r), rest)
  {
    var right := "(" + Print(r) + ")" + rest;
    var t := Print(List(l, r)) + rest;
    BlockAlone(r, rest);
    StopsPeeks(rest);
    LineEnd(right, r, rest);
    PairText(Print(l), ';', Print(r), rest);
    AfterBlock(t, l, ';', right);
    SymToken(';', right);
    SkipNone(right);
    PipeEnd(t, l, ";" + right);
    LineList(t, l, ";" + right, r, rest);
  }

  /** parsecmd of a printed tree is the tree. */
  lemma RoundTrip(c: Cmd)
    requires Good(c)
    ensures ParseCmd(Print(c)) == Ok(c, [])
  {
    assert Print(c) + "" == Print(c);
    LineRoundTrip(c, "");
  }

  /** The trees that some text parses to are exactly the good ones. */
  lemma ParsesToGood(c: Cmd)
    ensures Good(c) <==> exists t :: ParseCmd(t) == Ok(c, [])
  {
    if Good(c) { RoundTrip(c); }
  }

  /** Printing what was parsed and parsing that changes nothing. */
  lemma ParsePrintParse(t: string)
    ensures ParseCmd(t).Ok? ==> ParseCmd(Print(ParseCmd(t).value)) == ParseCmd(t)
  {
    if ParseCmd(t).Ok? { RoundTrip(ParseCmd(t).value); }
  }
}
