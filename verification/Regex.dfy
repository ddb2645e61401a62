/** The matcher of user/grep.c for ^ . * $, and what its patterns mean: a pattern is a list of
    items, and it matches where the text splits into pieces that fit the items. */
module Regex {
  /** `$` counts as an end mark only as the last character. */
  datatype Item = One(c: char) | Many(c: char)

  // ---------------------------------------------------------------- meaning

  /** The items of a pattern without its end mark. */
  function Items(re: string): (items: seq<Item>)
    decreases |re|
  {
    if re == "" then []
    else if |re| > 1 && re[1] == '*' then [Many(re[0])] + Items(re[2..])
    else if re == "$" then []
    else [One(re[0])] + Items(re[1..])
  }

  predicate HasEnd(re: string)
    decreases |re|
  {
    if re == "" then false
    else if |re| > 1 && re[1] == '*' then HasEnd(re[2..])
    else if re == "$" then true
    else HasEnd(re[1..])
  }

  predicate Covers(c: char, x: char) {
    c == '.' || c == x
  }

  /** Piece w of the text fits an item. */
  predicate Fits(item: Item, w: string) {
    match item
    case One(c) => |w| == 1 && Covers(c, w[0])
    case Many(c) => forall i | 0 <= i < |w| :: Covers(c, w[i])
  }

  function Flat(ws: seq<string>): (t: string) {
    if ws == [] then "" else ws[0] + Flat(ws[1..])
  }

  /** The pieces fit the items one by one. */
  ghost predicate AllFit(items: seq<Item>, ws: seq<string>) {
    |ws| == |items| && forall i | 0 <= i < |ws| :: Fits(items[i], ws[i])
  }

  /** The text begins with pieces that fit the items, and ends with them if there is an end mark. */
  ghost predicate Splits(items: seq<Item>, toEnd: bool, text: string, ws: seq<string>) {
    AllFit(items, ws) && Flat(ws) <= text && (toEnd ==> Flat(ws) == text)
  }

  ghost predicate Begins(items: seq<Item>, toEnd: bool, text: string) {
    exists ws :: Splits(items, toEnd, text, ws)
  }

  /** The meaning of a whole pattern: somewhere in the text, or at its start after `^`. */
  ghost predicate Matches(re: string, text: string) {
    if re != "" && re[0] == '^' then Begins(Items(re[1..]), HasEnd(re[1..]), text)
    else exists k :: 0 <= k <= |text| && Begins(Items(re), HasEnd(re), text[k..])
  }

  // ---------------------------------------------------------------- the matcher

  /** matchhere */
  predicate MatchHere(re: string, text: string)
    decreases |re|, |text|, 0
  {
    if re == "" then true
    else if |re| > 1 && re[1] == '*' then MatchStar(re[0], re[2..], text)
    else if re == "$" then text == ""
    else text != "" && Covers(re[0], text[0]) && MatchHere(re[1..], text[1..])
  }

  /** matchstar: the rest of the pattern matches after some number of covered characters. */
  predicate MatchStar(c: char, re: string, text: string)
    decreases |re|, |text|, 1
  {
    MatchHere(re, text) || (text != "" && Covers(c, text[0]) && MatchStar(c, re, text[1..]))
  }

  lemma {:induction false} MatchHereSound(re: string, text: string)
    requires MatchHere(re, text)
    ensures Begins(Items(re), HasEnd(re), text)
    decreases |re|, |text|, 0
  {
    if re == "" || re == "$" {
      assert Splits([], HasEnd(re), text, []);
    } else if |re| > 1 && re[1] == '*' {
      MatchStarSound(re[0], re[2..], text);
    } else {
      MatchHereSound(re[1..], text[1..]);
      var ws :| Splits(Items(re[1..]), HasEnd(re[1..]), text[1..], ws);
      AddPiece(One(re[0]), Items(re[1..]), HasEnd(re[1..]), text, 1, ws);
    }
  }

  lemma {:induction false} MatchStarSound(c: char, re: string, text: string)
    requires MatchStar(c, re, text)
    ensures Begins([Many(c)] + Items(re), HasEnd(re), text)
    decreases |re|, |text|, 1
  {
    if MatchHere(re, text) {
      MatchHereSound(re, text);
      var ws :| Splits(Items(re), HasEnd(re), text, ws);
      assert text[0..] == text;
      AddPiece(Many(c), Items(re), HasEnd(re), text, 0, ws);
    } else {
      MatchStarSound(c, re, text[1..]);
      var ws :| Splits([Many(c)] + Items(re), HasEnd(re), text[1..], ws);
      GrowPiece(c, Items(re), HasEnd(re), text, ws);
    }
  }

  /** A fitting piece in front of a split. */
  lemma AddPiece(item: Item, items: seq<Item>, toEnd: bool, text: string, n: nat, ws: seq<string>)
    requires n <= |text| && Fits(item, text[..n]) && Splits(items, toEnd, text[n..], ws)
    ensures Begins([item] + items, toEnd, text)
  {
    var ws' := [text[..n]] + ws;
    assert ws'[1..] == ws;
    assert Flat(ws') == text[..n] + Flat(ws);
    assert text == text[..n] + text[n..];
    assert Splits([item] + items, toEnd, text, ws');
  }

  /** One more covered character for the first piece. */
  lemma GrowPiece(c: char, items: seq<Item>, toEnd: bool, text: string, ws: seq<string>)
    requires text != "" && Covers(c, text[0]) && Splits([Many(c)] + items, toEnd, text[1..], ws)
    ensures Begins([Many(c)] + items, toEnd, text)
  {
    var w := ws[0];
    assert Fits(([Many(c)] + items)[0], w);
    var ws' := [[text[0]] + w] + ws[1..];
    assert ws'[1..] == ws[1..];
    assert Flat(ws') == [text[0]] + Flat(ws);
    assert text == [text[0]] + text[1..];
    assert Splits([Many(c)] + items, toEnd, text, ws');
  }

  lemma {:induction false} MatchHereComplete(re: string, text: string, ws: seq<string>)
    requires Splits(Items(re), HasEnd(re), text, ws)
    ensures MatchHere(re, text)
    decreases |re|, |text|, 0
  {
    if re == "" {
    } else if |re| > 1 && re[1] == '*' {
      MatchStarComplete(re[0], re[2..], text, ws);
    } else if re == "$" {
      assert ws == [];
    } else {
      assert Fits(Items(re)[0], ws[0]);
      DropPiece(One(re[0]), Items(re[1..]), HasEnd(re[1..]), text, ws);
      MatchHereComplete(re[1..], text[1..], ws[1..]);
    }
  }

  lemma {:induction false} MatchStarComplete(c: char, re: string, text: string, ws: seq<string>)
    requires Splits([Many(c)] + Items(re), HasEnd(re), text, ws)
    ensures MatchStar(c, re, text)
    decreases |re|, |text|, 1
  {
    assert Fits(([Many(c)] + Items(re))[0], ws[0]);
    DropPiece(Many(c), Items(re), HasEnd(re), text, ws);
    if ws[0] == "" {
      assert text[0..] == text;
      MatchHereComplete(re, text, ws[1..]);
    } else {
      ShrinkPiece(c, Items(re), HasEnd(re), text, ws);
      MatchStarComplete(c, re, text[1..], [ws[0][1..]] + ws[1..]);
    }
  }

  lemma DropPiece(item: Item, items: seq<Item>, toEnd: bool, text: string, ws: seq<string>)
    requires Splits([item] + items, toEnd, text, ws)
    ensures |ws| >= 1 && ws[0] <= text && Fits(item, ws[0]) && Splits(items, toEnd, text[|ws[0]|..], ws[1..])
  {
    assert Fits(([item] + items)[0], ws[0]);
    forall i | 0 <= i < |ws[1..]| ensures Fits(items[i], ws[1..][i]) {
      assert Fits(([item] + items)[i + 1], ws[i + 1]);
    }
    assert Flat(ws) == ws[0] + Flat(ws[1..]);
    assert ws[0] <= text && text == ws[0] + text[|ws[0]|..];
  }

  lemma ShrinkPiece(c: char, items: seq<Item>, toEnd: bool, text: string, ws: seq<string>)
    requires Splits([Many(c)] + items, toEnd, text, ws) && |ws| >= 1 && ws[0] != ""
    ensures text != "" && Covers(c, text[0])
    ensures Splits([Many(c)] + items, toEnd, text[1..], [ws[0][1..]] + ws[1..])
  {
    assert Fits(([Many(c)] + items)[0], ws[0]);
    var ws' := [ws[0][1..]] + ws[1..];
    assert ws'[1..] == ws[1..];
    assert Flat(ws) == ws[0] + Flat(ws[1..]);
    assert text[0] == Flat(ws)[0];
    assert Flat(ws') == Flat(ws)[1..];
    forall i | 0 <= i < |ws'| ensures Fits(([Many(c)] + items)[i], ws'[i]) {
      assert Fits(([Many(c)] + items)[i], ws[i]);
    }
  }

  /** matchhere accepts exactly the texts that begin as the pattern says. */
  lemma MatchHereCorrect(re: string, text: string)
    ensures MatchHere(re, text) <==> Begins(Items(re), HasEnd(re), text)
  {
    if MatchHere(re, text) {
      MatchHereSound(re, text);
    } else if Begins(Items(re), HasEnd(re), text) {
      var ws :| Splits(Items(re), HasEnd(re), text, ws);
      MatchHereComplete(re, text, ws);
    }
  }

  // ---------------------------------------------------------------- the matcher's loops

  /** matchhere, as the program runs it. */
  method Matchhere(re: string, text: string) returns (b: bool)
    ensures b == MatchHere(re, text)
    ensures b <==> Begins(Items(re), HasEnd(re), text)
    decreases |re|, |text|, 0
  {
    MatchHereCorrect(re, text);
    if re == "" {
      return true;
    }
    if |re| > 1 && re[1] == '*' {
      b := Matchstar(re[0], re[2..], text);
      return;
    }
    if re == "$" {
      return text == "";
    }
    if text != "" && (re[0] == '.' || re[0] == text[0]) {
      b := Matchhere(re[1..], text[1..]);
      return;
    }
    return false;
  }

  /** matchstar, with its moving pointer. */
  method Matchstar(c: char, re: string, text: string) returns (b: bool)
    ensures b == MatchStar(c, re, text)
    decreases |re|, |text|, 1
  {
    var i := 0;
    assert text[0..] == text;
    while true
      invariant 0 <= i <= |text| && MatchStar(c, re, text) == MatchStar(c, re, text[i..])
      decreases |text| - i
    {
      b := Matchhere(re, text[i..]);
      if b {
        return true;
      }
      if i == |text| || !(text[i] == c || c == '.') {
        return false;
      }
      assert text[i..][1..] == text[i + 1..];
      i := i + 1;
    }
  }

  /** match: exactly the texts that the pattern means. */
  method Match(re: string, text: string) returns (b: bool)
    ensures b <==> Matches(re, text)
  {
    if re != "" && re[0] == '^' {
      b := Matchhere(re[1..], text);
      return;
    }
    var i := 0;
    while true
      invariant 0 <= i <= |text| && forall k | 0 <= k < i :: !Begins(Items(re), HasEnd(re), text[k..])
      decreases |text| - i
    {
      b := Matchhere(re, text[i..]);
      if b {
        return true;
      }
      if i == |text| {
        return false;
      }
      i := i + 1;
    }
  }
}
