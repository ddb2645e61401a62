/** The line loop of grep in user/grep.c: reads of any size into a buffer of 1024 bytes, and
    the lines that match. */
module Grep {
  import opened Regex

  const BUFSIZE := 1024

  /** The first newline of t, or |t|. */
  function Newline(t: string): (q: nat)
    ensures q <= |t| && (q < |t| ==> t[q] == '\n') && forall i | 0 <= i < q :: t[i] != '\n'
  {
    if t == "" || t[0] == '\n' then 0 else 1 + Newline(t[1..])
  }

  /** What grep prints of the input: every line that matches, in order, up to the end or to a
      line that does not fit in 1023 bytes with its newline. */
  ghost function Printed(re: string, input: string): (out: string)
    decreases |input|
  {
    var q := Newline(input);
    if q == |input| || q + 1 > BUFSIZE - 1 then ""
    else (if Matches(re, input[..q]) then input[..q + 1] else "") + Printed(re, input[q + 1..])
  }

  /** All complete lines of the input that match. */
  ghost function MatchingLines(re: string, input: string): (out: string)
    decreases |input|
  {
    var q := Newline(input);
    if q == |input| then ""
    else (if Matches(re, input[..q]) then input[..q + 1] else "") + MatchingLines(re, input[q + 1..])
  }

  predicate LinesFit(input: string)
    decreases |input|
  {
    var q := Newline(input);
    q == |input| || (q + 1 <= BUFSIZE - 1 && LinesFit(input[q + 1..]))
  }

  /** If every line fits, all matching lines are printed. */
  lemma {:induction false} PrintsAllLines(re: string, input: string)
    requires LinesFit(input)
    ensures Printed(re, input) == MatchingLines(re, input)
    decreases |input|
  {
    var q := Newline(input);
    if q < |input| { PrintsAllLines(re, input[q + 1..]); }
  }

  lemma NewlineOf(t: string, q: nat)
    requires q < |t| && t[q] == '\n' && forall i | 0 <= i < q :: t[i] != '\n'
    ensures Newline(t) == q
  {
    assert t[Newline(t)] == '\n' || Newline(t) == |t|;
  }

  /** A text whose first 1023 bytes hold no newline prints nothing. */
  lemma NothingPrinted(re: string, t: string, rest: string)
    requires '\n' !in t && (rest == "" || |t| >= BUFSIZE - 1)
    ensures Printed(re, t + rest) == ""
  {
    var q := Newline(t + rest);
    assert forall i | 0 <= i < |t| :: (t + rest)[i] == t[i] && t[i] in t;
  }

  /** One line at the front of a text. */
  lemma LineFirst(re: string, line: string, t: string)
    requires '\n' !in line && |line| + 1 <= BUFSIZE - 1
    ensures Printed(re, line + "\n" + t) == (if Matches(re, line) then line + "\n" else "") + Printed(re, t)
  {
    var all := line + "\n" + t;
    NewlineOf(all, |line|);
    assert all[..|line|] == line && all[..|line| + 1] == line + "\n" && all[|line| + 1..] == t;
  }

  class Reader {
    const buf: array<char>

    constructor ()
      ensures fresh(buf) && buf.Length == BUFSIZE
    {
      buf := new char[BUFSIZE](_ => '\0');
    }

    /** read(fd, buf + m, room): between one byte and all that fits, as `want` says. */
    method Read(input: string, pos: nat, m: nat, want: nat, ghost left: string) returns (n: nat)
      requires buf.Length == BUFSIZE && m < BUFSIZE && pos <= |input| && |left| == m && buf[..][..m] == left
      modifies buf
      ensures n <= |input| - pos && m + n <= BUFSIZE - 1
      ensures n == 0 <==> pos == |input| || m == BUFSIZE - 1
      ensures HasRead(buf[..], left, input, pos, n)
    {
      var room := BUFSIZE - m - 1;
      n := if |input| - pos < room then |input| - pos else room;
      if 0 < want < n {
        n := want;
      }
      for i := 0 to n
        invariant buf[..][..m + i] == left + input[pos..pos + i]
      {
        SliceSnoc(input, pos, pos + i);
        PutSnoc(buf[..], m + i, input[pos + i]);
        SetByte(m + i, input[pos + i]);
      }
    }

    /** `buf[i] = c` */
    method SetByte(i: nat, c: char)
      requires i < buf.Length
      modifies buf
      ensures buf[..] == old(buf[..])[i := c]
    {
      buf[i] := c;
    }

    /** strchr(p, '\n'), for the string that ends at the NUL in buf[m]: the newline, or m. */
    method Strchr(p: nat, ghost m: nat) returns (q: nat)
      requires p <= m < buf.Length && buf[m] == '\0' && '\0' !in buf[..][p..m]
      ensures p <= q <= m && (q < m <==> buf[q] == '\n') && '\n' !in buf[..][p..q]
    {
      q := p;
      ghost var b := buf[..];
      while buf[q] != '\0' && buf[q] != '\n'
        invariant p <= q <= m && '\n' !in b[p..q]
        decreases m - q
      {
        SliceSnoc(b, p, q);
        q := q + 1;
      }
      assert q < m ==> b[p..m][q - p] == b[q];
    }

    /** A turn of the inner loop: the line from p to the newline at q. */
    method TakeLine(re: string, p: nat, q: nat, m: nat, out: string, ghost rest: string) returns (out': string)
      requires p <= q < m <= BUFSIZE - 1 && buf.Length == BUFSIZE && buf[q] == '\n' && '\n' !in buf[..][p..q]
      modifies buf
      ensures buf[..][q + 1..] == old(buf[..])[q + 1..]
      ensures out' + Printed(re, buf[..][q + 1..m] + rest) == out + Printed(re, old(buf[..])[p..m] + rest)
    {
      ghost var b := buf[..];
      var line := buf[..][p..q];
      SplitAt(b, p, q, m, rest);
      LineFirst(re, line, b[q + 1..m] + rest);
      SetByte(q, '\0');
      var yes := Match(re, line);
      out' := out;
      if yes {
        SetByte(q, '\n');
        out' := out' + (line + "\n");
      }
      SameTail(b, buf[..], q, m);
      Assoc(out, if yes then line + "\n" else "", Printed(re, b[q + 1..m] + rest));
    }

    /** The inner loop: the complete lines among the first m bytes.  Returns where the rest begins. */
    method Lines(re: string, m: nat, out: string, ghost rest: string) returns (p: nat, out': string)
      requires buf.Length == BUFSIZE && m <= BUFSIZE - 1 && buf[m] == '\0' && '\0' !in buf[..][0..m]
      modifies buf
      ensures p <= m && '\n' !in buf[..][p..m] && '\0' !in buf[..][p..m]
      ensures out' + Printed(re, buf[..][p..m] + rest) == out + Printed(re, old(buf[..])[0..m] + rest)
    {
      p, out' := 0, out;
      var q := Strchr(p, m);
      while buf[q] == '\n'
        invariant p <= q <= m && buf[m] == '\0' && '\0' !in buf[..][p..m]
        invariant (q < m <==> buf[q] == '\n') && '\n' !in buf[..][p..q]
        invariant out' + Printed(re, buf[..][p..m] + rest) == out + Printed(re, old(buf[..])[0..m] + rest)
        decreases m - p
      {
        ghost var b := buf[..];
        out' := TakeLine(re, p, q, m, out', rest);
        TailFree(b, buf[..], p, q, m);
        p := q + 1;
        q := Strchr(p, m);
      }
    }

    /** memmove(buf, buf + p, m - p) */
    method MoveDown(p: nat, m: nat)
      requires p <= m <= buf.Length
      modifies buf
      ensures buf[..][..m - p] == old(buf[..])[p..m]
    {
      ghost var b := buf[..];
      for i := 0 to m - p
        invariant buf[..][..i] == b[p..p + i]
        invariant forall j | p + i <= j < m :: buf[j] == b[j]
      {
        SliceSnoc(b, p, p + i);
        PutSnoc(buf[..], i, b[p + i]);
        SetByte(i, buf[p + i]);
      }
    }

    /** grep: whatever the sizes of the reads, it prints the matching lines of the input. */
    method Grep(re: string, input: string, sizes: seq<nat>) returns (out: string)
      requires buf.Length == BUFSIZE && '\0' !in input
      modifies buf
      ensures out == Printed(re, input)
    {
      out := "";
      var m: nat, pos: nat, k: nat := 0, 0, 0;
      ghost var left := "";
      var n: nat := Read(input, pos, m, if k < |sizes| then sizes[k] else 0, left);
      assert left + input[0..] == input;
      ghost var total := Printed(re, input);
      while n > 0
        invariant m <= BUFSIZE - 1 && pos <= |input| && n <= |input| - pos && m + n <= BUFSIZE - 1
        invariant n == 0 <==> pos == |input| || m == BUFSIZE - 1
        invariant |left| == m && '\n' !in left && '\0' !in left && HasRead(buf[..], left, input, pos, n)
        invariant Owes(re, out, left, input, pos, total)
        decreases |input| - pos
      {
        m, out, left := Turn(re, input, pos, m, n, out, left, total);
        pos := pos + n;
        k := k + 1;
        n := Read(input, pos, m, if k < |sizes| then sizes[k] else 0, left);
      }
      NothingPrinted(re, left, input[pos..]);
      assert out + Printed(re, left + input[pos..]) == total;
    }

    /** The body of the outer loop, after a read of n bytes behind the m bytes left over. */
    method Turn(re: string, input: string, pos: nat, m: nat, n: nat, out: string, ghost left: string, ghost total: string)
      returns (m': nat, out': string, ghost left': string)
      requires buf.Length == BUFSIZE && pos + n <= |input| && m + n <= BUFSIZE - 1 && |left| == m
      requires HasRead(buf[..], left, input, pos, n) && '\0' !in input && '\0' !in left
      requires Owes(re, out, left, input, pos, total)
      modifies buf
      ensures m' == |left'| <= m + n && '\n' !in left' && '\0' !in left' && buf[..][..m'] == left'
      ensures Owes(re, out', left', input, pos + n, total)
    {
      ghost var rest := input[pos + n..];
      ghost var b := buf[..];
      assert ReadAt(b, left, input, pos, n);
      ReadText(left, input, pos, n);
      SetByte(m + n, '\0');
      assert buf[..][0..m + n] == b[..m + n];
      var p;
      p, out' := Lines(re, m + n, out, rest);
      left' := buf[..][p..m + n];
      MoveDown(p, m + n);
      m' := m + n - p;
    }
  }

  /** The bytes left over and the n bytes read are at the front of the buffer. */
  ghost predicate ReadAt(b: string, left: string, input: string, pos: nat, n: nat) {
    pos + n <= |input| && |left| + n <= |b| && b[..|left| + n] == left + input[pos..pos + n]
  }

  /** ReadAt, kept folded. */
  ghost predicate HasRead(b: string, left: string, input: string, pos: nat, n: nat) {
    forall k | k == n :: ReadAt(b, left, input, pos, k)
  }

  /** After `out`, grep still owes what the bytes left over and the rest of the input give. */
  ghost predicate Owes(re: string, out: string, left: string, input: string, pos: nat, total: string) {
    pos <= |input| && forall t | t == left + input[pos..] :: out + Printed(re, t) == total
  }

  lemma SliceSnoc(t: string, i: nat, j: nat)
    requires i <= j < |t|
    ensures t[i..j + 1] == t[i..j] + [t[j]]
  {
  }

  lemma PutSnoc(t: string, i: nat, c: char)
    requires i < |t|
    ensures t[i := c][..i + 1] == t[..i] + [c]
  {
  }

  lemma ReadText(left: string, input: string, pos: nat, n: nat)
    requires pos + n <= |input| && '\0' !in input && '\0' !in left
    ensures left + input[pos..] == left + input[pos..pos + n] + input[pos + n..]
    ensures '\0' !in left + input[pos..pos + n]
  {
    assert input[pos..] == input[pos..pos + n] + input[pos + n..];
  }

  lemma SameTail(b: string, b': string, q: nat, m: nat)
    requires |b'| == |b| && q < m <= |b| && (b' == b[q := '\0'] || b' == b[q := '\0'][q := '\n'])
    ensures b'[q + 1..] == b[q + 1..] && b'[q + 1..m] == b[q + 1..m]
  {
  }

  lemma TailFree(b: string, b': string, p: nat, q: nat, m: nat)
    requires |b'| == |b| && p <= q < m < |b| && b'[q + 1..] == b[q + 1..] && b[m] == '\0' && '\0' !in b[p..m]
    ensures b'[m] == '\0' && '\0' !in b'[q + 1..m]
  {
    assert b'[m] == b'[q + 1..][m - q - 1];
    assert b'[q + 1..m] == b'[q + 1..][..m - q - 1];
    assert b[q + 1..m] == b[p..m][q + 1 - p..];
  }

  lemma SplitAt(b: string, p: nat, q: nat, m: nat, rest: string)
    requires p <= q < m <= |b| && b[q] == '\n'
    ensures b[p..m] + rest == b[p..q] + "\n" + (b[q + 1..m] + rest)
  {
    assert b[p..m] == b[p..q] + "\n" + b[q + 1..m];
  }

  lemma Assoc(a: string, b: string, c: string)
    ensures a + (b + c) == a + b + c && (b == "" ==> a + (b + c) == a + c)
  {
  }
}
