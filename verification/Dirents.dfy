/** Directory entries as bytes: what readi and writei of one struct dirent mean for the
    sequence of entries that dirlookup, dirlink and sys_unlink work on. */
module Dirents {
  import opened Blocks
  import opened FsModel
  import opened LinkModel

  const DIRSIZ := 14
  const DIRENT := 16

  /** An entry that fits a struct dirent: a name of at most DIRSIZ characters without NUL. */
  predicate Storable(e: Entry) {
    e.inum < 0x1_0000 && |e.name| <= DIRSIZ && forall c | c in e.name :: 0 < c as int < 256
  }

  /** de.name after strncpy: the characters, padded with NUL. */
  function NameByte(name: string, i: nat): (x: byte)
    requires |name| <= DIRSIZ && forall c | c in name :: 0 < c as int < 256
  {
    if i < |name| then assert name[i] in name; name[i] as int else 0
  }

  function Encode(e: Entry): (b: seq<byte>)
    requires Storable(e)
    ensures |b| == DIRENT
  {
    [e.inum % 256, e.inum / 256] + seq(DIRSIZ, i requires 0 <= i < DIRSIZ => NameByte(e.name, i))
  }

  /** The name in a field of bytes: up to the first NUL. */
  function NameOf(b: seq<byte>): (name: string)
    ensures |name| <= |b| && forall c | c in name :: 0 < c as int < 256
  {
    if b == [] || b[0] == 0 then "" else [b[0] as char] + NameOf(b[1..])
  }

  function Decode(b: seq<byte>): (e: Entry)
    requires |b| == DIRENT
    ensures Storable(e)
  {
    var lo: int, hi: int := b[0], b[1];
    Entry(lo + 256 * hi, NameOf(b[2..]))
  }

  lemma {:induction false} NameRoundTrip(name: string, b: seq<byte>)
    requires |name| <= |b| && forall c | c in name :: 0 < c as int < 256
    requires forall i | 0 <= i < |b| :: b[i] == if i < |name| then name[i] as int else 0
    ensures NameOf(b) == name
    decreases |b|
  {
    if name != "" {
      assert name[0] in name && forall c | c in name[1..] :: c in name;
      forall i | 0 <= i < |b| - 1 ensures b[1..][i] == if i < |name| - 1 then name[1..][i] as int else 0 {
        assert b[1..][i] == b[i + 1];
      }
      NameRoundTrip(name[1..], b[1..]);
      assert name == [name[0]] + name[1..];
    }
  }

  /** What was written as an entry reads back as that entry. */
  lemma DirentRoundTrip(e: Entry)
    requires Storable(e)
    ensures Decode(Encode(e)) == e
  {
    var b := Encode(e);
    forall i | 0 <= i < DIRSIZ ensures b[2..][i] == if i < |e.name| then e.name[i] as int else 0 {
      assert b[2..][i] == NameByte(e.name, i);
    }
    NameRoundTrip(e.name, b[2..]);
  }

  /** The zeroed struct that sys_unlink writes is an empty slot. */
  lemma ZeroDirent()
    ensures Storable(Entry(0, "")) && Encode(Entry(0, "")) == seq(DIRENT, _ => 0)
  {
  }

  // ---------------------------------------------------------------- whole directories

  function Field(c: seq<byte>, k: nat): (b: seq<byte>)
    requires DIRENT * k + DIRENT <= |c|
  {
    c[DIRENT * k..DIRENT * k + DIRENT]
  }

  /** The entries in the bytes of a directory. */
  function Entries(c: seq<byte>): (es: seq<Entry>)
    requires |c| % DIRENT == 0
    ensures |es| * DIRENT == |c|
  {
    seq(|c| / DIRENT, k requires 0 <= k < |c| / DIRENT => Decode(Field(c, k)))
  }

  /** readi of one entry. */
  lemma ReadsEntry(c: seq<byte>, k: nat)
    requires |c| % DIRENT == 0 && k < |Entries(c)| && |c| < UINT32 - DIRENT
    ensures |ReadSlice(c, DIRENT * k, DIRENT)| == DIRENT && Decode(ReadSlice(c, DIRENT * k, DIRENT)) == Entries(c)[k]
  {
  }

  /** writei of one entry changes that entry, or adds one at the end. */
  lemma WritesEntry(c: seq<byte>, k: nat, e: Entry)
    requires |c| % DIRENT == 0 && k <= |Entries(c)| && Storable(e)
    ensures var c' := Splice(c, DIRENT * k, Encode(e));
            |c'| % DIRENT == 0 && Entries(c') == if k < |Entries(c)| then Entries(c)[k := e] else Entries(c) + [e]
  {
    var c' := Splice(c, DIRENT * k, Encode(e));
    var n := |Entries(c)|;
    var es := if k < n then Entries(c)[k := e] else Entries(c) + [e];
    assert |c'| == DIRENT * |es|;
    forall j | 0 <= j < |es| ensures Entries(c')[j] == es[j] {
      if j == k {
        assert Field(c', k) == Encode(e);
        DirentRoundTrip(e);
      } else {
        assert Field(c', j) == Field(c, j);
      }
    }
  }

  /** dirlink's write enters the entry where the model puts it. */
  lemma DirlinkWrites(c: seq<byte>, e: Entry)
    requires |c| % DIRENT == 0 && Storable(e)
    ensures var c' := Splice(c, DIRENT * EmptySlot(Entries(c), 0), Encode(e));
            |c'| % DIRENT == 0 && Entries(c') == Put(Entries(c), e)
  {
    WritesEntry(c, EmptySlot(Entries(c), 0), e);
  }

  /** sys_unlink's write empties the slot. */
  lemma UnlinkWrites(c: seq<byte>, k: nat)
    requires |c| % DIRENT == 0 && k < |Entries(c)|
    ensures var c' := Splice(c, DIRENT * k, seq(DIRENT, _ => 0));
            |c'| % DIRENT == 0 && Entries(c') == Entries(c)[k := Entry(0, "")]
  {
    ZeroDirent();
    WritesEntry(c, k, Entry(0, ""));
  }
}
