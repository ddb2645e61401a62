/** Every step of create, link, unlink and iput keeps the link counts right, unless it makes an
    entry inside a directory that is already unlinked; after such a step they cannot stay right. */
module LinkSafety {
  import opened LinkModel

  // ---------------------------------------------------------------- steps that move no entry

  /** Only counters that balance out, references and valid flags differ. */
  ghost predicate Balanced(s: Table, s': Table) {
    && |s'| == |s|
    && forall d | 0 <= d < |s| :: SameBalance(s[d], s'[d])
  }

  ghost predicate SameBalance(x: Ino, y: Ino) {
    && y.kind == x.kind && y.ents == x.ents && y.nlink - y.owed == x.nlink - x.owed
    && (y.kind == Free ==> y.nlink == x.nlink)
  }

  lemma BalancedKeeps(s: Table, s': Table)
    requires Inv(s) && Balanced(s, s')
    ensures Inv(s')
  {
    assert SameBalance(s[ROOTINO], s'[ROOTINO]) && SameBalance(s[0], s'[0]);
    forall i | 0 <= i < |s| ensures CountOk(s', i) && InoOk(s', i) {
      assert CountOk(s, i) && InoOk(s, i) && SameBalance(s[i], s'[i]);
      BalancedLinks(s, s', i);
    }
    forall d, k: nat | 0 <= d < |s| ensures EntryOk(s', d, k) {
      assert EntryOk(s, d, k) && SameBalance(s[d], s'[d]);
    }
    forall d, k: nat, l: nat | 0 <= d < |s| ensures OneName(s', d, k, l) {
      assert OneName(s, d, k, l) && SameBalance(s[d], s'[d]);
    }
    forall d | 0 <= d < |s| ensures HomeOk(s', d) {
      assert HomeOk(s, d) && SameBalance(s[d], s'[d]);
      if s[d].kind == Dir && s[d].Linked() && d != ROOTINO && |s[d].ents| >= 2 {
        var k: nat :| NamedIn(s, s[d].ents[1].inum, k, d);
        assert NamedIn(s', s'[d].ents[1].inum, k, d);
      }
    }
  }

  lemma BalancedLinks(s: Table, s': Table, i: nat)
    requires Balanced(s, s')
    ensures Links(s', i) == Links(s, i)
  {
    forall d: nat, k: nat | d < |s| && k < |s[d].ents|
      ensures SameBalance(s[d], s'[d]) && (Names(s', d, k, i) <==> Names(s, d, k, i))
    {
    }
    forall d: nat, k: nat | d < |s'| && k < |s'[d].ents|
      ensures SameBalance(s[d], s'[d]) && (Names(s', d, k, i) <==> Names(s, d, k, i))
    {
    }
  }

  lemma CountersKeep(s: Table, s': Table, i: nat)
    requires Inv(s)
    requires LinkStartStep(s, s', i) || CountDownStep(s, s', i) || GetStep(s, s', i) || LockStep(s, s', i)
             || (PutStep(s, s', i) && !Frees(s[i]))
    ensures Inv(s')
  {
    assert InoOk(s, i);
    BalancedKeeps(s, s');
  }

  // ---------------------------------------------------------------- freeing

  /** What iput frees is named by no linked directory. */
  lemma FreedIsUnnamed(s: Table, i: nat)
    requires Inv(s) && 0 < i < |s| && Frees(s[i])
    ensures Links(s, i) == {} && s[i].owed == 0
    ensures forall d: nat, k: nat | d < |s| && s[d].kind == Dir && s[d].Linked() && k < |s[d].ents| ::
              s[d].ents[k].inum != i
  {
    assert CountOk(s, i);
    forall d: nat, k: nat | d < |s| && s[d].kind == Dir && s[d].Linked() && k < |s[d].ents|
      ensures s[d].ents[k].inum != i
    {
      assert InoOk(s, d);
      if k != 0 {
        assert Names(s, d, k, i) ==> (d, k) in Links(s, i);
      }
    }
  }

  lemma FreeLinks(s: Table, s': Table, i: nat, j: nat)
    requires Inv(s) && PutStep(s, s', i) && Frees(s[i]) && 0 < j < |s|
    ensures Links(s', j) == Links(s, j)
  {
    assert InoOk(s, i) && CountOk(s, i);
    forall d: nat, k: nat | d < |s| && k < |s[d].ents| && Names(s, d, k, j) ensures d != i {
    }
    forall d: nat, k: nat | d < |s'| && k < |s'[d].ents| ensures d != i && (Names(s', d, k, j) <==> Names(s, d, k, j)) {
    }
    assert forall d: nat, k: nat | d < |s| && k < |s[d].ents| && Names(s, d, k, j) :: Names(s', d, k, j);
  }

  lemma FreeKeeps(s: Table, s': Table, i: nat)
    requires Inv(s) && PutStep(s, s', i) && Frees(s[i])
    ensures Inv(s')
  {
    FreedIsUnnamed(s, i);
    forall j | 0 <= j < |s| ensures CountOk(s', j) && InoOk(s', j) {
      assert CountOk(s, j) && InoOk(s, j);
      if j != 0 { FreeLinks(s, s', i, j); }
    }
    forall d, k: nat | 0 <= d < |s| ensures EntryOk(s', d, k) {
      assert EntryOk(s, d, k);
    }
    forall d, k: nat, l: nat | 0 <= d < |s| ensures OneName(s', d, k, l) {
      assert OneName(s, d, k, l);
    }
    forall d | 0 <= d < |s| ensures HomeOk(s', d) {
      assert HomeOk(s, d) && InoOk(s, d);
      if d != i && s[d].kind == Dir && s[d].Linked() && d != ROOTINO {
        var k: nat :| NamedIn(s, s[d].ents[1].inum, k, d);
        assert NamedIn(s', s'[d].ents[1].inum, k, d);
      }
    }
  }

  // ---------------------------------------------------------------- entering a name

  /** A directory's first free slot lies behind "." and "..". */
  lemma SlotBehindDots(s: Table, d: nat)
    requires Inv(s) && d < |s| && s[d].kind == Dir
    ensures |s[d].ents| >= 2 && EmptySlot(s[d].ents, 0) >= 2
  {
    assert InoOk(s, d);
  }

  /** Entering x in directory dp adds one link, to the inode that x names. */
  lemma PutLinks(s: Table, dp: nat, x: Entry, j: nat)
    requires dp < |s| && s[dp].kind == Dir && EmptySlot(s[dp].ents, 0) >= 2 && j != 0
    ensures var k := EmptySlot(s[dp].ents, 0);
            && (dp, k) !in Links(s, j)
            && Links(AddEntry(s, dp, x), j) == Links(s, j) + (if j == x.inum then {(dp, k)} else {})
  {
    var k := EmptySlot(s[dp].ents, 0);
    var s' := AddEntry(s, dp, x);
    forall d: nat, l: nat | d < |s| && l < |s[d].ents| && (d, l) != (dp, k)
      ensures l < |s'[d].ents| && (Names(s', d, l, j) <==> Names(s, d, l, j))
    {
    }
    forall d: nat, l: nat | d < |s'| && l < |s'[d].ents| && (d, l) != (dp, k)
      ensures l < |s[d].ents| && (Names(s', d, l, j) <==> Names(s, d, l, j))
    {
    }
    assert Names(s', dp, k, j) <==> j == x.inum;
  }

  lemma LinkLinks(s: Table, s': Table, dp: nat, name: string, i: nat, j: nat)
    requires Inv(s) && LinkStep(s, s', dp, name, i) && j != 0
    ensures var k := EmptySlot(s[dp].ents, 0);
            && (dp, k) !in Links(s, j)
            && Links(s', j) == Links(s, j) + (if j == i then {(dp, k)} else {})
  {
    SlotBehindDots(s, dp);
    assert InoOk(s, i);
    var s1 := s[i := s[i].(owed := s[i].owed - 1)];
    assert Links(s1, j) == Links(s, j) by {
      forall d: nat, l: nat | d < |s| && l < |s[d].ents| ensures Names(s1, d, l, j) <==> Names(s, d, l, j) { }
      forall d: nat, l: nat | d < |s1| && l < |s1[d].ents| ensures Names(s1, d, l, j) <==> Names(s, d, l, j) { }
    }
    PutLinks(s1, dp, Entry(i, name), j);
  }

  /** Entering a name in a linked directory keeps the tree; a directory gets its name only once. */
  lemma PutTree(s: Table, dp: nat, x: Entry)
    requires Tree(s, x.inum) && dp < |s| && s[dp].kind == Dir && s[dp].Linked()
    requires 0 < x.inum < |s| && x.name != "." && x.name != ".."
    requires s[x.inum].kind == Dir ==>
               && x.inum != ROOTINO && |s[x.inum].ents| >= 2 && s[x.inum].ents[1].inum == dp
               && forall d: nat, k: nat :: !NamedIn(s, d, k, x.inum)
    ensures Tree(AddEntry(s, dp, x), 0)
  {
    var s' := AddEntry(s, dp, x);
    var at := EmptySlot(s[dp].ents, 0);
    assert InoOk(s, dp);
    assert forall k | 0 <= k < |s'[dp].ents| && k != at :: s'[dp].ents[k] == s[dp].ents[k];
    forall j | 0 <= j < |s| ensures InoOk(s', j) {
      assert InoOk(s, j);
    }
    forall d, k: nat | 0 <= d < |s| ensures EntryOk(s', d, k) {
      PutEntry(s, dp, x, d, k);
    }
    forall d, k: nat, l: nat | 0 <= d < |s| ensures OneName(s', d, k, l) {
      PutOneName(s, dp, x, d, k, l);
    }
    forall d | 0 <= d < |s| && d != 0 ensures HomeOk(s', d) {
      PutHome(s, dp, x, d);
    }
  }

  lemma PutEntry(s: Table, dp: nat, x: Entry, d: nat, k: nat)
    requires dp < |s| && 0 < x.inum < |s| && x.name != "." && x.name != ".." && d < |s| && EntryOk(s, d, k)
    requires EmptySlot(s[dp].ents, 0) >= 2
    requires s[x.inum].kind == Dir ==> x.inum != ROOTINO && |s[x.inum].ents| >= 2 && s[x.inum].ents[1].inum == dp
    ensures EntryOk(AddEntry(s, dp, x), d, k)
  {
  }

  lemma PutOneName(s: Table, dp: nat, x: Entry, d: nat, k: nat, l: nat)
    requires dp < |s| && 0 < x.inum < |s| && d < |s| && OneName(s, d, k, l)
    requires s[dp].kind == Dir && EmptySlot(s[dp].ents, 0) >= 2
    requires s[x.inum].kind == Dir ==> !NamedIn(s, d, k, x.inum) && !NamedIn(s, d, l, x.inum)
    ensures OneName(AddEntry(s, dp, x), d, k, l)
  {
  }

  lemma PutHome(s: Table, dp: nat, x: Entry, d: nat)
    requires dp < |s| && 0 < x.inum < |s| && 0 < d < |s| && (d != x.inum ==> HomeOk(s, d))
    requires s[dp].kind == Dir && EmptySlot(s[dp].ents, 0) >= 2
    requires s[x.inum].kind == Dir ==> |s[x.inum].ents| >= 2 && s[x.inum].ents[1].inum == dp
    ensures HomeOk(AddEntry(s, dp, x), d)
  {
    var s' := AddEntry(s, dp, x);
    assert |s'[d].ents| >= 2 ==> |s[d].ents| >= 2 && s'[d].ents[1] == s[d].ents[1];
    if s[d].kind == Dir && s[d].Linked() && d != ROOTINO && |s[d].ents| >= 2 {
      if d == x.inum {
        assert NamedIn(s', dp, EmptySlot(s[dp].ents, 0), d);
      } else {
        var k: nat :| NamedIn(s, s[d].ents[1].inum, k, d);
        assert NamedIn(s', s'[d].ents[1].inum, k, d);
      }
    }
  }

  /** A name that is in no slot is not "." or "..". */
  lemma NewName(s: Table, dp: nat, name: string)
    requires Inv(s) && dp < |s| && s[dp].kind == Dir && Lookup(s[dp].ents, name, 0) == |s[dp].ents|
    ensures name != "." && name != ".."
  {
    assert InoOk(s, dp);
    assert s[dp].ents[0].name == "." && s[dp].ents[1].name == "..";
  }

  lemma LinkKeeps(s: Table, s': Table, dp: nat, name: string, i: nat)
    requires Inv(s) && LinkStep(s, s', dp, name, i) && s[dp].Linked()
    ensures Inv(s')
  {
    assert InoOk(s, dp) && InoOk(s, i);
    var s1 := s[i := s[i].(owed := s[i].owed - 1)];
    assert Tree(s1, i) by { OwedTree(s, s1, i); }
    NewName(s, dp, name);
    PutTree(s1, dp, Entry(i, name));
    forall j | 0 <= j < |s| ensures CountOk(s', j) {
      assert CountOk(s, j);
      if j != 0 { LinkLinks(s, s', dp, name, i, j); }
    }
  }

  /** The counters of an inode that is not a directory have no part in the tree. */
  lemma OwedTree(s: Table, s': Table, i: nat)
    requires Tree(s, 0) && 0 < i < |s| && s[i].kind != Dir && s[i].kind != Free
    requires |s'| == |s| && forall d | 0 <= d < |s| && d != i :: s'[d] == s[d]
    requires s'[i].kind == s[i].kind && s'[i].ents == s[i].ents
    ensures Tree(s', i)
  {
    forall j | 0 <= j < |s| ensures InoOk(s', j) {
      assert InoOk(s, j);
    }
    forall d, k: nat | 0 <= d < |s| ensures EntryOk(s', d, k) {
      assert EntryOk(s, d, k);
    }
    forall d, k: nat, l: nat | 0 <= d < |s| ensures OneName(s', d, k, l) {
      assert OneName(s, d, k, l);
    }
    forall d | 0 <= d < |s| && d != i ensures HomeOk(s', d) {
      assert HomeOk(s, d) && InoOk(s, d);
      if s[d].kind == Dir && s[d].Linked() && d != ROOTINO {
        var k: nat :| NamedIn(s, s[d].ents[1].inum, k, d);
        assert NamedIn(s', s'[d].ents[1].inum, k, d);
      }
    }
  }

  // ---------------------------------------------------------------- create

  /** The table once create has set up the new inode and counted its "..". */
  function SetUp(s: Table, dp: nat, i: nat, kind: Kind): (s': Table)
    requires dp < |s| && i < |s|
  {
    var s1 := s[i := NewIno(s[i], kind, i, dp)];
    if kind == Dir then Bump(s1, dp, 1) else s1
  }

  lemma SetUpLinks(s: Table, dp: nat, i: nat, kind: Kind, j: nat)
    requires Inv(s) && dp < |s| && s[dp].kind == Dir && s[dp].Linked() && 0 < i < |s| && s[i].kind == Free && j != 0
    ensures (i, 1) !in Links(s, j)
    ensures Links(SetUp(s, dp, i, kind), j) == Links(s, j) + (if kind == Dir && j == dp then {(i, 1)} else {})
  {
    var s' := SetUp(s, dp, i, kind);
    assert InoOk(s, i) && InoOk(s, dp);
    forall d: nat, l: nat | d < |s| && l < |s[d].ents|
      ensures d != i && (Names(s', d, l, j) <==> Names(s, d, l, j))
    {
    }
    forall d: nat, l: nat | d < |s'| && l < |s'[d].ents| && d != i
      ensures l < |s[d].ents| && (Names(s', d, l, j) <==> Names(s, d, l, j))
    {
    }
    if kind == Dir {
      assert Names(s', i, 1, j) <==> j == dp;
    }
  }

  /** Nothing names a free inode. */
  lemma FreeUnnamed(s: Table, i: nat)
    requires Inv(s) && 0 < i < |s| && s[i].kind == Free
    ensures Links(s, i) == {} && forall d: nat, k: nat :: !NamedIn(s, d, k, i)
  {
    assert InoOk(s, i) && CountOk(s, i);
    forall d: nat, k: nat ensures !NamedIn(s, d, k, i) {
      assert d < |s| && k < |s[d].ents| && Names(s, d, k, i) ==> (d, k) in Links(s, i);
    }
  }

  lemma SetUpTree(s: Table, dp: nat, i: nat, kind: Kind)
    requires Inv(s) && dp < |s| && s[dp].kind == Dir && s[dp].Linked()
    requires 0 < i < |s| && s[i].kind == Free && kind != Free
    ensures Tree(SetUp(s, dp, i, kind), i)
    ensures forall d: nat, k: nat :: !NamedIn(SetUp(s, dp, i, kind), d, k, i)
  {
    var s' := SetUp(s, dp, i, kind);
    FreeUnnamed(s, i);
    assert InoOk(s, dp);
    forall d: nat, k: nat ensures !NamedIn(s', d, k, i) {
      assert !NamedIn(s, d, k, i);
    }
    forall j | 0 <= j < |s| ensures InoOk(s', j) {
      assert InoOk(s, j);
    }
    forall d, k: nat | 0 <= d < |s| ensures EntryOk(s', d, k) {
      assert EntryOk(s, d, k) && !NamedIn(s, d, k, i);
    }
    forall d, k: nat, l: nat | 0 <= d < |s| ensures OneName(s', d, k, l) {
      assert OneName(s, d, k, l) && !NamedIn(s, d, k, i);
    }
    forall d | 0 <= d < |s| && d != i ensures HomeOk(s', d) {
      assert HomeOk(s, d) && InoOk(s, d);
      if s[d].kind == Dir && s[d].Linked() && d != ROOTINO {
        var k: nat :| NamedIn(s, s[d].ents[1].inum, k, d);
        assert NamedIn(s', s'[d].ents[1].inum, k, d);
      }
    }
  }

  lemma CreateKeeps(s: Table, s': Table, dp: nat, name: string, i: nat, kind: Kind)
    requires Inv(s) && CreateStep(s, s', dp, name, i, kind) && s[dp].Linked()
    ensures Inv(s')
  {
    var s1 := SetUp(s, dp, i, kind);
    SetUpTree(s, dp, i, kind);
    NewName(s, dp, name);
    assert InoOk(s, dp);
    PutTree(s1, dp, Entry(i, name));
    forall j | 0 <= j < |s| ensures CountOk(s', j) {
      assert CountOk(s, j);
      if j != 0 { CreateCount(s, s', dp, name, i, kind, j); }
    }
  }

  lemma CreateCount(s: Table, s': Table, dp: nat, name: string, i: nat, kind: Kind, j: nat)
    requires Inv(s) && CreateStep(s, s', dp, name, i, kind) && s[dp].Linked() && 0 < j < |s| && CountOk(s, j)
    ensures CountOk(s', j)
  {
    FreeUnnamed(s, i);
    CreateFields(s, dp, name, i, kind, j);
    CreateLinks(s, dp, name, i, kind, j);
  }

  lemma CreateFields(s: Table, dp: nat, name: string, i: nat, kind: Kind, j: nat)
    requires dp < |s| && s[dp].kind == Dir && i < |s| && s[i].kind == Free && j < |s|
    ensures var s' := Created(s, dp, name, i, kind);
            && s'[j].nlink == (if j == i then 1 else s[j].nlink + if kind == Dir && j == dp then 1 else 0)
            && s'[j].owed == (if j == i then 0 else s[j].owed)
  {
  }

  lemma CreateLinks(s: Table, dp: nat, name: string, i: nat, kind: Kind, j: nat)
    requires Inv(s) && dp < |s| && s[dp].kind == Dir && s[dp].Linked()
    requires 0 < i < |s| && s[i].kind == Free && 0 < j
    ensures |Links(Created(s, dp, name, i, kind), j)|
            == |Links(s, j)| + (if j == i then 1 else 0) + (if kind == Dir && j == dp then 1 else 0)
  {
    SlotBehindDots(s, dp);
    SetUpLinks(s, dp, i, kind, j);
    PutLinks(SetUp(s, dp, i, kind), dp, Entry(i, name), j);
  }

  // ---------------------------------------------------------------- unlink

  /** An empty directory with a name has no other link: every linked directory inside it
      would have its name there. */
  lemma SoleName(s: Table, dp: nat, k: nat, i: nat)
    requires Inv(s) && 0 < i < |s| && s[i].kind == Dir && IsEmptyDir(s[i].ents) && NamedIn(s, dp, k, i)
    ensures Links(s, i) == {(dp, k)}
  {
    assert EntryOk(s, dp, k);
    assert Names(s, dp, k, i);
    forall d: nat, l: nat | d < |s| && l < |s[d].ents| && Names(s, d, l, i) ensures (d, l) == (dp, k) {
      assert EntryOk(s, d, l) && OneName(s, dp, k, l) && HomeOk(s, d) && InoOk(s, d);
    }
  }

  /** A linked directory that still holds a directory has at least two links. */
  lemma ParentLinks(s: Table, dp: nat, k: nat, i: nat)
    requires Inv(s) && 0 < i < |s| && s[i].kind == Dir && NamedIn(s, dp, k, i)
    ensures dp != 0 && s[dp].nlink - s[dp].owed >= 2 && (i, 1) in Links(s, dp)
  {
    assert EntryOk(s, dp, k) && InoOk(s, dp) && InoOk(s, i) && CountOk(s, dp) && CountOk(s, i) && HomeOk(s, dp);
    assert Names(s, dp, k, i);
    assert (dp, k) in Links(s, i);
    assert Names(s, i, 1, dp);
    assert (i, 1) in Links(s, dp);
    var other: (nat, nat);
    if dp == ROOTINO {
      assert Names(s, dp, 1, dp);
      other := (dp, 1);
    } else {
      var p := s[dp].ents[1].inum;
      var h: nat :| NamedIn(s, p, h, dp);
      assert Names(s, p, h, dp);
      other := (p, h);
    }
    assert other in Links(s, dp);
    assert {(i, 1), other} <= Links(s, dp);
    assert |Links(s, dp)| >= 2 by {
      var two := {(i, 1), other};
      assert Links(s, dp) == two + (Links(s, dp) - two);
    }
  }

  /** What sys_unlink finds under a name that is not "." or "..": the slot lies behind the
      dots, and the panic for a count below 1 cannot happen. */
  lemma UnlinkFinds(s: Table, dp: nat, name: string)
    requires Inv(s) && dp < |s| && s[dp].kind == Dir && name != "." && name != ".."
    ensures var k := Lookup(s[dp].ents, name, 0);
            k < |s[dp].ents| ==>
              var i := s[dp].ents[k].inum;
              && NamedIn(s, dp, k, i) && 0 < i < |s| && s[i].kind != Free && s[i].nlink >= 1
  {
    var k := Lookup(s[dp].ents, name, 0);
    assert InoOk(s, dp);
    if k < |s[dp].ents| {
      var i := s[dp].ents[k].inum;
      assert s[dp].ents[0].name == "." && s[dp].ents[1].name == "..";
      assert EntryOk(s, dp, k);
      assert Names(s, dp, k, i);
      assert (dp, k) in Links(s, i);
      assert CountOk(s, i) && InoOk(s, i);
    }
  }

  /** The state just after sys_unlink has cleared slot k of dp, which named i. */
  ghost predicate Unlinking(s: Table, s': Table, dp: nat, k: nat, i: nat) {
    && Inv(s) && 0 < i < |s| && NamedIn(s, dp, k, i) && s[i].kind != Free
    && (s[i].kind == Dir ==> IsEmptyDir(s[i].ents))
    && s' == Cleared(s, dp, k, i)
  }

  lemma UnlinkParts(s: Table, s': Table, dp: nat, k: nat, i: nat)
    requires Unlinking(s, s', dp, k, i)
    ensures dp != i && |s'| == |s| && s[dp].Linked() && s'[dp].Linked()
    ensures s'[dp] == s[dp].(ents := s[dp].ents[k := Entry(0, "")], nlink := s[dp].nlink - if s[i].kind == Dir then 1 else 0)
    ensures s'[i] == s[i].(owed := s[i].owed + 1)
    ensures s[i].kind == Dir ==> s[i].Linked() && !s'[i].Linked()
    ensures forall d | 0 <= d < |s| && d != dp && d != i :: s'[d] == s[d]
  {
    assert InoOk(s, dp) && CountOk(s, i);
    if s[i].kind == Dir {
      SoleName(s, dp, k, i);
      ParentLinks(s, dp, k, i);
    }
  }

  lemma UnlinkLinks(s: Table, s': Table, dp: nat, k: nat, i: nat, j: nat)
    requires Unlinking(s, s', dp, k, i) && j != 0
    ensures (dp, k) in Links(s, i)
    ensures Links(s', j) == Links(s, j) - (if j == i then {(dp, k)} else {}) - (if s[i].kind == Dir && j == dp then {(i, 1)} else {})
  {
    UnlinkParts(s, s', dp, k, i);
    assert InoOk(s, i) && EntryOk(s, dp, k) && InoOk(s, dp);
    assert Names(s, dp, k, i);
    forall d: nat, l: nat | d < |s| && l < |s[d].ents| && (d, l) != (dp, k) && (d, l) != (i, 1)
      ensures l < |s'[d].ents| && (Names(s', d, l, j) <==> Names(s, d, l, j))
    {
    }
    forall d: nat, l: nat | d < |s'| && l < |s'[d].ents| && (d, l) != (dp, k) && (d, l) != (i, 1)
      ensures l < |s[d].ents| && (Names(s', d, l, j) <==> Names(s, d, l, j))
    {
    }
    assert !Names(s', dp, k, j);
    if s[i].kind == Dir {
      assert !Names(s', i, 1, j);
      assert Names(s, i, 1, j) <==> j == dp;
    }
  }

  lemma UnlinkTree(s: Table, s': Table, dp: nat, k: nat, i: nat)
    requires Unlinking(s, s', dp, k, i)
    ensures Tree(s', 0)
  {
    UnlinkParts(s, s', dp, k, i);
    assert EntryOk(s, dp, k);
    forall j | 0 <= j < |s| ensures InoOk(s', j) {
      assert InoOk(s, j);
    }
    forall d, l: nat | 0 <= d < |s| ensures EntryOk(s', d, l) {
      assert EntryOk(s, d, l);
    }
    forall d, l: nat, m: nat | 0 <= d < |s| ensures OneName(s', d, l, m) {
      assert OneName(s, d, l, m);
    }
    forall d | 0 <= d < |s| && d != 0 ensures HomeOk(s', d) {
      assert HomeOk(s, d) && InoOk(s, d);
      if s'[d].kind == Dir && s'[d].Linked() && d != ROOTINO && |s'[d].ents| >= 2 {
        var h: nat :| NamedIn(s, s[d].ents[1].inum, h, d);
        assert NamedIn(s', s'[d].ents[1].inum, h, d);
      }
    }
  }

  lemma UnlinkKeeps(s: Table, s': Table, dp: nat, name: string)
    requires Inv(s) && UnlinkStep(s, s', dp, name)
    ensures Inv(s')
  {
    var k := Lookup(s[dp].ents, name, 0);
    var i := s[dp].ents[k].inum;
    UnlinkFinds(s, dp, name);
    UnlinkingKeeps(s, s', dp, k, i);
  }

  lemma UnlinkingKeeps(s: Table, s': Table, dp: nat, k: nat, i: nat)
    requires Unlinking(s, s', dp, k, i)
    ensures Inv(s')
  {
    UnlinkTree(s, s', dp, k, i);
    forall j | 0 <= j < |s| ensures CountOk(s', j) {
      if j != 0 { UnlinkCount(s, s', dp, k, i, j); }
    }
  }

  lemma UnlinkCount(s: Table, s': Table, dp: nat, k: nat, i: nat, j: nat)
    requires Unlinking(s, s', dp, k, i) && 0 < j < |s|
    ensures j < |s'| && CountOk(s', j)
  {
    assert CountOk(s, j);
    UnlinkParts(s, s', dp, k, i);
    UnlinkLinks(s, s', dp, k, i, j);
    if s[i].kind == Dir { ParentLinks(s, dp, k, i); }
  }

  // ---------------------------------------------------------------- runs

  lemma TidyStepKeeps(s: Table, s': Table, step: Step)
    requires Inv(s) && Next(s, s', step) && Tidy(s, step)
    ensures Inv(s')
  {
    match step
    case Create(dp, name, i, kind) => CreateKeeps(s, s', dp, name, i, kind);
    case Link(dp, name, i) => LinkKeeps(s, s', dp, name, i);
    case Unlink(dp, name) => UnlinkKeeps(s, s', dp, name);
    case Drop(i) => if Frees(s[i]) { FreeKeeps(s, s', i); } else { CountersKeep(s, s', i); }
    case LinkStart(i) => CountersKeep(s, s', i);
    case CountDown(i) => CountersKeep(s, s', i);
    case Get(i) => CountersKeep(s, s', i);
    case Lock(i) => CountersKeep(s, s', i);
  }

  ghost predicate TidyRun(ss: seq<Table>, steps: seq<Step>) {
    && |ss| == |steps| + 1
    && forall n | 0 <= n < |steps| :: Next(ss[n], ss[n + 1], steps[n]) && Tidy(ss[n], steps[n])
  }

  /** Link counts are right in every state of every run that makes no entry in an unlinked directory. */
  lemma {:induction false} LinkCountsOverRuns(ss: seq<Table>, steps: seq<Step>, n: nat)
    requires TidyRun(ss, steps) && Inv(ss[0]) && n < |ss|
    ensures Inv(ss[n])
  {
    if n > 0 {
      LinkCountsOverRuns(ss, steps, n - 1);
      TidyStepKeeps(ss[n - 1], ss[n], steps[n - 1]);
    }
  }

  // ---------------------------------------------------------------- consequences, and the exact condition

  /** An entry of a linked directory never leads to a free inode. */
  lemma NoDanglingEntry(s: Table, d: nat, k: nat)
    requires Inv(s) && d < |s| && s[d].kind == Dir && s[d].Linked() && k < |s[d].ents| && s[d].ents[k].inum != 0
    ensures s[d].ents[k].inum < |s| && s[s[d].ents[k].inum].kind != Free
  {
    var i := s[d].ents[k].inum;
    assert InoOk(s, d) && EntryOk(s, d, k);
    if k != 0 {
      assert Names(s, d, k, i);
      assert (d, k) in Links(s, i);
      assert CountOk(s, i) && InoOk(s, i);
    }
  }

  lemma UnlinkedHasNoLinks(s: Table, d: nat)
    requires Inv(s) && d < |s| && s[d].kind == Dir && !s[d].Linked()
    ensures d != 0 && d != ROOTINO && s[d].nlink == s[d].owed && forall p: nat, k: nat :: !NamedIn(s, p, k, d)
  {
    assert InoOk(s, d) && CountOk(s, d);
    assert Links(s, d) == {};
    forall p: nat, k: nat ensures !NamedIn(s, p, k, d) {
      assert p < |s| && k < |s[p].ents| && Names(s, p, k, d) ==> (p, k) in Links(s, d);
    }
  }

  ghost predicate CountsOk(s: Table) {
    forall i | 0 <= i < |s| :: CountOk(s, i)
  }

  /** The link counts are right now, and stay so however the table is used from here on, short
      of further entries in unlinked directories. */
  ghost predicate StaysCounted(s: Table) {
    forall ss: seq<Table>, steps: seq<Step>, n: nat | TidyRun(ss, steps) && ss[0] == s && n < |ss| :: CountsOk(ss[n])
  }

  lemma StaysCountedNow(s: Table)
    requires StaysCounted(s)
    ensures CountsOk(s)
  {
    assert TidyRun([s], []);
    assert CountsOk([s][0]);
  }

  lemma StaysCountedNext(s: Table, s': Table, step: Step)
    requires StaysCounted(s) && Next(s, s', step) && Tidy(s, step)
    ensures StaysCounted(s')
  {
    forall ss: seq<Table>, steps: seq<Step>, n: nat | TidyRun(ss, steps) && ss[0] == s' && n < |ss|
      ensures CountsOk(ss[n])
    {
      var before, done := [s] + ss, [step] + steps;
      forall m | 0 <= m < |done| ensures Next(before[m], before[m + 1], done[m]) && Tidy(before[m], done[m]) {
        if m > 0 { assert before[m] == ss[m - 1] && done[m] == steps[m - 1]; }
      }
      assert TidyRun(before, done);
      assert CountsOk(before[n + 1]);
    }
  }

  /** Freeing a directory that names i takes a link of i away and leaves its count. */
  lemma FreedDirLosesLink(s: Table, s': Table, dp: nat, k: nat, i: nat)
    requires PutStep(s, s', dp) && Frees(s[dp]) && NamedIn(s, dp, k, i) && 0 < i < |s| && i != dp
    requires CountOk(s, i)
    ensures !CountOk(s', i)
  {
    assert Names(s, dp, k, i);
    forall d: nat, l: nat | d < |s'| && l < |s'[d].ents| && Names(s', d, l, i)
      ensures l < |s[d].ents| && Names(s, d, l, i) && d != dp
    {
    }
    assert Links(s', i) <= Links(s, i) - {(dp, k)};
    Fewer(Links(s', i), Links(s, i) - {(dp, k)});
  }

  lemma Fewer(a: set<(nat, nat)>, b: set<(nat, nat)>)
    requires a <= b
    ensures |a| <= |b|
  {
    assert b == a + (b - a);
  }

  /** An unlinked directory that names i can always be brought to be freed: the calls that owe
      it a count finish, and its references go. */
  lemma {:induction false} NamedInUnlinkedIsLost(s: Table, dp: nat, k: nat, i: nat)
    requires NamedIn(s, dp, k, i) && 0 < i < |s| && i != dp && 0 < dp
    requires s[dp].nlink == s[dp].owed && s[dp].refs > 0
    ensures !StaysCounted(s)
    decreases s[dp].owed, s[dp].refs, !s[dp].valid
  {
    if StaysCounted(s) {
      StaysCountedNow(s);
      var x := s[dp];
      if x.owed > 0 {
        var s' := s[dp := x.(nlink := x.nlink - 1, owed := x.owed - 1)];
        StaysCountedNext(s, s', CountDown(dp));
        NamedInUnlinkedIsLost(s', dp, k, i);
      } else if !x.valid {
        var s' := s[dp := x.(valid := true)];
        StaysCountedNext(s, s', Lock(dp));
        NamedInUnlinkedIsLost(s', dp, k, i);
      } else if x.refs > 1 {
        var s' := s[dp := x.(refs := x.refs - 1)];
        StaysCountedNext(s, s', Drop(dp));
        NamedInUnlinkedIsLost(s', dp, k, i);
      } else {
        var s' := s[dp := Dropped(x)];
        StaysCountedNext(s, s', Drop(dp));
        StaysCountedNow(s');
        FreedDirLosesLink(s, s', dp, k, i);
      }
    }
  }

  /** A directory made inside an unlinked one turns it into a linked one again, so that its
      ".." counts. */
  lemma UntidyDirLinks(s: Table, s': Table, dp: nat, name: string, i: nat)
    requires Inv(s) && CreateStep(s, s', dp, name, i, Dir) && !s[dp].Linked() && |s[dp].ents| >= 2
    ensures var p := s[dp].ents[1].inum;
            && Links(s, p) <= Links(s', p)
            && (dp, 1) in Links(s', p) && (dp, 1) !in Links(s, p)
            && (p == i ==> exists k: nat :: k > 1 && (dp, k) in Links(s', p))
            && (p == dp ==> (i, 1) in Links(s', p) && i != dp)
  {
    assert InoOk(s, dp) && InoOk(s, i);
    var p := s[dp].ents[1].inum;
    UnlinkedHasNoLinks(s, dp);
    SlotBehindDots(s, dp);
    forall d: nat, l: nat | d < |s| && l < |s[d].ents| && Names(s, d, l, p)
      ensures l < |s'[d].ents| && Names(s', d, l, p)
    {
    }
    assert Names(s', dp, 1, p);
    if p == i {
      var k := EmptySlot(s[dp].ents, 0);
      assert Names(s', dp, k, p);
      assert (dp, k) in Links(s', p);
    }
    if p == dp { assert Names(s', i, 1, p); }
  }

  lemma TwoLinks(a: set<(nat, nat)>, x: (nat, nat), y: (nat, nat))
    requires x in a && y in a && x != y
    ensures |a| >= 2
  {
    Fewer({x, y}, a);
  }

  /** The count of the inode that the ".." names is wrong at once. */
  lemma UntidyDirMiscounts(s: Table, s': Table, dp: nat, name: string, i: nat)
    requires Inv(s) && CreateStep(s, s', dp, name, i, Dir) && !s[dp].Linked()
    ensures |s[dp].ents| >= 2 && 0 < s[dp].ents[1].inum < |s'| && !CountOk(s', s[dp].ents[1].inum)
  {
    assert InoOk(s, dp);
    var p := s[dp].ents[1].inum;
    UntidyDirLinks(s, s', dp, name, i);
    CreateFields(s, dp, name, i, Dir, p);
    if p == i {
      var k: nat :| k > 1 && (dp, k) in Links(s', p);
      TwoLinks(Links(s', p), (dp, 1), (dp, k));
    } else if p == dp {
      UnlinkedHasNoLinks(s, dp);
      TwoLinks(Links(s', p), (dp, 1), (i, 1));
    } else {
      assert CountOk(s, p);
      Fewer(Links(s, p) + {(dp, 1)}, Links(s', p));
    }
  }

  /** An entry made inside an unlinked directory is the end of right counts. */
  lemma UntidyStepMiscounts(s: Table, s': Table, step: Step)
    requires Inv(s) && Next(s, s', step) && !Tidy(s, step)
    ensures !StaysCounted(s')
  {
    var dp, i := step.dp, step.ip;
    UnlinkedHasNoLinks(s, dp);
    SlotBehindDots(s, dp);
    if step.Create? && step.kind == Dir {
      UntidyDirMiscounts(s, s', dp, step.name, i);
      if StaysCounted(s') { StaysCountedNow(s'); }
    } else {
      NamedInUnlinkedIsLost(s', dp, EmptySlot(s[dp].ents, 0), i);
    }
  }

  /** Link counts stay right after a step exactly if the step makes no entry in an unlinked
      directory. */
  lemma CountedExactlyIfTidy(s: Table, s': Table, step: Step)
    requires Inv(s) && Next(s, s', step)
    ensures StaysCounted(s') <==> Tidy(s, step)
    ensures Tidy(s, step) ==> Inv(s')
  {
    if Tidy(s, step) {
      TidyStepKeeps(s, s', step);
      InvStaysCounted(s');
    } else {
      UntidyStepMiscounts(s, s', step);
    }
  }

  lemma InvStaysCounted(s: Table)
    requires Inv(s)
    ensures StaysCounted(s)
  {
    forall ss: seq<Table>, steps: seq<Step>, n: nat | TidyRun(ss, steps) && ss[0] == s && n < |ss|
      ensures CountsOk(ss[n])
    {
      LinkCountsOverRuns(ss, steps, n);
    }
  }

  // ---------------------------------------------------------------- a lost file

  /** What goes wrong: a file created in an unlinked directory keeps its link count when the
      directory is freed, although nothing names it any more. */
  lemma LostFile(s: Table, s1: Table, s2: Table, dp: nat, name: string, i: nat)
    requires Inv(s) && CreateStep(s, s1, dp, name, i, File)
    requires s[dp].nlink == 0 && s[dp].refs == 1 && s[dp].valid && PutStep(s1, s2, dp)
    ensures Lost(s2, i) && s2[dp].kind == Free
  {
    assert InoOk(s, i) && InoOk(s, dp) && CountOk(s, dp);
    FreeUnnamed(s, i);
    forall d: nat, k: nat | d < |s2| && k < |s2[d].ents| ensures !Names(s2, d, k, i) {
      assert d != dp ==> !Names(s, d, k, i) || (d, k) in Links(s, i);
    }
  }

  /** A file with one link that no entry names and no call under way accounts for. */
  ghost predicate Lost(s: Table, i: nat) {
    i < |s| && s[i].kind == File && s[i].nlink == 1 && s[i].owed == 0 && Links(s, i) == {}
  }

  ghost predicate Run(ss: seq<Table>, steps: seq<Step>) {
    |ss| == |steps| + 1 && forall n | 0 <= n < |steps| :: Next(ss[n], ss[n + 1], steps[n])
  }

  // mkdir d; cd d; rm ../d; create f there; cd away.

  const NONE := Ino(Free, 0, 0, 0, false, [])
  const DOTS := [Entry(1, "."), Entry(1, "..")]
  const DOTS_OF_D := [Entry(2, "."), Entry(1, "..")]

  /** A file system with an empty root directory and room for two inodes. */
  const ROOT_ONLY: Table := [NONE, Ino(Dir, 1, 0, 0, false, DOTS), NONE, NONE]
  const ROOT_HELD: Table := [NONE, Ino(Dir, 1, 0, 1, false, DOTS), NONE, NONE]
  const D_MADE: Table := [NONE, Ino(Dir, 2, 0, 1, false, DOTS + [Entry(2, "d")]), Ino(Dir, 1, 0, 1, true, DOTS_OF_D), NONE]
  const D_CLEARED: Table := [NONE, Ino(Dir, 1, 0, 1, false, DOTS + [Entry(0, "")]), Ino(Dir, 1, 1, 1, true, DOTS_OF_D), NONE]
  const D_REMOVED: Table := [NONE, Ino(Dir, 1, 0, 1, false, DOTS + [Entry(0, "")]), Ino(Dir, 0, 0, 1, true, DOTS_OF_D), NONE]

  lemma RootOnlyInv()
    ensures Inv(ROOT_ONLY)
  {
    var s := ROOT_ONLY;
    assert Names(s, 1, 1, 1);
    assert Links(s, 1) == {(1, 1)};
    assert Links(s, 2) == {} && Links(s, 3) == {};
    forall i | 0 <= i < |s| ensures InoOk(s, i) && CountOk(s, i) && HomeOk(s, i) { }
  }

  lemma MakeD()
    ensures Next(ROOT_HELD, D_MADE, Create(1, "d", 2, Dir))
  {
    var e := DOTS;
    assert Lookup(e, "d", 2) == 2 && Lookup(e, "d", 1) == 2 && Lookup(e, "d", 0) == 2;
    assert EmptySlot(e, 2) == 2 && EmptySlot(e, 1) == 2 && EmptySlot(e, 0) == 2;
    assert Put(e, Entry(2, "d")) == e + [Entry(2, "d")];
    assert Created(ROOT_HELD, 1, "d", 2, Dir) == D_MADE;
  }

  lemma RemoveD()
    ensures Next(D_MADE, D_CLEARED, Unlink(1, "d"))
  {
    var e := DOTS + [Entry(2, "d")];
    assert Lookup(e, "d", 2) == 2 && Lookup(e, "d", 1) == 2 && Lookup(e, "d", 0) == 2;
    assert e[2 := Entry(0, "")] == DOTS + [Entry(0, "")];
    assert Cleared(D_MADE, 1, 2, 2) == D_CLEARED;
  }

  lemma MakeF() returns (s: Table, s': Table)
    requires Inv(D_REMOVED)
    ensures Next(D_REMOVED, s, Create(2, "f", 3, File)) && Next(s, s', Drop(2)) && Lost(s', 3)
  {
    var e := DOTS_OF_D;
    assert Lookup(e, "f", 2) == 2 && Lookup(e, "f", 1) == 2 && Lookup(e, "f", 0) == 2;
    s := Created(D_REMOVED, 2, "f", 3, File);
    s' := s[2 := Dropped(s[2])];
    LostFile(D_REMOVED, s, s', 2, "f", 3);
  }

  lemma DRemovedInv()
    ensures Next(ROOT_ONLY, ROOT_HELD, Get(1)) && Next(D_CLEARED, D_REMOVED, CountDown(2)) && Inv(D_REMOVED)
  {
    RootOnlyInv();
    TidyStepKeeps(ROOT_ONLY, ROOT_HELD, Get(1));
    MakeD();
    TidyStepKeeps(ROOT_HELD, D_MADE, Create(1, "d", 2, Dir));
    RemoveD();
    TidyStepKeeps(D_MADE, D_CLEARED, Unlink(1, "d"));
    TidyStepKeeps(D_CLEARED, D_REMOVED, CountDown(2));
  }

  ghost predicate Reaches(s: Table, t: Table) {
    exists ss: seq<Table>, steps: seq<Step> :: Run(ss, steps) && ss[0] == s && ss[|steps|] == t
  }

  lemma ReachesNext(s: Table, t: Table, u: Table, step: Step)
    requires Reaches(s, t) && Next(t, u, step)
    ensures Reaches(s, u)
  {
    var ss, steps :| Run(ss, steps) && ss[0] == s && ss[|steps|] == t;
    var ss', steps' := ss + [u], steps + [step];
    forall n | 0 <= n < |steps'| ensures Next(ss'[n], ss'[n + 1], steps'[n]) {
      if n < |steps| { assert ss'[n] == ss[n] && ss'[n + 1] == ss[n + 1] && steps'[n] == steps[n]; }
    }
    assert Run(ss', steps');
  }

  lemma ReachesSelf(s: Table)
    ensures Reaches(s, s)
  {
    assert Run([s], []);
  }

  lemma ReachesDRemoved()
    ensures Reaches(ROOT_ONLY, D_REMOVED)
  {
    DRemovedInv();
    MakeD();
    RemoveD();
    ReachesSelf(ROOT_ONLY);
    ReachesNext(ROOT_ONLY, ROOT_ONLY, ROOT_HELD, Get(1));
    ReachesNext(ROOT_ONLY, ROOT_HELD, D_MADE, Create(1, "d", 2, Dir));
    ReachesNext(ROOT_ONLY, D_MADE, D_CLEARED, Unlink(1, "d"));
    ReachesNext(ROOT_ONLY, D_CLEARED, D_REMOVED, CountDown(2));
  }

  /** The loss happens in a run from an empty file system. */
  lemma LostFileHappens()
    ensures Inv(ROOT_ONLY) && exists s :: Reaches(ROOT_ONLY, s) && Lost(s, 3)
  {
    RootOnlyInv();
    DRemovedInv();
    ReachesDRemoved();
    var s, s' := MakeF();
    ReachesNext(ROOT_ONLY, D_REMOVED, s, Create(2, "f", 3, File));
    ReachesNext(ROOT_ONLY, s, s', Drop(2));
  }
}
