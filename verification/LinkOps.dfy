/** dirlookup, dirlink, ialloc and iput of kernel/fs.c, and create, sys_link and sys_unlink of
    kernel/sysfile.c, on the inode table.  Each is a run of the steps of LinkModel. */
module LinkOps {
  import opened Options
  import opened LinkModel
  import opened LinkSafety

  /** Full is a panic: the directory file has reached the largest size. */
  datatype DirlinkResult = Present | Full | Entered

  /** Stuck is a panic: no inode is free, or a directory is full. */
  datatype CreateResult = Stuck | Found(found: nat) | Made(ip: nat)

  /** There is no empty slot within the largest size. */
  ghost predicate FullDir(e: seq<Entry>) {
    |e| >= MAXENTS && forall k | 0 <= k < MAXENTS :: e[k].inum != 0
  }

  ghost predicate NoFreeIno(s: Table) {
    forall j | 0 < j < |s| :: s[j].kind != Free
  }

  class Itable {
    var s: Table

    /** dirlookup: the slot that holds the name. */
    method Dirlookup(d: nat, name: string) returns (r: Option<nat>)
      requires d < |s|
      ensures r == if Lookup(s[d].ents, name, 0) < |s[d].ents| then Some(Lookup(s[d].ents, name, 0)) else None
    {
      var k := 0;
      while k < |s[d].ents|
        invariant 0 <= k <= |s[d].ents| && Lookup(s[d].ents, name, 0) == Lookup(s[d].ents, name, k)
      {
        if s[d].ents[k].inum != 0 && s[d].ents[k].name == name {
          return Some(k);
        }
        k := k + 1;
      }
      return None;
    }

    /** dirlink */
    method Dirlink(d: nat, name: string, inum: nat) returns (r: DirlinkResult)
      requires d < |s|
      modifies this
      ensures r == Present <==> Lookup(old(s)[d].ents, name, 0) < |old(s)[d].ents|
      ensures r == Entered ==> s == AddEntry(old(s), d, Entry(inum, name))
      ensures r != Entered ==> s == old(s)
      ensures r == Full <==> Lookup(old(s)[d].ents, name, 0) == |old(s)[d].ents| && FullDir(old(s)[d].ents)
    {
      var found := Dirlookup(d, name);
      if found.Some? {
        return Present;
      }
      var e := s[d].ents;
      var k := 0;
      while k < |e| && e[k].inum != 0
        invariant 0 <= k <= |e| && EmptySlot(e, 0) == EmptySlot(e, k)
        invariant forall l | 0 <= l < k :: e[l].inum != 0
      {
        k := k + 1;
      }
      if k >= MAXENTS {
        return Full;
      }
      s := s[d := s[d].(ents := if k < |e| then e[k := Entry(inum, name)] else e + [Entry(inum, name)])];
      return Entered;
    }

    /** isdirempty */
    method IsDirEmpty(d: nat) returns (b: bool)
      requires d < |s| && |s[d].ents| >= 2
      ensures b == IsEmptyDir(s[d].ents)
    {
      var k := 2;
      while k < |s[d].ents|
        invariant 2 <= k <= |s[d].ents| && forall l | 2 <= l < k :: s[d].ents[l].inum == 0
      {
        if s[d].ents[k].inum != 0 {
          return false;
        }
        k := k + 1;
      }
      return true;
    }

    /** The search of ialloc; None is its panic. */
    method FindFree() returns (r: Option<nat>)
      ensures r.Some? ==> 0 < r.value < |s| && s[r.value].kind == Free && forall j | 0 < j < r.value :: s[j].kind != Free
      ensures r.None? ==> NoFreeIno(s)
    {
      var i := 1;
      while i < |s|
        invariant 1 <= i && forall j | 0 < j < i && j < |s| :: s[j].kind != Free
      {
        if s[i].kind == Free {
          return Some(i);
        }
        i := i + 1;
      }
      return None;
    }

    /** iget and idup: one more reference. */
    method Iget(i: nat)
      requires Inv(s) && 0 < i < |s|
      modifies this
      ensures GetStep(old(s), s, i) && Inv(s)
    {
      s := s[i := s[i].(refs := s[i].refs + 1, valid := s[i].refs > 0 && s[i].valid)];
      CountersKeep(old(s), s, i);
    }

    /** iput.  What it frees, no linked directory names. */
    method Iput(i: nat)
      requires Inv(s) && 0 < i < |s| && s[i].refs > 0
      modifies this
      ensures PutStep(old(s), s, i) && Inv(s)
      ensures s[i].kind == Free && old(s)[i].kind != Free ==>
                forall d: nat, k: nat | d < |s| && s[d].kind == Dir && s[d].Linked() && k < |s[d].ents| :: s[d].ents[k].inum != i
    {
      if s[i].refs == 1 && s[i].valid && s[i].nlink == 0 {
        FreedIsUnnamed(s, i);
        s := s[i := s[i].(ents := [])];
        s := s[i := s[i].(kind := Free, valid := false)];
        s := s[i := s[i].(refs := 0)];
        FreeKeeps(old(s), s, i);
      } else {
        s := s[i := s[i].(refs := s[i].refs - 1)];
        CountersKeep(old(s), s, i);
      }
    }

    /** create, from the lookup of the name to the release of dp; dp is locked.  The panics
        for the dots and for a name that turns up after all cannot happen. */
    method Create(dp: nat, name: string, kind: Kind) returns (r: CreateResult)
      requires Inv(s) && dp < |s| && s[dp].kind == Dir && s[dp].refs > 0 && kind != Free
      modifies this
      ensures r.Found? ==> s == old(s) && r.found < |s| && Lookup(s[dp].ents, name, 0) < |s[dp].ents|
                           && s[dp].ents[Lookup(s[dp].ents, name, 0)].inum == r.found
      ensures r.Made? ==> CreateStep(old(s), s, dp, name, r.ip, kind)
      ensures r.Made? ==> (if old(s)[dp].Linked() then Inv(s) else !StaysCounted(s))
      ensures r.Made? ==> forall j | 0 < j < r.ip :: old(s)[j].kind != Free
      ensures r.Found? <==> Lookup(old(s)[dp].ents, name, 0) < |old(s)[dp].ents|
      ensures r.Stuck? <==> !r.Found? && (NoFreeIno(old(s)) || FullDir(old(s)[dp].ents))
    {
      var found := Dirlookup(dp, name);
      if found.Some? {
        assert InoOk(s, dp) && EntryOk(s, dp, found.value);
        return Found(s[dp].ents[found.value].inum);
      }
      var free := FindFree();
      if free.None? {
        return Stuck;
      }
      var i := free.value;
      SetUpNode(dp, i, kind);
      var made := Dirlink(dp, name, i);
      if made == Full {
        return Stuck;
      }
      assert made == Entered;
      CountedExactlyIfTidy(old(s), s, LinkModel.Create(dp, name, i, kind));
      return Made(i);
    }

    /** The part of create that fills the new inode. */
    method SetUpNode(dp: nat, i: nat, kind: Kind)
      requires dp < |s| && 0 < i < |s| && dp != i
      modifies this
      ensures s == SetUp(old(s), dp, i, kind)
    {
      s := s[i := Ino(kind, 1, 0, s[i].refs + 1, true, [])];
      if kind == Dir {
        s := s[dp := s[dp].(nlink := s[dp].nlink + 1)];
        var dot := Dirlink(i, ".", i);
        assert dot == Entered && s[i].ents == [Entry(i, ".")];
        var dotdot := Dirlink(i, "..", dp);
        assert dotdot == Entered && s[i].ents == [Entry(i, "."), Entry(dp, "..")];
      }
    }

    /** sys_link from the first count on, with its undo path.  `dp` is None if the new path
        has no parent directory. */
    method Link(i: nat, dp: Option<nat>, name: string) returns (ok: Option<bool>)
      requires Inv(s) && 0 < i < |s| && s[i].kind != Free && s[i].refs > 0
      requires dp.Some? ==> dp.value < |s| && s[dp.value].kind == Dir && s[dp.value].refs > 0
      modifies this
      ensures ok == Some(true) ==>
                && old(s)[i].kind != Dir && dp.Some?
                && s == AddEntry(Bump(old(s), i, 1), dp.value, Entry(i, name))
                && Lookup(old(s)[dp.value].ents, name, 0) == |old(s)[dp.value].ents|
                && (if old(s)[dp.value].Linked() then Inv(s) else !StaysCounted(s))
      ensures ok == Some(false) ==> s == old(s)
      ensures ok == Some(false) ==>
                old(s)[i].kind == Dir || dp.None? || Lookup(old(s)[dp.value].ents, name, 0) < |old(s)[dp.value].ents|
      ensures ok.None? <==>
                && old(s)[i].kind != Dir && dp.Some?
                && Lookup(old(s)[dp.value].ents, name, 0) == |old(s)[dp.value].ents| && FullDir(old(s)[dp.value].ents)
    {
      if s[i].kind == Dir {
        return Some(false);
      }
      s := s[i := s[i].(nlink := s[i].nlink + 1, owed := s[i].owed + 1)];
      CountersKeep(old(s), s, i);
      var r := Present;
      ghost var s1 := s;
      if dp.Some? {
        r := Dirlink(dp.value, name, i);
      }
      if r == Full {
        return None;
      }
      if r == Present {
        s := s[i := s[i].(nlink := s[i].nlink - 1, owed := s[i].owed - 1)];
        return Some(false);
      }
      s := s[i := s[i].(owed := s[i].owed - 1)];
      CountedExactlyIfTidy(s1, s, LinkModel.Link(dp.value, name, i));
      return Some(true);
    }

    /** sys_unlink once dp is locked.  Its panics cannot happen. */
    method Unlink(dp: nat, name: string) returns (ok: bool)
      requires Inv(s) && dp < |s| && s[dp].kind == Dir && s[dp].refs > 0
      modifies this
      ensures Inv(s)
      ensures !ok ==> s == old(s)
      ensures ok <==> Removable(old(s), dp, name)
      ensures ok ==>
                var k := Lookup(old(s)[dp].ents, name, 0);
                s == Removed(old(s), dp, k, old(s)[dp].ents[k].inum)
    {
      if name == "." || name == ".." {
        return false;
      }
      var found := Dirlookup(dp, name);
      if found.None? {
        return false;
      }
      var k := found.value;
      var i := s[dp].ents[k].inum;
      UnlinkFinds(s, dp, name);
      assert s[i].nlink >= 1;
      assert InoOk(s, i);
      if s[i].kind == Dir {
        var empty := IsDirEmpty(i);
        if !empty {
          return false;
        }
      }
      Remove(dp, k, i);
      return true;
    }

    /** The part of sys_unlink that clears the slot and counts down. */
    method Remove(dp: nat, k: nat, i: nat)
      requires Inv(s) && 0 < i < |s| && NamedIn(s, dp, k, i) && s[i].kind != Free
      requires s[i].kind == Dir ==> IsEmptyDir(s[i].ents)
      modifies this
      ensures Inv(s) && s == Removed(old(s), dp, k, i)
    {
      s := s[dp := s[dp].(ents := s[dp].ents[k := Entry(0, "")])];
      if s[i].kind == Dir {
        s := s[dp := s[dp].(nlink := s[dp].nlink - 1)];
      }
      s := s[i := s[i].(owed := s[i].owed + 1)];
      ghost var s1 := s;
      assert Unlinking(old(s), s1, dp, k, i);
      UnlinkingKeeps(old(s), s1, dp, k, i);
      s := s[i := s[i].(nlink := s[i].nlink - 1, owed := s[i].owed - 1)];
      CountersKeep(s1, s, i);
    }
  }

  /** What sys_unlink agrees to remove. */
  predicate Removable(s: Table, dp: nat, name: string)
    requires dp < |s|
  {
    && name != "." && name != ".."
    && var k := Lookup(s[dp].ents, name, 0);
       k < |s[dp].ents| &&
       var i := s[dp].ents[k].inum;
       i < |s| && (s[i].kind == Dir ==> IsEmptyDir(s[i].ents))
  }
}
