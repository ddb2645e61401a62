/** Taking page tables apart: what freewalk of kernel/vm.c does to the tables of an address
    space that maps nothing any more. */
module PageFree {
  import opened Options
  import opened PageModel

  /** The key of the table at level l above table (l2, k2). */
  function Above(l2: nat, k2: nat, l: nat): (k: nat)
    requires l2 <= l
    decreases l - l2
  {
    if l2 == l then k2 else Above(l2 + 1, k2 / NPTE, l)
  }

  /** Table (l2, k2) is table (l, k) or lies below it. */
  predicate Under(l: nat, k: nat, l2: nat, k2: nat) {
    l2 <= l && Above(l2, k2, l) == k
  }

  /** Table (l2, k2) lies below one of the first i entries of table (l, k). */
  predicate UnderFirst(l: nat, k: nat, i: nat, l2: nat, k2: nat) {
    l2 < l && Above(l2, k2, l - 1) / NPTE == k && Above(l2, k2, l - 1) % NPTE < i
  }

  lemma {:induction false} AboveStep(l2: nat, k2: nat, l: nat)
    requires l2 < l
    ensures Above(l2, k2, l) == Above(l2, k2, l - 1) / NPTE
    decreases l - l2
  {
    if l2 + 1 < l { AboveStep(l2 + 1, k2 / NPTE, l); }
  }

  lemma UnderKids(l: nat, k: nat, i: nat, l2: nat, k2: nat)
    requires i < NPTE && 1 <= l
    ensures UnderFirst(l, k, i + 1, l2, k2) <==> UnderFirst(l, k, i, l2, k2) || Under(l - 1, k * NPTE + i, l2, k2)
    ensures Under(l, k, l2, k2) <==> UnderFirst(l, k, NPTE, l2, k2) || (l2 == l && k2 == k)
    ensures !(UnderFirst(l, k, i, l2, k2) && Under(l - 1, k * NPTE + i, l2, k2))
  {
    if l2 < l { AboveStep(l2, k2, l); }
  }

  /** The tables above a table are there. */
  lemma {:induction false} AboveIn(vm: Vm, lo: nat, x: Option<(nat, nat, nat, nat)>, r: nat, l2: nat, k2: nat, l: nat)
    requires InvBut(vm, lo, x) && r in vm.trees && (l2, k2) in vm.trees[r] && l2 <= l <= 2
    ensures (l, Above(l2, k2, l)) in vm.trees[r]
    decreases l - l2
  {
    assert TableOk(vm, r, l2, k2);
    if l2 < l { AboveIn(vm, lo, x, r, l2 + 1, k2 / NPTE, l); }
  }

  // ---------------------------------------------------------------- one table

  /** Table (l, k) of space r is given up; with the root goes the space. */
  ghost function Dropped(vm: Vm, r: nat, l: nat, k: nat): (vm': Vm)
    requires r in vm.trees && (l, k) in vm.trees[r] && vm.trees[r][(l, k)] < |vm.own|
  {
    var at: (nat, nat) := (l, k);
    vm.(own := vm.own[vm.trees[r][at] := Taken],
        trees := if l == 2 then vm.trees - {r} else vm.trees[r := vm.trees[r] - {at}])
  }

  /** The entry above table (l, k), which still points to it. */
  function Dangling(r: nat, l: nat, k: nat): (x: Option<(nat, nat, nat, nat)>) {
    if l == 2 then None else Some((r, l + 1, k / NPTE, k % NPTE))
  }

  ghost predicate EmptyTable(vm: Vm, r: nat, l: nat, k: nat) {
    && r in vm.trees && (l, k) in vm.trees[r] && vm.trees[r][(l, k)] < |vm.mem|
    && forall i | 0 <= i < NPTE :: vm.mem[vm.trees[r][(l, k)]][i] == 0
  }

  lemma EmptyHasNoKids(vm: Vm, lo: nat, r: nat, l: nat, k: nat, k2: nat)
    requires InvBut(vm, lo, None) && EmptyTable(vm, r, l, k) && 1 <= l && k2 / NPTE == k
    ensures (l - 1, k2) !in vm.trees[r]
  {
    assert EntryOk(vm, r, l, k, k2 % NPTE);
    assert k * NPTE + k2 % NPTE == k2;
  }

  /** A space whose root table is empty has no other table. */
  lemma EmptyRootAlone(vm: Vm, lo: nat, r: nat, l2: nat, k2: nat)
    requires InvBut(vm, lo, None) && EmptyTable(vm, r, 2, 0) && (l2, k2) in vm.trees[r]
    ensures l2 == 2
  {
    assert TableOk(vm, r, l2, k2);
    if l2 < 2 {
      AboveIn(vm, lo, None, r, l2, k2, 1);
      var k1 := Above(l2, k2, 1);
      assert TableOk(vm, r, 1, k1);
      assert TableOk(vm, r, 2, k1 / NPTE);
      EmptyHasNoKids(vm, lo, r, 2, 0, k1);
      assert false;
    }
  }

  lemma DroppedFlat(vm: Vm, lo: nat, r: nat, l: nat, k: nat, r': nat, v: nat)
    requires InvBut(vm, lo, None) && EmptyTable(vm, r, l, k)
    requires vm.trees[r][(l, k)] < |vm.own|
    ensures Flat(Dropped(vm, r, l, k), r', v) == Flat(vm, r', v)
  {
    assert TableOk(vm, r, l, k);
    if l == 2 && r' == r && (0, v / NPTE) in vm.trees[r] {
      EmptyRootAlone(vm, lo, r, 0, v / NPTE);
    }
  }

  lemma DroppedTables(vm: Vm, lo: nat, r: nat, l: nat, k: nat)
    requires InvBut(vm, lo, None) && EmptyTable(vm, r, l, k)
    requires vm.trees[r][(l, k)] < |vm.own|
    ensures var vm' := Dropped(vm, r, l, k);
            && (forall r, l, k {:trigger TableOk(vm', r, l, k)} | r in vm'.trees && (l, k) in vm'.trees[r] :: TableOk(vm', r, l, k))
            && (forall r', l', k', i: nat {:trigger EntryOk(vm', r', l', k', i)} |
                  r' in vm'.trees && (l', k') in vm'.trees[r'] && i < NPTE && Some((r', l', k', i)) != Dangling(r, l, k) ::
                  EntryOk(vm', r', l', k', i))
  {
    var vm' := Dropped(vm, r, l, k);
    assert TableOk(vm, r, l, k);
    forall r', l', k' | r' in vm'.trees && (l', k') in vm'.trees[r'] ensures TableOk(vm', r', l', k') {
      assert TableOk(vm, r', l', k');
      if r' == r && (l' + 1, k' / NPTE) == (l, k) { EmptyHasNoKids(vm, lo, r, l, k, k'); }
    }
    forall r', l', k', i: nat | r' in vm'.trees && (l', k') in vm'.trees[r'] && i < NPTE && Some((r', l', k', i)) != Dangling(r, l, k)
      ensures EntryOk(vm', r', l', k', i)
    {
      assert TableOk(vm, r', l', k') && EntryOk(vm, r', l', k', i);
      if r' == r && l' == l + 1 && k' * NPTE + i == k { KidIndex(k', i, k', i); }
    }
  }

  lemma DroppedInv(vm: Vm, lo: nat, r: nat, l: nat, k: nat)
    requires Inv(vm, lo) && EmptyTable(vm, r, l, k)
    requires vm.trees[r][(l, k)] < |vm.own|
    ensures InvBut(Dropped(vm, r, l, k), lo, Dangling(r, l, k)) && SameFlat(vm, Dropped(vm, r, l, k))
  {
    assert InvBut(vm, lo, None);
    var vm' := Dropped(vm, r, l, k);
    assert TableOk(vm, r, l, k);
    forall r': nat, v: nat ensures Flat(vm', r', v) == Flat(vm, r', v) {
      DroppedFlat(vm, lo, r, l, k, r', v);
    }
    forall q | 0 <= q < |vm.mem| ensures PageOk(vm', q) {
      assert PageOk(vm, q);
      DroppedPage(vm, lo, r, l, k, q);
    }
    forall j | 0 <= j < |vm.free| ensures FreeOk(vm', j) {
      assert FreeOk(vm, j);
    }
    DroppedTables(vm, lo, r, l, k);
  }

  lemma DroppedPage(vm: Vm, lo: nat, r: nat, l: nat, k: nat, q: nat)
    requires InvBut(vm, lo, None) && EmptyTable(vm, r, l, k) && q < |vm.mem| && PageOk(vm, q)
    requires vm.trees[r][(l, k)] < |vm.own| && SameFlat(vm, Dropped(vm, r, l, k))
    ensures PageOk(Dropped(vm, r, l, k), q)
  {
    var vm' := Dropped(vm, r, l, k);
    assert TableOk(vm, r, l, k);
    if vm.own[q].Data? {
      assert Flat(vm', vm.own[q].root, vm.own[q].vpn) == Flat(vm, vm.own[q].root, vm.own[q].vpn);
    } else if vm.own[q].Table? && vm.own[q].root == r && l == 2 && vm.own[q] != Table(r, l, k) {
      assert TableOk(vm, r, vm.own[q].level, vm.own[q].key);
      EmptyRootAlone(vm, lo, r, vm.own[q].level, vm.own[q].key);
    }
  }

  /** freewalk clears the entry that pointed to the table it has just freed. */
  lemma EntryClearedInv(vm: Vm, lo: nat, r: nat, l: nat, k: nat, i: nat)
    requires InvBut(vm, lo, Some((r, l, k, i))) && r in vm.trees && (l, k) in vm.trees[r] && 1 <= l && i < NPTE
    requires (l - 1, k * NPTE + i) !in vm.trees[r]
    ensures TableOk(vm, r, l, k) && vm.trees[r][(l, k)] < |vm.mem|
    ensures var p := vm.trees[r][(l, k)];
            var vm' := vm.(mem := vm.mem[p := vm.mem[p][i := 0]]);
            Inv(vm', lo) && SameFlat(vm, vm')
  {
    assert TableOk(vm, r, l, k);
    var p := vm.trees[r][(l, k)];
    var vm' := vm.(mem := vm.mem[p := vm.mem[p][i := 0]]);
    forall r': nat, v: nat ensures Flat(vm', r', v) == Flat(vm, r', v) {
      if r' in vm.trees && (0, v / NPTE) in vm.trees[r'] { assert TableOk(vm, r', 0, v / NPTE); }
    }
    forall q | 0 <= q < |vm.mem| ensures PageOk(vm', q) {
      assert PageOk(vm, q);
    }
    forall j | 0 <= j < |vm.free| ensures FreeOk(vm', j) {
      assert FreeOk(vm, j);
    }
    forall r', l', k' | r' in vm'.trees && (l', k') in vm'.trees[r'] ensures TableOk(vm', r', l', k') {
      assert TableOk(vm, r', l', k');
    }
    forall r', l', k', j: nat | r' in vm'.trees && (l', k') in vm'.trees[r'] && j < NPTE ensures EntryOk(vm', r', l', k', j) {
      assert TableOk(vm, r', l', k');
      if (r', l', k', j) != (r, l, k, i) { assert EntryOk(vm, r', l', k', j); }
    }
  }

  // ---------------------------------------------------------------- whole subtrees

  /** Table (l2, k2) of space r stays exactly if it is not `gone`. */
  ghost predicate TableStays(vm: Vm, vm': Vm, r: nat, l2: nat, k2: nat, gone: bool)
    requires r in vm.trees && r in vm'.trees
  {
    if (l2, k2) in vm.trees[r] && !gone then (l2, k2) in vm'.trees[r] && vm'.trees[r][(l2, k2)] == vm.trees[r][(l2, k2)]
    else (l2, k2) !in vm'.trees[r]
  }

  ghost predicate OthersSame(vm: Vm, vm': Vm, r: nat) {
    && |vm.own| == |vm.mem| == |vm'.own| == |vm'.mem|
    && (forall r' | r' != r :: r' in vm'.trees <==> r' in vm.trees)
    && (forall r' | r' != r && r' in vm.trees :: vm'.trees[r'] == vm.trees[r'])
    && SameFlat(vm, vm')
  }

  ghost predicate PageFirstFreed(vm: Vm, vm': Vm, r: nat, l: nat, k: nat, i: nat, pg: nat, p: nat)
    requires p < |vm.own| == |vm.mem| == |vm'.own| == |vm'.mem|
  {
    if vm.own[p].Table? && vm.own[p].root == r && UnderFirst(l, k, i, vm.own[p].level, vm.own[p].key) then vm'.own[p].Unused?
    else vm'.own[p] == vm.own[p] && (p != pg ==> vm'.mem[p] == vm.mem[p])
  }

  /** freewalk has dealt with the first i entries of table (l, k), which is page pg. */
  ghost predicate FirstFreed(vm: Vm, vm': Vm, r: nat, l: nat, k: nat, i: nat, pg: nat) {
    && OthersSame(vm, vm', r) && r in vm.trees && r in vm'.trees && pg < |vm.mem|
    && (forall l2: nat, k2: nat :: TableStays(vm, vm', r, l2, k2, UnderFirst(l, k, i, l2, k2)))
    && (forall p | 0 <= p < |vm.own| :: PageFirstFreed(vm, vm', r, l, k, i, pg, p))
    && (forall j | 0 <= j < NPTE :: vm'.mem[pg][j] == if j < i then 0 else vm.mem[pg][j])
  }

  ghost predicate PageFreed(vm: Vm, vm': Vm, r: nat, l: nat, k: nat, p: nat)
    requires p < |vm.own| == |vm.mem| == |vm'.own| == |vm'.mem|
  {
    if vm.own[p].Table? && vm.own[p].root == r && Under(l, k, vm.own[p].level, vm.own[p].key) then vm'.own[p].Unused?
    else vm'.own[p] == vm.own[p] && vm'.mem[p] == vm.mem[p]
  }

  /** freewalk has freed table (l, k) of space r and every table below it, and nothing else. */
  ghost predicate Freed(vm: Vm, vm': Vm, r: nat, l: nat, k: nat) {
    && OthersSame(vm, vm', r) && r in vm.trees
    && (l == 2 ==> r !in vm'.trees)
    && (l < 2 ==> r in vm'.trees && forall l2: nat, k2: nat :: TableStays(vm, vm', r, l2, k2, Under(l, k, l2, k2)))
    && (forall p | 0 <= p < |vm.own| :: PageFreed(vm, vm', r, l, k, p))
  }

  lemma NothingFreed(vm: Vm, r: nat, l: nat, k: nat, pg: nat)
    requires |vm.own| == |vm.mem| && r in vm.trees && pg < |vm.mem|
    ensures FirstFreed(vm, vm, r, l, k, 0, pg)
  {
  }

  /** An entry that is 0 has no table below it. */
  lemma SkipEntry(vm: Vm, vm1: Vm, lo: nat, r: nat, l: nat, k: nat, i: nat, pg: nat)
    requires FirstFreed(vm, vm1, r, l, k, i, pg) && i < NPTE && Inv(vm, lo) && l <= 2
    requires (l, k) in vm.trees[r] && vm.trees[r][(l, k)] == pg && vm.mem[pg][i] == 0
    ensures FirstFreed(vm, vm1, r, l, k, i + 1, pg)
  {
    var i' := i + 1;
    forall l2: nat, k2: nat ensures TableStays(vm, vm1, r, l2, k2, UnderFirst(l, k, i', l2, k2)) {
      assert TableStays(vm, vm1, r, l2, k2, UnderFirst(l, k, i, l2, k2));
      if (l2, k2) in vm.trees[r] { NotUnderZero(vm, lo, r, l, k, i, pg, l2, k2); }
    }
    forall p | 0 <= p < |vm.own| ensures PageFirstFreed(vm, vm1, r, l, k, i', pg, p) {
      assert InvBut(vm, lo, None);
      assert PageOk(vm, p) && PageFirstFreed(vm, vm1, r, l, k, i, pg, p);
      if vm.own[p].Table? && vm.own[p].root == r { NotUnderZero(vm, lo, r, l, k, i, pg, vm.own[p].level, vm.own[p].key); }
    }
  }

  lemma NotUnderZero(vm: Vm, lo: nat, r: nat, l: nat, k: nat, i: nat, pg: nat, l2: nat, k2: nat)
    requires Inv(vm, lo) && r in vm.trees && (l, k) in vm.trees[r] && vm.trees[r][(l, k)] == pg && i < NPTE && l <= 2
    requires pg < |vm.mem| && vm.mem[pg][i] == 0 && (l2, k2) in vm.trees[r]
    ensures UnderFirst(l, k, i + 1, l2, k2) <==> UnderFirst(l, k, i, l2, k2)
  {
    assert InvBut(vm, lo, None);
    if 1 <= l {
      UnderKids(l, k, i, l2, k2);
      assert EntryOk(vm, r, l, k, i);
      if l2 <= l - 1 { AboveIn(vm, lo, None, r, l2, k2, l - 1); }
    }
  }

  lemma TableStaysJoin(vm: Vm, vm1: Vm, vm2: Vm, r: nat, l2: nat, k2: nat, g1: bool, g2: bool)
    requires r in vm.trees && r in vm1.trees && r in vm2.trees
    requires TableStays(vm, vm1, r, l2, k2, g1) && TableStays(vm1, vm2, r, l2, k2, g2)
    ensures TableStays(vm, vm2, r, l2, k2, g1 || g2)
  {
  }

  /** freewalk of the table below entry i, and the entry's clearing. */
  lemma KidFreed(vm: Vm, vm1: Vm, vm2: Vm, vm3: Vm, r: nat, l: nat, k: nat, i: nat, pg: nat)
    requires FirstFreed(vm, vm1, r, l, k, i, pg) && 1 <= l <= 2 && i < NPTE
    requires pg < |vm.own| && vm.own[pg] == Table(r, l, k)
    requires Freed(vm1, vm2, r, l - 1, k * NPTE + i) && pg < |vm2.mem|
    requires vm3 == vm2.(mem := vm2.mem[pg := vm2.mem[pg][i := 0]]) && SameFlat(vm2, vm3)
    ensures FirstFreed(vm, vm3, r, l, k, i + 1, pg)
  {
    var i', kid := i + 1, k * NPTE + i;
    forall l2: nat, k2: nat ensures TableStays(vm, vm3, r, l2, k2, UnderFirst(l, k, i', l2, k2)) {
      assert TableStays(vm, vm1, r, l2, k2, UnderFirst(l, k, i, l2, k2));
      assert TableStays(vm1, vm2, r, l2, k2, Under(l - 1, kid, l2, k2));
      TableStaysJoin(vm, vm1, vm2, r, l2, k2, UnderFirst(l, k, i, l2, k2), Under(l - 1, kid, l2, k2));
      UnderKids(l, k, i, l2, k2);
    }
    UnderKids(l, k, i, l, k);
    assert PageFirstFreed(vm, vm1, r, l, k, i, pg, pg) && PageFreed(vm1, vm2, r, l - 1, kid, pg);
    forall p | 0 <= p < |vm.own| ensures PageFirstFreed(vm, vm3, r, l, k, i', pg, p) {
      assert PageFirstFreed(vm, vm1, r, l, k, i, pg, p) && PageFreed(vm1, vm2, r, l - 1, kid, p);
      if vm.own[p].Table? { UnderKids(l, k, i, vm.own[p].level, vm.own[p].key); }
    }
    forall r': nat, v: nat ensures Flat(vm3, r', v) == Flat(vm, r', v) {
      assert Flat(vm3, r', v) == Flat(vm2, r', v) && Flat(vm2, r', v) == Flat(vm1, r', v);
    }
  }

  /** After the loop the table itself goes. */
  lemma TableFreed(vm: Vm, vm1: Vm, vm2: Vm, r: nat, l: nat, k: nat, pg: nat)
    requires FirstFreed(vm, vm1, r, l, k, NPTE, pg) && l <= 2
    requires vm.own[pg] == Table(r, l, k) && (l, k) in vm1.trees[r] && vm1.trees[r][(l, k)] == pg
    requires forall p | 0 <= p < |vm.own| && p != pg :: vm.own[p] != Table(r, l, k)
    requires pg < |vm1.own| && vm2 == Pushed(Dropped(vm1, r, l, k), pg)
    requires SameFlat(vm1, vm2)
    ensures Freed(vm, vm2, r, l, k)
  {
    forall l2: nat, k2: nat | l < 2 ensures TableStays(vm, vm2, r, l2, k2, Under(l, k, l2, k2)) {
      assert TableStays(vm, vm1, r, l2, k2, UnderFirst(l, k, NPTE, l2, k2));
      UnderAll(l, k, l2, k2);
    }
    forall p | 0 <= p < |vm.own| ensures PageFreed(vm, vm2, r, l, k, p) {
      assert PageFirstFreed(vm, vm1, r, l, k, NPTE, pg, p);
      if vm.own[p].Table? { UnderAll(l, k, vm.own[p].level, vm.own[p].key); }
    }
    forall r': nat, v: nat ensures Flat(vm2, r', v) == Flat(vm, r', v) {
      assert Flat(vm2, r', v) == Flat(vm1, r', v);
    }
  }

  lemma UnderAll(l: nat, k: nat, l2: nat, k2: nat)
    ensures Under(l, k, l2, k2) <==> UnderFirst(l, k, NPTE, l2, k2) || (l2 == l && k2 == k)
  {
    if l2 < l { AboveStep(l2, k2, l); }
  }

  lemma TableFacts(vm: Vm, lo: nat, r: nat, l: nat, k: nat)
    requires Inv(vm, lo) && r in vm.trees && (l, k) in vm.trees[r]
    ensures var pg := vm.trees[r][(l, k)];
            && lo <= pg < |vm.mem| && vm.own[pg] == Table(r, l, k)
            && forall p | 0 <= p < |vm.own| && p != pg :: vm.own[p] != Table(r, l, k)
  {
    assert InvBut(vm, lo, None);
    assert TableOk(vm, r, l, k);
    forall p | 0 <= p < |vm.own| && p != vm.trees[r][(l, k)] ensures vm.own[p] != Table(r, l, k) {
      assert PageOk(vm, p);
    }
  }

  /** An entry that freewalk finds: 0, a leaf, or the table below. */
  lemma EntryFacts(vm: Vm, lo: nat, r: nat, l: nat, k: nat, i: nat)
    requires Inv(vm, lo) && r in vm.trees && (l, k) in vm.trees[r] && l <= 2 && i < NPTE
    requires vm.trees[r][(l, k)] < |vm.mem| && (forall v :: Flat(vm, r, v) == 0)
    ensures var e := vm.mem[vm.trees[r][(l, k)]][i];
            if IsValid(e) then !IsLeaf(e) && l >= 1 && (l - 1, k * NPTE + i) in vm.trees[r] && vm.trees[r][(l - 1, k * NPTE + i)] == PtePage(e)
            else e == 0
  {
    assert InvBut(vm, lo, None);
    assert EntryOk(vm, r, l, k, i);
    if l == 0 {
      var v := k * NPTE + i;
      KidIndex(k, i, k, i);
      assert v / NPTE == k && v % NPTE == i;
      assert Flat(vm, r, v) == 0;
    } else if (l - 1, k * NPTE + i) in vm.trees[r] {
      PteRoundTrip(vm.trees[r][(l - 1, k * NPTE + i)], PTE_V);
    }
  }

  lemma PushedFlat(vm: Vm, vm1: Vm, vm2: Vm)
    requires SameFlat(vm, vm1) && SameTables(vm1, vm2)
    ensures SameFlat(vm, vm2)
  {
    forall r: nat, v: nat ensures Flat(vm2, r, v) == Flat(vm, r, v) {
      SameTablesFlat(vm1, vm2, r, v);
      assert Flat(vm1, r, v) == Flat(vm, r, v);
    }
  }

  /** After freewalk of the table below entry i, clearing the entry restores the invariant. */
  lemma KidGone(vm1: Vm, vm2: Vm, lo: nat, r: nat, l: nat, k: nat, i: nat, pg: nat)
    requires 1 <= l <= 2 && i < NPTE && InvBut(vm2, lo, Dangling(r, l - 1, k * NPTE + i))
    requires Freed(vm1, vm2, r, l - 1, k * NPTE + i)
    requires (l, k) in vm1.trees[r] && vm1.trees[r][(l, k)] == pg && pg < |vm2.mem|
    ensures var vm3 := vm2.(mem := vm2.mem[pg := vm2.mem[pg][i := 0]]);
            Inv(vm3, lo) && SameFlat(vm2, vm3)
  {
    KidIndex(k, i, k, i);
    assert TableStays(vm1, vm2, r, l, k, Under(l - 1, k * NPTE + i, l, k));
    assert TableStays(vm1, vm2, r, l - 1, k * NPTE + i, Under(l - 1, k * NPTE + i, l - 1, k * NPTE + i));
    EntryClearedInv(vm2, lo, r, l, k, i);
  }
}
