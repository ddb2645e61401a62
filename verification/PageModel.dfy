/** Physical memory as kernel/kalloc.c and kernel/vm.c use it: pages of 512 words, a free list
    threaded through the free pages, and Sv39 page tables (section 4.4 of the RISC-V
    Privileged Architecture specification).  Who owns each page is recorded beside them. */
module PageModel {
  import opened Options

  const PGSIZE := 4096
  const MAXVPN := 0x400_0000        // MAXVA / PGSIZE
  const NPTE := 512

  const PTE_V := 1
  const PTE_R := 2
  const PTE_W := 4
  const PTE_X := 8
  const PTE_U := 16

  type Page = p: seq<nat> | |p| == NPTE witness seq(NPTE, _ => 0)

  function Filled(w: nat): (p: Page) {
    seq(NPTE, _ => w)
  }

  // ---------------------------------------------------------------- page table entries

  /** PA2PTE(pa) | flags | PTE_V, for the physical page p. */
  function MakePte(p: nat, flags: nat): (pte: nat)
    requires flags < 1024
  {
    p * 1024 + (if flags % 2 == 1 then flags else flags + 1)
  }

  function PteFlags(pte: nat): (f: nat) {
    pte % 1024
  }

  /** The page number of PTE2PA(pte). */
  function PtePage(pte: nat): (p: nat) {
    pte / 1024
  }

  predicate IsValid(pte: nat) {
    pte % 2 == 1
  }

  /** Some of PTE_R, PTE_W and PTE_X is set. */
  predicate IsLeaf(pte: nat) {
    pte / 2 % 8 != 0
  }

  /** The PA2PTE and PTE2PA macros undo each other and keep the flags apart. */
  lemma PteRoundTrip(p: nat, flags: nat)
    requires flags < 1024
    ensures var pte := MakePte(p, flags);
            && PtePage(pte) == p && IsValid(pte)
            && PteFlags(pte) == (if flags % 2 == 1 then flags else flags + 1)
            && (IsLeaf(pte) <==> flags / 2 % 8 != 0)
  {
    FlagBits(p, if flags % 2 == 1 then flags else flags + 1);
  }

  lemma FlagBits(q: nat, f: nat)
    requires f < 1024
    ensures (q * 1024 + f) / 1024 == q && (q * 1024 + f) % 1024 == f
    ensures (q * 1024 + f) / 2 % 8 == f / 2 % 8 && (q * 1024 + f) % 2 == f % 2
  {
    HalfOf(q, f);
    EighthOf(q, f / 2);
  }

  lemma HalfOf(q: nat, f: nat)
    ensures (q * 1024 + f) / 2 == q * 512 + f / 2 && (q * 1024 + f) % 2 == f % 2
  {
  }

  lemma EighthOf(q: nat, h: nat)
    ensures (q * 512 + h) % 8 == h % 8
  {
  }

  // ---------------------------------------------------------------- indices

  /** PX(level, va) for the virtual page v. */
  function Px(level: nat, v: nat): (i: nat)
    requires level <= 2
    ensures i < NPTE
  {
    if level == 0 then v % NPTE else if level == 1 then v / NPTE % NPTE else v / NPTE / NPTE % NPTE
  }

  /** Which table of a level serves the virtual page v. */
  function Key(level: nat, v: nat): (k: nat)
    requires level <= 2
  {
    if level == 0 then v / NPTE else if level == 1 then v / NPTE / NPTE else v / NPTE / NPTE / NPTE
  }

  /** The shifts of the PX macro, on the address. */
  lemma PxOfAddress(va: nat)
    ensures Px(0, va / PGSIZE) == va / 0x1000 % 512
    ensures Px(1, va / PGSIZE) == va / 0x20_0000 % 512
    ensures Px(2, va / PGSIZE) == va / 0x4000_0000 % 512
  {
    assert va / 0x1000 / 512 == va / 0x20_0000;
    assert va / 0x20_0000 / 512 == va / 0x4000_0000;
  }

  /** The three indices determine the page, below MAXVA. */
  lemma PxInjective(v: nat, w: nat)
    requires v < MAXVPN && w < MAXVPN
    requires forall level | 0 <= level <= 2 :: Px(level, v) == Px(level, w)
    ensures v == w
  {
    assert Px(0, v) == Px(0, w) && Px(1, v) == Px(1, w) && Px(2, v) == Px(2, w);
    assert v / NPTE / NPTE < NPTE && w / NPTE / NPTE < NPTE;
    assert v / NPTE == w / NPTE;
  }

  lemma KeyStep(level: nat, v: nat)
    requires 1 <= level <= 2
    ensures Key(level - 1, v) == Key(level, v) * NPTE + Px(level, v)
    ensures v < MAXVPN ==> Key(2, v) == 0
  {
  }

  // ---------------------------------------------------------------- ownership

  /** A page is outside the allocator's range, taken by some caller of kalloc, at position
      `pos` of the free list, a page table, or the user page at virtual page `vpn`. */
  datatype Owner =
    | Kernel
    | Taken
    | Unused(pos: nat)
    | Table(root: nat, level: nat, key: nat)
    | Data(root: nat, vpn: nat)

  /** The tables of an address space by level and key; (2, 0) is the root. */
  type Tables = map<(nat, nat), nat>

  function WithTable(t: Tables, l: nat, k: nat, p: nat): (t': Tables) {
    var at: (nat, nat) := (l, k);
    var entry: map<(nat, nat), nat> := map[at := p];
    t + entry
  }

  /** `free` is the free list, its head last. */
  datatype Vm = Vm(mem: seq<Page>, free: seq<nat>, own: seq<Owner>, trees: map<nat, Tables>)

  /** What the flat map of address space r says of virtual page v: an entry, or 0. */
  ghost function Flat(vm: Vm, r: nat, v: nat): (pte: nat) {
    if r in vm.trees && (0, v / NPTE) in vm.trees[r] && vm.trees[r][(0, v / NPTE)] < |vm.mem|
    then vm.mem[vm.trees[r][(0, v / NPTE)]][v % NPTE] else 0
  }

  ghost predicate PageOk(vm: Vm, p: nat)
    requires |vm.own| == |vm.mem| && p < |vm.mem|
  {
    match vm.own[p]
    case Unused(k) => k < |vm.free| && vm.free[k] == p && vm.mem[p][0] == if k == 0 then 0 else vm.free[k - 1] * PGSIZE
    case Table(r, l, k) => r in vm.trees && (l, k) in vm.trees[r] && vm.trees[r][(l, k)] == p
    case Data(r, v) => r in vm.trees && v < MAXVPN && IsValid(Flat(vm, r, v)) && PtePage(Flat(vm, r, v)) == p
    case _ => true
  }

  ghost predicate FreeOk(vm: Vm, k: nat)
    requires k < |vm.free|
  {
    vm.free[k] < |vm.own| && vm.own[vm.free[k]] == Unused(k)
  }

  ghost predicate TableOk(vm: Vm, r: nat, l: nat, k: nat)
    requires r in vm.trees && (l, k) in vm.trees[r]
  {
    var p := vm.trees[r][(l, k)];
    && l <= 2 && p < |vm.own| && vm.own[p] == Table(r, l, k)
    && (l == 2 ==> k == 0 && p == r)
    && (l < 2 ==> (l + 1, k / NPTE) in vm.trees[r])
  }

  /** Entry i of a table: below the leaves it is 0 or points to the table for its index. */
  ghost predicate EntryOk(vm: Vm, r: nat, l: nat, k: nat, i: nat)
    requires r in vm.trees && (l, k) in vm.trees[r] && i < NPTE
  {
    var p := vm.trees[r][(l, k)];
    p < |vm.mem| &&
    var e := vm.mem[p][i];
    if l == 0 then e == 0 || (IsValid(e) && IsLeaf(e))
    else e == if (l - 1, k * NPTE + i) in vm.trees[r] then MakePte(vm.trees[r][(l - 1, k * NPTE + i)], PTE_V) else 0
  }

  /** Pages from `lo` on belong to the allocator. */
  ghost predicate Shape(vm: Vm, lo: nat) {
    && 0 < lo && |vm.own| == |vm.mem|
    && (forall r | r in vm.trees :: (2, 0) in vm.trees[r])
    && (forall p | 0 <= p < |vm.own| :: vm.own[p] == Kernel <==> p < lo)
  }

  /** Everything but the table entry at `x`, which freewalk is about to clear. */
  ghost predicate InvBut(vm: Vm, lo: nat, x: Option<(nat, nat, nat, nat)>) {
    && Shape(vm, lo)
    && (forall p | 0 <= p < |vm.mem| :: PageOk(vm, p))
    && (forall k | 0 <= k < |vm.free| :: FreeOk(vm, k))
    && (forall r, l, k {:trigger TableOk(vm, r, l, k)} | r in vm.trees && (l, k) in vm.trees[r] :: TableOk(vm, r, l, k))
    && (forall r, l, k, i: nat {:trigger EntryOk(vm, r, l, k, i)} | r in vm.trees && (l, k) in vm.trees[r] && i < NPTE && Some((r, l, k, i)) != x ::
          EntryOk(vm, r, l, k, i))
  }

  /** The invariant, kept folded. */
  ghost predicate Inv(vm: Vm, lo: nat) {
    |vm.own| == |vm.mem| && forall x | x == None :: InvBut(vm, lo, x)
  }

  // ---------------------------------------------------------------- the allocator

  const JUNK_FREED := 0x0101_0101_0101_0101
  const JUNK_TAKEN := 0x0505_0505_0505_0505

  /** kalloc, when a page is free. */
  ghost function Popped(vm: Vm): (vm': Vm)
    requires 0 < |vm.free| && vm.free[|vm.free| - 1] < |vm.mem| && |vm.own| == |vm.mem|
  {
    var p := vm.free[|vm.free| - 1];
    vm.(free := vm.free[..|vm.free| - 1], own := vm.own[p := Taken], mem := vm.mem[p := Filled(JUNK_TAKEN)])
  }

  /** kfree of page p. */
  ghost function Pushed(vm: Vm, p: nat): (vm': Vm)
    requires p < |vm.mem| == |vm.own|
  {
    var n := |vm.free|;
    vm.(free := vm.free + [p], own := vm.own[p := Unused(n)],
        mem := vm.mem[p := Filled(JUNK_FREED)[0 := if n == 0 then 0 else vm.free[n - 1] * PGSIZE]])
  }

  /** The tables of vm are those of vm', entry by entry. */
  ghost predicate SameTables(vm: Vm, vm': Vm) {
    && vm'.trees == vm.trees && |vm'.mem| == |vm.mem|
    && forall r, l, k | r in vm.trees && (l, k) in vm.trees[r] && vm.trees[r][(l, k)] < |vm.mem| ::
         vm'.mem[vm.trees[r][(l, k)]] == vm.mem[vm.trees[r][(l, k)]]
  }

  lemma SameTablesFlat(vm: Vm, vm': Vm, r: nat, v: nat)
    requires SameTables(vm, vm')
    ensures Flat(vm', r, v) == Flat(vm, r, v)
  {
    if r in vm.trees && (0, v / NPTE) in vm.trees[r] && vm.trees[r][(0, v / NPTE)] < |vm.mem| { }
  }

  /** Only page p changes hands, and it is no table before or after. */
  lemma OtherPageKeepsTables(vm: Vm, vm': Vm, lo: nat, x: Option<(nat, nat, nat, nat)>, p: nat)
    requires InvBut(vm, lo, x) && p < |vm.mem| && !vm.own[p].Table?
    requires vm'.trees == vm.trees && |vm'.mem| == |vm'.own| == |vm.mem| && !vm'.own[p].Table?
    requires forall q | 0 <= q < |vm.mem| && q != p :: vm'.mem[q] == vm.mem[q] && vm'.own[q] == vm.own[q]
    ensures SameTables(vm, vm')
    ensures forall r, l, k | r in vm'.trees && (l, k) in vm'.trees[r] :: TableOk(vm', r, l, k)
    ensures forall r, l, k, i: nat | r in vm'.trees && (l, k) in vm'.trees[r] && i < NPTE && Some((r, l, k, i)) != x ::
              EntryOk(vm', r, l, k, i)
  {
    forall r, l, k | r in vm.trees && (l, k) in vm.trees[r]
      ensures TableOk(vm', r, l, k) && vm.trees[r][(l, k)] != p && vm'.mem[vm.trees[r][(l, k)]] == vm.mem[vm.trees[r][(l, k)]]
    {
      assert TableOk(vm, r, l, k);
    }
    forall r, l, k, i: nat | r in vm'.trees && (l, k) in vm'.trees[r] && i < NPTE && Some((r, l, k, i)) != x
      ensures EntryOk(vm', r, l, k, i)
    {
      assert EntryOk(vm, r, l, k, i);
    }
  }

  lemma PoppedInv(vm: Vm, lo: nat)
    requires Inv(vm, lo) && 0 < |vm.free|
    ensures FreeOk(vm, |vm.free| - 1) && vm.free[|vm.free| - 1] < |vm.mem|
    ensures Inv(Popped(vm), lo) && SameTables(vm, Popped(vm)) && vm.free[|vm.free| - 1] >= lo
  {
    assert InvBut(vm, lo, None);
    var n := |vm.free| - 1;
    assert FreeOk(vm, n);
    var p := vm.free[n];
    var vm' := Popped(vm);
    OtherPageKeepsTables(vm, vm', lo, None, p);
    forall q | 0 <= q < |vm.mem| ensures PageOk(vm', q) {
      assert PageOk(vm, q);
      if vm.own[q].Data? { SameTablesFlat(vm, vm', vm.own[q].root, vm.own[q].vpn); }
    }
    forall k | 0 <= k < n ensures FreeOk(vm', k) {
      assert FreeOk(vm, k);
    }
  }

  /** What kalloc reads: the page at the head and the address of the next one. */
  lemma HeadOk(vm: Vm, lo: nat)
    requires Inv(vm, lo) && 0 < |vm.free|
    ensures var n := |vm.free| - 1;
            && 0 < vm.free[n] < |vm.mem|
            && vm.mem[vm.free[n]][0] == if n == 0 then 0 else vm.free[n - 1] * PGSIZE
  {
    assert InvBut(vm, lo, None);
    var n := |vm.free| - 1;
    assert FreeOk(vm, n) && PageOk(vm, vm.free[n]);
  }

  lemma PushedInv(vm: Vm, lo: nat, x: Option<(nat, nat, nat, nat)>, p: nat)
    requires InvBut(vm, lo, x) && p < |vm.mem| && (vm.own[p].Taken? || vm.own[p].Data?)
    ensures InvBut(Pushed(vm, p), lo, x) && SameTables(vm, Pushed(vm, p))
  {
    var vm' := Pushed(vm, p);
    OtherPageKeepsTables(vm, vm', lo, x, p);
    forall q | 0 <= q < |vm.mem| ensures PageOk(vm', q) {
      assert PageOk(vm, q);
      if vm.own[q].Data? { SameTablesFlat(vm, vm', vm.own[q].root, vm.own[q].vpn); }
    }
    forall k | 0 <= k < |vm'.free| ensures FreeOk(vm', k) {
      if k < |vm.free| { assert FreeOk(vm, k); }
    }
  }

  // ---------------------------------------------------------------- building tables

  /** uvmcreate: the zeroed page p becomes a root. */
  ghost function Rooted(vm: Vm, p: nat): (vm': Vm)
    requires p < |vm.own|
  {
    vm.(own := vm.own[p := Table(p, 2, 0)], trees := vm.trees[p := WithTable(map[], 2, 0, p)])
  }

  lemma RootedInv(vm: Vm, lo: nat, p: nat)
    requires Inv(vm, lo) && p < |vm.mem| && vm.own[p] == Taken && vm.mem[p] == Filled(0)
    ensures Inv(Rooted(vm, p), lo) && p !in vm.trees
    ensures forall r, v | r != p :: Flat(Rooted(vm, p), r, v) == Flat(vm, r, v)
    ensures forall v :: Flat(Rooted(vm, p), p, v) == 0
  {
    assert InvBut(vm, lo, None);
    var vm' := Rooted(vm, p);
    assert p !in vm.trees by {
      assert p in vm.trees ==> TableOk(vm, p, 2, 0);
    }
    forall q | 0 <= q < |vm.mem| ensures PageOk(vm', q) {
      assert PageOk(vm, q);
    }
    forall k | 0 <= k < |vm.free| ensures FreeOk(vm', k) {
      assert FreeOk(vm, k);
    }
    forall r, l, k | r in vm'.trees && (l, k) in vm'.trees[r] ensures TableOk(vm', r, l, k) {
      if r != p { assert TableOk(vm, r, l, k); }
    }
    forall r, l, k, i: nat | r in vm'.trees && (l, k) in vm'.trees[r] && i < NPTE ensures EntryOk(vm', r, l, k, i) {
      if r != p { assert EntryOk(vm, r, l, k, i); }
    }
  }

  /** walk's allocation: the zeroed page p becomes the table below entry i of table (l, k). */
  ghost function Extended(vm: Vm, r: nat, l: nat, k: nat, i: nat, p: nat): (vm': Vm)
    requires r in vm.trees && (l, k) in vm.trees[r] && 1 <= l && i < NPTE && p < |vm.own| == |vm.mem|
    requires vm.trees[r][(l, k)] < |vm.mem|
  {
    var up := vm.trees[r][(l, k)];
    var kid := k * NPTE + i;
    vm.(own := vm.own[p := Table(r, l - 1, kid)],
        trees := vm.trees[r := WithTable(vm.trees[r], l - 1, kid, p)],
        mem := vm.mem[up := vm.mem[up][i := MakePte(p, PTE_V)]])
  }

  /** What walk needs to know before it allocates the table below entry i. */
  ghost predicate Extendable(vm: Vm, lo: nat, r: nat, l: nat, k: nat, i: nat, p: nat) {
    && Inv(vm, lo) && r in vm.trees && (l, k) in vm.trees[r] && 1 <= l <= 2 && i < NPTE
    && (l - 1, k * NPTE + i) !in vm.trees[r]
    && vm.trees[r][(l, k)] < |vm.mem|
    && p < |vm.mem| && vm.own[p] == Taken && vm.mem[p] == Filled(0)
  }

  lemma ExtendedFlat(vm: Vm, lo: nat, r: nat, l: nat, k: nat, i: nat, p: nat, r': nat, v: nat)
    requires Extendable(vm, lo, r, l, k, i, p)
    ensures Flat(Extended(vm, r, l, k, i, p), r', v) == Flat(vm, r', v)
  {
    assert InvBut(vm, lo, None);
    assert TableOk(vm, r, l, k);
    if r' in vm.trees && (0, v / NPTE) in vm.trees[r'] {
      assert TableOk(vm, r', 0, v / NPTE);
    }
  }

  lemma KidIndex(k: nat, i: nat, k': nat, i': nat)
    requires i < NPTE && i' < NPTE && k * NPTE + i == k' * NPTE + i'
    ensures k == k' && i == i' && (k * NPTE + i) / NPTE == k
  {
  }

  lemma ExtendedTables(vm: Vm, lo: nat, r: nat, l: nat, k: nat, i: nat, p: nat)
    requires Extendable(vm, lo, r, l, k, i, p)
    ensures var vm' := Extended(vm, r, l, k, i, p);
            && (forall r', l', k' | r' in vm'.trees && (l', k') in vm'.trees[r'] :: TableOk(vm', r', l', k'))
            && (forall r', l', k', i': nat | r' in vm'.trees && (l', k') in vm'.trees[r'] && i' < NPTE :: EntryOk(vm', r', l', k', i'))
  {
    assert InvBut(vm, lo, None);
    var vm' := Extended(vm, r, l, k, i, p);
    assert TableOk(vm, r, l, k);
    KidIndex(k, i, k, i);
    forall r', l', k' | r' in vm'.trees && (l', k') in vm'.trees[r'] ensures TableOk(vm', r', l', k') {
      if r' != r || (l', k') != (l - 1, k * NPTE + i) { assert TableOk(vm, r', l', k'); }
    }
    forall r', l', k', i': nat | r' in vm'.trees && (l', k') in vm'.trees[r'] && i' < NPTE
      ensures EntryOk(vm', r', l', k', i')
    {
      if r' == r && (l', k') == (l - 1, k * NPTE + i) {
        NewTableEntry(vm, lo, r, l, k, i, p, i');
      } else {
        OldTableEntry(vm, lo, r, l, k, i, p, r', l', k', i');
      }
    }
  }

  lemma NewTableEntry(vm: Vm, lo: nat, r: nat, l: nat, k: nat, i: nat, p: nat, i': nat)
    requires Extendable(vm, lo, r, l, k, i, p) && i' < NPTE
    ensures EntryOk(Extended(vm, r, l, k, i, p), r, l - 1, k * NPTE + i, i')
  {
    assert InvBut(vm, lo, None);
    assert TableOk(vm, r, l, k);
    var kid := k * NPTE + i;
    if l == 2 && (0, kid * NPTE + i') in vm.trees[r] {
      assert TableOk(vm, r, 0, kid * NPTE + i');
      KidIndex(kid, i', kid, i');
    }
  }

  lemma OldTableEntry(vm: Vm, lo: nat, r: nat, l: nat, k: nat, i: nat, p: nat, r': nat, l': nat, k': nat, i': nat)
    requires Extendable(vm, lo, r, l, k, i, p) && r' in vm.trees && (l', k') in vm.trees[r'] && i' < NPTE
    ensures EntryOk(Extended(vm, r, l, k, i, p), r', l', k', i')
  {
    assert InvBut(vm, lo, None);
    assert TableOk(vm, r, l, k) && TableOk(vm, r', l', k') && EntryOk(vm, r', l', k', i');
    if l' == l && k' * NPTE + i' == k * NPTE + i {
      KidIndex(k, i, k', i');
    }
  }

  lemma ExtendedInv(vm: Vm, lo: nat, r: nat, l: nat, k: nat, i: nat, p: nat)
    requires Extendable(vm, lo, r, l, k, i, p)
    ensures Inv(Extended(vm, r, l, k, i, p), lo)
  {
    assert InvBut(vm, lo, None);
    var vm' := Extended(vm, r, l, k, i, p);
    assert TableOk(vm, r, l, k);
    forall q | 0 <= q < |vm.mem| ensures PageOk(vm', q) {
      assert PageOk(vm, q);
      if vm.own[q].Data? { ExtendedFlat(vm, lo, r, l, k, i, p, vm.own[q].root, vm.own[q].vpn); }
    }
    forall k | 0 <= k < |vm.free| ensures FreeOk(vm', k) {
      assert FreeOk(vm, k);
    }
    ExtendedTables(vm, lo, r, l, k, i, p);
  }

  // ---------------------------------------------------------------- leaf entries

  /** `*pte = e` for the leaf entry of virtual page v. */
  ghost function LeafSet(vm: Vm, r: nat, v: nat, e: nat): (vm': Vm)
    requires r in vm.trees && (0, v / NPTE) in vm.trees[r] && vm.trees[r][(0, v / NPTE)] < |vm.mem|
  {
    var t := vm.trees[r][(0, v / NPTE)];
    vm.(mem := vm.mem[t := vm.mem[t][v % NPTE := e]])
  }

  /** A leaf entry is written: the flat map changes at that page of that space only. */
  lemma LeafSetInv(vm: Vm, lo: nat, r: nat, v: nat, e: nat)
    requires Inv(vm, lo) && r in vm.trees && (0, v / NPTE) in vm.trees[r] && v < MAXVPN
    requires e == 0 || (IsValid(e) && IsLeaf(e))
    requires forall p | 0 <= p < |vm.own| :: vm.own[p] != Data(r, v)
    ensures TableOk(vm, r, 0, v / NPTE) && vm.trees[r][(0, v / NPTE)] < |vm.mem|
    ensures Inv(LeafSet(vm, r, v, e), lo)
    ensures forall r', v' :: Flat(LeafSet(vm, r, v, e), r', v') == if r' == r && v' == v then e else Flat(vm, r', v')
  {
    assert InvBut(vm, lo, None);
    assert TableOk(vm, r, 0, v / NPTE);
    var vm' := LeafSet(vm, r, v, e);
    forall r', v' ensures Flat(vm', r', v') == if r' == r && v' == v then e else Flat(vm, r', v') {
      LeafSetFlat(vm, lo, r, v, e, r', v');
    }
    forall q | 0 <= q < |vm.mem| ensures PageOk(vm', q) {
      assert PageOk(vm, q);
    }
    forall k | 0 <= k < |vm.free| ensures FreeOk(vm', k) {
      assert FreeOk(vm, k);
    }
    forall r', l, k | r' in vm'.trees && (l, k) in vm'.trees[r'] ensures TableOk(vm', r', l, k) {
      assert TableOk(vm, r', l, k);
    }
    forall r', l, k, i: nat | r' in vm'.trees && (l, k) in vm'.trees[r'] && i < NPTE ensures EntryOk(vm', r', l, k, i) {
      assert TableOk(vm, r', l, k) && EntryOk(vm, r', l, k, i);
    }
  }

  lemma LeafSetFlat(vm: Vm, lo: nat, r: nat, v: nat, e: nat, r': nat, v': nat)
    requires Inv(vm, lo) && r in vm.trees && (0, v / NPTE) in vm.trees[r] && vm.trees[r][(0, v / NPTE)] < |vm.mem|
    ensures Flat(LeafSet(vm, r, v, e), r', v') == if r' == r && v' == v then e else Flat(vm, r', v')
  {
    assert InvBut(vm, lo, None);
    assert TableOk(vm, r, 0, v / NPTE);
    if r' in vm.trees && (0, v' / NPTE) in vm.trees[r'] {
      assert TableOk(vm, r', 0, v' / NPTE);
    }
  }

  /** The page that backs a mapping is handed over to the address space. */
  lemma GivenInv(vm: Vm, lo: nat, r: nat, v: nat, p: nat)
    requires Inv(vm, lo) && r in vm.trees && v < MAXVPN && p < |vm.own| && vm.own[p] == Taken
    requires IsValid(Flat(vm, r, v)) && PtePage(Flat(vm, r, v)) == p
    ensures Inv(vm.(own := vm.own[p := Data(r, v)]), lo)
    ensures SameTables(vm, vm.(own := vm.own[p := Data(r, v)]))
  {
    assert InvBut(vm, lo, None);
    var vm' := vm.(own := vm.own[p := Data(r, v)]);
    assert SameTables(vm, vm');
    forall q | 0 <= q < |vm.mem| ensures PageOk(vm', q) {
      assert PageOk(vm, q);
      if vm'.own[q].Data? { SameTablesFlat(vm, vm', vm'.own[q].root, vm'.own[q].vpn); }
    }
    forall k | 0 <= k < |vm'.free| ensures FreeOk(vm', k) {
      assert FreeOk(vm, k);
    }
    OtherPageKeepsTables(vm, vm', lo, None, p);
  }

  // ---------------------------------------------------------------- what operations leave alone

  /** Page p when address space r may only have taken free pages as tables. */
  ghost predicate PageGrew(vm: Vm, vm': Vm, r: nat, p: nat)
    requires p < |vm.own| == |vm.mem| == |vm'.own| == |vm'.mem|
  {
    if vm.own[p].Unused? then vm'.own[p].Unused? || (vm'.own[p].Table? && vm'.own[p].root == r)
    else vm'.own[p] == vm.own[p] && (!vm.own[p].Table? ==> vm'.mem[p] == vm.mem[p])
  }

  ghost predicate Grew(vm: Vm, vm': Vm, r: nat) {
    && |vm.own| == |vm.mem| == |vm'.own| == |vm'.mem| && vm'.trees.Keys == vm.trees.Keys
    && forall p | 0 <= p < |vm.own| :: PageGrew(vm, vm', r, p)
  }

  ghost predicate SameFlat(vm: Vm, vm': Vm) {
    forall r, v :: Flat(vm', r, v) == Flat(vm, r, v)
  }

  lemma GrewSame(vm: Vm, r: nat)
    requires |vm.own| == |vm.mem|
    ensures Grew(vm, vm, r)
  {
  }

  lemma GrewJoin(vm: Vm, vm1: Vm, vm2: Vm, r: nat)
    requires Grew(vm, vm1, r) && Grew(vm1, vm2, r)
    ensures Grew(vm, vm2, r)
  {
    forall p | 0 <= p < |vm.own| ensures PageGrew(vm, vm2, r, p) {
      assert PageGrew(vm, vm1, r, p) && PageGrew(vm1, vm2, r, p);
    }
  }

  /** Zeroing a page that kalloc has handed out. */
  lemma ZeroedInv(vm: Vm, lo: nat, p: nat, w: Page)
    requires Inv(vm, lo) && p < |vm.mem| && vm.own[p] == Taken
    ensures Inv(vm.(mem := vm.mem[p := w]), lo) && SameTables(vm, vm.(mem := vm.mem[p := w]))
  {
    assert InvBut(vm, lo, None);
    var vm' := vm.(mem := vm.mem[p := w]);
    OtherPageKeepsTables(vm, vm', lo, None, p);
    forall q | 0 <= q < |vm.mem| ensures PageOk(vm', q) {
      assert PageOk(vm, q);
      if vm.own[q].Data? { SameTablesFlat(vm, vm', vm.own[q].root, vm.own[q].vpn); }
    }
    forall k | 0 <= k < |vm.free| ensures FreeOk(vm', k) {
      assert FreeOk(vm, k);
    }
  }

  // ---------------------------------------------------------------- walking

  /** Table page p of space r serves virtual page v at this level. */
  ghost predicate Serves(vm: Vm, r: nat, level: nat, v: nat, p: nat) {
    level <= 2 && r in vm.trees && (level, Key(level, v)) in vm.trees[r] && vm.trees[r][(level, Key(level, v))] == p
  }

  lemma RootServes(vm: Vm, lo: nat, r: nat, v: nat)
    requires Inv(vm, lo) && r in vm.trees && v < MAXVPN
    ensures Serves(vm, r, 2, v, r)
  {
    assert InvBut(vm, lo, None);
    KeyStep(2, v);
    assert TableOk(vm, r, 2, 0);
  }

  /** The entry that walk reads tells whether there is a table below, and which. */
  lemma EntryLeads(vm: Vm, lo: nat, r: nat, level: nat, v: nat, p: nat)
    requires Inv(vm, lo) && 1 <= level && Serves(vm, r, level, v, p)
    ensures p < |vm.mem|
    ensures var e := vm.mem[p][Px(level, v)];
            && (IsValid(e) <==> (level - 1, Key(level - 1, v)) in vm.trees[r])
            && (IsValid(e) ==> Serves(vm, r, level - 1, v, PtePage(e)))
            && (!IsValid(e) ==> e == 0)
  {
    assert InvBut(vm, lo, None);
    KeyStep(level, v);
    assert TableOk(vm, r, level, Key(level, v));
    assert EntryOk(vm, r, level, Key(level, v), Px(level, v));
    if (level - 1, Key(level - 1, v)) in vm.trees[r] {
      PteRoundTrip(vm.trees[r][(level - 1, Key(level - 1, v))], PTE_V);
    }
  }

  /** A virtual page without a leaf table has no table at the levels its walk could not reach. */
  lemma NoTableBelow(vm: Vm, lo: nat, r: nat, level: nat, v: nat)
    requires Inv(vm, lo) && r in vm.trees && 1 <= level <= 2 && (level - 1, Key(level - 1, v)) !in vm.trees[r]
    ensures (0, v / NPTE) !in vm.trees[r]
  {
    assert InvBut(vm, lo, None);
    assert (0, v / NPTE) in vm.trees[r] ==> TableOk(vm, r, 0, v / NPTE);
  }

  /** kalloc, the memset to zero, and the new entry: the table below `level` for page v. */
  ghost function TableTaken(vm: Vm, r: nat, level: nat, v: nat): (vm': Vm)
    requires 0 < |vm.free| && vm.free[|vm.free| - 1] < |vm.mem| == |vm.own|
    requires 1 <= level <= 2 && r in vm.trees && (level, Key(level, v)) in vm.trees[r]
    requires vm.trees[r][(level, Key(level, v))] < |vm.mem|
  {
    var p := vm.free[|vm.free| - 1];
    Extended(Zeroed(Popped(vm), p), r, level, Key(level, v), Px(level, v), p)
  }

  ghost function Zeroed(vm: Vm, p: nat): (vm': Vm)
    requires p < |vm.mem|
  {
    vm.(mem := vm.mem[p := Filled(0)])
  }

  /** Before its entry is written, the new table is a zeroed page that kalloc handed out. */
  lemma TableReady(vm: Vm, lo: nat, r: nat, level: nat, v: nat, pg: nat)
    requires Inv(vm, lo) && 0 < |vm.free|
    requires 1 <= level && Serves(vm, r, level, v, pg) && (level - 1, Key(level - 1, v)) !in vm.trees[r]
    ensures vm.free[|vm.free| - 1] < |vm.mem| && pg < |vm.mem| && lo <= vm.free[|vm.free| - 1]
    ensures vm.own[vm.free[|vm.free| - 1]].Unused? && vm.own[pg] == Table(r, level, Key(level, v))
    ensures var p := vm.free[|vm.free| - 1];
            var vm2 := Zeroed(Popped(vm), p);
            && Extendable(vm2, lo, r, level, Key(level, v), Px(level, v), p)
            && SameTables(vm, vm2)
  {
    assert InvBut(vm, lo, None);
    var p := vm.free[|vm.free| - 1];
    KeyStep(level, v);
    assert FreeOk(vm, |vm.free| - 1) && TableOk(vm, r, level, Key(level, v));
    PoppedInv(vm, lo);
    ZeroedInv(Popped(vm), lo, p, Filled(0));
  }

  lemma TableTakenGrew(vm: Vm, lo: nat, r: nat, level: nat, v: nat, pg: nat)
    requires Inv(vm, lo) && 0 < |vm.free|
    requires 1 <= level && Serves(vm, r, level, v, pg) && (level - 1, Key(level - 1, v)) !in vm.trees[r]
    ensures vm.free[|vm.free| - 1] < |vm.mem| && pg < |vm.mem|
    ensures Grew(vm, TableTaken(vm, r, level, v), r)
  {
    TableReady(vm, lo, r, level, v, pg);
    KeyStep(level, v);
    var vm3 := TableTaken(vm, r, level, v);
    forall q | 0 <= q < |vm.own| ensures PageGrew(vm, vm3, r, q) { }
  }

  lemma TableTakenFlat(vm: Vm, lo: nat, r: nat, level: nat, v: nat, pg: nat)
    requires Inv(vm, lo) && 0 < |vm.free|
    requires 1 <= level && Serves(vm, r, level, v, pg) && (level - 1, Key(level - 1, v)) !in vm.trees[r]
    ensures vm.free[|vm.free| - 1] < |vm.mem| && pg < |vm.mem|
    ensures SameFlat(vm, TableTaken(vm, r, level, v))
  {
    TableReady(vm, lo, r, level, v, pg);
    var p := vm.free[|vm.free| - 1];
    var vm2 := Zeroed(Popped(vm), p);
    forall r', v' ensures Flat(TableTaken(vm, r, level, v), r', v') == Flat(vm, r', v') {
      SameTablesFlat(vm, vm2, r', v');
      ExtendedFlat(vm2, lo, r, level, Key(level, v), Px(level, v), p, r', v');
    }
  }

  lemma TableTakenInv(vm: Vm, lo: nat, r: nat, level: nat, v: nat, pg: nat)
    requires Inv(vm, lo) && 0 < |vm.free|
    requires 1 <= level && Serves(vm, r, level, v, pg) && (level - 1, Key(level - 1, v)) !in vm.trees[r]
    ensures vm.free[|vm.free| - 1] < |vm.mem| && pg < |vm.mem|
    ensures var vm' := TableTaken(vm, r, level, v);
            && Inv(vm', lo) && Grew(vm, vm', r) && SameFlat(vm, vm')
            && Serves(vm', r, level - 1, v, vm.free[|vm.free| - 1])
            && vm'.free == vm.free[..|vm.free| - 1]
  {
    TableReady(vm, lo, r, level, v, pg);
    TableTakenGrew(vm, lo, r, level, v, pg);
    TableTakenFlat(vm, lo, r, level, v, pg);
    KeyStep(level, v);
    var p := vm.free[|vm.free| - 1];
    ExtendedInv(Zeroed(Popped(vm), p), lo, r, level, Key(level, v), Px(level, v), p);
  }

  // ---------------------------------------------------------------- mapping

  /** A page that is not mapped backs nothing there. */
  lemma NoOwner(vm: Vm, lo: nat, r: nat, v: nat)
    requires Inv(vm, lo) && !IsValid(Flat(vm, r, v))
    ensures forall p | 0 <= p < |vm.own| :: vm.own[p] != Data(r, v)
  {
    assert InvBut(vm, lo, None);
    forall p | 0 <= p < |vm.own| ensures vm.own[p] != Data(r, v) {
      assert PageOk(vm, p);
    }
  }

  /** The leaf entry that walk finds is the flat map's entry. */
  lemma LeafRead(vm: Vm, lo: nat, r: nat, v: nat, pg: nat)
    requires Inv(vm, lo) && Serves(vm, r, 0, v, pg)
    ensures pg < |vm.mem| && vm.own[pg] == Table(r, 0, v / NPTE) && vm.mem[pg][Px(0, v)] == Flat(vm, r, v)
    ensures if IsValid(Flat(vm, r, v)) then IsLeaf(Flat(vm, r, v)) else Flat(vm, r, v) == 0
  {
    assert InvBut(vm, lo, None);
    assert TableOk(vm, r, 0, v / NPTE) && EntryOk(vm, r, 0, v / NPTE, v % NPTE);
  }

  /** A virtual page that is not mapped has entry 0. */
  lemma UnmappedIsZero(vm: Vm, lo: nat, r: nat, v: nat)
    requires Inv(vm, lo) && !IsValid(Flat(vm, r, v))
    ensures Flat(vm, r, v) == 0
  {
    assert InvBut(vm, lo, None);
    if r in vm.trees && (0, v / NPTE) in vm.trees[r] {
      assert EntryOk(vm, r, 0, v / NPTE, v % NPTE);
    }
  }

  /** The flat map changes at virtual page v of space r and nowhere else. */
  ghost predicate FlatSet(vm: Vm, vm': Vm, r: nat, v: nat, e: nat) {
    forall r', v' :: Flat(vm', r', v') == if r' == r && v' == v then e else Flat(vm, r', v')
  }

  /** The n virtual pages from v on are mapped to the physical pages from p on, in order. */
  ghost predicate RangeMapped(vm: Vm, vm': Vm, r: nat, v: nat, n: nat, p: nat, flags: nat)
    requires flags < 1024
  {
    forall r': nat, v': nat :: Flat(vm', r', v') == if r' == r && v <= v' < v + n then MakePte(p + (v' - v), flags) else Flat(vm, r', v')
  }

  lemma LeafSetGrew(vm: Vm, r: nat, v: nat, e: nat)
    requires |vm.own| == |vm.mem| && r in vm.trees && (0, v / NPTE) in vm.trees[r]
    requires vm.trees[r][(0, v / NPTE)] < |vm.mem| && vm.own[vm.trees[r][(0, v / NPTE)]].Table?
    ensures Grew(vm, LeafSet(vm, r, v, e), r)
  {
  }

  // ---------------------------------------------------------------- unmapping

  /** The n virtual pages from v on are unmapped. */
  ghost predicate RangeCleared(vm: Vm, vm': Vm, r: nat, v: nat, n: nat) {
    forall r': nat, v': nat :: Flat(vm', r', v') == if r' == r && v <= v' < v + n then 0 else Flat(vm, r', v')
  }

  /** All n virtual pages from v on are mapped. */
  ghost predicate AllMapped(vm: Vm, r: nat, v: nat, n: nat) {
    forall v' | v <= v' < v + n :: v' < MAXVPN && IsValid(Flat(vm, r, v'))
  }

  /** Page p when the user pages at n virtual pages from v on go back to the free list. */
  ghost predicate PageShrank(vm: Vm, vm': Vm, r: nat, v: nat, n: nat, p: nat)
    requires p < |vm.own| == |vm.mem| == |vm'.own| == |vm'.mem|
  {
    if vm.own[p].Data? && vm.own[p].root == r && v <= vm.own[p].vpn < v + n then vm'.own[p].Unused?
    else vm'.own[p] == vm.own[p] && (!vm.own[p].Table? ==> vm'.mem[p] == vm.mem[p])
  }

  ghost predicate Shrank(vm: Vm, vm': Vm, r: nat, v: nat, n: nat) {
    && |vm.own| == |vm.mem| == |vm'.own| == |vm'.mem| && vm'.trees == vm.trees
    && forall p | 0 <= p < |vm.own| :: PageShrank(vm, vm', r, v, n, p)
  }

  lemma ShrankSame(vm: Vm, r: nat, v: nat)
    requires |vm.own| == |vm.mem|
    ensures Shrank(vm, vm, r, v, 0)
  {
  }

  lemma ShrankNext(vm: Vm, vm1: Vm, vm2: Vm, r: nat, v: nat, n: nat)
    requires Shrank(vm, vm1, r, v, n) && Shrank(vm1, vm2, r, v + n, 1)
    ensures Shrank(vm, vm2, r, v, n + 1)
  {
    var n' := n + 1;
    forall p | 0 <= p < |vm.own| ensures PageShrank(vm, vm2, r, v, n', p) {
      assert PageShrank(vm, vm1, r, v, n, p) && PageShrank(vm1, vm2, r, v + n, 1, p);
    }
  }

  /** Virtual page v of space r is backed by a page of its own, which goes when the mapping goes. */
  ghost predicate Backed(vm: Vm, r: nat, v: nat) {
    PtePage(Flat(vm, r, v)) < |vm.own| && vm.own[PtePage(Flat(vm, r, v))] == Data(r, v)
  }

  /** Virtual page v of space r exists and is not mapped. */
  ghost predicate VacantAt(vm: Vm, r: nat, v: nat) {
    v < MAXVPN && Flat(vm, r, v) == 0
  }

  ghost predicate Vacant(vm: Vm, r: nat, v: nat, v': nat) {
    forall x: nat | v <= x < v' :: VacantAt(vm, r, x)
  }

  /** What uvmunmap may be asked to do with virtual page v: free the page that backs it, or
      leave a page that the address space does not own. */
  ghost predicate Unmappable(vm: Vm, r: nat, v: nat, doFree: bool) {
    && (doFree && IsValid(Flat(vm, r, v)) ==> Backed(vm, r, v))
    && (!doFree ==> forall p | 0 <= p < |vm.own| :: vm.own[p] != Data(r, v))
  }

  /** Unmapping earlier pages does not touch a later one. */
  lemma UnmappableKept(vm: Vm, vm': Vm, r: nat, v: nat, n: nat, w: nat, doFree: bool)
    requires Shrank(vm, vm', r, v, n) && Flat(vm', r, w) == Flat(vm, r, w) && w == v + n && Unmappable(vm, r, w, doFree)
    ensures Unmappable(vm', r, w, doFree)
  {
    if doFree && IsValid(Flat(vm, r, w)) {
      assert PageShrank(vm, vm', r, v, n, PtePage(Flat(vm, r, w)));
    }
    if !doFree {
      forall p | 0 <= p < |vm'.own| ensures vm'.own[p] != Data(r, w) {
        assert PageShrank(vm, vm', r, v, n, p);
      }
    }
  }

  /** The flags of a leaf, used again by uvmcopy, make a leaf. */
  lemma FlagsOfLeaf(e: nat)
    requires IsValid(e) && IsLeaf(e)
    ensures PteFlags(e) / 2 % 8 != 0 && MakePte(PtePage(e), PteFlags(e)) == e
  {
    FlagBits(e / 1024, e % 1024);
  }

  /** A leaf's flags are not PTE_V alone, so uvmunmap's check for that never fires. */
  lemma LeafFlags(e: nat)
    requires IsValid(e) && IsLeaf(e)
    ensures PteFlags(e) != PTE_V
  {
  }

  /** Clearing the entry once its page has been freed. */
  lemma FreedCleared(vm: Vm, lo: nat, r: nat, v: nat, pg: nat)
    requires Inv(vm, lo) && Serves(vm, r, 0, v, pg) && v < MAXVPN && IsValid(Flat(vm, r, v)) && Backed(vm, r, v)
    requires PtePage(Flat(vm, r, v)) < |vm.mem|
    ensures pg < |vm.mem| && (0, v / NPTE) in vm.trees[r]
    ensures var vm2 := LeafSet(Pushed(vm, PtePage(Flat(vm, r, v))), r, v, 0);
            && Inv(vm2, lo) && FlatSet(vm, vm2, r, v, 0) && Shrank(vm, vm2, r, v, 1)
  {
    assert InvBut(vm, lo, None);
    var p := PtePage(Flat(vm, r, v));
    LeafRead(vm, lo, r, v, pg);
    PushedInv(vm, lo, None, p);
    var vm1 := Pushed(vm, p);
    forall q | 0 <= q < |vm1.own| ensures vm1.own[q] != Data(r, v) {
      assert PageOk(vm, q);
    }
    LeafSetInv(vm1, lo, r, v, 0);
    var vm2 := LeafSet(vm1, r, v, 0);
    forall r', v' ensures Flat(vm2, r', v') == if r' == r && v' == v then 0 else Flat(vm, r', v') {
      SameTablesFlat(vm, vm1, r', v');
    }
    forall q | 0 <= q < |vm.own| ensures PageShrank(vm, vm2, r, v, 1, q) {
      assert PageOk(vm, q);
    }
  }

  /** Clearing the entry of a page that somebody else owns. */
  lemma LentCleared(vm: Vm, lo: nat, r: nat, v: nat, pg: nat)
    requires Inv(vm, lo) && Serves(vm, r, 0, v, pg) && v < MAXVPN
    requires forall p | 0 <= p < |vm.own| :: vm.own[p] != Data(r, v)
    ensures pg < |vm.mem| && (0, v / NPTE) in vm.trees[r]
    ensures var vm2 := LeafSet(vm, r, v, 0);
            && Inv(vm2, lo) && FlatSet(vm, vm2, r, v, 0) && Shrank(vm, vm2, r, v, 1)
  {
    LeafRead(vm, lo, r, v, pg);
    LeafSetInv(vm, lo, r, v, 0);
  }

  // ---------------------------------------------------------------- growing an address space

  /** Virtual page v has a page of its own with these contents and flags. */
  ghost predicate Fresh(vm: Vm, r: nat, v: nat, w: Page, flags: nat) {
    && flags < 1024 && Backed(vm, r, v) && PtePage(Flat(vm, r, v)) < |vm.mem|
    && vm.mem[PtePage(Flat(vm, r, v))] == w
    && Flat(vm, r, v) == MakePte(PtePage(Flat(vm, r, v)), flags)
  }

  ghost predicate FreshAt(vm: Vm, r: nat, v: nat, ws: seq<Page>, fs: seq<nat>, v': nat)
    requires |fs| == |ws|
  {
    v <= v' < v + |ws| ==> Fresh(vm, r, v', ws[v' - v], fs[v' - v])
  }

  /** Page p when space r has been given pages of its own at n virtual pages from v on. */
  ghost predicate PageGiven(vm: Vm, vm': Vm, r: nat, v: nat, n: nat, p: nat)
    requires p < |vm.own| == |vm.mem| == |vm'.own| == |vm'.mem|
  {
    if vm.own[p].Unused? then
      || vm'.own[p].Unused?
      || (vm'.own[p].Table? && vm'.own[p].root == r)
      || (vm'.own[p].Data? && vm'.own[p].root == r && v <= vm'.own[p].vpn < v + n)
    else vm'.own[p] == vm.own[p] && (!vm.own[p].Table? ==> vm'.mem[p] == vm.mem[p])
  }

  /** Space r has been given pages at the virtual pages from v on: page j holds ws[j] and has
      flags fs[j].  Nothing else is mapped differently, and no page in use has changed hands. */
  ghost predicate GivenAt(vm: Vm, vm': Vm, r: nat, v: nat, ws: seq<Page>, fs: seq<nat>) {
    && |fs| == |ws| && |vm.own| == |vm.mem| == |vm'.own| == |vm'.mem| && vm'.trees.Keys == vm.trees.Keys
    && (forall r': nat, v': nat :: (r' == r && v <= v' < v + |ws|) || Flat(vm', r', v') == Flat(vm, r', v'))
    && (forall v': nat :: FreshAt(vm', r, v, ws, fs, v'))
    && (forall p | 0 <= p < |vm.own| :: PageGiven(vm, vm', r, v, |ws|, p))
  }

  /** GivenAt, kept folded. */
  ghost predicate Given(vm: Vm, vm': Vm, r: nat, v: nat, ws: seq<Page>, fs: seq<nat>) {
    |fs| == |ws| && forall n | n == v :: GivenAt(vm, vm', r, n, ws, fs)
  }

  /** Outside the range given, nothing is mapped differently. */
  lemma GivenElsewhere(vm: Vm, vm': Vm, r: nat, v: nat, ws: seq<Page>, fs: seq<nat>, r': nat, v': nat)
    requires Given(vm, vm', r, v, ws, fs) && (r' != r || !(v <= v' < v + |ws|))
    ensures Flat(vm', r', v') == Flat(vm, r', v') && vm'.trees.Keys == vm.trees.Keys
  {
    assert GivenAt(vm, vm', r, v, ws, fs);
  }

  lemma GivenSame(vm: Vm, r: nat, v: nat)
    requires |vm.own| == |vm.mem|
    ensures Given(vm, vm, r, v, [], [])
  {
  }

  /** A page in use keeps its contents, and its mapping with it. */
  lemma FreshKept(vm: Vm, vm': Vm, r: nat, v: nat, w: Page, flags: nat)
    requires Fresh(vm, r, v, w, flags) && Flat(vm', r, v) == Flat(vm, r, v)
    requires |vm.own| == |vm.mem| == |vm'.own| == |vm'.mem|
    requires var p := PtePage(Flat(vm, r, v)); vm'.own[p] == vm.own[p] && vm'.mem[p] == vm.mem[p]
    ensures Fresh(vm', r, v, w, flags)
  {
  }

  lemma GivenNext(vm: Vm, vm1: Vm, vm2: Vm, r: nat, v: nat, ws: seq<Page>, fs: seq<nat>, w: Page, f: nat)
    requires Given(vm, vm1, r, v, ws, fs) && Given(vm1, vm2, r, v + |ws|, [w], [f])
    ensures Given(vm, vm2, r, v, ws + [w], fs + [f])
  {
    assert GivenAt(vm, vm1, r, v, ws, fs) && GivenAt(vm1, vm2, r, v + |ws|, [w], [f]);
    var ws', fs' := ws + [w], fs + [f];
    var at := v + |ws|;
    forall r': nat, v': nat ensures (r' == r && v <= v' < v + |ws'|) || Flat(vm2, r', v') == Flat(vm, r', v') {
      assert (r' == r && at <= v' < at + 1) || Flat(vm2, r', v') == Flat(vm1, r', v');
    }
    forall v': nat ensures FreshAt(vm2, r, v, ws', fs', v') {
      assert FreshAt(vm1, r, v, ws, fs, v') && FreshAt(vm2, r, at, [w], [f], v');
      if v <= v' < at {
        assert PageGiven(vm1, vm2, r, at, 1, PtePage(Flat(vm1, r, v')));
        FreshKept(vm1, vm2, r, v', ws[v' - v], fs[v' - v]);
      }
    }
    var n' := |ws'|;
    forall p | 0 <= p < |vm.own| ensures PageGiven(vm, vm2, r, v, n', p) {
      assert PageGiven(vm, vm1, r, v, |ws|, p) && PageGiven(vm1, vm2, r, at, 1, p);
    }
  }

  /** The failure path: the tables that were needed stay, everything else is as before. */
  lemma GivenBack(vm: Vm, lo: nat, vm1: Vm, vm2: Vm, vm3: Vm, r: nat, v: nat, ws: seq<Page>, fs: seq<nat>)
    requires Given(vm, vm1, r, v, ws, fs) && Grew(vm1, vm2, r) && SameFlat(vm1, vm2)
    requires Shrank(vm2, vm3, r, v, |ws|) && RangeCleared(vm2, vm3, r, v, |ws|)
    requires Vacant(vm, r, v, v + |ws|)
    requires Inv(vm, lo)
    ensures Grew(vm, vm3, r) && SameFlat(vm, vm3)
  {
    assert GivenAt(vm, vm1, r, v, ws, fs);
    forall x: nat | v <= x < v + |ws| ensures Flat(vm, r, x) == 0 {
      assert VacantAt(vm, r, x);
    }
    forall p | 0 <= p < |vm.own| ensures PageGrew(vm, vm3, r, p) {
      assert InvBut(vm, lo, None);
      assert PageOk(vm, p);
      assert PageGiven(vm, vm1, r, v, |ws|, p) && PageGrew(vm1, vm2, r, p) && PageShrank(vm2, vm3, r, v, |ws|, p);
    }
    forall r': nat, v': nat ensures Flat(vm3, r', v') == Flat(vm, r', v') {
      assert Flat(vm2, r', v') == Flat(vm1, r', v');
    }
  }

  /** Pages given can be taken back: they back their mappings. */
  lemma GivenUnmappable(vm: Vm, vm1: Vm, vm2: Vm, r: nat, v: nat, ws: seq<Page>, fs: seq<nat>, v': nat)
    requires Given(vm, vm1, r, v, ws, fs) && Grew(vm1, vm2, r) && SameFlat(vm1, vm2) && v <= v' < v + |ws|
    ensures Unmappable(vm2, r, v', true) && IsValid(Flat(vm2, r, v'))
  {
    assert GivenAt(vm, vm1, r, v, ws, fs);
    assert FreshAt(vm1, r, v, ws, fs, v');
    var p := PtePage(Flat(vm1, r, v'));
    PteRoundTrip(p, fs[v' - v]);
    assert PageGrew(vm1, vm2, r, p) && Flat(vm2, r, v') == Flat(vm1, r, v');
  }

  /** kalloc, a mapping, and the hand-over. */
  lemma OneGiven(vm: Vm, lo: nat, vm1: Vm, vm2: Vm, r: nat, v: nat, w: Page, flags: nat, p: nat)
    requires Inv(vm, lo) && 0 < |vm.free| && p == vm.free[|vm.free| - 1] < |vm.mem|
    requires vm1 == Popped(vm).(mem := vm.mem[p := w]) && SameTables(vm, vm1)
    requires flags < 1024 && Grew(vm1, vm2, r) && RangeMapped(vm1, vm2, r, v, 1, p, flags)
    ensures vm2.own[p] == Taken && vm2.mem[p] == w
    ensures Given(vm, vm2.(own := vm2.own[p := Data(r, v)]), r, v, [w], [flags])
  {
    assert InvBut(vm, lo, None);
    assert FreeOk(vm, |vm.free| - 1);
    assert PageGrew(vm1, vm2, r, p);
    var vm3 := vm2.(own := vm2.own[p := Data(r, v)]);
    PteRoundTrip(p, flags);
    assert Flat(vm2, r, v) == MakePte(p, flags);
    forall r': nat, v': nat ensures (r' == r && v' == v) || Flat(vm3, r', v') == Flat(vm, r', v') {
      SameTablesFlat(vm, vm1, r', v');
      assert Flat(vm3, r', v') == Flat(vm2, r', v');
    }
    assert Fresh(vm3, r, v, w, flags);
    forall v': nat ensures FreshAt(vm3, r, v, [w], [flags], v') { }
    forall q | 0 <= q < |vm.own| ensures PageGiven(vm, vm3, r, v, 1, q) {
      assert PageGrew(vm1, vm2, r, q);
    }
  }

  /** kalloc, no mapping, and kfree. */
  lemma NoneGiven(vm: Vm, lo: nat, vm1: Vm, vm2: Vm, r: nat, v: nat, w: Page, flags: nat, p: nat)
    requires Inv(vm, lo) && 0 < |vm.free| && p == vm.free[|vm.free| - 1] < |vm.mem|
    requires vm1 == Popped(vm).(mem := vm.mem[p := w]) && SameTables(vm, vm1)
    requires flags < 1024 && Grew(vm1, vm2, r) && RangeMapped(vm1, vm2, r, v, 0, p, flags)
    requires SameTables(vm2, Pushed(vm2, p))
    ensures vm2.own[p] == Taken
    ensures Grew(vm, Pushed(vm2, p), r) && SameFlat(vm, Pushed(vm2, p))
  {
    assert InvBut(vm, lo, None);
    assert FreeOk(vm, |vm.free| - 1);
    assert PageGrew(vm1, vm2, r, p);
    var vm3 := Pushed(vm2, p);
    forall r', v' ensures Flat(vm3, r', v') == Flat(vm, r', v') {
      SameTablesFlat(vm, vm1, r', v');
      SameTablesFlat(vm2, vm3, r', v');
    }
    forall q | 0 <= q < |vm.own| ensures PageGrew(vm, vm3, r, q) {
      assert PageGrew(vm1, vm2, r, q);
    }
  }

  /** PGROUNDUP, as a number of pages. */
  function PagesUp(sz: nat): (n: nat) {
    (sz + PGSIZE - 1) / PGSIZE
  }

  lemma OnePage(v: nat)
    ensures v * PGSIZE / PGSIZE == v && (v * PGSIZE + PGSIZE - 1) / PGSIZE == v && v * PGSIZE % PGSIZE == 0
  {
  }

  // ---------------------------------------------------------------- conservation

  /** The free list holds every unused page once, and a page that is not on it belongs to
      exactly one owner: the pages are partitioned, whatever the operations did. */
  lemma FreeListExact(vm: Vm, lo: nat)
    requires Inv(vm, lo)
    ensures forall p: nat | p < |vm.own| :: p in vm.free <==> vm.own[p].Unused?
    ensures forall j, k | 0 <= j < k < |vm.free| :: vm.free[j] != vm.free[k]
    ensures forall r, l, k | r in vm.trees && (l, k) in vm.trees[r] :: vm.trees[r][(l, k)] !in vm.free
    ensures forall r: nat, v: nat | Backed(vm, r, v) :: PtePage(Flat(vm, r, v)) !in vm.free
  {
    assert InvBut(vm, lo, None);
    forall p: nat | p < |vm.own| ensures p in vm.free <==> vm.own[p].Unused? {
      assert PageOk(vm, p);
      if p in vm.free {
        var k :| 0 <= k < |vm.free| && vm.free[k] == p;
        assert FreeOk(vm, k);
      }
    }
    forall j, k | 0 <= j < k < |vm.free| ensures vm.free[j] != vm.free[k] {
      assert FreeOk(vm, j) && FreeOk(vm, k);
    }
    forall r, l, k | r in vm.trees && (l, k) in vm.trees[r] ensures vm.trees[r][(l, k)] !in vm.free {
      assert TableOk(vm, r, l, k);
    }
  }

  /** Below virtual page n every mapping of every address space has a page of its own. */
  ghost predicate Private(vm: Vm, n: nat) {
    forall r: nat, v: nat | r in vm.trees && v < n && IsValid(Flat(vm, r, v)) :: Backed(vm, r, v)
  }

  /** uvmalloc and uvmcopy keep it so: a page they give has backed nothing before, and no page
      that backs something changes hands. */
  lemma GivenPrivate(vm: Vm, vm': Vm, r: nat, v: nat, ws: seq<Page>, fs: seq<nat>, n: nat)
    requires Given(vm, vm', r, v, ws, fs) && Private(vm, n)
    ensures Private(vm', n)
  {
    assert GivenAt(vm, vm', r, v, ws, fs);
    forall r': nat, v': nat | r' in vm'.trees && v' < n && IsValid(Flat(vm', r', v')) ensures Backed(vm', r', v') {
      if r' == r && v <= v' < v + |ws| {
        assert FreshAt(vm', r, v, ws, fs, v');
      } else {
        GivenElsewhere(vm, vm', r, v, ws, fs, r', v');
        assert Backed(vm, r', v');
        assert PageGiven(vm, vm', r, v, |ws|, PtePage(Flat(vm, r', v')));
      }
    }
  }

  /** After uvmalloc or uvmcopy no two mappings, of one address space or of two, share a page. */
  lemma NoSharedPages(vm: Vm, vm': Vm, r: nat, v: nat, ws: seq<Page>, fs: seq<nat>, n: nat, r1: nat, v1: nat, r2: nat, v2: nat)
    requires Given(vm, vm', r, v, ws, fs) && Private(vm, n)
    requires r1 in vm'.trees && v1 < n && IsValid(Flat(vm', r1, v1))
    requires r2 in vm'.trees && v2 < n && IsValid(Flat(vm', r2, v2))
    requires PtePage(Flat(vm', r1, v1)) == PtePage(Flat(vm', r2, v2))
    ensures r1 == r2 && v1 == v2
  {
    GivenPrivate(vm, vm', r, v, ws, fs, n);
    assert Backed(vm', r1, v1) && Backed(vm', r2, v2);
  }
}
