/** kalloc, kfree and the page-table code of kernel/vm.c over a memory of pages. */
module PageTable {
  import opened Options
  import opened PageModel
  import opened PageFree
  import opened PageCount

  /** OutOfRange is walk's panic; Missing is the null pointer; At names a leaf entry. */
  datatype WalkResult = OutOfRange | Missing | At(page: nat, index: nat)

  /** Panicked is mappages' panic or walk's; NoMemory is the result -1. */
  datatype MapResult = Panicked | NoMemory | Mapped

  /** Panic is a panic of mappages or walk; Failed is the result 0 of uvmalloc. */
  datatype SizeResult = Panic | Failed | Size(sz: nat)

  class Memory {
    const lo: nat            // the allocator's first page
    var mem: seq<Page>
    var head: nat            // kmem.freelist: an address, or 0
    ghost var free: seq<nat>
    ghost var own: seq<Owner>
    ghost var trees: map<nat, Tables>

    ghost function State(): (vm: Vm)
      reads this
    {
      Vm(mem, free, own, trees)
    }

    ghost predicate Valid()
      reads this
    {
      && Inv(State(), lo)
      && head == if |free| == 0 then 0 else free[|free| - 1] * PGSIZE
    }

    /** kinit: every page from `lo` on is freed, in order. */
    constructor (mem: seq<Page>, lo: nat)
      requires 0 < lo <= |mem|
      ensures Valid() && this.lo == lo && |this.mem| == |mem| == |own| && trees == map[]
      ensures |free| == |mem| - lo && forall p | lo <= p < |mem| :: own[p].Unused?
    {
      this.lo := lo;
      this.mem := mem;
      head := 0;
      free := [];
      own := seq(|mem|, p => if p < lo then Kernel else Taken);
      trees := map[];
      new;
      var p := lo;
      assert InvBut(State(), lo, None);
      while p < |mem|
        invariant lo <= p <= |mem| && Valid() && |this.mem| == |mem| == |own| && trees == map[] && this.lo == lo
        invariant |free| == p - lo
        invariant forall q | lo <= q < |mem| :: if q < p then own[q].Unused? else own[q] == Taken
      {
        var ok := Kfree(p);
        p := p + 1;
      }
    }

    /** kalloc */
    method Kalloc() returns (r: Option<nat>)
      requires Valid()
      modifies this
      ensures Valid()
      ensures r.None? <==> old(|free|) == 0
      ensures r.None? ==> State() == old(State())
      ensures r.Some? ==>
                && FreeOk(old(State()), old(|free|) - 1) && r.value == old(free[|free| - 1]) < |mem| && r.value >= lo
                && State() == Popped(old(State())) && SameTables(old(State()), State())
    {
      if |free| > 0 {
        HeadOk(State(), lo);
        PoppedInv(State(), lo);
      }
      if head == 0 {
        return None;
      }
      var p := head / PGSIZE;
      head := mem[p][0];
      mem := mem[p := Filled(JUNK_TAKEN)];
      free := free[..|free| - 1];
      own := own[p := Taken];
      return Some(p);
    }

    /** Valid, but for one table entry. */
    ghost predicate ValidBut(x: Option<(nat, nat, nat, nat)>)
      reads this
    {
      && InvBut(State(), lo, x)
      && head == if |free| == 0 then 0 else free[|free| - 1] * PGSIZE
    }

    /** The push of kfree. */
    method Push(p: nat, ghost x: Option<(nat, nat, nat, nat)>)
      requires ValidBut(x) && lo <= p < |mem| && (own[p].Taken? || own[p].Data?)
      modifies this
      ensures ValidBut(x) && State() == Pushed(old(State()), p) && SameTables(old(State()), State())
    {
      PushedInv(State(), lo, x, p);
      mem := mem[p := Filled(JUNK_FREED)];
      mem := mem[p := mem[p][0 := head]];
      head := p * PGSIZE;
      own := own[p := Unused(|free|)];
      free := free + [p];
      assert State() == Pushed(old(State()), p);
    }

    /** kfree of page p; false is its panic. */
    method Kfree(p: nat) returns (ok: bool)
      requires Valid() && (lo <= p < |mem| ==> own[p].Taken? || own[p].Data?)
      modifies this
      ensures ok <==> lo <= p < old(|mem|)
      ensures !ok ==> State() == old(State())
      ensures ok ==> Valid() && State() == Pushed(old(State()), p) && SameTables(old(State()), State())
    {
      if p < lo || p >= |mem| {
        return false;
      }
      assert InvBut(State(), lo, None);
      Push(p, None);
      return true;
    }

    /** One turn of the loop of walk: the table below, allocated if need be. */
    method Down(ghost r: nat, pg: nat, level: nat, v: nat, alloc: bool) returns (next: Option<nat>)
      requires Valid() && 1 <= level && v < MAXVPN && Serves(State(), r, level, v, pg)
      modifies this
      ensures Valid() && Grew(old(State()), State(), r) && SameFlat(old(State()), State())
      ensures next.Some? ==> Serves(State(), r, level - 1, v, next.value)
      ensures next.None? ==> (level - 1, Key(level - 1, v)) !in trees[r] && (alloc ==> |free| == 0)
      ensures !alloc || next.None? ==> State() == old(State())
      ensures Climbed(old(State()), State(), r, v)
    {
      ghost var vm := State();
      ClimbedNothing(vm, r, v);
      EntryLeads(vm, lo, r, level, v, pg);
      KeyStep(level, v);
      var e := mem[pg][Px(level, v)];
      GrewSame(vm, r);
      if IsValid(e) {
        return Some(PtePage(e));
      }
      if !alloc {
        return None;
      }
      next := NewTable(r, pg, level, v);
    }

    /** The part of walk that allocates a table. */
    method NewTable(ghost r: nat, pg: nat, level: nat, v: nat) returns (next: Option<nat>)
      requires Valid() && 1 <= level && v < MAXVPN && Serves(State(), r, level, v, pg)
      requires (level - 1, Key(level - 1, v)) !in trees[r]
      modifies this
      ensures Valid() && Grew(old(State()), State(), r) && SameFlat(old(State()), State())
      ensures next.Some? ==> Serves(State(), r, level - 1, v, next.value)
      ensures next.None? ==> |free| == 0 && State() == old(State())
      ensures Climbed(old(State()), State(), r, v)
    {
      ghost var vm := State();
      GrewSame(vm, r);
      ClimbedNothing(vm, r, v);
      if |free| > 0 {
        TableTakenInv(vm, lo, r, level, v, pg);
        TableTakenClimbs(vm, r, level, v);
      }
      next := Kalloc();
      if next.None? {
        return;
      }
      var p := next.value;
      mem := mem[p := Filled(0)];
      mem := mem[pg := mem[pg][Px(level, v) := MakePte(p, PTE_V)]];
      own, trees := TableTaken(vm, r, level, v).own, TableTaken(vm, r, level, v).trees;
      assert State() == TableTaken(vm, r, level, v);
    }

    /** walk, for the space whose root table is page r. */
    method Walk(r: nat, va: nat, alloc: bool) returns (w: WalkResult)
      requires Valid() && r in trees
      modifies this
      ensures w == OutOfRange <==> va / PGSIZE >= MAXVPN
      ensures Valid() && Grew(old(State()), State(), r) && SameFlat(old(State()), State())
      ensures w.At? ==> Serves(State(), r, 0, va / PGSIZE, w.page) && w.index == Px(0, va / PGSIZE)
      ensures w == Missing ==> (0, va / PGSIZE / NPTE) !in trees[r] && (alloc ==> |free| == 0)
      ensures !alloc || w == OutOfRange ==> State() == old(State())
      ensures Climbed(old(State()), State(), r, va / PGSIZE)
    {
      GrewSame(State(), r);
      var v := va / PGSIZE;
      ClimbedNothing(State(), r, v);
      if v >= MAXVPN {
        return OutOfRange;
      }
      RootServes(State(), lo, r, v);
      var pg := r;
      var level := 2;
      while level > 0
        invariant 0 <= level <= 2
        invariant Valid() && Grew(old(State()), State(), r) && SameFlat(old(State()), State())
        invariant Serves(State(), r, level, v, pg)
        invariant !alloc ==> State() == old(State())
        invariant Climbed(old(State()), State(), r, v)
      {
        ghost var vm := State();
        var next := Down(r, pg, level, v, alloc);
        GrewJoin(old(State()), vm, State(), r);
        ClimbedJoin(old(State()), vm, State(), r, v);
        if next.None? {
          NoTableBelow(State(), lo, r, level, v);
          return Missing;
        }
        pg := next.value;
        level := level - 1;
      }
      return At(pg, Px(0, v));
    }
  
    /** A turn of the loop of mappages: virtual page v to physical page p. */
    method MapPage(r: nat, v: nat, p: nat, perm: nat) returns (m: MapResult)
      requires Valid() && r in trees && perm < 1024 && perm / 2 % 8 != 0
      modifies this
      ensures Valid() && Grew(old(State()), State(), r)
      ensures m == Panicked ==> v >= MAXVPN || IsValid(Flat(old(State()), r, v))
      ensures m != Panicked ==> v < MAXVPN
      ensures m == NoMemory ==> |free| == 0 && SameFlat(old(State()), State())
      ensures m == Mapped ==> !IsValid(Flat(old(State()), r, v)) && FlatSet(old(State()), State(), r, v, MakePte(p, perm))
      ensures r in trees && Climbed(old(State()), State(), r, v)
      ensures m == Mapped ==> (0, v / NPTE) in trees[r]
      ensures m == NoMemory ==> (0, v / NPTE) !in trees[r]
    {
      assert v * PGSIZE / PGSIZE == v;
      ghost var vm := State();
      var w := Walk(r, v * PGSIZE, true);
      if w == OutOfRange {
        return Panicked;
      }
      if w == Missing {
        return NoMemory;
      }
      ghost var vm1 := State();
      LeafRead(vm1, lo, r, v, w.page);
      assert Flat(vm1, r, v) == Flat(vm, r, v);
      if IsValid(mem[w.page][w.index]) {
        return Panicked;
      }
      SetEntry(r, v, w.page, MakePte(p, perm), perm, p);
      GrewJoin(vm, vm1, State(), r);
      ClimbedSame(vm, vm1, State(), r, v);
      return Mapped;
    }

    /** `*pte = PA2PTE(pa) | perm | PTE_V` */
    method SetEntry(ghost r: nat, v: nat, pg: nat, e: nat, ghost perm: nat, ghost p: nat)
      requires Valid() && v < MAXVPN && Serves(State(), r, 0, v, pg) && !IsValid(Flat(State(), r, v))
      requires perm < 1024 && perm / 2 % 8 != 0 && e == MakePte(p, perm)
      modifies this`mem
      ensures Valid() && Grew(old(State()), State(), r) && FlatSet(old(State()), State(), r, v, e)
    {
      ghost var vm := State();
      LeafRead(vm, lo, r, v, pg);
      NoOwner(vm, lo, r, v);
      PteRoundTrip(p, perm);
      LeafSetInv(vm, lo, r, v, e);
      LeafSetGrew(vm, r, v, e);
      mem := mem[pg := mem[pg][v % NPTE := e]];
    }

    /** mappages.  `done` pages were mapped before it stopped. */
    method Mappages(r: nat, va: nat, size: nat, pa: nat, perm: nat) returns (m: MapResult, ghost done: nat)
      requires Valid() && r in trees && perm < 1024 && perm / 2 % 8 != 0
      modifies this
      ensures Valid() && Grew(old(State()), State(), r)
      ensures m == Panicked ==> size == 0 || exists v :: va / PGSIZE <= v <= (va + size - 1) / PGSIZE && (v >= MAXVPN || IsValid(Flat(old(State()), r, v)))
      ensures m == Mapped ==>
                && size > 0 && va / PGSIZE + done == (va + size - 1) / PGSIZE + 1
                && forall v | va / PGSIZE <= v <= (va + size - 1) / PGSIZE :: v < MAXVPN && !IsValid(Flat(old(State()), r, v))
      ensures m == NoMemory ==> |free| == 0 && size > 0 && va / PGSIZE + done <= (va + size - 1) / PGSIZE
      ensures m != Panicked ==> RangeMapped(old(State()), State(), r, va / PGSIZE, done, pa / PGSIZE, perm)
      ensures m == NoMemory ==>
                Short(old(State()), r, va / PGSIZE, (va + size - 1) / PGSIZE + 1 - va / PGSIZE, 0)
      ensures m == Mapped ==>
                Supplied(old(State()), State(), r, va / PGSIZE, done, 0) && Enough(old(State()), r, va / PGSIZE, done, 0)
    {
      done := 0;
      GrewSame(State(), r);
      SuppliedNone(State(), r, va / PGSIZE);
      if size == 0 {
        return Panicked, 0;
      }
      var v0 := va / PGSIZE;
      var a, last, p := v0, (va + size - 1) / PGSIZE, pa / PGSIZE;
      while true
        invariant v0 <= a <= last && done == a - v0 && p == pa / PGSIZE + done
        invariant Valid() && Grew(old(State()), State(), r)
        invariant forall v | v0 <= v < a :: v < MAXVPN && !IsValid(Flat(old(State()), r, v))
        invariant RangeMapped(old(State()), State(), r, v0, done, pa / PGSIZE, perm)
        invariant Supplied(old(State()), State(), r, v0, done, 0)
        decreases last - a
      {
        ghost var vm := State();
        assert Flat(vm, r, a) == Flat(old(State()), r, a);
        m := MapPage(r, a, p, perm);
        GrewJoin(old(State()), vm, State(), r);
        if m != Mapped {
          if m == NoMemory { MapShort(old(State()), vm, State(), r, v0, done, a, last + 1 - v0); }
          return;
        }
        MapNext(old(State()), vm, State(), lo, r, v0, done, a, done + 1);
        done := done + 1;
        if a == last {
          break;
        }
        a := a + 1;
        p := p + 1;
      }
      SuppliedEnough(old(State()), State(), r, v0, done, 0);
      return Mapped, done;
    }
  
    /** A turn of the loop of uvmunmap; false is one of its panics. */
    method UnmapPage(r: nat, v: nat, doFree: bool) returns (ok: bool)
      requires Valid() && r in trees && Unmappable(State(), r, v, doFree)
      modifies this
      ensures ok <==> v < MAXVPN && IsValid(Flat(old(State()), r, v))
      ensures ok ==> Valid() && FlatSet(old(State()), State(), r, v, 0) && Shrank(old(State()), State(), r, v, 1)
      ensures ok ==> free == old(free) + if doFree then [PtePage(Flat(old(State()), r, v))] else []
    {
      assert v * PGSIZE / PGSIZE == v;
      ghost var vm := State();
      var w := Walk(r, v * PGSIZE, false);
      if w == OutOfRange || w == Missing {
        return false;
      }
      LeafRead(vm, lo, r, v, w.page);
      var e := mem[w.page][w.index];
      if !IsValid(e) {
        return false;
      }
      LeafFlags(e);
      assert PteFlags(e) != PTE_V;
      if doFree {
        FreedCleared(vm, lo, r, v, w.page);
        BackedManaged(vm, lo, r, v);
        var freed := Kfree(PtePage(e));
        assert freed;
      } else {
        LentCleared(vm, lo, r, v, w.page);
      }
      mem := mem[w.page := mem[w.page][w.index := 0]];
      assert doFree ==> State() == LeafSet(Pushed(vm, PtePage(e)), r, v, 0);
      assert !doFree ==> State() == LeafSet(vm, r, v, 0);
      return true;
    }

    lemma BackedManaged(vm: Vm, lo: nat, r: nat, v: nat)
      requires Inv(vm, lo) && Backed(vm, r, v)
      ensures PtePage(Flat(vm, r, v)) >= lo
    {
      assert InvBut(vm, lo, None);
    }

    /** uvmunmap; false is one of its panics. */
    method Uvmunmap(r: nat, va: nat, npages: nat, doFree: bool) returns (ok: bool)
      requires Valid() && r in trees
      requires forall v | va / PGSIZE <= v < va / PGSIZE + npages :: Unmappable(State(), r, v, doFree)
      modifies this
      ensures ok <==> va % PGSIZE == 0 && AllMapped(old(State()), r, va / PGSIZE, npages)
      ensures ok ==> Valid() && RangeCleared(old(State()), State(), r, va / PGSIZE, npages)
      ensures ok ==> Shrank(old(State()), State(), r, va / PGSIZE, npages)
      ensures ok ==> |free| == old(|free|) + if doFree then npages else 0
    {
      if va % PGSIZE != 0 {
        return false;
      }
      var v0 := va / PGSIZE;
      var n := 0;
      ShrankSame(State(), r, v0);
      while n < npages
        invariant 0 <= n <= npages
        invariant Valid() && RangeCleared(old(State()), State(), r, v0, n) && Shrank(old(State()), State(), r, v0, n)
        invariant AllMapped(old(State()), r, v0, n)
        invariant |free| == old(|free|) + if doFree then n else 0
      {
        ghost var vm := State();
        assert Unmappable(old(State()), r, v0 + n, doFree);
        UnmappableKept(old(State()), vm, r, v0, n, v0 + n, doFree);
        ok := UnmapPage(r, v0 + n, doFree);
        if !ok {
          return;
        }
        ShrankNext(old(State()), vm, State(), r, v0, n);
        n := n + 1;
      }
      return true;
    }
  
    /** A page from kalloc, with contents w. */
    method FillPage(w: Page) returns (r: Option<nat>)
      requires Valid()
      modifies this
      ensures Valid() && SameTables(old(State()), State())
      ensures r.None? ==> State() == old(State()) && |free| == 0
      ensures r.Some? ==>
                && 0 < old(|free|) && r.value == old(free)[old(|free|) - 1] < |old(mem)| == |old(own)| && r.value >= lo
                && State() == Popped(old(State())).(mem := old(mem)[r.value := w])
    {
      r := Kalloc();
      if r.Some? {
        ZeroedInv(State(), lo, r.value, w);
        mem := mem[r.value := w];
        assert mem == old(mem)[r.value := w];
      }
    }

    /** The loop body that uvmalloc and uvmcopy share: a new page with contents w at v. */
    method GivePage(r: nat, v: nat, w: Page, flags: nat) returns (m: MapResult)
      requires Valid() && r in trees && flags < 1024 && flags / 2 % 8 != 0
      modifies this
      ensures m == Panicked ==> v >= MAXVPN || IsValid(Flat(old(State()), r, v))
      ensures m == NoMemory ==> Valid() && Grew(old(State()), State(), r) && SameFlat(old(State()), State())
      ensures m == Mapped ==> Valid() && Given(old(State()), State(), r, v, [w], [flags])
      ensures m == Mapped ==> v < MAXVPN && !IsValid(Flat(old(State()), r, v))
      ensures m == NoMemory ==> Short(old(State()), r, v, 1, 1)
      ensures m == Mapped ==> Supplied(old(State()), State(), r, v, 1, 1)
    {
      ghost var vm := State();
      var got := FillPage(w);
      if got.None? {
        NoneFree(vm, r, v);
        GrewSame(vm, r);
        return NoMemory;
      }
      m := PutPage(r, v, got.value, flags, vm, w);
    }

    /** Page p, fresh from kalloc and filled with w, is mapped at v or freed again. */
    method PutPage(r: nat, v: nat, p: nat, flags: nat, ghost vm: Vm, ghost w: Page) returns (m: MapResult)
      requires Valid() && Inv(vm, lo) && r in vm.trees && flags < 1024 && flags / 2 % 8 != 0
      requires 0 < |vm.free| && p == vm.free[|vm.free| - 1] < |vm.mem| == |vm.own| && p >= lo
      requires State() == Popped(vm).(mem := vm.mem[p := w]) && SameTables(vm, State())
      modifies this
      ensures m == Panicked ==> v >= MAXVPN || IsValid(Flat(vm, r, v))
      ensures m == NoMemory ==> Valid() && Grew(vm, State(), r) && SameFlat(vm, State())
      ensures m == Mapped ==> Valid() && Given(vm, State(), r, v, [w], [flags])
      ensures m == Mapped ==> v < MAXVPN && !IsValid(Flat(vm, r, v))
      ensures m == NoMemory ==> Short(vm, r, v, 1, 1)
      ensures m == Mapped ==> Supplied(vm, State(), r, v, 1, 1)
    {
      ghost var vm1 := State();
      SameTablesFlat(vm, vm1, r, v);
      OnePage(v);
      OnePage(p);
      ghost var done;
      m, done := Mappages(r, v * PGSIZE, PGSIZE, p * PGSIZE, flags);
      ghost var vm2 := State();
      if m == Mapped {
        Adopt(r, v, p, flags, vm, vm1, w);
        GaveOne(vm, vm1, vm2, State(), r, v);
      } else if m == NoMemory {
        NoneForTables(vm, vm1, r, v);
        assert PageGrew(vm1, vm2, r, p);
        var freed := Kfree(p);
        NoneGiven(vm, lo, vm1, vm2, r, v, w, flags, p);
      }
    }

    /** Page p backs its new mapping. */
    ghost method Adopt(r: nat, v: nat, p: nat, flags: nat, vm: Vm, vm1: Vm, w: Page)
      requires Valid() && Inv(vm, lo) && 0 < |vm.free| && p == vm.free[|vm.free| - 1] < |vm.mem| == |vm.own| && p >= lo
      requires vm1 == Popped(vm).(mem := vm.mem[p := w]) && SameTables(vm, vm1) && !IsValid(Flat(vm, r, v)) && v < MAXVPN
      requires flags < 1024 && flags / 2 % 8 != 0 && Grew(vm1, State(), r) && RangeMapped(vm1, State(), r, v, 1, p, flags)
      modifies this`own
      ensures Valid() && Given(vm, State(), r, v, [w], [flags])
    {
      var vm2 := State();
      OneGiven(vm, lo, vm1, vm2, r, v, w, flags, p);
      PteRoundTrip(p, flags);
      assert Flat(vm2, r, v) == MakePte(p, flags);
      GivenInv(vm2, lo, r, v, p);
      own := own[p := Data(r, v)];
      assert State() == vm2.(own := vm2.own[p := Data(r, v)]);
    }

    /** uvmdealloc; false is a panic of uvmunmap.  Returns the new size. */
    method Uvmdealloc(r: nat, oldsz: nat, newsz: nat) returns (ok: bool, sz: nat)
      requires Valid() && r in trees
      requires forall v | PagesUp(newsz) <= v < PagesUp(oldsz) :: Unmappable(State(), r, v, true)
      modifies this
      ensures ok <==> newsz >= oldsz || PagesUp(newsz) >= PagesUp(oldsz)
                      || AllMapped(old(State()), r, PagesUp(newsz), PagesUp(oldsz) - PagesUp(newsz))
      ensures ok ==> sz == if newsz < oldsz then newsz else oldsz
      ensures ok ==>
                var n := if PagesUp(newsz) < PagesUp(oldsz) then PagesUp(oldsz) - PagesUp(newsz) else 0;
                && Valid() && RangeCleared(old(State()), State(), r, PagesUp(newsz), n)
                && Shrank(old(State()), State(), r, PagesUp(newsz), n) && |free| == old(|free|) + n
    {
      ShrankSame(State(), r, PagesUp(newsz));
      if newsz >= oldsz {
        return true, oldsz;
      }
      var lower, upper := PagesUp(newsz), PagesUp(oldsz);
      if lower < upper {
        OnePage(lower);
        ok := Uvmunmap(r, lower * PGSIZE, upper - lower, true);
        return ok, newsz;
      }
      return true, newsz;
    }

    /** uvmalloc */
    method Uvmalloc(r: nat, oldsz: nat, newsz: nat) returns (res: SizeResult)
      requires Valid() && r in trees
      modifies this
      ensures newsz < oldsz ==> res == Size(oldsz) && State() == old(State())
      ensures res == Panic ==> exists v :: PagesUp(oldsz) <= v < PagesUp(newsz) && (v >= MAXVPN || IsValid(Flat(old(State()), r, v)))
      ensures res == Failed ==> Valid() && Grew(old(State()), State(), r) && SameFlat(old(State()), State())
      ensures newsz >= oldsz && res.Size? ==>
                var n := PagesAdded(oldsz, newsz);
                && res.sz == newsz && Valid()
                && Given(old(State()), State(), r, PagesUp(oldsz), seq(n, _ => Filled(0)), seq(n, _ => PTE_W + PTE_X + PTE_R + PTE_U))
      ensures res == Failed ==> Short(old(State()), r, PagesUp(oldsz), PagesAdded(oldsz, newsz), PagesAdded(oldsz, newsz))
      ensures newsz >= oldsz && res.Size? ==>
                Enough(old(State()), r, PagesUp(oldsz), PagesAdded(oldsz, newsz), PagesAdded(oldsz, newsz))
      ensures newsz >= oldsz && res.Size? ==> Vacant(old(State()), r, PagesUp(oldsz), PagesUp(oldsz) + PagesAdded(oldsz, newsz))
    {
      if newsz < oldsz {
        return Size(oldsz);
      }
      ghost var vm := State();
      ghost var n := PagesAdded(oldsz, newsz);
      var v0 := PagesUp(oldsz);
      var a := v0;
      ghost var ws: seq<Page>, fs: seq<nat> := [], [];
      GivenSame(vm, r, v0);
      SuppliedNone(vm, r, v0);
      while a * PGSIZE < newsz
        invariant v0 <= a <= v0 + n && |ws| == |fs| == a - v0
        invariant ws == seq(a - v0, _ => Filled(0)) && fs == seq(a - v0, _ => PTE_W + PTE_X + PTE_R + PTE_U)
        invariant Valid() && Given(vm, State(), r, v0, ws, fs)
        invariant Vacant(vm, r, v0, a) && Supplied(vm, State(), r, v0, a - v0, a - v0)
        decreases newsz - a * PGSIZE
      {
        ghost var vm1 := State();
        LoopPages(oldsz, newsz, a);
        GivenElsewhere(vm, vm1, r, v0, ws, fs, r, a);
        var m := GivePage(r, a, Filled(0), PTE_W + PTE_X + PTE_R + PTE_U);
        if m == Panicked {
          return Panic;
        }
        if m == NoMemory {
          TooFew(vm, vm1, r, v0, a - v0, a, n);
          var ok := TakeBack(r, v0, a, vm, vm1, ws, fs);
          assert ok;
          return Failed;
        }
        UnmappedIsZero(vm1, lo, r, a);
        GivenNext(vm, vm1, State(), r, v0, ws, fs, Filled(0), PTE_W + PTE_X + PTE_R + PTE_U);
        SuppliedNext(vm, vm1, State(), r, v0, a - v0, a, a + 1 - v0);
        ws, fs := ws + [Filled(0)], fs + [PTE_W + PTE_X + PTE_R + PTE_U];
        a := a + 1;
      }
      LoopPages(oldsz, newsz, a);
      SuppliedEnough(vm, State(), r, v0, n, n);
      return Size(newsz);
    }

    /** The failure path of uvmalloc, and the one of uvmcopy: the pages given are taken back. */
    method TakeBack(r: nat, v0: nat, a: nat, ghost vm: Vm, ghost vm1: Vm, ghost ws: seq<Page>, ghost fs: seq<nat>) returns (ok: bool)
      requires Valid() && r in trees && Inv(vm, lo) && v0 + |ws| == a
      requires Given(vm, vm1, r, v0, ws, fs) && Grew(vm1, State(), r) && SameFlat(vm1, State())
      requires Vacant(vm, r, v0, a)
      modifies this
      ensures ok && Valid() && Grew(vm, State(), r) && SameFlat(vm, State())
    {
      ghost var vm2 := State();
      forall v | v0 <= v < a ensures Unmappable(vm2, r, v, true) && v < MAXVPN && IsValid(Flat(vm2, r, v)) {
        assert VacantAt(vm, r, v);
        GivenUnmappable(vm, vm1, vm2, r, v0, ws, fs, v);
      }
      OnePage(v0);
      assert AllMapped(vm2, r, v0, a - v0);
      ok := Uvmunmap(r, v0 * PGSIZE, a - v0, true);
      GivenBack(vm, lo, vm1, vm2, State(), r, v0, ws, fs);
    }
  
    /** uvmcreate: the root of an address space that maps nothing. */
    method Uvmcreate() returns (r: Option<nat>)
      requires Valid()
      modifies this
      ensures Valid()
      ensures r.None? <==> old(|free|) == 0
      ensures r.None? ==> State() == old(State())
      ensures r.Some? ==>
                && r.value !in old(trees) && trees.Keys == old(trees).Keys + {r.value}
                && (forall v :: Flat(State(), r.value, v) == 0)
                && forall r', v | r' != r.value :: Flat(State(), r', v) == Flat(old(State()), r', v)
    {
      ghost var vm := State();
      r := Kalloc();
      if r.Some? {
        var p := r.value;
        ghost var vm1 := State();
        ZeroedInv(vm1, lo, p, Filled(0));
        mem := mem[p := Filled(0)];
        ghost var vm2 := State();
        RootedInv(vm2, lo, p);
        own, trees := Rooted(vm2, p).own, Rooted(vm2, p).trees;
        assert State() == Rooted(vm2, p);
        forall r', v | r' != p ensures Flat(State(), r', v) == Flat(vm, r', v) {
          SameTablesFlat(vm, vm1, r', v);
          SameTablesFlat(vm1, vm2, r', v);
        }
      }
    }

    /** A turn of the loop of uvmcopy: virtual page v of space r0 to space r. */
    method CopyPage(r0: nat, r: nat, v: nat) returns (m: MapResult)
      requires Valid() && r0 in trees && r in trees && r0 != r
      requires IsValid(Flat(State(), r0, v)) ==> PtePage(Flat(State(), r0, v)) < |mem|
      modifies this
      ensures m == Panicked ==> v >= MAXVPN || !IsValid(Flat(old(State()), r0, v)) || IsValid(Flat(old(State()), r, v))
      ensures m == NoMemory ==> Valid() && Grew(old(State()), State(), r) && SameFlat(old(State()), State())
      ensures m == Mapped ==>
                Valid() && Given(old(State()), State(), r, v, [PageAt(old(State()), r0, v)], [PteFlags(Flat(old(State()), r0, v))])
      ensures m == Mapped ==> v < MAXVPN && !IsValid(Flat(old(State()), r, v)) && IsValid(Flat(old(State()), r0, v))
      ensures m == NoMemory ==> Short(old(State()), r, v, 1, 1)
      ensures m == Mapped ==> Supplied(old(State()), State(), r, v, 1, 1)
    {
      OnePage(v);
      ghost var vm := State();
      var w := Walk(r0, v * PGSIZE, false);
      if !w.At? {
        NotServed(vm, r0, v);
        return Panicked;
      }
      LeafRead(vm, lo, r0, v, w.page);
      var e := mem[w.page][w.index];
      if !IsValid(e) {
        return Panicked;
      }
      FlagsOfLeaf(e);
      m := GivePage(r, v, mem[PtePage(e)], PteFlags(e));
    }

    /** uvmcopy; NoMemory is the result -1. */
    method Uvmcopy(r0: nat, r: nat, sz: nat) returns (m: MapResult)
      requires Valid() && r0 in trees && r in trees && r0 != r
      requires forall v | 0 <= v < PagesUp(sz) && IsValid(Flat(State(), r0, v)) :: Backed(State(), r0, v)
      modifies this
      ensures m == Panicked ==>
                exists v: nat :: v < PagesUp(sz) && (v >= MAXVPN || !IsValid(Flat(old(State()), r0, v)) || IsValid(Flat(old(State()), r, v)))
      ensures m == NoMemory ==> Valid() && Grew(old(State()), State(), r) && SameFlat(old(State()), State())
      ensures m == Mapped ==>
                && Valid()
                && Given(old(State()), State(), r, 0, Contents(old(State()), r0, PagesUp(sz)), FlagsOf(old(State()), r0, PagesUp(sz)))
      ensures m == NoMemory ==> Short(old(State()), r, 0, PagesUp(sz), PagesUp(sz))
      ensures m == Mapped ==> Enough(old(State()), r, 0, PagesUp(sz), PagesUp(sz))
      ensures m == Mapped ==> Vacant(old(State()), r, 0, PagesUp(sz)) && AllPresent(old(State()), r0, PagesUp(sz))
    {
      ghost var vm := State();
      var i := 0;
      GivenSame(vm, r, 0);
      SuppliedNone(vm, r, 0);
      assert Contents(vm, r0, 0) == [] && FlagsOf(vm, r0, 0) == [];
      while i * PGSIZE < sz
        invariant 0 <= i <= PagesUp(sz)
        invariant Valid() && Given(vm, State(), r, 0, Contents(vm, r0, i), FlagsOf(vm, r0, i))
        invariant Vacant(vm, r, 0, i) && AllPresent(vm, r0, i) && Supplied(vm, State(), r, 0, i, i)
        decreases PagesUp(sz) - i
      {
        ghost var vm1 := State();
        GivenElsewhere(vm, vm1, r, 0, Contents(vm, r0, i), FlagsOf(vm, r0, i), r, i);
        GivenElsewhere(vm, vm1, r, 0, Contents(vm, r0, i), FlagsOf(vm, r0, i), r0, i);
        SourceKept(vm, vm1, r0, r, i);
        m := CopyPage(r0, r, i);
        if m == Panicked {
          return;
        }
        if m == NoMemory {
          TooFew(vm, vm1, r, 0, i, i, PagesUp(sz));
          var ok := TakeBack(r, 0, i, vm, vm1, Contents(vm, r0, i), FlagsOf(vm, r0, i));
          return;
        }
        UnmappedIsZero(vm1, lo, r, i);
        CopyNext(vm, vm1, State(), r0, r, i);
        SuppliedNext(vm, vm1, State(), r, 0, i, i, i + 1);
        i := i + 1;
      }
      SuppliedEnough(vm, State(), r, 0, i, i);
      return Mapped;
    }

    /** freewalk of table page pg, which is table (l, k) of space r. */
    method Freewalk(pg: nat, ghost r: nat, ghost l: nat, ghost k: nat)
      requires Valid() && l <= 2 && r in trees && (l, k) in trees[r] && trees[r][(l, k)] == pg
      requires forall v :: Flat(State(), r, v) == 0
      modifies this
      ensures ValidBut(Dangling(r, l, k)) && Freed(old(State()), State(), r, l, k)
      decreases l
    {
      ghost var vm := State();
      TableFacts(vm, lo, r, l, k);
      NothingFreed(vm, r, l, k, pg);
      var i := 0;
      while i < NPTE
        invariant 0 <= i <= NPTE && pg < |mem|
        invariant Valid() && FirstFreed(vm, State(), r, l, k, i, pg)
      {
        FreeEntry(pg, i, r, l, k, vm);
        i := i + 1;
      }
      ghost var vm1 := State();
      assert TableStays(vm, vm1, r, l, k, UnderFirst(l, k, NPTE, l, k));
      DroppedInv(vm1, lo, r, l, k);
      TableFacts(vm1, lo, r, l, k);
      own, trees := Dropped(vm1, r, l, k).own, Dropped(vm1, r, l, k).trees;
      assert State() == Dropped(vm1, r, l, k);
      Push(pg, Dangling(r, l, k));
      PushedFlat(vm1, Dropped(vm1, r, l, k), State());
      TableFreed(vm, vm1, State(), r, l, k, pg);
    }

    /** A turn of the loop of freewalk.  Its panic cannot happen: no leaf is left. */
    method FreeEntry(pg: nat, i: nat, ghost r: nat, ghost l: nat, ghost k: nat, ghost vm: Vm)
      requires Valid() && Inv(vm, lo) && l <= 2 && i < NPTE && pg < |mem|
      requires FirstFreed(vm, State(), r, l, k, i, pg) && (l, k) in vm.trees[r] && vm.trees[r][(l, k)] == pg
      requires forall v :: Flat(vm, r, v) == 0
      modifies this
      ensures Valid() && FirstFreed(vm, State(), r, l, k, i + 1, pg)
      decreases l, 0
    {
      ghost var vm1 := State();
      TableFacts(vm, lo, r, l, k);
      assert TableStays(vm, vm1, r, l, k, UnderFirst(l, k, i, l, k));
      EntryFacts(vm1, lo, r, l, k, i);
      var e := mem[pg][i];
      if IsValid(e) && !IsLeaf(e) {
        forall v ensures Flat(vm1, r, v) == 0 { assert Flat(vm1, r, v) == Flat(vm, r, v); }
        Freewalk(PtePage(e), r, l - 1, k * NPTE + i);
        ghost var vm2 := State();
        KidGone(vm1, vm2, lo, r, l, k, i, pg);
        mem := mem[pg := mem[pg][i := 0]];
        KidFreed(vm, vm1, vm2, State(), r, l, k, i, pg);
      } else {
        assert !IsValid(e);
        SkipEntry(vm, vm1, lo, r, l, k, i, pg);
      }
    }
  
    /** uvmfree: every page of the space goes back, and nothing else changes hands.  False is
        the panic of uvmunmap. */
    method Uvmfree(r: nat, sz: nat) returns (ok: bool)
      requires Valid() && r in trees
      requires forall v | 0 <= v < PagesUp(sz) && IsValid(Flat(State(), r, v)) :: Backed(State(), r, v)
      requires forall v | PagesUp(sz) <= v :: Flat(State(), r, v) == 0
      modifies this
      ensures ok <==> AllMapped(old(State()), r, 0, PagesUp(sz))
      ensures ok ==> Valid() && r !in trees && trees.Keys == old(trees).Keys - {r} && |own| == |mem| == |old(own)| == |old(mem)|
      ensures ok ==> forall r', v | r' != r :: Flat(State(), r', v) == Flat(old(State()), r', v)
      ensures ok ==> forall p | 0 <= p < |own| :: SpaceFreed(old(State()), State(), r, p)
    {
      ghost var vm := State();
      ok := true;
      ShrankSame(vm, r, 0);
      if sz > 0 {
        ok := Uvmunmap(r, 0, PagesUp(sz), true);
        if !ok {
          return;
        }
      }
      ghost var vm1 := State();
      forall v: nat ensures Flat(vm1, r, v) == 0 { assert Flat(vm, r, v) == 0 || v < PagesUp(sz); }
      RootFacts(vm1, lo, r);
      Freewalk(r, r, 2, 0);
      assert Dangling(r, 2, 0) == None;
      forall p | 0 <= p < |vm.own| ensures SpaceFreed(vm, State(), r, p) {
        SpaceFreedPage(vm, vm1, State(), lo, r, PagesUp(sz), p);
      }
    }
  }

  /** How many pages a process gains when it grows. */
  function PagesAdded(oldsz: nat, newsz: nat): (n: nat) {
    if PagesUp(oldsz) < PagesUp(newsz) then PagesUp(newsz) - PagesUp(oldsz) else 0
  }

  /** The loop of uvmalloc covers exactly those. */
  lemma LoopPages(oldsz: nat, newsz: nat, a: nat)
    requires PagesUp(oldsz) <= a <= PagesUp(oldsz) + PagesAdded(oldsz, newsz)
    ensures a * PGSIZE < newsz <==> a < PagesUp(oldsz) + PagesAdded(oldsz, newsz)
  {
  }

  /** Page p when space r has been freed. */
  ghost predicate SpaceFreed(vm: Vm, vm': Vm, r: nat, p: nat)
    requires p < |vm.own| == |vm.mem| == |vm'.own| == |vm'.mem|
  {
    if (vm.own[p].Table? || vm.own[p].Data?) && vm.own[p].root == r then vm'.own[p].Unused?
    else vm'.own[p] == vm.own[p] && (!vm.own[p].Table? ==> vm'.mem[p] == vm.mem[p])
  }

  lemma RootFacts(vm: Vm, lo: nat, r: nat)
    requires Inv(vm, lo) && r in vm.trees
    ensures (2, 0) in vm.trees[r] && vm.trees[r][(2, 0)] == r
  {
    assert InvBut(vm, lo, None);
    assert TableOk(vm, r, 2, 0);
  }

  lemma SpaceFreedPage(vm: Vm, vm1: Vm, vm2: Vm, lo: nat, r: nat, n: nat, p: nat)
    requires Inv(vm, lo) && Inv(vm1, lo) && Shrank(vm, vm1, r, 0, n) && Freed(vm1, vm2, r, 2, 0) && p < |vm.own|
    requires forall v | n <= v :: Flat(vm, r, v) == 0
    ensures SpaceFreed(vm, vm2, r, p)
  {
    assert InvBut(vm, lo, None) && InvBut(vm1, lo, None);
    assert PageOk(vm, p) && PageOk(vm1, p) && PageShrank(vm, vm1, r, 0, n, p) && PageFreed(vm1, vm2, r, 2, 0, p);
    if vm1.own[p].Table? && vm1.own[p].root == r {
      var l2, k2 := vm1.own[p].level, vm1.own[p].key;
      assert TableOk(vm1, r, l2, k2);
      AboveIn(vm1, lo, None, r, l2, k2, 2);
      assert TableOk(vm1, r, 2, Above(l2, k2, 2));
    }
  }

  lemma NotServed(vm: Vm, r: nat, v: nat)
    requires v < MAXVPN ==> r in vm.trees && (0, v / NPTE) !in vm.trees[r]
    ensures v < MAXVPN ==> !IsValid(Flat(vm, r, v))
  {
  }

  lemma CopyNext(vm: Vm, vm1: Vm, vm2: Vm, r0: nat, r: nat, i: nat)
    requires Given(vm, vm1, r, 0, Contents(vm, r0, i), FlagsOf(vm, r0, i))
    requires Given(vm1, vm2, r, i, [PageAt(vm, r0, i)], [PteFlags(Flat(vm, r0, i))])
    ensures Given(vm, vm2, r, 0, Contents(vm, r0, i + 1), FlagsOf(vm, r0, i + 1))
  {
    GivenNext(vm, vm1, vm2, r, 0, Contents(vm, r0, i), FlagsOf(vm, r0, i), PageAt(vm, r0, i), PteFlags(Flat(vm, r0, i)));
    assert Contents(vm, r0, i + 1) == Contents(vm, r0, i) + [PageAt(vm, r0, i)];
    assert FlagsOf(vm, r0, i + 1) == FlagsOf(vm, r0, i) + [PteFlags(Flat(vm, r0, i))];
  }

  /** The parent's pages are not touched while the child is filled. */
  lemma SourceKept(vm: Vm, vm1: Vm, r0: nat, r: nat, v: nat)
    requires Given(vm, vm1, r, 0, Contents(vm, r0, v), FlagsOf(vm, r0, v)) && Flat(vm1, r0, v) == Flat(vm, r0, v) && r0 != r
    requires IsValid(Flat(vm, r0, v)) ==> Backed(vm, r0, v)
    ensures IsValid(Flat(vm, r0, v)) ==> PtePage(Flat(vm1, r0, v)) < |vm1.mem| && PageAt(vm1, r0, v) == PageAt(vm, r0, v)
  {
    assert GivenAt(vm, vm1, r, 0, Contents(vm, r0, v), FlagsOf(vm, r0, v));
    if IsValid(Flat(vm, r0, v)) {
      assert PageGiven(vm, vm1, r, 0, v, PtePage(Flat(vm, r0, v)));
    }
  }

  /** The first n virtual pages of space r are mapped. */
  ghost predicate AllPresent(vm: Vm, r: nat, n: nat) {
    forall v | 0 <= v < n :: IsValid(Flat(vm, r, v))
  }

  /** The contents and the flags of the first n virtual pages of space r. */
  ghost function PageAt(vm: Vm, r: nat, v: nat): (w: Page) {
    if PtePage(Flat(vm, r, v)) < |vm.mem| then vm.mem[PtePage(Flat(vm, r, v))] else Filled(0)
  }

  ghost function Contents(vm: Vm, r: nat, n: nat): (ws: seq<Page>) {
    seq(n, v requires 0 <= v < n => PageAt(vm, r, v))
  }

  ghost function FlagsOf(vm: Vm, r: nat, n: nat): (fs: seq<nat>) {
    seq(n, v requires 0 <= v < n => PteFlags(Flat(vm, r, v)))
  }

  function Max(a: nat, b: nat): (m: nat) {
    if a < b then b else a
  }
}
