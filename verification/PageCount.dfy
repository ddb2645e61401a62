/** How many pages the page-table code of kernel/vm.c takes from the allocator, and so when it
    runs out: one for each page of data and one for each table that is not there yet. */
module PageCount {
  import opened Options
  import opened PageModel

  /** The tables below the root that serve the n virtual pages from v on, as level and key. */
  ghost function TablesFor(v: nat, n: nat): (s: set<(nat, nat)>) {
    (set x | v <= x < v + n :: (0, x / NPTE)) + (set x | v <= x < v + n :: (1, x / NPTE / NPTE))
  }

  /** How many of them space r does not have. */
  ghost function MissingTables(vm: Vm, r: nat, v: nat, n: nat): (k: nat)
    requires r in vm.trees
  {
    |TablesFor(v, n) - vm.trees[r].Keys|
  }

  /** There are pages for the tables that n pages from v on lack, and for `data` pages more. */
  ghost predicate EnoughAt(vm: Vm, r: nat, v: nat, n: nat, data: nat) {
    r in vm.trees && |vm.free| >= data + MissingTables(vm, r, v, n)
  }

  /** EnoughAt, kept folded. */
  ghost predicate Enough(vm: Vm, r: nat, v: nat, n: nat, data: nat) {
    forall k | k == n :: EnoughAt(vm, r, v, k, data)
  }

  /** There are not. */
  ghost predicate Short(vm: Vm, r: nat, v: nat, n: nat, data: nat) {
    forall k | k == n :: !EnoughAt(vm, r, v, k, data)
  }

  lemma ShortOrEnough(vm: Vm, r: nat, v: nat, n: nat, data: nat)
    ensures Short(vm, r, v, n, data) <==> !Enough(vm, r, v, n, data)
  {
    assert EnoughAt(vm, r, v, n, data) || !EnoughAt(vm, r, v, n, data);
  }

  // ---------------------------------------------------------------- sets of tables

  lemma Fewer(a: set<(nat, nat)>, b: set<(nat, nat)>)
    requires a <= b
    ensures |a| <= |b|
  {
    assert b == a + (b - a);
  }

  ghost predicate Within(a: set<(nat, nat)>, b: set<(nat, nat)>) {
    a <= b
  }

  ghost predicate Sum(c: set<(nat, nat)>, a: set<(nat, nat)>, b: set<(nat, nat)>) {
    c == a + b
  }

  ghost predicate Covers(c: set<(nat, nat)>, a: set<(nat, nat)>, b: set<(nat, nat)>) {
    a + b <= c
  }

  lemma TablesHave(v: nat)
    ensures (0, v / NPTE) in TablesFor(v, 1) && (1, v / NPTE / NPTE) in TablesFor(v, 1)
  {
  }

  lemma TablesOfOne(v: nat)
    ensures Within(TablesFor(v, 1), {(0, v / NPTE), (1, v / NPTE / NPTE)})
  {
  }

  lemma OneHasTwo(v: nat)
    ensures |TablesFor(v, 1)| <= 2
  {
    TablesOfOne(v);
    Pair((0, v / NPTE), (1, v / NPTE / NPTE), TablesFor(v, 1));
  }

  lemma Pair(x: (nat, nat), y: (nat, nat), c: set<(nat, nat)>)
    requires Within(c, {x, y})
    ensures |c| <= 2
  {
    Fewer(c, {x, y});
    assert |{x, y}| <= 2;
  }

  lemma TablesOfNone(v: nat, n: nat)
    requires n == 0
    ensures TablesFor(v, n) == {} && |TablesFor(v, n)| == 0
  {
  }

  lemma TablesNext(v: nat, i: nat, at: nat, next: nat)
    requires at == v + i && next == i + 1
    ensures Sum(TablesFor(v, next), TablesFor(v, i), TablesFor(at, 1))
  {
    var a, b, c := TablesFor(v, next), TablesFor(v, i), TablesFor(at, 1);
    forall t | t in a ensures t in b + c {
    }
  }

  /** Page v + i is one of the n from v on. */
  lemma TablesWithin(v: nat, i: nat, at: nat, n: nat)
    requires at == v + i && i < n
    ensures Covers(TablesFor(v, n), TablesFor(v, i), TablesFor(at, 1))
  {
  }

  lemma {:induction false} TablesBound(v: nat, n: nat)
    ensures |TablesFor(v, n)| <= 2 * n
  {
    if n > 0 {
      var m, at := n - 1, v + n - 1;
      TablesBound(v, m);
      TablesNext(v, m, at, n);
      OneHasTwo(at);
      SumBound(TablesFor(v, n), TablesFor(v, m), TablesFor(at, 1));
    } else {
      TablesOfNone(v, n);
    }
  }

  lemma SumBound(c: set<(nat, nat)>, a: set<(nat, nat)>, b: set<(nat, nat)>)
    requires Sum(c, a, b)
    ensures |c| <= |a| + |b|
  {
  }

  /** n pages take three pages each at most. */
  lemma EnoughForAll(vm: Vm, r: nat, v: nat, n: nat)
    requires r in vm.trees && |vm.free| >= 3 * n
    ensures Enough(vm, r, v, n, n)
  {
    TablesBound(v, n);
    Fewer(TablesFor(v, n) - vm.trees[r].Keys, TablesFor(v, n));
  }

  // ---------------------------------------------------------------- accounts

  /** From `free` free pages and tables `keys` to free' and keys': tables were added within
      `need`, and every page that was taken became a table or one of n others. */
  ghost predicate SpentAt(free: nat, keys: set<(nat, nat)>, free': nat, keys': set<(nat, nat)>, need: set<(nat, nat)>, n: nat) {
    keys <= keys' && keys' <= keys + need && free' + |keys'| + n == free + |keys|
  }

  /** SpentAt, kept folded. */
  ghost predicate Spent(free: nat, keys: set<(nat, nat)>, free': nat, keys': set<(nat, nat)>, need: set<(nat, nat)>, n: nat) {
    forall k | k == n :: SpentAt(free, keys, free', keys', need, k)
  }

  /** Likewise, and all tables of `need` are there. */
  ghost predicate Used(free: nat, keys: set<(nat, nat)>, free': nat, keys': set<(nat, nat)>, need: set<(nat, nat)>, n: nat) {
    forall k | k == n :: SpentAt(free, keys, free', keys', need, k) && need <= keys'
  }

  lemma SpentTwice(f0: nat, k0: set<(nat, nat)>, f1: nat, k1: set<(nat, nat)>, f2: nat, k2: set<(nat, nat)>, a: set<(nat, nat)>)
    requires Spent(f0, k0, f1, k1, a, 0) && Spent(f1, k1, f2, k2, a, 0)
    ensures Spent(f0, k0, f2, k2, a, 0)
  {
    assert SpentAt(f0, k0, f1, k1, a, 0) && SpentAt(f1, k1, f2, k2, a, 0);
  }

  lemma SpentOne(f: nat, keys: set<(nat, nat)>, x: (nat, nat), need: set<(nat, nat)>)
    requires f > 0 && x in need && x !in keys
    ensures Spent(f, keys, f - 1, keys + {x}, need, 0)
  {
  }

  lemma UsedNext(f0: nat, k0: set<(nat, nat)>, f1: nat, k1: set<(nat, nat)>, f2: nat, k2: set<(nat, nat)>,
                 a: set<(nat, nat)>, b: set<(nat, nat)>, c: set<(nat, nat)>, n: nat, m: nat)
    requires Used(f0, k0, f1, k1, a, n) && Spent(f1, k1, f2, k2, b, m) && Within(b, k2) && Sum(c, a, b)
    ensures Used(f0, k0, f2, k2, c, n + m)
  {
    assert SpentAt(f0, k0, f1, k1, a, n) && SpentAt(f1, k1, f2, k2, b, m);
  }

  lemma UsedIsSpent(f0: nat, k0: set<(nat, nat)>, f1: nat, k1: set<(nat, nat)>, a: set<(nat, nat)>, n: nat)
    requires Used(f0, k0, f1, k1, a, n)
    ensures Spent(f0, k0, f1, k1, a, n) && Within(a, k1)
  {
    assert SpentAt(f0, k0, f1, k1, a, n);
  }

  /** With all tables there, the pages taken are exactly those that were missing. */
  lemma UsedCost(free: nat, keys: set<(nat, nat)>, free': nat, keys': set<(nat, nat)>, need: set<(nat, nat)>, n: nat)
    requires Used(free, keys, free', keys', need, n)
    ensures keys' == keys + need && free == free' + n + |need - keys|
  {
    assert SpentAt(free, keys, free', keys', need, n);
    assert keys' == keys + (need - keys);
  }

  /** With a table lacking and no page left, there were too few. */
  lemma UsedShort(f0: nat, k0: set<(nat, nat)>, f1: nat, k1: set<(nat, nat)>, k2: set<(nat, nat)>,
                  a: set<(nat, nat)>, b: set<(nat, nat)>, c: set<(nat, nat)>, x: (nat, nat))
    requires Used(f0, k0, f1, k1, a, 0) && Spent(f1, k1, 0, k2, b, 0) && x in b && x !in k2 && Covers(c, a, b)
    ensures f0 < |c - k0|
  {
    assert SpentAt(f0, k0, f1, k1, a, 0) && SpentAt(f1, k1, 0, k2, b, 0);
    assert k2 == k0 + (k2 - k0);
    Fewer(k2 - k0, c - k0 - {x});
  }

  ghost predicate ClimbedAt(vm: Vm, vm': Vm, r: nat, v: nat) {
    r in vm.trees && r in vm'.trees && Spent(|vm.free|, vm.trees[r].Keys, |vm'.free|, vm'.trees[r].Keys, TablesFor(v, 1), 0)
  }

  /** walk has taken pages for tables of virtual page v. */
  ghost predicate Climbed(vm: Vm, vm': Vm, r: nat, v: nat) {
    forall x | x == v :: ClimbedAt(vm, vm', r, x)
  }

  ghost predicate SuppliedAt(vm: Vm, vm': Vm, r: nat, v: nat, n: nat, data: nat) {
    r in vm.trees && r in vm'.trees && Used(|vm.free|, vm.trees[r].Keys, |vm'.free|, vm'.trees[r].Keys, TablesFor(v, n), data)
  }

  /** The tables for n pages from v on are there, and pages were taken for them and for `data`
      others. */
  ghost predicate Supplied(vm: Vm, vm': Vm, r: nat, v: nat, n: nat, data: nat) {
    forall k | k == n :: SuppliedAt(vm, vm', r, v, k, data)
  }

  // ---------------------------------------------------------------- walk

  lemma ClimbedNothing(vm: Vm, r: nat, v: nat)
    requires r in vm.trees
    ensures Climbed(vm, vm, r, v)
  {
    assert SpentAt(|vm.free|, vm.trees[r].Keys, |vm.free|, vm.trees[r].Keys, TablesFor(v, 1), 0);
  }

  lemma TableTakenKeys(vm: Vm, r: nat, level: nat, v: nat)
    requires 0 < |vm.free| && vm.free[|vm.free| - 1] < |vm.mem| == |vm.own|
    requires 1 <= level <= 2 && r in vm.trees && (level, Key(level, v)) in vm.trees[r]
    requires vm.trees[r][(level, Key(level, v))] < |vm.mem|
    ensures var vm' := TableTaken(vm, r, level, v);
            && r in vm'.trees && |vm'.free| == |vm.free| - 1
            && vm'.trees[r].Keys == vm.trees[r].Keys + {(level - 1, Key(level, v) * NPTE + Px(level, v))}
  {
  }

  /** kalloc for the table below `level`. */
  lemma TableTakenClimbs(vm: Vm, r: nat, level: nat, v: nat)
    requires 0 < |vm.free| && vm.free[|vm.free| - 1] < |vm.mem| == |vm.own|
    requires 1 <= level <= 2 && r in vm.trees && (level, Key(level, v)) in vm.trees[r]
    requires vm.trees[r][(level, Key(level, v))] < |vm.mem| && (level - 1, Key(level - 1, v)) !in vm.trees[r]
    ensures Climbed(vm, TableTaken(vm, r, level, v), r, v)
  {
    KeyStep(level, v);
    TableTakenKeys(vm, r, level, v);
    TablesHave(v);
    ClimbedOne(vm, TableTaken(vm, r, level, v), r, v, (level - 1, Key(level - 1, v)));
  }

  lemma ClimbedOne(vm: Vm, vm': Vm, r: nat, v: nat, x: (nat, nat))
    requires r in vm.trees && r in vm'.trees && |vm.free| == |vm'.free| + 1
    requires vm'.trees[r].Keys == vm.trees[r].Keys + {x} && x !in vm.trees[r].Keys && x in TablesFor(v, 1)
    ensures Climbed(vm, vm', r, v)
  {
    SpentOne(|vm.free|, vm.trees[r].Keys, x, TablesFor(v, 1));
    assert ClimbedAt(vm, vm', r, v);
  }

  lemma ClimbedJoin(vm: Vm, vm1: Vm, vm2: Vm, r: nat, v: nat)
    requires Climbed(vm, vm1, r, v) && Climbed(vm1, vm2, r, v)
    ensures Climbed(vm, vm2, r, v)
  {
    assert ClimbedAt(vm, vm1, r, v) && ClimbedAt(vm1, vm2, r, v);
    SpentTwice(|vm.free|, vm.trees[r].Keys, |vm1.free|, vm1.trees[r].Keys, |vm2.free|, vm2.trees[r].Keys, TablesFor(v, 1));
  }

  lemma ClimbedSame(vm: Vm, vm1: Vm, vm2: Vm, r: nat, v: nat)
    requires Climbed(vm, vm1, r, v) && vm2.free == vm1.free && vm2.trees == vm1.trees
    ensures Climbed(vm, vm2, r, v)
  {
    assert ClimbedAt(vm, vm1, r, v);
  }

  // ---------------------------------------------------------------- mappages

  lemma SuppliedNone(vm: Vm, r: nat, v: nat)
    requires r in vm.trees
    ensures Supplied(vm, vm, r, v, 0, 0)
  {
    TablesOfNone(v, 0);
    assert SpentAt(|vm.free|, vm.trees[r].Keys, |vm.free|, vm.trees[r].Keys, {}, 0);
    assert SuppliedAt(vm, vm, r, v, 0, 0);
  }

  /** A leaf table has its parent. */
  lemma TablesPresent(vm: Vm, lo: nat, r: nat, v: nat)
    requires Inv(vm, lo) && r in vm.trees && (0, v / NPTE) in vm.trees[r]
    ensures Within(TablesFor(v, 1), vm.trees[r].Keys)
  {
    assert InvBut(vm, lo, None);
    assert TableOk(vm, r, 0, v / NPTE);
    TablesOfOne(v);
  }

  lemma MapNext(vm: Vm, vm1: Vm, vm2: Vm, lo: nat, r: nat, v: nat, i: nat, at: nat, next: nat)
    requires at == v + i && next == i + 1 && Supplied(vm, vm1, r, v, i, 0) && Climbed(vm1, vm2, r, at)
    requires Inv(vm2, lo) && r in vm2.trees && (0, at / NPTE) in vm2.trees[r]
    ensures Supplied(vm, vm2, r, v, next, 0)
  {
    assert SuppliedAt(vm, vm1, r, v, i, 0) && ClimbedAt(vm1, vm2, r, at);
    TablesPresent(vm2, lo, r, at);
    TablesNext(v, i, at, next);
    UsedNext(|vm.free|, vm.trees[r].Keys, |vm1.free|, vm1.trees[r].Keys, |vm2.free|, vm2.trees[r].Keys,
             TablesFor(v, i), TablesFor(at, 1), TablesFor(v, next), 0, 0);
  }

  /** mappages stops at page v + i for lack of a table. */
  lemma MapShort(vm: Vm, vm1: Vm, vm2: Vm, r: nat, v: nat, i: nat, at: nat, n: nat)
    requires at == v + i && Supplied(vm, vm1, r, v, i, 0) && Climbed(vm1, vm2, r, at) && |vm2.free| == 0 && i < n
    requires r in vm2.trees && (0, at / NPTE) !in vm2.trees[r]
    ensures Short(vm, r, v, n, 0)
  {
    assert SuppliedAt(vm, vm1, r, v, i, 0) && ClimbedAt(vm1, vm2, r, at);
    TablesHave(at);
    TablesWithin(v, i, at, n);
    UsedShort(|vm.free|, vm.trees[r].Keys, |vm1.free|, vm1.trees[r].Keys, vm2.trees[r].Keys,
              TablesFor(v, i), TablesFor(at, 1), TablesFor(v, n), (0, at / NPTE));
    assert !EnoughAt(vm, r, v, n, 0);
  }

  lemma SuppliedEnough(vm: Vm, vm': Vm, r: nat, v: nat, n: nat, data: nat)
    requires Supplied(vm, vm', r, v, n, data)
    ensures Enough(vm, r, v, n, data)
  {
    assert SuppliedAt(vm, vm', r, v, n, data);
    UsedCost(|vm.free|, vm.trees[r].Keys, |vm'.free|, vm'.trees[r].Keys, TablesFor(v, n), data);
  }

  // ---------------------------------------------------------------- uvmalloc and uvmcopy

  /** A page from kalloc and its mapping. */
  lemma GaveOne(vm: Vm, vm1: Vm, vm2: Vm, vm3: Vm, r: nat, v: nat)
    requires r in vm.trees && vm1.trees == vm.trees && |vm.free| == |vm1.free| + 1
    requires Supplied(vm1, vm2, r, v, 1, 0) && vm3.free == vm2.free && vm3.trees == vm2.trees
    ensures Supplied(vm, vm3, r, v, 1, 1)
  {
    assert SuppliedAt(vm1, vm2, r, v, 1, 0);
    UsedOneMore(|vm1.free|, vm.trees[r].Keys, |vm2.free|, vm2.trees[r].Keys, TablesFor(v, 1));
    assert SuppliedAt(vm, vm3, r, v, 1, 1);
  }

  lemma UsedOneMore(free: nat, keys: set<(nat, nat)>, free': nat, keys': set<(nat, nat)>, need: set<(nat, nat)>)
    requires Used(free, keys, free', keys', need, 0)
    ensures Used(free + 1, keys, free', keys', need, 1)
  {
    assert SpentAt(free, keys, free', keys', need, 0);
  }

  lemma NoneFree(vm: Vm, r: nat, v: nat)
    requires r in vm.trees && |vm.free| == 0
    ensures Short(vm, r, v, 1, 1)
  {
    assert !EnoughAt(vm, r, v, 1, 1);
  }

  lemma NoneForTables(vm: Vm, vm1: Vm, r: nat, v: nat)
    requires r in vm.trees && vm1.trees == vm.trees && |vm.free| == |vm1.free| + 1 && Short(vm1, r, v, 1, 0)
    ensures Short(vm, r, v, 1, 1)
  {
    assert !EnoughAt(vm1, r, v, 1, 0);
    assert !EnoughAt(vm, r, v, 1, 1);
  }

  lemma SuppliedNext(vm: Vm, vm1: Vm, vm2: Vm, r: nat, v: nat, i: nat, at: nat, next: nat)
    requires at == v + i && next == i + 1 && Supplied(vm, vm1, r, v, i, i) && Supplied(vm1, vm2, r, at, 1, 1)
    ensures Supplied(vm, vm2, r, v, next, next)
  {
    assert SuppliedAt(vm, vm1, r, v, i, i) && SuppliedAt(vm1, vm2, r, at, 1, 1);
    TablesNext(v, i, at, next);
    UsedIsSpent(|vm1.free|, vm1.trees[r].Keys, |vm2.free|, vm2.trees[r].Keys, TablesFor(at, 1), 1);
    UsedNext(|vm.free|, vm.trees[r].Keys, |vm1.free|, vm1.trees[r].Keys, |vm2.free|, vm2.trees[r].Keys,
             TablesFor(v, i), TablesFor(at, 1), TablesFor(v, next), i, 1);
  }

  /** What is missing for one page more adds up with what was missing for the pages before. */
  lemma UsedTooFew(f0: nat, k0: set<(nat, nat)>, f1: nat, k1: set<(nat, nat)>,
                   a: set<(nat, nat)>, b: set<(nat, nat)>, c: set<(nat, nat)>, i: nat, n: nat)
    requires Used(f0, k0, f1, k1, a, i) && f1 < 1 + |b - k1| && Covers(c, a, b) && i < n
    ensures f0 < n + |c - k0|
  {
    UsedCost(f0, k0, f1, k1, a, i);
    assert a + b - k0 == (a - k0) + (b - k1);
    Fewer(a + b - k0, c - k0);
  }

  /** Page v + i cannot be given: there was not enough for n pages. */
  lemma TooFew(vm: Vm, vm1: Vm, r: nat, v: nat, i: nat, at: nat, n: nat)
    requires at == v + i && Supplied(vm, vm1, r, v, i, i) && Short(vm1, r, at, 1, 1) && i < n
    ensures Short(vm, r, v, n, n)
  {
    assert SuppliedAt(vm, vm1, r, v, i, i) && !EnoughAt(vm1, r, at, 1, 1);
    TablesWithin(v, i, at, n);
    UsedTooFew(|vm.free|, vm.trees[r].Keys, |vm1.free|, vm1.trees[r].Keys, TablesFor(v, i), TablesFor(at, 1), TablesFor(v, n), i, n);
    assert !EnoughAt(vm, r, v, n, n);
  }
}
