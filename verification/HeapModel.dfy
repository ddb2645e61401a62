/** The heap of user/umalloc.c, in units of one header: an address-sorted ring of free blocks
    that starts at `base`, the blocks in use, and for every unit the block it belongs to. */
module HeapModel {
  /** `ring` lists the free ring from `base` upwards; `used` are the blocks handed out; `own`
      maps every unit obtained from sbrk to the header of its block. */
  datatype Heap = Heap(base: nat, ptr: map<nat, nat>, size: map<nat, nat>,
                       ring: seq<nat>, used: set<nat>, own: map<nat, nat>)

  function NextIndex(n: nat, i: nat): (j: nat) {
    if i + 1 < n then i + 1 else 0
  }

  ghost predicate IsBlock(h: Heap, a: nat) {
    a in h.used || (a in h.ring && a != h.base)
  }

  ghost predicate LinkOk(h: Heap, i: nat) {
    i < |h.ring| ==> h.ring[i] in h.ptr && h.ptr[h.ring[i]] == h.ring[NextIndex(|h.ring|, i)]
  }

  ghost predicate SortOk(h: Heap, i: nat, j: nat) {
    i < j < |h.ring| ==> h.ring[i] < h.ring[j]
  }

  /** Free blocks next to each other in the ring do not touch. */
  ghost predicate GapOk(h: Heap, i: nat) {
    1 <= i && i + 1 < |h.ring| && h.ring[i] in h.size ==> h.ring[i] + h.size[h.ring[i]] < h.ring[i + 1]
  }

  /** A block lies above base and owns its units. */
  ghost predicate BlockOk(h: Heap, a: nat) {
    IsBlock(h, a) ==>
      && a > h.base && a in h.size && h.size[a] >= 1
      && forall u | a <= u < a + h.size[a] :: u in h.own && h.own[u] == a
  }

  /** A unit belongs to a block that covers it. */
  ghost predicate UnitOk(h: Heap, u: nat) {
    u in h.own ==> IsBlock(h, h.own[u]) && h.own[u] in h.size && h.own[u] <= u < h.own[u] + h.size[h.own[u]]
  }

  /** Everything but the gaps between neighbours. */
  ghost predicate Whole(h: Heap) {
    && |h.ring| >= 1 && h.ring[0] == h.base && h.base in h.size && h.size[h.base] == 0
    && (forall i: nat :: LinkOk(h, i))
    && (forall i: nat, j: nat :: SortOk(h, i, j))
    && (forall a: nat :: BlockOk(h, a))
    && (forall u: nat :: UnitOk(h, u))
    && (forall a | a in h.used :: a !in h.ring)
  }

  ghost predicate Inv(h: Heap) {
    Whole(h) && forall i: nat :: GapOk(h, i)
  }

  // ---------------------------------------------------------------- consequences

  lemma OwnerOf(h: Heap, a: nat, u: nat)
    requires BlockOk(h, a) && IsBlock(h, a) && a <= u < a + h.size[a]
    ensures u in h.own && h.own[u] == a
  {
  }

  /** Blocks, free or in use, never overlap. */
  lemma BlocksDisjoint(h: Heap, a: nat, b: nat)
    requires Whole(h) && IsBlock(h, a) && IsBlock(h, b) && a < b
    ensures a in h.size && a + h.size[a] <= b
  {
    assert BlockOk(h, a) && BlockOk(h, b);
    OwnerOf(h, b, b);
    if b < a + h.size[a] { OwnerOf(h, a, b); }
  }

  /** Every unit from sbrk lies in exactly one block, and blocks have no other units: free
      and used units together are the units obtained. */
  lemma UnitsConserved(h: Heap, u: nat)
    requires Whole(h)
    ensures u in h.own <==> exists a: nat :: IsBlock(h, a) && a in h.size && a <= u < a + h.size[a]
    ensures forall a: nat, b: nat | IsBlock(h, a) && IsBlock(h, b) && a in h.size && b in h.size
              && a <= u < a + h.size[a] && b <= u < b + h.size[b] :: a == b
  {
    assert UnitOk(h, u);
    forall a: nat | IsBlock(h, a) && a in h.size && a <= u < a + h.size[a] ensures u in h.own && h.own[u] == a {
      assert BlockOk(h, a);
    }
  }

  // ---------------------------------------------------------------- changing the ring

  /** A used block b enters the ring behind index i. */
  ghost function Inserted(h: Heap, i: nat, b: nat): (h': Heap)
    requires i < |h.ring|
  {
    h.(ring := h.ring[..i + 1] + [b] + h.ring[i + 1..], used := h.used - {b},
       ptr := h.ptr[b := h.ring[NextIndex(|h.ring|, i)]][h.ring[i] := b])
  }

  /** Index i is where b belongs. */
  ghost predicate Slot(h: Heap, i: nat, b: nat) {
    i < |h.ring| && h.ring[i] < b && (i + 1 < |h.ring| ==> b < h.ring[i + 1])
  }

  lemma InsertedWhole(h: Heap, i: nat, b: nat)
    requires Whole(h) && b in h.used && Slot(h, i, b)
    ensures Whole(Inserted(h, i, b))
  {
    var h' := Inserted(h, i, b);
    var n := |h.ring|;
    assert forall k | 0 <= k < n + 1 :: h'.ring[k] == if k <= i then h.ring[k] else if k == i + 1 then b else h.ring[k - 1];
    InsertedMembers(h, i, b);
    forall k: nat ensures LinkOk(h', k) {
      InsertedLink(h, i, b, k);
    }
    forall k: nat, l: nat ensures SortOk(h', k, l) {
      InsertedSort(h, i, b, k, l);
    }
    forall a: nat ensures BlockOk(h', a) {
      assert BlockOk(h, a);
    }
    forall u: nat ensures UnitOk(h', u) {
      assert UnitOk(h, u);
    }
  }

  lemma InsertedMembers(h: Heap, i: nat, b: nat)
    requires i < |h.ring|
    ensures forall a :: a in Inserted(h, i, b).ring <==> a in h.ring || a == b
  {
    assert h.ring == h.ring[..i + 1] + h.ring[i + 1..];
  }

  lemma InsertedLink(h: Heap, i: nat, b: nat, k: nat)
    requires Whole(h) && b in h.used && Slot(h, i, b)
    ensures LinkOk(Inserted(h, i, b), k)
  {
    var h' := Inserted(h, i, b);
    var n := |h.ring|;
    assert LinkOk(h, i) && LinkOk(h, k) && (k > 0 ==> LinkOk(h, k - 1));
    assert BlockOk(h, b);
    if k < n + 1 {
      var from := if k <= i then k else k - 1;
      if k != i + 1 && k != i {
        assert h'.ring[k] == h.ring[from];
        if from < i { assert SortOk(h, from, i); } else { assert SortOk(h, i, from); }
      }
    }
  }

  lemma InsertedSort(h: Heap, i: nat, b: nat, k: nat, l: nat)
    requires Whole(h) && Slot(h, i, b)
    ensures SortOk(Inserted(h, i, b), k, l)
  {
    var h' := Inserted(h, i, b);
    if k < l < |h'.ring| {
      var k', l' := if k <= i then k else k - 1, if l <= i then l else l - 1;
      assert SortOk(h, k', l') && SortOk(h, k', i) && (i + 1 < |h.ring| ==> SortOk(h, i + 1, l'));
    }
  }

  /** The block at index k absorbs the one behind it. */
  ghost function Merged(h: Heap, k: nat): (h': Heap)
    requires k + 1 < |h.ring| && h.ring[k] in h.size && h.ring[k + 1] in h.size && h.ring[k + 1] in h.ptr
  {
    var a, b := h.ring[k], h.ring[k + 1];
    h.(ring := h.ring[..k + 1] + h.ring[k + 2..],
       size := h.size[a := h.size[a] + h.size[b]],
       ptr := h.ptr[a := h.ptr[b]],
       own := map u | u in h.own :: if h.own[u] == b then a else h.own[u])
  }

  ghost predicate Touching(h: Heap, k: nat) {
    && 1 <= k && k + 1 < |h.ring| && h.ring[k] in h.size && h.ring[k + 1] in h.size && h.ring[k + 1] in h.ptr
    && h.ring[k] + h.size[h.ring[k]] == h.ring[k + 1]
  }

  lemma MergedWhole(h: Heap, k: nat)
    requires Whole(h) && Touching(h, k)
    ensures Whole(Merged(h, k))
  {
    var h' := Merged(h, k);
    var a, b := h.ring[k], h.ring[k + 1];
    assert forall i | 0 <= i < |h'.ring| :: h'.ring[i] == if i <= k then h.ring[i] else h.ring[i + 1];
    assert SortOk(h, 0, k) && SortOk(h, k, k + 1);
    MergedMembers(h, k);
    forall i: nat ensures LinkOk(h', i) {
      MergedLink(h, k, i);
    }
    forall i: nat, j: nat ensures SortOk(h', i, j) {
      assert SortOk(h, if i <= k then i else i + 1, if j <= k then j else j + 1);
    }
    forall c: nat ensures BlockOk(h', c) {
      assert BlockOk(h, c) && BlockOk(h, a) && BlockOk(h, b);
    }
    forall u: nat ensures UnitOk(h', u) {
      assert UnitOk(h, u) && BlockOk(h, a) && BlockOk(h, b);
    }
  }

  lemma MergedMembers(h: Heap, k: nat)
    requires Whole(h) && Touching(h, k)
    ensures forall c :: c in Merged(h, k).ring <==> c in h.ring && c != h.ring[k + 1]
  {
    var h' := Merged(h, k);
    assert h.ring == h.ring[..k + 1] + [h.ring[k + 1]] + h.ring[k + 2..];
    forall i | 0 <= i < |h'.ring| ensures h'.ring[i] != h.ring[k + 1] {
      assert h'.ring[i] == if i <= k then h.ring[i] else h.ring[i + 1];
      assert SortOk(h, i, k + 1) && SortOk(h, k + 1, i + 1);
    }
  }

  lemma MergedLink(h: Heap, k: nat, i: nat)
    requires Whole(h) && Touching(h, k)
    ensures LinkOk(Merged(h, k), i)
  {
    var h' := Merged(h, k);
    assert LinkOk(h, i) && LinkOk(h, k + 1) && LinkOk(h, i + 1);
    if i < |h'.ring| && i != k {
      if i < k { assert SortOk(h, i, k); } else { assert SortOk(h, k, i + 1); }
    }
  }

  lemma MergedGap(h: Heap, k: nat, j: nat)
    requires Whole(h) && Touching(h, k)
    requires if j < k then GapOk(h, j) else GapOk(h, j + 1)
    ensures GapOk(Merged(h, k), j)
  {
    var h' := Merged(h, k);
    assert forall i | 0 <= i < |h'.ring| :: h'.ring[i] == if i <= k then h.ring[i] else h.ring[i + 1];
    assert SortOk(h, j, k) && SortOk(h, k, j + 1) && SortOk(h, 0, j) && SortOk(h, 0, j + 1);
    if j + 1 < |h'.ring| {
      assert BlockOk(h, h'.ring[j]);
    }
  }

  lemma InsertedGap(h: Heap, i: nat, b: nat, j: nat)
    requires Inv(h) && b in h.used && Slot(h, i, b)
    ensures GapOk(Inserted(h, i, b), j) || ((j == i || j == i + 1) && Touching(Inserted(h, i, b), j))
  {
    var h' := Inserted(h, i, b);
    assert forall k | 0 <= k < |h'.ring| :: h'.ring[k] == if k <= i then h.ring[k] else if k == i + 1 then b else h.ring[k - 1];
    assert GapOk(h, j) && (j > 0 ==> GapOk(h, j - 1)) && SortOk(h, 0, i) && SortOk(h, 0, i + 1);
    assert BlockOk(h, b);
    if 1 <= j && j + 1 < |h'.ring| {
      InsertedWhole(h, i, b);
      assert SortOk(h', 0, j) && SortOk(h', j, j + 1) && SortOk(h', 0, j + 1) && LinkOk(h', j + 1);
      assert BlockOk(h', h'.ring[j]) && BlockOk(h', h'.ring[j + 1]);
      if j == i || j == i + 1 { BlocksDisjoint(h', h'.ring[j], h'.ring[j + 1]); }
    }
  }

  /** free: block b enters the ring behind index i and merges with the neighbours it touches. */
  ghost function Joined(h: Heap, k: nat): (h': Heap) {
    if Touching(h, k) then Merged(h, k) else h
  }

  ghost function Freed(h: Heap, i: nat, b: nat): (h': Heap)
    requires i < |h.ring|
  {
    Joined(Joined(Inserted(h, i, b), i + 1), i)
  }

  lemma FreedInv(h: Heap, i: nat, b: nat)
    requires Inv(h) && b in h.used && Slot(h, i, b)
    ensures Inv(Freed(h, i, b))
    ensures Freed(h, i, b).used == h.used - {b} && Freed(h, i, b).own.Keys == h.own.Keys
  {
    var h1 := Inserted(h, i, b);
    InsertedWhole(h, i, b);
    var h2 := Joined(h1, i + 1);
    JoinedWhole(h1, i + 1);
    JoinedWhole(h2, i);
    forall j: nat ensures GapOk(h2, j) || (j == i && Touching(h2, i)) {
      UpperGap(h, i, b, j);
    }
    LowerGap(h2, i);
  }

  lemma JoinedWhole(h: Heap, k: nat)
    requires Whole(h)
    ensures Whole(Joined(h, k)) && Joined(h, k).used == h.used && Joined(h, k).own.Keys == h.own.Keys
  {
    if Touching(h, k) { MergedWhole(h, k); }
  }

  lemma LowerGap(h: Heap, i: nat)
    requires Whole(h) && forall j: nat :: GapOk(h, j) || (j == i && Touching(h, i))
    ensures forall j: nat :: GapOk(Joined(h, i), j)
  {
    forall j: nat ensures GapOk(Joined(h, i), j) {
      assert GapOk(h, j) || (j == i && Touching(h, i));
      assert GapOk(h, j + 1) || (j + 1 == i && Touching(h, i));
      if Touching(h, i) { MergedGap(h, i, j); }
    }
  }

  lemma UpperGap(h: Heap, i: nat, b: nat, j: nat)
    requires Inv(h) && b in h.used && Slot(h, i, b)
    ensures var h2 := Joined(Inserted(h, i, b), i + 1); GapOk(h2, j) || (j == i && Touching(h2, i))
  {
    var h1 := Inserted(h, i, b);
    InsertedWhole(h, i, b);
    InsertedGap(h, i, b, j);
    InsertedGap(h, i, b, j + 1);
    if Touching(h1, i + 1) {
      if j == i {
        UpperAtSlot(h1, i);
      } else {
        MergedGap(h1, i + 1, j);
      }
    }
  }

  /** Merging the new block upwards leaves it as far from the one below. */
  lemma UpperAtSlot(h: Heap, i: nat)
    requires Whole(h) && Touching(h, i + 1) && (GapOk(h, i) || Touching(h, i))
    ensures var h' := Merged(h, i + 1); GapOk(h', i) || Touching(h', i)
  {
    var h' := Merged(h, i + 1);
    assert forall k | 0 <= k < |h'.ring| :: h'.ring[k] == if k <= i + 1 then h.ring[k] else h.ring[k + 1];
    assert SortOk(h, i, i + 1);
    MergedLink(h, i + 1, i + 1);
  }

  // ---------------------------------------------------------------- malloc

  /** An exact fit leaves the ring. */
  ghost function Removed(h: Heap, k: nat): (h': Heap)
    requires 1 <= k < |h.ring| && h.ring[k] in h.ptr
  {
    h.(ring := h.ring[..k] + h.ring[k + 1..], used := h.used + {h.ring[k]},
       ptr := h.ptr[h.ring[k - 1] := h.ptr[h.ring[k]]])
  }

  lemma RemovedInv(h: Heap, k: nat)
    requires Inv(h) && 1 <= k < |h.ring|
    ensures LinkOk(h, k) && Inv(Removed(h, k))
  {
    assert LinkOk(h, k) && LinkOk(h, k - 1) && SortOk(h, 0, k);
    var h' := Removed(h, k);
    assert forall i | 0 <= i < |h'.ring| :: h'.ring[i] == if i < k then h.ring[i] else h.ring[i + 1];
    RemovedMembers(h, k);
    forall i: nat ensures LinkOk(h', i) {
      RemovedLink(h, k, i);
    }
    forall i: nat, j: nat ensures SortOk(h', i, j) {
      assert SortOk(h, if i < k then i else i + 1, if j < k then j else j + 1);
    }
    forall a: nat ensures BlockOk(h', a) {
      assert BlockOk(h, a);
    }
    forall u: nat ensures UnitOk(h', u) {
      assert UnitOk(h, u);
    }
    forall i: nat ensures GapOk(h', i) {
      RemovedGap(h, k, i);
    }
  }

  lemma RemovedGap(h: Heap, k: nat, i: nat)
    requires Inv(h) && 1 <= k < |h.ring| && h.ring[k] in h.ptr
    ensures GapOk(Removed(h, k), i)
  {
    var h' := Removed(h, k);
    assert forall j | 0 <= j < |h'.ring| :: h'.ring[j] == if j < k then h.ring[j] else h.ring[j + 1];
    assert GapOk(h, i) && GapOk(h, i + 1) && SortOk(h, i + 1, i + 2);
  }

  lemma RemovedMembers(h: Heap, k: nat)
    requires Whole(h) && 1 <= k < |h.ring| && h.ring[k] in h.ptr
    ensures forall c :: c in Removed(h, k).ring <==> c in h.ring && c != h.ring[k]
  {
    var h' := Removed(h, k);
    assert h.ring == h.ring[..k] + [h.ring[k]] + h.ring[k + 1..];
    forall i | 0 <= i < |h'.ring| ensures h'.ring[i] != h.ring[k] {
      assert h'.ring[i] == if i < k then h.ring[i] else h.ring[i + 1];
      assert SortOk(h, i, k) && SortOk(h, k, i + 1);
    }
  }

  lemma RemovedLink(h: Heap, k: nat, i: nat)
    requires Whole(h) && 1 <= k < |h.ring| && h.ring[k] in h.ptr
    ensures LinkOk(Removed(h, k), i)
  {
    var h' := Removed(h, k);
    assert LinkOk(h, i) && LinkOk(h, k) && LinkOk(h, i + 1);
    if i < |h'.ring| && i != k - 1 {
      if i < k - 1 { assert SortOk(h, i, k - 1); } else { assert SortOk(h, k - 1, i + 1); }
    }
  }

  /** The last n units of a larger block are handed out. */
  ghost function Split(h: Heap, k: nat, n: nat): (h': Heap)
    requires 1 <= k < |h.ring| && h.ring[k] in h.size && n < h.size[h.ring[k]]
  {
    var p := h.ring[k];
    var tail := p + h.size[p] - n;
    h.(size := h.size[p := h.size[p] - n][tail := n], used := h.used + {tail},
       own := map u | u in h.own :: if tail <= u < tail + n then tail else h.own[u])
  }

  lemma SplitInv(h: Heap, k: nat, n: nat)
    requires Inv(h) && 1 <= k < |h.ring| && h.ring[k] in h.size && 1 <= n < h.size[h.ring[k]]
    ensures Inv(Split(h, k, n))
    ensures var tail := h.ring[k] + h.size[h.ring[k]] - n; tail !in h.used && tail !in h.ring
  {
    var h' := Split(h, k, n);
    var p := h.ring[k];
    var tail := p + h.size[p] - n;
    assert SortOk(h, 0, k) && BlockOk(h, p);
    assert h.own[tail] == p;
    assert BlockOk(h, tail);
    forall i: nat ensures LinkOk(h', i) {
      assert LinkOk(h, i);
    }
    forall i: nat, j: nat ensures SortOk(h', i, j) {
      assert SortOk(h, i, j);
    }
    forall a: nat ensures BlockOk(h', a) {
      SplitBlock(h, k, n, a);
    }
    forall u: nat ensures UnitOk(h', u) {
      assert UnitOk(h, u);
    }
    forall i: nat ensures GapOk(h', i) {
      assert GapOk(h, i) && SortOk(h, 0, i);
    }
  }

  lemma SplitBlock(h: Heap, k: nat, n: nat, a: nat)
    requires Inv(h) && 1 <= k < |h.ring| && h.ring[k] in h.size && 1 <= n < h.size[h.ring[k]]
    ensures BlockOk(Split(h, k, n), a)
  {
    var p := h.ring[k];
    var tail := p + h.size[p] - n;
    assert SortOk(h, 0, k) && BlockOk(h, p) && BlockOk(h, a);
    if IsBlock(h, a) && a != p {
      if a < p { BlocksDisjoint(h, a, p); } else { BlocksDisjoint(h, p, a); }
      forall u | a <= u < a + h.size[a] ensures u in h.own && h.own[u] == a && !(tail <= u < tail + n) {
        OwnerOf(h, a, u);
      }
    }
  }

  ghost function WithUnits(own: map<nat, nat>, a: nat, n: nat): (own': map<nat, nat>)
    ensures forall u :: u in own' <==> u in own || a <= u < a + n
    ensures forall u | u in own' :: own'[u] == if a <= u < a + n then a else own[u]
  {
    if n == 0 then own else WithUnits(own, a, n - 1)[a + n - 1 := a]
  }

  /** morecore's new block, before it is freed. */
  ghost function Obtained(h: Heap, a: nat, n: nat): (h': Heap) {
    h.(size := h.size[a := n], used := h.used + {a}, own := WithUnits(h.own, a, n))
  }

  lemma ObtainedInv(h: Heap, a: nat, n: nat)
    requires Inv(h) && a > h.base && n >= 1 && forall u | a <= u < a + n :: u !in h.own
    ensures Inv(Obtained(h, a, n)) && !IsBlock(h, a) && a !in h.ring
  {
    var h' := Obtained(h, a, n);
    assert BlockOk(h, a);
    if IsBlock(h, a) { OwnerOf(h, a, a); }
    forall i: nat ensures LinkOk(h', i) {
      assert LinkOk(h, i);
    }
    forall i: nat, j: nat ensures SortOk(h', i, j) {
      assert SortOk(h, i, j);
    }
    forall b: nat ensures BlockOk(h', b) {
      ObtainedBlock(h, a, n, b);
    }
    forall u: nat ensures UnitOk(h', u) {
      assert UnitOk(h, u);
      if u in h.own && h.own[u] == a { OwnerOf(h, a, a); }
    }
    forall i: nat ensures GapOk(h', i) {
      assert GapOk(h, i);
    }
  }

  lemma ObtainedBlock(h: Heap, a: nat, n: nat, b: nat)
    requires Inv(h) && a > h.base && n >= 1 && forall u | a <= u < a + n :: u !in h.own
    ensures BlockOk(Obtained(h, a, n), b)
  {
    assert BlockOk(h, b);
    if IsBlock(h, b) && b != a {
      forall u | b <= u < b + h.size[b] ensures u in h.own && h.own[u] == b && !(a <= u < a + n) {
        OwnerOf(h, b, u);
      }
    }
  }

  // ---------------------------------------------------------------- searching

  /** There is a place for b in the ring, and it is where free's search stops. */
  lemma {:induction false} FindSlot(h: Heap, b: nat, n: nat) returns (i: nat)
    requires Whole(h) && b > h.base && b !in h.ring && 1 <= n <= |h.ring| && (n < |h.ring| ==> b < h.ring[n])
    ensures Slot(h, i, b)
    decreases n
  {
    if h.ring[n - 1] < b {
      i := n - 1;
    } else {
      i := FindSlot(h, b, n - 1);
    }
  }

  /** free's two tests, at ring index k, hold exactly at the slot. */
  lemma SearchStops(h: Heap, b: nat, i: nat, k: nat)
    requires Whole(h) && b > h.base && Slot(h, i, b) && k < |h.ring|
    ensures var p, q := h.ring[k], h.ring[NextIndex(|h.ring|, k)];
            ((b > p && b < q) || (p >= q && (b > p || b < q))) <==> k == i
  {
    assert SortOk(h, k, k + 1) && SortOk(h, 0, k) && SortOk(h, k, i) && SortOk(h, i, k) && SortOk(h, k + 1, i) && SortOk(h, i + 1, k);
  }

  /** The headers that free reads are there. */
  lemma FreeReads(h: Heap, i: nat, b: nat)
    requires Inv(h) && b in h.used && Slot(h, i, b)
    ensures b in h.size && h.ring[i] in h.size && h.ring[i] in h.ptr && h.ptr[h.ring[i]] == h.ring[NextIndex(|h.ring|, i)]
    ensures h.ptr[h.ring[i]] in h.ptr && h.ptr[h.ring[i]] in h.size && h.base < b
  {
    var n := |h.ring|;
    assert LinkOk(h, i) && LinkOk(h, NextIndex(n, i)) && BlockOk(h, b) && SortOk(h, 0, i);
    assert BlockOk(h, h.ring[i]) && BlockOk(h, h.ring[NextIndex(n, i)]) && SortOk(h, 0, NextIndex(n, i));
  }

  /** What the first half of free makes of the headers. */
  lemma UpperFields(h: Heap, i: nat, b: nat)
    requires Inv(h) && b in h.used && Slot(h, i, b)
    requires b in h.size && h.ring[i] in h.size && h.ring[i] in h.ptr && h.ptr[h.ring[i]] in h.ptr && h.ptr[h.ring[i]] in h.size
    ensures var p := h.ring[i];
            var q := h.ptr[p];
            var h2 := Joined(Inserted(h, i, b), i + 1);
            && i + 1 < |h2.ring| && h2.ring[i] == p && h2.ring[i + 1] == b
            && h2.size == (if b + h.size[b] == q then h.size[b := h.size[b] + h.size[q]] else h.size)
            && h2.ptr == (if b + h.size[b] == q then h.ptr[b := h.ptr[q]] else h.ptr[b := q])[p := b]
  {
    FreeReads(h, i, b);
    var n := |h.ring|;
    var h1 := Inserted(h, i, b);
    assert forall k | 0 <= k < n + 1 :: h1.ring[k] == if k <= i then h.ring[k] else if k == i + 1 then b else h.ring[k - 1];
    assert SortOk(h, i, NextIndex(n, i));
    assert Touching(h1, i + 1) <==> b + h.size[b] == h.ptr[h.ring[i]];
  }

  /** What the second half makes of them. */
  lemma LowerFields(h: Heap, i: nat)
    requires i + 1 < |h.ring| && h.ring[i] in h.size && h.ring[i + 1] in h.size && h.ring[i + 1] in h.ptr
    requires i == 0 ==> h.size[h.ring[0]] == 0 && h.ring[0] < h.ring[1]
    ensures var p, b := h.ring[i], h.ring[i + 1];
            var low := p + h.size[p] == b;
            && Joined(h, i).size == (if low then h.size[p := h.size[p] + h.size[b]] else h.size)
            && Joined(h, i).ptr == (if low then h.ptr[p := h.ptr[b]] else h.ptr)
  {
    assert Touching(h, i) <==> h.ring[i] + h.size[h.ring[i]] == h.ring[i + 1];
  }

  /** The headers once free has linked b in behind p. */
  predicate Readable(ptr: map<nat, nat>, size: map<nat, nat>, p: nat, b: nat) {
    b in size && p in size && p in ptr && ptr[p] in ptr && ptr[p] in size
  }

  function SizesUp(ptr: map<nat, nat>, size: map<nat, nat>, p: nat, b: nat): (size': map<nat, nat>)
    requires Readable(ptr, size, p, b)
  {
    if b + size[b] == ptr[p] then size[b := size[b] + size[ptr[p]]] else size
  }

  function PtrsUp(ptr: map<nat, nat>, size: map<nat, nat>, p: nat, b: nat): (ptr': map<nat, nat>)
    requires Readable(ptr, size, p, b)
  {
    if b + size[b] == ptr[p] then ptr[b := ptr[ptr[p]]] else ptr[b := ptr[p]]
  }

  function SizesAfter(ptr: map<nat, nat>, size: map<nat, nat>, p: nat, b: nat): (size': map<nat, nat>)
    requires Readable(ptr, size, p, b)
  {
    var size1 := SizesUp(ptr, size, p, b);
    if p + size1[p] == b then size1[p := size1[p] + size1[b]] else size1
  }

  function PtrsAfter(ptr: map<nat, nat>, size: map<nat, nat>, p: nat, b: nat): (ptr': map<nat, nat>)
    requires Readable(ptr, size, p, b)
  {
    var ptr1 := PtrsUp(ptr, size, p, b);
    if p + SizesUp(ptr, size, p, b)[p] == b then ptr1[p := ptr1[b]] else ptr1[p := b]
  }

  /** The assignments of free carry out insertion and merging. */
  lemma FreedFields(h: Heap, i: nat, b: nat)
    requires Inv(h) && b in h.used && Slot(h, i, b)
    ensures Readable(h.ptr, h.size, h.ring[i], b)
    ensures Freed(h, i, b).size == SizesAfter(h.ptr, h.size, h.ring[i], b)
    ensures Freed(h, i, b).ptr == PtrsAfter(h.ptr, h.size, h.ring[i], b)
    ensures Freed(h, i, b).base == h.base
  {
    FreeReads(h, i, b);
    UpperFields(h, i, b);
    LowerFields(Joined(Inserted(h, i, b), i + 1), i);
  }

  /** The free block at ring index k has room for n units. */
  ghost predicate Fits(h: Heap, k: nat, n: nat) {
    k < |h.ring| && h.ring[k] in h.size && h.size[h.ring[k]] >= n
  }

  /** After free the units of b lie in a free block at least as large. */
  lemma FreedBlock(h: Heap, i: nat, b: nat) returns (k: nat)
    requires Inv(h) && b in h.used && Slot(h, i, b)
    ensures b in h.size && Fits(Freed(h, i, b), k, h.size[b])
    ensures h.ring[i] in Freed(h, i, b).ring
  {
    FreeReads(h, i, b);
    UpperFields(h, i, b);
    var h2 := Joined(Inserted(h, i, b), i + 1);
    assert Fits(h2, i + 1, h.size[b]);
    k := FitsJoined(h2, i, h.size[b]);
  }

  lemma FitsJoined(h: Heap, i: nat, n: nat) returns (k: nat)
    requires Fits(h, i + 1, n)
    ensures Fits(Joined(h, i), k, n) && h.ring[i] in Joined(h, i).ring
  {
    var h' := Joined(h, i);
    if Touching(h, i) {
      k := i;
      assert h'.ring[i] == h.ring[i];
    } else {
      k := i + 1;
    }
  }

  // ---------------------------------------------------------------- sizes

  /** The units malloc asks for: a header and the bytes, rounded up. */
  function Units(nbytes: nat): (n: nat)
    ensures n >= 1 && (n - 1) * 16 >= nbytes && (nbytes > 0 ==> (n - 2) * 16 < nbytes)
  {
    (nbytes + 15) / 16 + 1
  }

  /** morecore asks for no less than this. */
  function MaxUnits(n: nat): (m: nat) {
    if n < 4096 then 4096 else n
  }

  /** The value of an unsigned number that is passed as a 32-bit int. */
  function AsInt(x: nat): (i: int) {
    var y := x % 0x1_0000_0000;
    if y < 0x8000_0000 then y else y - 0x1_0000_0000
  }

  /** morecore asks sbrk for as many bytes as it accounts for exactly up to this size.  Beyond
      it the int that sbrk receives is another number. */
  lemma SbrkArgument(nbytes: nat)
    requires nbytes < 0x1_0000_0000
    ensures var nu := MaxUnits(Units(nbytes));
            AsInt(nu * 16) == nu * 16 <==> nbytes <= 0x8000_0000 - 32
  {
  }

  /** The first size beyond it: sbrk is asked to shrink the process. */
  lemma SbrkShrinks()
    ensures AsInt(Units(0x8000_0000 - 31) * 16) == -0x8000_0000
  {
  }

  // ---------------------------------------------------------------- what comes back from sbrk

  /** The size of a process of sz bytes after growproc(n), if there is memory for it: growproc
      adds in 32 bits, and neither uvmalloc shrinks a process nor uvmdealloc grows it. */
  function Grown(sz: nat, n: int): (sz': nat) {
    var next := (sz + n) % 0x1_0000_0000;
    if n > 0 && next < sz then sz else if n < 0 && next >= sz then sz else if n == 0 then sz else next
  }

  /** The address that sys_sbrk returns: an int, widened to 64 bits. */
  function Returned(sz: nat): (addr: nat)
    requires sz < 0x1_0000_0000
  {
    if sz < 0x8000_0000 then sz else 0xFFFF_FFFF_0000_0000 + sz
  }

  /** morecore writes a header for n units at a, while the end of the process's memory moves
      from unit e to unit e'. */
  ghost function Claimed(h: Heap, a: nat, n: nat, e: nat, e': nat): (h': Heap) {
    h.(size := h.size[a := n], used := h.used + {a},
       own := map u: nat | u < e' && (u in h.own || u >= e) :: if u >= e then a else h.own[u])
  }

  /** The heap survives exactly if the header lies at the old end and claims what was added. */
  lemma ClaimExact(h: Heap, a: nat, n: nat, e: nat, e': nat)
    requires Inv(h) && h.base < e <= a && n >= 1 && forall u | e <= u :: u !in h.own
    ensures Inv(Claimed(h, a, n, e, e')) <==> a == e && e' == e + n
  {
    var h' := Claimed(h, a, n, e, e');
    if a == e && e' == e + n {
      ObtainedInv(h, a, n);
      assert h'.own == WithUnits(h.own, a, n);
    } else if e' <= a {
      assert a !in h'.own;
      assert !BlockOk(h', a);
    } else if e < a {
      assert h'.own[e] == a;
      assert !UnitOk(h', e);
    } else if e' < a + n {
      assert e' !in h'.own;
      assert !BlockOk(h', a);
    } else {
      assert h'.own[a + n] == a;
      assert !UnitOk(h', a + n);
    }
  }

  /** The heap of a process of sz bytes once morecore has the memory for a request. */
  ghost function AfterSbrk(h: Heap, sz: nat, nbytes: nat): (h': Heap)
    requires sz < 0x1_0000_0000
  {
    var nu := MaxUnits(Units(nbytes));
    Claimed(h, Returned(sz) / 16, nu, sz / 16, Grown(sz, AsInt(nu * 16)) / 16)
  }

  /** A request that needs morecore is served exactly up to this size, in a process whose
      memory ends below two gigabytes.  Any other one loses the heap. */
  lemma RequestExact(h: Heap, sz: nat, nbytes: nat)
    requires Inv(h) && sz < 0x1_0000_0000 && sz % 16 == 0 && h.base < sz / 16 && nbytes < 0x1_0000_0000
    requires forall u | sz / 16 <= u :: u !in h.own
    ensures Inv(AfterSbrk(h, sz, nbytes)) <==> nbytes <= 0x8000_0000 - 32 && sz < 0x8000_0000
  {
    var nu := MaxUnits(Units(nbytes));
    var e' := Grown(sz, AsInt(nu * 16));
    SbrkArgument(nbytes);
    ClaimExact(h, Returned(sz) / 16, nu, sz / 16, e' / 16);
    if sz < 0x8000_0000 { GrownExact(sz, nu); }
  }

  lemma GrownExact(sz: nat, nu: nat)
    requires sz < 0x8000_0000 && sz % 16 == 0 && 1 <= nu <= 0x1000_0001
    ensures Grown(sz, AsInt(nu * 16)) / 16 == sz / 16 + nu <==> AsInt(nu * 16) == nu * 16
  {
  }
}
