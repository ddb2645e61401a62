/** malloc, free and morecore of user/umalloc.c over a heap of header-sized units. */
module Umalloc {
  import opened Options
  import opened HeapModel

  /** Ring index t + 1 places after f. */
  function After(n: nat, f: nat, t: nat): (k: int) {
    if f + 1 + t < n then f + 1 + t else f + 1 + t - n
  }

  /** How far index i lies ahead of k, going round the ring. */
  function Ahead(n: nat, k: nat, i: nat): (d: int) {
    if k <= i then i - k else n - k + i
  }

  /** The block t + 1 places after index f is the first from there on with n units. */
  ghost predicate FitsAfter(h: Heap, f: nat, t: nat, n: nat) {
    && f < |h.ring| && t < |h.ring| && Fits(h, After(|h.ring|, f, t), n)
    && forall s: nat | s < t :: !Fits(h, After(|h.ring|, f, s), n)
  }

  /** Ring index k holds the first block behind the one at p, in ring order, with n units. */
  ghost predicate FirstFit(h: Heap, p: nat, k: nat, n: nat) {
    exists f: nat, t: nat :: f < |h.ring| && h.ring[f] == p && FitsAfter(h, f, t, n) && k == After(|h.ring|, f, t)
  }

  /** Address a is the upper end, n units long, of that block. */
  ghost predicate TakenFrom(h: Heap, p: nat, n: nat, a: nat) {
    exists k: nat :: FirstFit(h, p, k, n) && k < |h.ring| && h.ring[k] in h.size && a == h.ring[k] + h.size[h.ring[k]] - n
  }

  class Allocator {
    const base: nat
    var ptr: map<nat, nat>
    var size: map<nat, nat>
    var freep: Option<nat>
    ghost var ring: seq<nat>
    ghost var used: set<nat>
    ghost var own: map<nat, nat>

    ghost function State(): (h: Heap)
      reads this
    {
      Heap(base, ptr, size, ring, used, own)
    }

    ghost predicate Valid()
      reads this
    {
      if freep.None? then ring == [] && used == {} && own == map[]
      else Inv(State()) && freep.value in ring
    }

    /** Before the first malloc there is no ring. */
    constructor (base: nat)
      ensures Valid() && this.base == base && freep.None?
    {
      this.base := base;
      ptr, size := map[], map[];
      freep := None;
      ring, used, own := [], {}, map[];
    }

    /** free's search: the ring index behind which block b belongs, found within one lap. */
    method Search(b: nat) returns (p: nat, ghost i: nat, ghost turns: nat)
      requires Valid() && b in used
      ensures Slot(State(), i, b) && p == ring[i] && turns < |ring|
    {
      ghost var h := State();
      ghost var n := |ring|;
      assert BlockOk(h, b);
      i := FindSlot(h, b, n);
      p := freep.value;
      ghost var k :| 0 <= k < n && ring[k] == p;
      turns := 0;
      assert LinkOk(h, k);
      SearchStops(h, b, i, k);
      while !(b > p && b < ptr[p]) && !(p >= ptr[p] && (b > p || b < ptr[p]))
        invariant 0 <= k < n && p == ring[k] && LinkOk(h, k)
        invariant (b > p && b < ptr[p]) || (p >= ptr[p] && (b > p || b < ptr[p])) <==> k == i
        invariant turns + Ahead(n, k, i) < n
        decreases Ahead(n, k, i)
      {
        p := ptr[p];
        k := NextIndex(n, k);
        assert LinkOk(h, k);
        SearchStops(h, b, i, k);
        turns := turns + 1;
      }
    }

    /** free of the block whose header is at b. */
    method Free(b: nat) returns (ghost k: nat)
      requires Valid() && b in used
      modifies this
      ensures Valid() && freep.Some? && used == old(used) - {b} && own.Keys == old(own.Keys)
      ensures exists i: nat :: Slot(old(State()), i, b) && State() == Freed(old(State()), i, b) && freep == Some(old(ring)[i])
      ensures b in old(size) && Fits(State(), k, old(size)[b])
      ensures forall a | a in used && a in old(used) :: a in size && a in old(size) && size[a] == old(size)[a]
    {
      ghost var h := State();
      var p;
      ghost var i, turns;
      p, i, turns := Search(b);
      UsedSizes(h);
      FreedFields(h, i, b);
      FreedInv(h, i, b);
      k := FreedBlock(h, i, b);
      Relink(p, b);
      freep := Some(p);
      ring, used, own := Freed(h, i, b).ring, Freed(h, i, b).used, Freed(h, i, b).own;
      assert State() == Freed(h, i, b);
    }

    /** The assignments of free, once its search has stopped at p. */
    method Relink(p: nat, b: nat)
      requires Readable(ptr, size, p, b)
      modifies this`ptr, this`size
      ensures size == SizesAfter(old(ptr), old(size), p, b) && ptr == PtrsAfter(old(ptr), old(size), p, b)
    {
      var q := ptr[p];
      if b + size[b] == q {
        size := size[b := size[b] + size[q]];
        ptr := ptr[b := ptr[q]];
      } else {
        ptr := ptr[b := q];
      }
      if p + size[p] == b {
        size := size[p := size[p] + size[b]];
        ptr := ptr[p := ptr[b]];
      } else {
        ptr := ptr[p := b];
      }
    }

    /** Memory of the process ends at byte sz, above base and every block. */
    ghost predicate Below(sz: nat)
      reads this
    {
      sz < 0x1_0000_0000 && sz % 16 == 0 && base < sz / 16 && forall u | sz / 16 <= u :: u !in own
    }

    /** morecore in a process of sz bytes; sbrk succeeds if `granted`. */
    method Morecore(nu: nat, sz: nat, granted: bool) returns (ok: bool, ghost k: nat)
      requires Valid() && freep.Some? && nu >= 1 && Below(sz)
      requires MaxUnits(nu) * 16 < 0x8000_0000 && sz < 0x8000_0000
      modifies this
      ensures Valid() && freep.Some? && used == old(used) && ok == granted
      ensures !ok ==> State() == old(State())
      ensures ok ==> forall u :: u in own <==> u in old(own) || sz / 16 <= u < sz / 16 + MaxUnits(nu)
      ensures ok ==> Fits(State(), k, nu)
      ensures forall a | a in used && a in old(used) :: a in size && a in old(size) && size[a] == old(size)[a]
    {
      UsedSizes(State());
      var nu' := MaxUnits(nu);
      var n := AsInt(nu' * 16);
      if !granted {
        return false, 0;
      }
      var hp := Returned(sz) / 16;
      ghost var end := Grown(sz, n) / 16;
      GrownExact(sz, nu');
      if hp in used { OwnerOf(State(), hp, hp); }
      ClaimExact(State(), hp, nu', sz / 16, end);
      own := Claimed(State(), hp, nu', sz / 16, end).own;
      size := size[hp := nu'];
      used := used + {hp};
      k := Free(hp);
      ok := true;
    }

    /** One lap of malloc's search, from behind freep to freep: the first block that fits. */
    method Scan(n: nat) returns (r: Option<(nat, nat)>, ghost k: nat)
      requires Valid() && freep.Some? && n >= 1
      ensures r.Some? ==> 1 <= k < |ring| && r.value.0 == ring[k - 1] && r.value.1 == ring[k] && ring[k] in size && size[ring[k]] >= n
      ensures r.None? ==> forall j: nat :: !Fits(State(), j, n)
      ensures r.Some? ==> FirstFit(State(), freep.value, k, n)
    {
      ghost var h := State();
      ghost var m := |ring|;
      ghost var f :| 0 <= f < m && ring[f] == freep.value;
      var prevp := freep.value;
      RingSizes(h);
      assert LinkOk(h, f);
      var p := ptr[prevp];
      ghost var t := 0;
      k := After(m, f, 0);
      while true
        invariant 0 <= t < m && k == After(m, f, t) && 0 <= k < m && p == ring[k] && prevp == ring[if k == 0 then m - 1 else k - 1]
        invariant forall s | 0 <= s < t :: size[ring[After(m, f, s)]] < n
        decreases m - t
      {
        if size[p] >= n {
          assert FitsAfter(h, f, t, n);
          return Some((prevp, p)), k;
        }
        if p == freep.value {
          SameIndex(h, k, f);
          forall j | 0 <= j < m ensures size[ring[j]] < n {
            var s := if j > f then j - f - 1 else m - f - 1 + j;
            assert After(m, f, s) == j;
          }
          return None, k;
        }
        assert LinkOk(h, k);
        prevp := p;
        p := ptr[p];
        t := t + 1;
        k := After(m, f, t);
      }
    }

    /** malloc: the address behind the header, or None.  `calls` counts the calls of morecore. */
    method Malloc(nbytes: nat, sz: nat, granted: bool) returns (r: Option<nat>, ghost calls: nat)
      requires Valid() && nbytes < 0x1_0000_0000
      requires (nbytes <= 0x8000_0000 - 32 && sz < 0x8000_0000) || exists j :: Fits(State(), j, Units(nbytes))
      requires Below(sz)
      modifies this
      ensures Valid() && calls == if old(exists j :: Fits(State(), j, Units(nbytes))) then 0 else 1
      ensures r.Some? ==>
                && r.value >= 1 && r.value - 1 !in old(used) && used == old(used) + {r.value - 1}
                && r.value - 1 in size && size[r.value - 1] == Units(nbytes)
      ensures r.None? <==> calls == 1 && !granted
      ensures calls == 0 ==> r.Some? && old(freep).Some? && TakenFrom(old(State()), old(freep).value, Units(nbytes), r.value - 1)
      ensures r.None? ==> used == old(used)
      ensures forall a | a in used && a in old(used) :: a in size && a in old(size) && size[a] == old(size)[a]
      ensures calls == 0 || !granted ==> own.Keys == old(own.Keys)
      ensures calls == 1 && granted ==> forall u :: u in own <==> u in old(own) || sz / 16 <= u < sz / 16 + MaxUnits(Units(nbytes))
    {
      var nunits := Units(nbytes);
      if freep.None? {
        ptr := map[base := base];
        size := map[base := 0];
        freep := Some(base);
        ring := [base];
      }
      calls := 0;
      var fit;
      ghost var k;
      fit, k := Scan(nunits);
      assert old(freep).Some? ==> State() == old(State());
      if fit.Some? {
        assert Fits(old(State()), k, nunits);
      }
      if fit.None? {
        calls := 1;
        var ok;
        ghost var j;
        ok, j := Morecore(nunits, sz, granted);
        if !ok {
          return None, calls;
        }
        fit, k := Scan(nunits);
        assert Fits(State(), j, nunits);
      }
      var a := Take(fit.value.0, fit.value.1, k, nunits);
      return Some(a + 1), calls;
    }

    /** The part of malloc that hands out the block at ring index k. */
    method Take(prevp: nat, p: nat, ghost k: nat, n: nat) returns (a: nat)
      requires Valid() && freep.Some? && n >= 1 && 1 <= k < |ring| && ring[k - 1] == prevp && ring[k] == p
      requires p in size && size[p] >= n
      modifies this
      ensures Valid() && freep.Some? && a !in old(used) && used == old(used) + {a} && a in size && size[a] == n
      ensures own.Keys == old(own.Keys)
      ensures p in old(ptr) && State() == if old(size)[p] == n then Removed(old(State()), k) else Split(old(State()), k, n)
      ensures a == p + old(size)[p] - n && freep == Some(prevp)
      ensures forall a | a in used && a in old(used) :: a in size && a in old(size) && size[a] == old(size)[a]
    {
      ghost var h := State();
      UsedSizes(h);
      a := p;
      assert LinkOk(h, k) && LinkOk(h, k - 1);
      if size[p] == n {
        RemovedInv(h, k);
        RemovedMembers(h, k);
        ptr := ptr[prevp := ptr[p]];
        ring, used := Removed(h, k).ring, Removed(h, k).used;
        assert State() == Removed(h, k);
        assert SortOk(h, k - 1, k);
      } else {
        SplitInv(h, k, n);
        size := size[p := size[p] - n];
        a := p + size[p];
        size := size[a := n];
        used, own := Split(h, k, n).used, Split(h, k, n).own;
        assert State() == Split(h, k, n);
      }
      freep := Some(prevp);
    }
  }

  lemma RingSizes(h: Heap)
    requires Inv(h)
    ensures forall j | 0 <= j < |h.ring| :: h.ring[j] in h.size && h.ring[j] in h.ptr
  {
    forall j | 0 <= j < |h.ring| ensures h.ring[j] in h.size && h.ring[j] in h.ptr {
      assert LinkOk(h, j) && SortOk(h, 0, j) && BlockOk(h, h.ring[j]);
    }
  }

  lemma UsedSizes(h: Heap)
    requires Inv(h)
    ensures forall a | a in h.used :: a in h.size
  {
    forall a | a in h.used ensures a in h.size {
      assert BlockOk(h, a);
    }
  }

  lemma SameIndex(h: Heap, i: nat, j: nat)
    requires Inv(h) && i < |h.ring| && j < |h.ring| && h.ring[i] == h.ring[j]
    ensures i == j
  {
    assert SortOk(h, i, j) && SortOk(h, j, i);
  }
}
