/** The buffer cache of kernel/bio.c: NBUF buffers on a doubly linked list that is
    kept in order of last release.  `Cache` is the cache as a value; `Bcache` is the
    linked structure the kernel mutates, proved to compute the functions on `Cache`. */
module BufferCache {
  import opened Options
  import opened Blocks

  const NBUF := 30

  datatype Buf = Buf(valid: bool, dev: nat, blockno: nat, refcnt: nat, data: Block) {
    predicate Holds(d: nat, b: nat) {
      dev == d && blockno == b
    }
  }

  /** `lru[0]` is `head.next`, the most recently released buffer. */
  datatype Cache = Cache(bufs: seq<Buf>, lru: seq<nat>)

  ghost predicate Distinct(s: seq<nat>) {
    forall p, q | 0 <= p < q < |s| :: s[p] != s[q]
  }

  ghost predicate Permutes(s: seq<nat>, n: nat) {
    && |s| == n
    && (forall p | 0 <= p < n :: s[p] < n)
    && Distinct(s)
    && (forall i | 0 <= i < n :: i in s)
  }

  ghost predicate WellFormed(c: Cache) {
    |c.bufs| == NBUF && Permutes(c.lru, NBUF)
  }

  /** At most one buffer per block of a real device; device 0 marks a never used buffer. */
  ghost predicate UniqueKeys(c: Cache) {
    forall i, j | 0 <= i < j < |c.bufs| ::
      c.bufs[i].dev == 0 || !c.bufs[j].Holds(c.bufs[i].dev, c.bufs[i].blockno)
  }

  // ---------------------------------------------------------------- bget

  function HitFrom(c: Cache, p: nat, dev: nat, blockno: nat): (r: Option<nat>)
    requires p <= |c.lru|
    requires forall q | 0 <= q < |c.lru| :: c.lru[q] < |c.bufs|
    decreases |c.lru| - p
  {
    if p == |c.lru| then None
    else if c.bufs[c.lru[p]].Holds(dev, blockno) then Some(c.lru[p])
    else HitFrom(c, p + 1, dev, blockno)
  }

  function VictimUpTo(c: Cache, p: nat): (r: Option<nat>)
    requires p <= |c.lru|
    requires forall q | 0 <= q < |c.lru| :: c.lru[q] < |c.bufs|
  {
    if p == 0 then None
    else if c.bufs[c.lru[p-1]].refcnt == 0 then Some(c.lru[p-1])
    else VictimUpTo(c, p - 1)
  }

  datatype GetResult = NoBuffers | Got(cache: Cache, buf: nat)

  /** The list search of bget: a hit is referenced once more, otherwise the least
      recently released unreferenced buffer is given to the block. */
  function Get(c: Cache, dev: nat, blockno: nat): (r: GetResult)
    requires WellFormed(c)
  {
    var hit := HitFrom(c, 0, dev, blockno);
    if hit.Some? then
      HitLemma(c, 0, dev, blockno);
      var b := c.bufs[hit.value];
      Got(c.(bufs := c.bufs[hit.value := b.(refcnt := b.refcnt + 1)]), hit.value)
    else
      var v := VictimUpTo(c, NBUF);
      if v.None? then NoBuffers
      else
        VictimLemma(c, NBUF);
        var b := c.bufs[v.value];
        Got(c.(bufs := c.bufs[v.value := b.(dev := dev, blockno := blockno, valid := false, refcnt := 1)]), v.value)
  }

  lemma {:induction false} HitLemma(c: Cache, p: nat, dev: nat, blockno: nat)
    requires WellFormed(c) && p <= NBUF
    ensures var r := HitFrom(c, p, dev, blockno);
            match r
            case Some(i) => i < NBUF && c.bufs[i].Holds(dev, blockno)
            case None => forall q | p <= q < NBUF :: !c.bufs[c.lru[q]].Holds(dev, blockno)
    decreases NBUF - p
  {
    if p < NBUF {
      HitLemma(c, p + 1, dev, blockno);
    }
  }

  /** Buffer i is unreferenced, and all buffers behind it among the first p of the list are
      referenced. */
  ghost predicate LastIdle(c: Cache, p: nat, i: nat)
    requires p <= |c.lru|
    requires forall q | 0 <= q < |c.lru| :: c.lru[q] < |c.bufs|
  {
    && i < |c.bufs| && c.bufs[i].refcnt == 0
    && exists q: nat :: q < p && c.lru[q] == i && forall x | q < x < p :: c.bufs[c.lru[x]].refcnt > 0
  }

  lemma {:induction false} VictimLemma(c: Cache, p: nat)
    requires WellFormed(c) && p <= NBUF
    ensures var r := VictimUpTo(c, p);
            match r
            case Some(i) => LastIdle(c, p, i)
            case None => forall q | 0 <= q < p :: c.bufs[c.lru[q]].refcnt > 0
  {
    if p > 0 {
      VictimLemma(c, p - 1);
      if c.bufs[c.lru[p - 1]].refcnt > 0 && VictimUpTo(c, p - 1).Some? {
        var q: nat :| q < p - 1 && c.lru[q] == VictimUpTo(c, p).value && forall x | q < x < p - 1 :: c.bufs[c.lru[x]].refcnt > 0;
        assert q < p && forall x | q < x < p :: c.bufs[c.lru[x]].refcnt > 0;
      }
    }
  }

  /** A missing block is in no buffer at all, so recycling one keeps keys unique; a
      present block keeps its buffer, data and position; and bget panics exactly when
      the block is absent and every buffer is referenced. */
  lemma GetCorrect(c: Cache, dev: nat, blockno: nat)
    requires WellFormed(c) && UniqueKeys(c) && dev != 0
    ensures var cached := exists i | 0 <= i < NBUF :: c.bufs[i].Holds(dev, blockno);
            match Get(c, dev, blockno)
            case NoBuffers => !cached && forall i | 0 <= i < NBUF :: c.bufs[i].refcnt > 0
            case Got(c', i) =>
              && WellFormed(c') && UniqueKeys(c') && c'.lru == c.lru
              && i < NBUF && c'.bufs[i].Holds(dev, blockno)
              && (forall j | 0 <= j < NBUF && j != i :: c'.bufs[j] == c.bufs[j])
              && (if cached then c'.bufs[i] == c.bufs[i].(refcnt := c.bufs[i].refcnt + 1)
                  else c.bufs[i].refcnt == 0 && c'.bufs[i].refcnt == 1 && !c'.bufs[i].valid)
  {
    HitLemma(c, 0, dev, blockno);
    VictimLemma(c, NBUF);
    if HitFrom(c, 0, dev, blockno).None? {
      forall i | 0 <= i < NBUF ensures !c.bufs[i].Holds(dev, blockno) {
        assert i in c.lru && c.lru[IndexOf(c.lru, i)] == i;
      }
      if VictimUpTo(c, NBUF).None? {
        forall i | 0 <= i < NBUF ensures c.bufs[i].refcnt > 0 {
          assert i in c.lru && c.lru[IndexOf(c.lru, i)] == i;
        }
      }
    }
  }

  // ---------------------------------------------------------------- brelse

  function IndexOf(s: seq<nat>, x: nat): (p: nat)
    requires x in s
    ensures p < |s| && s[p] == x
  {
    if s[0] == x then 0 else 1 + IndexOf(s[1..], x)
  }

  function Without(s: seq<nat>, p: nat): (r: seq<nat>)
    requires p < |s|
  {
    s[..p] + s[p+1..]
  }

  function MoveToFront(s: seq<nat>, x: nat): (r: seq<nat>)
    requires x in s
  {
    [x] + Without(s, IndexOf(s, x))
  }

  /** The part of brelse under bcache.lock. */
  function Drop(c: Cache, i: nat): (c': Cache)
    requires WellFormed(c) && i < NBUF && c.bufs[i].refcnt > 0
  {
    var b := c.bufs[i].(refcnt := c.bufs[i].refcnt - 1);
    Cache(c.bufs[i := b], if b.refcnt == 0 then MoveToFront(c.lru, i) else c.lru)
  }

  function Pin(c: Cache, i: nat): (c': Cache)
    requires i < |c.bufs|
  {
    c.(bufs := c.bufs[i := c.bufs[i].(refcnt := c.bufs[i].refcnt + 1)])
  }

  function Unpin(c: Cache, i: nat): (c': Cache)
    requires i < |c.bufs| && c.bufs[i].refcnt > 0
  {
    c.(bufs := c.bufs[i := c.bufs[i].(refcnt := c.bufs[i].refcnt - 1)])
  }

  /** Where the element at position q of the reordered list was before. */
  function Origin(p: nat, q: nat): (o: nat)
  {
    if q == 0 then p else if q <= p then q - 1 else q
  }

  lemma MoveToFrontAt(s: seq<nat>, x: nat)
    requires x in s
    ensures var r := MoveToFront(s, x);
            |r| == |s| && forall q | 0 <= q < |s| :: r[q] == s[Origin(IndexOf(s, x), q)]
  {
  }

  lemma MoveToFrontPermutes(s: seq<nat>, x: nat, n: nat)
    requires Permutes(s, n) && x in s
    ensures Permutes(MoveToFront(s, x), n)
  {
    var p := IndexOf(s, x);
    var r := MoveToFront(s, x);
    MoveToFrontAt(s, x);
    forall q, q' | 0 <= q < q' < n ensures r[q] != r[q'] {
      assert Origin(p, q) != Origin(p, q');
    }
    forall i | 0 <= i < n ensures i in r {
      assert i in s;
      var o := IndexOf(s, i);
      var q := if o < p then o + 1 else if o == p then 0 else o;
      assert Origin(p, q) == o && r[q] == i;
    }
  }

  // ---------------------------------------------------------------- recency

  /** The cache with the time at which each buffer was last fully released; a buffer
      never released carries the negative time of its insertion by binit. */
  datatype History = History(cache: Cache, now: nat, last: seq<int>)

  ghost predicate ByRecency(h: History) {
    && WellFormed(h.cache) && |h.last| == NBUF
    && (forall i | 0 <= i < NBUF :: h.last[i] < h.now)
    && (forall p, q | 0 <= p < q < NBUF :: h.last[h.cache.lru[p]] > h.last[h.cache.lru[q]])
  }

  function InitCache(): (c: Cache) {
    Cache(seq(NBUF, i => Buf(false, 0, 0, 0, ZeroBlock())), seq(NBUF, p requires 0 <= p < NBUF => NBUF - 1 - p))
  }

  lemma InitPermutes()
    ensures WellFormed(InitCache())
  {
    var s := InitCache().lru;
    forall i | 0 <= i < NBUF ensures i in s {
      assert s[NBUF - 1 - i] == i;
    }
  }

  function InitHistory(): (h: History) {
    History(InitCache(), 0, seq(NBUF, i => i - NBUF))
  }

  datatype CacheOp = OpGet(dev: nat, blockno: nat) | OpFill(i: nat, data: Block) | OpDrop(i: nat) | OpPin(i: nat) | OpUnpin(i: nat)

  ghost predicate CacheStep(h: History, op: CacheOp, h': History)
    requires WellFormed(h.cache) && |h.last| == NBUF
  {
    match op
    case OpGet(dev, blockno) =>
      && dev != 0
      && Get(h.cache, dev, blockno).Got?
      && h' == h.(cache := Get(h.cache, dev, blockno).cache)
    case OpFill(i, data) =>
      i < NBUF && h' == h.(cache := h.cache.(bufs := h.cache.bufs[i := h.cache.bufs[i].(valid := true, data := data)]))
    case OpPin(i) =>
      i < NBUF && h' == h.(cache := Pin(h.cache, i))
    case OpUnpin(i) =>
      i < NBUF && h.cache.bufs[i].refcnt > 0 && h' == h.(cache := Unpin(h.cache, i))
    case OpDrop(i) =>
      && i < NBUF && h.cache.bufs[i].refcnt > 0
      && h' == History(Drop(h.cache, i), h.now + 1,
                       if h.cache.bufs[i].refcnt == 1 then h.last[i := h.now] else h.last)
  }

  lemma DropKeepsRecency(h: History, i: nat, h': History)
    requires ByRecency(h) && CacheStep(h, OpDrop(i), h')
    ensures ByRecency(h')
  {
    if h.cache.bufs[i].refcnt == 1 {
      var s := h.cache.lru;
      MoveToFrontPermutes(s, i, NBUF);
      MoveToFrontAt(s, i);
      var p := IndexOf(s, i);
      var r := h'.cache.lru;
      forall x, y | 0 <= x < y < NBUF ensures h'.last[r[x]] > h'.last[r[y]] {
        assert r[y] == s[Origin(p, y)] && r[x] == s[Origin(p, x)];
        assert r[y] != i && h'.last[r[y]] == h.last[r[y]];
        if x > 0 {
          assert Origin(p, x) < Origin(p, y);
        }
      }
    }
  }

  lemma StepKeepsRecency(h: History, op: CacheOp, h': History)
    requires ByRecency(h) && UniqueKeys(h.cache) && CacheStep(h, op, h')
    ensures ByRecency(h') && UniqueKeys(h'.cache)
  {
    match op
    case OpGet(dev, blockno) =>
      GetCorrect(h.cache, dev, blockno);
    case OpFill(i, data) =>
    case OpPin(i) =>
    case OpUnpin(i) =>
    case OpDrop(i) =>
      DropKeepsRecency(h, i, h');
      assert UniqueKeys(h'.cache);
  }

  /** A block that is not cached gets the buffer whose last release lies back furthest among
      all that nobody references. */
  lemma EvictsOldest(h: History, dev: nat, blockno: nat)
    requires ByRecency(h) && UniqueKeys(h.cache) && dev != 0
    requires forall i | 0 <= i < NBUF :: !h.cache.bufs[i].Holds(dev, blockno)
    ensures match Get(h.cache, dev, blockno)
            case NoBuffers => forall j | 0 <= j < NBUF :: h.cache.bufs[j].refcnt > 0
            case Got(_, i) =>
              && i < NBUF && h.cache.bufs[i].refcnt == 0
              && forall j | 0 <= j < NBUF && h.cache.bufs[j].refcnt == 0 :: h.last[i] <= h.last[j]
  {
    var c := h.cache;
    GetCorrect(c, dev, blockno);
    HitLemma(c, 0, dev, blockno);
    VictimLemma(c, NBUF);
    if Get(c, dev, blockno).Got? {
      var i := Get(c, dev, blockno).buf;
      assert LastIdle(c, NBUF, i);
      var q: nat :| q < NBUF && c.lru[q] == i && forall x | q < x < NBUF :: c.bufs[c.lru[x]].refcnt > 0;
      forall j | 0 <= j < NBUF && c.bufs[j].refcnt == 0 ensures h.last[i] <= h.last[j] {
        assert j in c.lru;
        var p := IndexOf(c.lru, j);
        assert p <= q;
      }
    }
  }

  /** A run is a list of operations with the state after each. */
  ghost predicate CacheRun(hs: seq<History>, ops: seq<CacheOp>) {
    && |hs| == |ops| + 1
    && hs[0] == InitHistory()
    && forall k | 0 <= k < |ops| :: WellFormed(hs[k].cache) && |hs[k].last| == NBUF && CacheStep(hs[k], ops[k], hs[k+1])
  }

  /** In every run bget evicts the buffer that was released longest ago. */
  lemma EvictsOldestOverRuns(hs: seq<History>, ops: seq<CacheOp>, k: nat, i: nat, j: nat)
    requires CacheRun(hs, ops) && k < |ops| && ops[k].OpGet? && i < NBUF && j < NBUF
    requires forall x | 0 <= x < NBUF :: !hs[k].cache.bufs[x].Holds(ops[k].dev, ops[k].blockno)
    requires |hs[k + 1].cache.bufs| == NBUF && hs[k + 1].cache.bufs[i] != hs[k].cache.bufs[i] && hs[k].cache.bufs[j].refcnt == 0
    ensures hs[k].cache.bufs[i].refcnt == 0 && hs[k].last[i] <= hs[k].last[j]
  {
    LruOverRuns(hs, ops, k);
    EvictsOldest(hs[k], ops[k].dev, ops[k].blockno);
    GetCorrect(hs[k].cache, ops[k].dev, ops[k].blockno);
  }

  /** After any run from binit the list is a permutation of the buffers in order of last
      full release, most recent first, and no block of a real device is cached twice. */
  lemma {:induction false} LruOverRuns(hs: seq<History>, ops: seq<CacheOp>, k: nat)
    requires CacheRun(hs, ops) && k < |hs|
    ensures ByRecency(hs[k]) && UniqueKeys(hs[k].cache)
  {
    if k == 0 {
      InitPermutes();
    } else {
      LruOverRuns(hs, ops, k - 1);
      StepKeepsRecency(hs[k-1], ops[k-1], hs[k]);
    }
  }

  // ---------------------------------------------------------------- the linked list

  /** Index of the sentinel `bcache.head`. */
  const HEAD: nat := NBUF

  function Node(order: seq<nat>, k: int): (n: nat) {
    if 0 <= k < |order| then order[k] else HEAD
  }

  /** `order` is the list read forward from HEAD, and backward through prev. */
  ghost predicate Linked(next: seq<nat>, prev: seq<nat>, order: seq<nat>) {
    && |next| == |prev| == NBUF + 1
    && Distinct(order)
    && (forall k | 0 <= k < |order| :: order[k] < NBUF)
    && (forall j, k {:trigger Node(order, j), Node(order, k)} | -1 <= j < k <= |order| && k == j + 1 ::
          next[Node(order, j)] == Node(order, k) && prev[Node(order, k)] == Node(order, j))
  }

  lemma PushLinked(next: seq<nat>, prev: seq<nat>, order: seq<nat>, b: nat)
    requires Linked(next, prev, order) && b < NBUF && b !in order
    ensures next[HEAD] <= NBUF
    ensures Linked(next[b := next[HEAD]][HEAD := b], prev[b := HEAD][next[HEAD] := b], [b] + order)
  {
    var first := next[HEAD];
    assert Node(order, -1) == HEAD && first == Node(order, 0);
    var next', prev', order' := next[b := first][HEAD := b], prev[b := HEAD][first := b], [b] + order;
    forall j, k | -1 <= j < k <= |order'| && k == j + 1
      ensures next'[Node(order', j)] == Node(order', k) && prev'[Node(order', k)] == Node(order', j)
    {
      assert j >= 0 ==> Node(order', k) == Node(order, j);
      assert j >= 1 ==> Node(order', j) == Node(order, j - 1);
    }
  }

  lemma UnlinkLinked(next: seq<nat>, prev: seq<nat>, order: seq<nat>, p: nat)
    requires Linked(next, prev, order) && p < |order|
    ensures var b := order[p];
            && next[b] <= NBUF && prev[b] <= NBUF
            && Linked(next[prev[b] := next[b]], prev[next[b] := prev[b]], Without(order, p))
  {
    var b := order[p];
    assert Node(order, p) == b;
    assert prev[b] == Node(order, p - 1) && next[b] == Node(order, p + 1);
    var next', prev', order' := next[prev[b] := next[b]], prev[next[b] := prev[b]], Without(order, p);
    assert forall k | 0 <= k < |order'| :: order'[k] == if k < p then order[k] else order[k+1];
    forall j, k | -1 <= j < k <= |order'| && k == j + 1
      ensures next'[Node(order', j)] == Node(order', k) && prev'[Node(order', k)] == Node(order', j)
    {
      if j < p - 1 {
        assert Node(order', j) == Node(order, j) && Node(order', k) == Node(order, k);
      } else if j == p - 1 {
        assert Node(order', j) == Node(order, p - 1) && Node(order', k) == Node(order, p + 1);
      } else {
        assert Node(order', j) == Node(order, j + 1) && Node(order', k) == Node(order, k + 1);
      }
    }
  }

  class Bcache {
    const bufs: array<Buf>
    const next: array<nat>
    const prev: array<nat>
    ghost var order: seq<nat>

    ghost predicate Shape()
      reads this
    {
      && next != prev
      && bufs.Length == NBUF && next.Length == prev.Length == NBUF + 1
    }

    ghost predicate Valid()
      reads this, next, prev
    {
      Shape() && Permutes(order, NBUF) && Linked(next[..], prev[..], order)
    }

    ghost function State(): (c: Cache)
      reads this, bufs
    {
      Cache(bufs[..], order)
    }

    /** binit */
    constructor ()
      ensures Valid() && fresh(bufs) && fresh(next) && fresh(prev)
      ensures State() == InitCache()
    {
      bufs := new Buf[NBUF](_ => Buf(false, 0, 0, 0, ZeroBlock()));
      var nx := new nat[NBUF + 1](_ => HEAD);
      var pv := new nat[NBUF + 1](_ => HEAD);
      next, prev := nx, pv;
      order := [];
      new;
      for b := 0 to NBUF
        invariant Shape() && Linked(next[..], prev[..], order)
        invariant |order| == b && forall k | 0 <= k < b :: order[k] == b - 1 - k
        invariant forall i | 0 <= i < NBUF :: bufs[i] == Buf(false, 0, 0, 0, ZeroBlock())
      {
        PushFront(b);
      }
      forall i | 0 <= i < NBUF ensures i in order {
        assert order[NBUF - 1 - i] == i;
      }
      assert bufs[..] == InitCache().bufs;
      assert order == InitCache().lru;
    }

    /** Insert `b` right after the sentinel. */
    method PushFront(b: nat)
      requires Shape() && Linked(next[..], prev[..], order)
      requires b < NBUF && b !in order
      modifies this, next, prev
      ensures Linked(next[..], prev[..], order)
      ensures order == [b] + old(order)
    {
      PushLinked(next[..], prev[..], order, b);
      var first := next[HEAD];
      next[b] := first;
      prev[b] := HEAD;
      prev[first] := b;
      next[HEAD] := b;
      order := [b] + order;
      assert next[..] == old(next[..])[b := first][HEAD := b];
      assert prev[..] == old(prev[..])[b := HEAD][first := b];
    }

    /** Take `b` out of the list. */
    method Unlink(b: nat)
      requires Valid() && b < NBUF
      modifies this, next, prev
      ensures Linked(next[..], prev[..], order)
      ensures order == Without(old(order), IndexOf(old(order), b)) && b !in order
    {
      ghost var p := IndexOf(order, b);
      UnlinkLinked(next[..], prev[..], order, p);
      prev[next[b]] := prev[b];
      next[prev[b]] := next[b];
      order := Without(order, p);
      assert forall k | 0 <= k < |order| :: order[k] == old(order)[if k < p then k else k + 1];
      assert next[..] == old(next[..])[old(prev[b]) := old(next[b])];
      assert prev[..] == old(prev[..])[old(next[b]) := old(prev[b])];
    }

    /** The forward search of bget. */
    method FindCached(dev: nat, blockno: nat) returns (r: Option<nat>)
      requires Valid()
      ensures r == HitFrom(State(), 0, dev, blockno)
    {
      ghost var c := State();
      ghost var p := 0;
      assert Node(order, -1) == HEAD && Node(order, 0) == order[0];
      var b := next[HEAD];
      while b != HEAD
        invariant 0 <= p <= NBUF && b == Node(order, p)
        invariant HitFrom(c, 0, dev, blockno) == HitFrom(c, p, dev, blockno)
        decreases NBUF - p
      {
        if bufs[b].Holds(dev, blockno) {
          return Some(b);
        }
        p := p + 1;
        assert Node(order, p - 1) == b && Node(order, p) == Node(order, p);
        b := next[b];
      }
      return None;
    }

    /** The backward search of bget. */
    method FindUnused() returns (r: Option<nat>)
      requires Valid()
      ensures r == VictimUpTo(State(), NBUF)
      ensures r.Some? ==> LastIdle(State(), NBUF, r.value)
      ensures r.None? ==> forall i | 0 <= i < NBUF :: bufs[i].refcnt > 0
    {
      VictimLemma(State(), NBUF);
      ghost var c := State();
      ghost var p := NBUF;
      assert Node(order, NBUF) == HEAD && Node(order, NBUF - 1) == order[NBUF - 1];
      var b := prev[HEAD];
      while b != HEAD
        invariant 0 <= p <= NBUF && b == Node(order, p - 1)
        invariant VictimUpTo(c, NBUF) == VictimUpTo(c, p)
        decreases p
      {
        if bufs[b].refcnt == 0 {
          return Some(b);
        }
        p := p - 1;
        assert Node(order, p) == b && Node(order, p - 1) == Node(order, p - 1);
        b := prev[b];
      }
      forall i | 0 <= i < NBUF ensures bufs[i].refcnt > 0 {
        assert i in order;
      }
      return None;
    }

    /** bget up to the point where the sleep lock is taken; None is the panic. */
    method Bget(dev: nat, blockno: nat) returns (r: Option<nat>)
      requires Valid()
      modifies bufs
      ensures Valid()
      ensures match Get(old(State()), dev, blockno)
              case NoBuffers => r == None && State() == old(State())
              case Got(c, i) => r == Some(i) && State() == c
    {
      HitLemma(State(), 0, dev, blockno);
      VictimLemma(State(), NBUF);
      r := FindCached(dev, blockno);
      if r.Some? {
        bufs[r.value] := bufs[r.value].(refcnt := bufs[r.value].refcnt + 1);
        return;
      }
      r := FindUnused();
      if r.Some? {
        bufs[r.value] := bufs[r.value].(dev := dev, blockno := blockno, valid := false, refcnt := 1);
      }
    }

    /** brelse after the sleep lock is released. */
    method Brelse(b: nat)
      requires Valid() && b < NBUF && bufs[b].refcnt > 0
      modifies this, bufs, next, prev
      ensures Valid()
      ensures State() == Drop(old(State()), b)
    {
      ghost var s := order;
      MoveToFrontPermutes(s, b, NBUF);
      bufs[b] := bufs[b].(refcnt := bufs[b].refcnt - 1);
      if bufs[b].refcnt == 0 {
        Unlink(b);
        PushFront(b);
        assert order == MoveToFront(s, b);
      }
    }

    method Bpin(b: nat)
      requires Valid() && b < NBUF
      modifies bufs
      ensures Valid() && State() == Pin(old(State()), b)
    {
      bufs[b] := bufs[b].(refcnt := bufs[b].refcnt + 1);
    }

    method Bunpin(b: nat)
      requires Valid() && b < NBUF && bufs[b].refcnt > 0
      modifies bufs
      ensures Valid() && State() == Unpin(old(State()), b)
    {
      bufs[b] := bufs[b].(refcnt := bufs[b].refcnt - 1);
    }
  }
}
