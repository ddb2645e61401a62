/** The driver half of kernel/virtio_disk.c, as steps of the virtqueue machine. */
module VirtioDisk {
  import opened Options
  import opened VirtioModel
  import opened VirtioSafety

  const NONE := Desc(Null, 0, 0, 0)

  /** The ring after the first n descriptors of a chain have been freed. */
  function ReleasedTo(r: Ring, h: nat, q: Req, n: nat): (r': Ring)
    requires |r.free| == |r.desc| == NUM && h < NUM && q.second < NUM && q.third < NUM && n <= 3
    ensures |r'.free| == |r'.desc| == NUM
  {
    if n == 0 then r
    else
      var r1 := ReleasedTo(r, h, q, n - 1);
      r1.(desc := r1.desc[Part(q, h, n - 1) := NONE], free := r1.free[Part(q, h, n - 1) := true])
  }

  class Disk {
    var r: Ring
    var busy: set<nat>       // buffers whose disk flag is set
    ghost var w: World       // with the device's side, the requests, and the full counters

    ghost predicate Valid()
      reads this
    {
      Inv(w) && w.r == r && w.busy == busy
    }

    /** virtio_disk_init, as far as the rings go: zeroed, with every descriptor free. */
    constructor ()
      ensures Valid() && busy == {} && w.live == map[] && forall i | 0 <= i < NUM :: r.free[i]
    {
      var zero := Ring(seq(NUM, _ => true), seq(NUM, _ => NONE), seq(NUM, _ => Op(false, 0)), seq(NUM, _ => Info(None, 0)),
                       0, seq(NUM, _ => 0), 0, seq(NUM, _ => 0), 0);
      r := zero;
      busy := {};
      w := World(zero, 0, {}, {}, map[], map[], map[], seq(NUM, _ => None), 0, 0, 0, 0);
      new;
      InitOk(w);
    }

    /** alloc_desc */
    method AllocDesc() returns (d: Option<nat>)
      requires |r.free| == NUM
      modifies this`r
      ensures d.None? ==> r == old(r) && forall k | 0 <= k < NUM :: !r.free[k]
      ensures d.Some? ==>
                && d.value < NUM && old(r).free[d.value] && (forall k | 0 <= k < d.value :: !old(r).free[k])
                && r == old(r).(free := old(r).free[d.value := false])
    {
      var i := 0;
      while i < NUM
        invariant 0 <= i <= NUM && r == old(r) && forall k | 0 <= k < i :: !r.free[k]
      {
        if r.free[i] {
          r := r.(free := r.free[i := false]);
          return Some(i);
        }
        i := i + 1;
      }
      return None;
    }

    /** free_desc; false is one of its panics. */
    method FreeDesc(i: nat) returns (ok: bool)
      requires |r.free| == |r.desc| == NUM
      modifies this`r
      ensures ok <==> i < NUM && !old(r).free[i]
      ensures ok ==> r == old(r).(desc := old(r).desc[i := NONE], free := old(r).free[i := true])
      ensures !ok ==> r == old(r)
    {
      if i >= NUM || r.free[i] {
        return false;
      }
      r := r.(desc := r.desc[i := NONE]);
      r := r.(free := r.free[i := true]);
      return true;
    }

    /** alloc3_desc: the three lowest free descriptors, or no change. */
    method Alloc3Desc() returns (idx: Option<(nat, nat, nat)>)
      requires |r.free| == |r.desc| == NUM
      requires forall i | 0 <= i < NUM && r.free[i] :: r.desc[i] == NONE
      modifies this`r
      ensures idx.None? ==> r == old(r) && forall i, j, k | 0 <= i < j < k < NUM :: !(r.free[i] && r.free[j] && r.free[k])
      ensures idx.Some? ==>
                var (i, j, k) := idx.value;
                && i < j < k < NUM && old(r).free[i] && old(r).free[j] && old(r).free[k]
                && (forall n | 0 <= n < k && n != i && n != j :: !old(r).free[n])
                && r == old(r).(free := old(r).free[i := false][j := false][k := false])
    {
      var i := AllocDesc();
      if i.None? {
        return None;
      }
      var j := AllocDesc();
      if j.None? {
        var ok := FreeDesc(i.value);
        assert ok;
        assert r.free == old(r).free && r.desc == old(r).desc;
        return None;
      }
      ghost var r2 := r;
      assert forall n | 0 <= n < NUM && n != i.value && n != j.value :: r2.free[n] == old(r).free[n];
      var k := AllocDesc();
      if k.None? {
        var ok := FreeDesc(i.value);
        assert ok;
        ok := FreeDesc(j.value);
        assert ok;
        assert r.free == old(r).free && r.desc == old(r).desc;
        return None;
      }
      return Some((i.value, j.value, k.value));
    }

    /** virtio_disk_rw up to the notification; None means that it has to sleep for descriptors. */
    method Submit(b: nat, block: nat, out: bool) returns (h: Option<nat>)
      requires Valid() && forall h' | h' in w.live :: w.live[h'].buf != b
      modifies this
      ensures Valid()
      ensures h.None? ==> w == old(w) && forall i, j, k | 0 <= i < j < k < NUM :: !(r.free[i] && r.free[j] && r.free[k])
      ensures h.Some? ==> exists i, j :: SubmitStep(old(w), w, h.value, i, j, b, block, out)
    {
      forall i | 0 <= i < NUM ensures r.free[i] ==> r.desc[i] == NONE {
        assert DescOk(w, i);
      }
      var idx := Alloc3Desc();
      if idx.None? {
        return None;
      }
      var (i0, i1, i2) := idx.value;
      Publish(i0, i1, i2, b, block, out);
      assert SubmitStep(old(w), w, i0, i1, i2, b, block, out);
      return Some(i0);
    }

    /** The part of virtio_disk_rw that formats the descriptors and publishes the head. */
    method Publish(i0: nat, i1: nat, i2: nat, b: nat, block: nat, out: bool)
      requires Inv(w) && w.busy == busy && i0 < i1 < i2 < NUM
      requires w.r.free[i0] && w.r.free[i1] && w.r.free[i2]
      requires r == w.r.(free := w.r.free[i0 := false][i1 := false][i2 := false])
      requires forall h' | h' in w.live :: w.live[h'].buf != b
      modifies this
      ensures Valid() && SubmitStep(old(w), w, i0, i1, i2, b, block, out)
    {
      ghost var w0 := w;
      r := r.(ops := r.ops[i0 := Op(out, block * 2)]);
      r := r.(desc := r.desc[i0 := Desc(OpAt(i0), 16, F_NEXT, i1)]);
      r := r.(desc := r.desc[i1 := Desc(DataOf(b), 1024, if out then F_NEXT else F_NEXT + F_WRITE, i2)]);
      r := r.(info := r.info[i0 := r.info[i0].(status := PENDING)]);
      r := r.(desc := r.desc[i2 := Desc(StatusAt(i0), 1, F_WRITE, 0)]);
      busy := busy + {b};
      r := r.(info := r.info[i0 := r.info[i0].(buf := Some(b))]);
      r := r.(avail := r.avail[r.availIdx % NUM := i0]);
      r := r.(availIdx := (r.availIdx + 1) % WRAP);
      assert r == Submitted(w0.r, i0, i1, i2, b, block, out);
      w := w0.(r := r, busy := busy, live := w0.live[i0 := Req(i1, i2, b, block, out, Queued(w0.submitted))],
               own := w0.own[i0 := Some((i0, 0))][i1 := Some((i0, 1))][i2 := Some((i0, 2))], submitted := w0.submitted + 1);
      SubmitKeeps(w0, w, i0, i1, i2, b, block, out);
    }

    /** free_chain, for the chain of request h. */
    method FreeChain(h: nat, ghost q: Req)
      requires |r.free| == |r.desc| == |r.ops| == |r.info| == NUM && h < NUM && q.second < NUM && q.third < NUM
      requires r.desc[h] == Desc(OpAt(h), 16, F_NEXT, q.second) && r.desc[q.third].flags == F_WRITE
      requires r.desc[q.second].flags in {F_NEXT, F_NEXT + F_WRITE} && r.desc[q.second].next == q.third
      requires h != q.second && h != q.third && q.second != q.third
      requires !r.free[h] && !r.free[q.second] && !r.free[q.third]
      modifies this`r
      ensures r == ReleasedTo(old(r), h, q, 3)
    {
      var i := h;
      var more := true;
      ghost var n := 0;
      while more
        invariant n <= 3 && (more <==> n < 3) && (more ==> i == Part(q, h, n))
        invariant r == ReleasedTo(old(r), h, q, n)
        invariant forall m | n <= m < 3 :: r.desc[Part(q, h, m)] == old(r).desc[Part(q, h, m)] && !r.free[Part(q, h, m)]
        decreases 3 - n
      {
        assert r.desc[Part(q, h, n)] == old(r).desc[Part(q, h, n)];
        var flag := r.desc[i].flags;
        var nxt := r.desc[i].next;
        var ok := FreeDesc(i);
        assert ok;
        n := n + 1;
        if flag % 2 == F_NEXT {
          i := nxt;
        } else {
          more := false;
        }
      }
    }

    /** The end of virtio_disk_rw for request h, once its buffer's flag is clear. */
    method Finish(h: nat)
      requires Valid() && h in w.live && w.live[h].buf !in busy
      modifies this
      ensures Valid() && FinishStep(old(w), w, h)
    {
      ghost var w0 := w;
      ghost var q := w.live[h];
      assert ReqOk(w, h) && DescOk(w, h) && DescOk(w, q.second) && DescOk(w, q.third);
      r := r.(info := r.info[h := r.info[h].(buf := None)]);
      FreeChain(h, q);
      assert r == Released(w0.r, h, q.second, q.third) by { ReleasedAll(w0.r, h, q); }
      w := w0.(r := r, live := w0.live - {h}, own := w0.own[h := None][q.second := None][q.third := None]);
      FinishKeeps(w0, w, h);
    }

    lemma ReleasedAll(r0: Ring, h: nat, q: Req)
      requires |r0.free| == |r0.desc| == |r0.info| == NUM && h < NUM && q.second < NUM && q.third < NUM
      ensures ReleasedTo(r0.(info := r0.info[h := r0.info[h].(buf := None)]), h, q, 3) == Released(r0, h, q.second, q.third)
    {
      var r1 := r0.(info := r0.info[h := r0.info[h].(buf := None)]);
      assert ReleasedTo(r1, h, q, 1) == r1.(desc := r1.desc[h := NONE], free := r1.free[h := true]);
      assert ReleasedTo(r1, h, q, 2) == r1.(desc := r1.desc[h := NONE][q.second := NONE], free := r1.free[h := true][q.second := true]);
    }

    /** virtio_disk_intr, as far as the device has got when it runs. */
    method Intr()
      requires Valid()
      modifies this
      ensures Valid() && r.seen == r.usedIdx && w.seen == w.returned
      ensures w.live.Keys == old(w).live.Keys && busy <= old(busy)
      ensures forall h | h in w.live :: w.live[h] == old(w).live[h].(stage := if old(w).live[h].stage.Done? then Answered else old(w).live[h].stage)
    {
      while r.seen != r.usedIdx
        invariant Valid() && w.live.Keys == old(w).live.Keys && busy <= old(busy) && w.returned == old(w).returned
        invariant forall h | h in w.live ::
                    w.live[h] == old(w).live[h] || (old(w).live[h].stage.Done? && w.live[h] == old(w).live[h].(stage := Answered))
        decreases w.returned - w.seen
      {
        ghost var w0 := w;
        SeeFinds(w0);
        var id := r.used[r.seen % NUM];
        assert r.info[id].status == 0;
        var b := r.info[id].buf.value;
        busy := busy - {b};
        r := r.(seen := (r.seen + 1) % WRAP);
        w := w0.(r := r, busy := busy, seen := w0.seen + 1, live := w0.live[id := w0.live[id].(stage := Answered)]);
        SeeKeeps(w0, w);
      }
      UsedShort(w);
      Indices(w.seen, w.returned);
      forall h | h in w.live
        ensures w.live[h] == old(w).live[h].(stage := if old(w).live[h].stage.Done? then Answered else old(w).live[h].stage)
      {
        assert ReqOk(w, h);
      }
    }
  }
}
