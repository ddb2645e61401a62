/** The virtqueue invariant holds in every run of driver and device, and what follows. */
module VirtioSafety {
  import opened Options
  import opened VirtioModel

  // ---------------------------------------------------------------- counting

  /** More than NUM different descriptors do not fit. */
  lemma Pigeonhole(s: seq<nat>)
    requires forall i | 0 <= i < |s| :: s[i] < NUM
    requires forall i, j | 0 <= i < j < |s| :: s[i] != s[j]
    ensures |s| <= NUM
  {
    var all := {0, 1, 2, 3, 4, 5, 6, 7};
    var members := set i | 0 <= i < |s| :: s[i];
    SeqSetSize(s);
    assert members <= all;
    SubsetSize(members, all);
  }

  lemma SubsetSize(a: set<nat>, b: set<nat>)
    requires a <= b
    ensures |a| <= |b|
  {
    assert b == a + (b - a);
  }

  lemma {:induction false} SeqSetSize(s: seq<nat>)
    requires forall i, j | 0 <= i < j < |s| :: s[i] != s[j]
    ensures |set i | 0 <= i < |s| :: s[i]| == |s|
  {
    var all := set i | 0 <= i < |s| :: s[i];
    if s != [] {
      var t := s[..|s| - 1];
      SeqSetSize(t);
      var first := set i | 0 <= i < |t| :: t[i];
      assert all == first + {s[|s| - 1]};
    }
  }

  /** At most two requests are in flight. */
  lemma TwoInFlight(w: World, h1: nat, h2: nat, h3: nat)
    requires Inv(w) && h1 in w.live && h2 in w.live && h3 in w.live
    ensures h1 == h2 || h1 == h3 || h2 == h3
  {
    assert ReqOk(w, h1) && ReqOk(w, h2) && ReqOk(w, h3);
    var q1, q2, q3 := w.live[h1], w.live[h2], w.live[h3];
    if h1 != h2 && h1 != h3 && h2 != h3 {
      var s := [h1, q1.second, q1.third, h2, q2.second, q2.third, h3, q3.second, q3.third];
      var tags := [(h1, 0), (h1, 1), (h1, 2), (h2, 0), (h2, 1), (h2, 2), (h3, 0), (h3, 1), (h3, 2)];
      TagsDiffer(w.own, s, tags);
      Pigeonhole(s);
      assert false;
    }
  }

  lemma TagsDiffer(own: seq<Option<(nat, nat)>>, s: seq<nat>, tags: seq<(nat, nat)>)
    requires |own| == NUM && |s| == |tags|
    requires forall i | 0 <= i < |s| :: s[i] < NUM && own[s[i]] == Some(tags[i])
    requires forall i, j | 0 <= i < j < |s| :: tags[i] != tags[j]
    ensures forall i, j | 0 <= i < j < |s| :: s[i] != s[j]
  {
    forall i, j | 0 <= i < j < |s| ensures s[i] != s[j] {
      assert tags[i] != tags[j];
    }
  }

  lemma AvailShort(w: World)
    requires Inv(w)
    ensures w.submitted - w.fetched <= 2
  {
    if w.submitted - w.fetched > 2 {
      var n := w.fetched;
      assert AvailOk(w, n) && AvailOk(w, n + 1) && AvailOk(w, n + 2);
      TwoInFlight(w, w.r.avail[n % NUM], w.r.avail[(n + 1) % NUM], w.r.avail[(n + 2) % NUM]);
      assert false;
    }
  }

  lemma UsedShort(w: World)
    requires Inv(w)
    ensures w.returned - w.seen <= 2
  {
    if w.returned - w.seen > 2 {
      var n := w.seen;
      assert UsedOk(w, n) && UsedOk(w, n + 1) && UsedOk(w, n + 2);
      TwoInFlight(w, w.r.used[n % NUM], w.r.used[(n + 1) % NUM], w.r.used[(n + 2) % NUM]);
      assert false;
    }
  }

  /** The 16-bit indices tell empty from not empty, and pick the slot of the full counter. */
  lemma Indices(a: nat, b: nat)
    requires a <= b <= a + 2
    ensures a % WRAP == b % WRAP <==> a == b
    ensures a % WRAP % NUM == a % NUM && (a % WRAP + 1) % WRAP == (a + 1) % WRAP
  {
    var q := a / WRAP;
    assert a == WRAP * q + a % WRAP;
    assert a % WRAP % NUM == a % NUM by {
      assert a == NUM * (8192 * q + a % WRAP / NUM) + a % WRAP % NUM;
    }
  }

  /** Slots of the next two positions differ from those still in use. */
  lemma OtherSlot(m: nat, n: nat)
    requires m < n <= m + 2
    ensures m % NUM != n % NUM
  {
  }

  // ---------------------------------------------------------------- steps

  /** Rings and requests outside the step's reach carry over. */
  lemma SubmitKeeps(w: World, w': World, h: nat, i: nat, j: nat, b: nat, block: nat, out: bool)
    requires Inv(w) && SubmitStep(w, w', h, i, j, b, block, out)
    ensures Inv(w')
  {
    SubmitFacts(w, w', h, i, j, b, block, out);
    forall k {:trigger ReqOk(w', k)} | k in w'.live ensures ReqOk(w', k) {
      SubmitReq(w, w', h, i, j, b, block, out, k);
    }
    forall k | 0 <= k < NUM ensures DescOk(w', k) {
      SubmitDesc(w, w', h, i, j, b, block, out, k);
    }
    forall n: nat ensures AvailOk(w', n) {
      SubmitAvail(w, w', h, i, j, b, block, out, n);
    }
    forall n: nat ensures UsedOk(w', n) {
      assert UsedOk(w, n);
    }
    forall k: nat ensures WorkOk(w', k) {
      assert WorkOk(w, k);
    }
    forall k: nat, l: nat ensures OneReq(w', k, l) {
      assert OneReq(w, k, l);
    }
  }

  lemma SubmitFacts(w: World, w': World, h: nat, i: nat, j: nat, b: nat, block: nat, out: bool)
    requires Inv(w) && SubmitStep(w, w', h, i, j, b, block, out)
    ensures Shape(w') && h !in w.live && w.own[h] == w.own[i] == w.own[j] == None
    ensures w.submitted - w.fetched <= 2 && w.r.availIdx % NUM == w.submitted % NUM
  {
    AvailShort(w);
    Indices(w.submitted, w.submitted);
    assert DescOk(w, h) && DescOk(w, i) && DescOk(w, j);
    assert h in w.live ==> ReqOk(w, h);
  }

  lemma SubmitReq(w: World, w': World, h: nat, i: nat, j: nat, b: nat, block: nat, out: bool, k: nat)
    requires Inv(w) && SubmitStep(w, w', h, i, j, b, block, out) && Shape(w') && k in w'.live
    ensures ReqOk(w', k)
  {
    SubmitFacts(w, w', h, i, j, b, block, out);
    if k != h {
      assert ReqOk(w, k);
      if w.live[k].stage.Queued? { OtherSlot(w.live[k].stage.n, w.submitted); }
    }
  }

  lemma SubmitDesc(w: World, w': World, h: nat, i: nat, j: nat, b: nat, block: nat, out: bool, k: nat)
    requires Inv(w) && SubmitStep(w, w', h, i, j, b, block, out) && Shape(w') && k < NUM
    ensures DescOk(w', k)
  {
    SubmitFacts(w, w', h, i, j, b, block, out);
    assert DescOk(w, k);
  }

  lemma SubmitAvail(w: World, w': World, h: nat, i: nat, j: nat, b: nat, block: nat, out: bool, n: nat)
    requires Inv(w) && SubmitStep(w, w', h, i, j, b, block, out) && Shape(w')
    ensures AvailOk(w', n)
  {
    SubmitFacts(w, w', h, i, j, b, block, out);
    assert AvailOk(w, n);
    if w.fetched <= n < w.submitted { OtherSlot(n, w.submitted); }
  }

  /** The head that the device reads belongs to a request not fetched before. */
  lemma FetchFinds(w: World)
    requires Inv(w) && w.devIdx != w.r.availIdx
    ensures var h := w.r.avail[w.devIdx % NUM];
            h in w.live && w.live[h].stage == Queued(w.fetched) && w.fetched < w.submitted && ReqOk(w, h)
    ensures (w.devIdx + 1) % WRAP == (w.fetched + 1) % WRAP
  {
    AvailShort(w);
    Indices(w.fetched, w.submitted);
    assert AvailOk(w, w.fetched);
    assert ReqOk(w, w.r.avail[w.devIdx % NUM]);
  }

  lemma FetchKeeps(w: World, w': World)
    requires Inv(w) && FetchStep(w, w')
    ensures Inv(w')
  {
    FetchFinds(w);
    forall k {:trigger ReqOk(w', k)} | k in w'.live ensures ReqOk(w', k) {
      FetchReq(w, w', k);
    }
    forall k | 0 <= k < NUM ensures DescOk(w', k) {
      assert DescOk(w, k);
    }
    forall n: nat ensures AvailOk(w', n) && UsedOk(w', n) {
      FetchRings(w, w', n);
    }
    forall k: nat ensures WorkOk(w', k) {
      assert WorkOk(w, k);
    }
    forall k: nat, l: nat ensures OneReq(w', k, l) {
      assert OneReq(w, k, l);
    }
  }

  lemma FetchReq(w: World, w': World, k: nat)
    requires Inv(w) && FetchStep(w, w') && Shape(w') && k in w'.live
    ensures ReqOk(w', k)
  {
    FetchFinds(w);
    assert ReqOk(w, k);
  }

  lemma FetchRings(w: World, w': World, n: nat)
    requires Inv(w) && FetchStep(w, w') && Shape(w')
    ensures AvailOk(w', n) && UsedOk(w', n)
  {
    FetchFinds(w);
    assert AvailOk(w, n) && UsedOk(w, n);
  }

  /** Going by the shared memory, the device carries out exactly the request it was given. */
  lemma DeviceDoesRequest(w: World, h: nat)
    requires Inv(w) && h in w.live
    ensures var q := w.live[h];
            var z := DeviceDoes(w.r, w.data, w.disk, h);
            && h < NUM && z.Some? && z.value.2 == h
            && z.value.0 == (if q.out then w.data else w.data[q.buf := At(w.disk, q.block * 2)])
            && z.value.1 == (if q.out then w.disk[q.block * 2 := At(w.data, q.buf)] else w.disk)
  {
    assert ReqOk(w, h);
  }

  lemma CompleteFacts(w: World, w': World, h: nat)
    requires Inv(w) && CompleteStep(w, w', h)
    ensures Shape(w') && ReqOk(w, h) && w.live[h].stage == Working
    ensures w.returned - w.seen <= 2 && w.r.usedIdx % NUM == w.returned % NUM
    ensures w'.r == w.r.(info := w.r.info[h := w.r.info[h].(status := 0)], used := w.r.used[w.returned % NUM := h], usedIdx := (w.returned + 1) % WRAP)
  {
    DeviceDoesRequest(w, h);
    UsedShort(w);
    Indices(w.returned, w.returned);
    assert WorkOk(w, h) && ReqOk(w, h);
  }

  lemma CompleteKeeps(w: World, w': World, h: nat)
    requires Inv(w) && CompleteStep(w, w', h)
    ensures Inv(w')
  {
    CompleteFacts(w, w', h);
    forall k {:trigger ReqOk(w', k)} | k in w'.live ensures ReqOk(w', k) {
      CompleteReq(w, w', h, k);
    }
    forall k | 0 <= k < NUM ensures DescOk(w', k) {
      assert DescOk(w, k);
    }
    forall n: nat ensures AvailOk(w', n) && UsedOk(w', n) {
      CompleteRings(w, w', h, n);
    }
    forall k: nat ensures WorkOk(w', k) {
      assert WorkOk(w, k);
    }
    forall k: nat, l: nat ensures OneReq(w', k, l) {
      assert OneReq(w, k, l);
    }
  }

  lemma CompleteReq(w: World, w': World, h: nat, k: nat)
    requires Inv(w) && CompleteStep(w, w', h) && Shape(w') && k in w'.live
    ensures ReqOk(w', k)
  {
    CompleteFacts(w, w', h);
    assert ReqOk(w, k);
    if w.live[k].stage.Done? { OtherSlot(w.live[k].stage.n, w.returned); }
  }

  lemma CompleteRings(w: World, w': World, h: nat, n: nat)
    requires Inv(w) && CompleteStep(w, w', h) && Shape(w')
    ensures AvailOk(w', n) && UsedOk(w', n)
  {
    CompleteFacts(w, w', h);
    assert AvailOk(w, n) && UsedOk(w, n);
    if w.seen <= n < w.returned { OtherSlot(n, w.returned); }
  }

  /** What virtio_disk_intr finds in the used ring: a request the device has answered, with
      status 0 and its own buffer.  So the panic on the status cannot happen. */
  lemma SeeFinds(w: World)
    requires Inv(w) && w.r.seen != w.r.usedIdx
    ensures var h := w.r.used[w.r.seen % NUM];
            && h in w.live && h < NUM && w.live[h].stage == Done(w.seen) && ReqOk(w, h)
            && w.r.info[h] == Info(Some(w.live[h].buf), 0) && w.live[h].buf in w.busy
    ensures w.seen < w.returned && (w.r.seen + 1) % WRAP == (w.seen + 1) % WRAP
  {
    UsedShort(w);
    Indices(w.seen, w.returned);
    assert UsedOk(w, w.seen);
    assert ReqOk(w, w.r.used[w.seen % NUM]);
  }

  lemma SeeKeeps(w: World, w': World)
    requires Inv(w) && SeeStep(w, w')
    ensures Inv(w')
  {
    SeeFinds(w);
    forall k {:trigger ReqOk(w', k)} | k in w'.live ensures ReqOk(w', k) {
      SeeReq(w, w', k);
    }
    forall k | 0 <= k < NUM ensures DescOk(w', k) {
      assert DescOk(w, k);
    }
    forall n: nat ensures AvailOk(w', n) && UsedOk(w', n) {
      assert AvailOk(w, n) && UsedOk(w, n);
    }
    forall k: nat ensures WorkOk(w', k) {
      assert WorkOk(w, k);
    }
    forall k: nat, l: nat ensures OneReq(w', k, l) {
      assert OneReq(w, k, l);
    }
  }

  lemma SeeReq(w: World, w': World, k: nat)
    requires Inv(w) && SeeStep(w, w') && Shape(w') && k in w'.live
    ensures ReqOk(w', k)
  {
    SeeFinds(w);
    assert ReqOk(w, k) && OneReq(w, k, w.r.used[w.r.seen % NUM]);
  }

  lemma FinishKeeps(w: World, w': World, h: nat)
    requires Inv(w) && FinishStep(w, w', h)
    ensures Inv(w')
  {
    assert ReqOk(w, h);
    forall k {:trigger ReqOk(w', k)} | k in w'.live ensures ReqOk(w', k) {
      FinishReq(w, w', h, k);
    }
    forall k | 0 <= k < NUM ensures DescOk(w', k) {
      FinishDesc(w, w', h, k);
    }
    forall n: nat ensures AvailOk(w', n) && UsedOk(w', n) {
      assert AvailOk(w, n) && UsedOk(w, n);
    }
    forall k: nat ensures WorkOk(w', k) {
      assert WorkOk(w, k);
    }
    forall k: nat, l: nat ensures OneReq(w', k, l) {
      assert OneReq(w, k, l);
    }
  }

  lemma FinishReq(w: World, w': World, h: nat, k: nat)
    requires Inv(w) && FinishStep(w, w', h) && Shape(w') && k in w'.live
    ensures ReqOk(w', k)
  {
    assert ReqOk(w, h) && ReqOk(w, k);
  }

  lemma FinishDesc(w: World, w': World, h: nat, k: nat)
    requires Inv(w) && FinishStep(w, w', h) && Shape(w') && k < NUM
    ensures DescOk(w', k)
  {
    assert ReqOk(w, h) && DescOk(w, k);
  }

  // ---------------------------------------------------------------- runs

  lemma StepKeeps(w: World, w': World, step: Step)
    requires Inv(w) && Next(w, w', step)
    ensures Inv(w')
  {
    match step
    case Submit(h, i, j, b, block, out) => SubmitKeeps(w, w', h, i, j, b, block, out);
    case Fetch => FetchKeeps(w, w');
    case Complete(h) => CompleteKeeps(w, w', h);
    case See => SeeKeeps(w, w');
    case Finish(h) => FinishKeeps(w, w', h);
  }

  ghost predicate Run(ws: seq<World>, steps: seq<Step>) {
    |ws| == |steps| + 1 && forall n | 0 <= n < |steps| :: Next(ws[n], ws[n + 1], steps[n])
  }

  lemma {:induction false} InvOverRuns(ws: seq<World>, steps: seq<Step>, n: nat)
    requires Run(ws, steps) && Inv(ws[0]) && n < |ws|
    ensures Inv(ws[n])
  {
    if n > 0 {
      InvOverRuns(ws, steps, n - 1);
      StepKeeps(ws[n - 1], ws[n], steps[n - 1]);
    }
  }

  /** In every state: free descriptors and the chains of the requests in flight partition the
      descriptors. */
  lemma Partition(w: World, i: nat)
    requires Inv(w) && i < NUM
    ensures w.r.free[i] <==> forall h, p: nat | h in w.live && p <= 2 :: Part(w.live[h], h, p) != i
    ensures forall h, p: nat, h', p': nat | h in w.live && h' in w.live && p <= 2 && p' <= 2
              && Part(w.live[h], h, p) == Part(w.live[h'], h', p') == i :: h == h' && p == p'
  {
    assert DescOk(w, i);
    forall h, p: nat | h in w.live && p <= 2 && Part(w.live[h], h, p) == i ensures w.own[i] == Some((h, p)) {
      assert ReqOk(w, h);
    }
    if !w.r.free[i] {
      var (h, p) := w.own[i].value;
      assert Part(w.live[h], h, p) == i;
    }
  }

  /** No entry of either ring is overwritten before the other side has read it. */
  lemma NoUnreadOverwritten(w: World, n: nat)
    requires Inv(w)
    ensures w.fetched <= n < w.submitted ==> n % NUM != w.r.availIdx % NUM
    ensures w.seen <= n < w.returned ==> n % NUM != w.r.usedIdx % NUM
  {
    AvailShort(w);
    UsedShort(w);
    Indices(w.submitted, w.submitted);
    Indices(w.returned, w.returned);
    if w.fetched <= n < w.submitted { OtherSlot(n, w.submitted); }
    if w.seen <= n < w.returned { OtherSlot(n, w.returned); }
  }

  /** A completion clears the flag of its own request's buffer and of no other. */
  lemma ClearsOwnBuffer(w: World, w': World)
    requires Inv(w) && SeeStep(w, w')
    ensures var h := w.r.used[w.r.seen % NUM];
            && w'.busy == w.busy - {w.live[h].buf}
            && forall h' | h' in w.live && h' != h :: w.live[h'].buf in w'.busy <==> w.live[h'].buf in w.busy
  {
    SeeFinds(w);
    var h := w.r.used[w.r.seen % NUM];
    forall h' | h' in w.live && h' != h ensures w.live[h'].buf in w'.busy <==> w.live[h'].buf in w.busy {
      assert OneReq(w, h, h');
    }
  }

  /** The rings after virtio_disk_init. */
  lemma InitOk(w: World)
    requires Shape(w) && w.live == map[] && w.working == {} && w.submitted == w.fetched && w.returned == w.seen
    requires forall i | 0 <= i < NUM :: w.r.free[i] && w.own[i] == None && w.r.desc[i] == Desc(Null, 0, 0, 0)
    ensures Inv(w)
  {
  }
}
