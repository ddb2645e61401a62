/** The split virtqueue between kernel/virtio_disk.c and its device (sections 2.6 and 5.2 of
    virtio v1.1): descriptors, the avail and used rings with their 16-bit indices, and the
    requests that own the descriptors in use. */
module VirtioModel {
  import opened Options

  const NUM := 8
  const WRAP := 0x1_0000           // ring indices are 16 bits wide
  const F_NEXT := 1
  const F_WRITE := 2
  const PENDING := 0xff            // status before the device has answered

  datatype Addr = Null | OpAt(op: nat) | DataOf(buf: nat) | StatusAt(info: nat)
  datatype Desc = Desc(addr: Addr, len: nat, flags: nat, next: nat)
  datatype Op = Op(out: bool, sector: nat)
  datatype Info = Info(buf: Option<nat>, status: nat)

  /** The memory that driver and device share, and the driver's own `free` and `seen`. */
  datatype Ring = Ring(free: seq<bool>, desc: seq<Desc>, ops: seq<Op>, info: seq<Info>,
                       availIdx: nat, avail: seq<nat>, usedIdx: nat, used: seq<nat>, seen: nat)

  /** Where a request is: in avail slot n, with the device, in used slot n, or answered. */
  datatype Stage = Queued(n: nat) | Working | Done(n: nat) | Answered

  /** A request in flight; its first descriptor is the key under which it is kept. */
  datatype Req = Req(second: nat, third: nat, buf: nat, block: nat, out: bool, stage: Stage)

  /** The counters are the ring indices without wrap-around: heads submitted and fetched by
      the device, heads returned and seen by the driver.  `devIdx` and `working` are the
      device's.  `busy` are the buffers with b->disk set. */
  datatype World = World(r: Ring, devIdx: nat, working: set<nat>, busy: set<nat>,
                         data: map<nat, int>, disk: map<nat, int>,
                         live: map<nat, Req>, own: seq<Option<(nat, nat)>>,
                         submitted: nat, fetched: nat, returned: nat, seen: nat)

  function At(m: map<nat, int>, k: nat): (x: int) {
    if k in m then m[k] else 0
  }

  function Part(q: Req, h: nat, p: nat): (i: nat) {
    if p == 0 then h else if p == 1 then q.second else q.third
  }

  // ---------------------------------------------------------------- invariant

  ghost predicate Shape(w: World) {
    && |w.r.free| == |w.r.desc| == |w.r.ops| == |w.r.info| == |w.r.avail| == |w.r.used| == |w.own| == NUM
    && w.fetched <= w.submitted && w.seen <= w.returned
    && w.r.availIdx == w.submitted % WRAP && w.devIdx == w.fetched % WRAP
    && w.r.usedIdx == w.returned % WRAP && w.r.seen == w.seen % WRAP
  }

  /** The three descriptors of a request as section 5.2 of virtio v1.1 lays them out. */
  ghost predicate Formatted(r: Ring, h: nat, q: Req)
    requires |r.desc| == |r.ops| == |r.info| == NUM
  {
    && h < NUM && q.second < NUM && q.third < NUM
    && r.desc[h] == Desc(OpAt(h), 16, F_NEXT, q.second)
    && r.desc[q.second] == Desc(DataOf(q.buf), 1024, if q.out then F_NEXT else F_NEXT + F_WRITE, q.third)
    && r.desc[q.third] == Desc(StatusAt(h), 1, F_WRITE, 0)
    && r.ops[h] == Op(q.out, q.block * 2)
    && r.info[h].buf == Some(q.buf)
  }

  ghost predicate StageOk(w: World, h: nat, q: Req)
    requires Shape(w) && h < NUM
  {
    && (q.buf in w.busy <==> q.stage != Answered)
    && match q.stage
       case Queued(n) => w.fetched <= n < w.submitted && w.r.avail[n % NUM] == h && w.r.info[h].status == PENDING
       case Working => h in w.working && w.r.info[h].status == PENDING
       case Done(n) => w.seen <= n < w.returned && w.r.used[n % NUM] == h && w.r.info[h].status == 0
       case Answered => true
  }

  ghost predicate ReqOk(w: World, h: nat)
    requires Shape(w) && h in w.live
  {
    var q := w.live[h];
    && Formatted(w.r, h, q) && StageOk(w, h, q)
    && w.own[h] == Some((h, 0)) && w.own[q.second] == Some((h, 1)) && w.own[q.third] == Some((h, 2))
  }

  /** A descriptor is free, or it is one part of one request. */
  ghost predicate DescOk(w: World, i: nat)
    requires Shape(w) && i < NUM
  {
    && (w.r.free[i] <==> w.own[i] == None)
    && (w.r.free[i] ==> w.r.desc[i] == Desc(Null, 0, 0, 0))
    && (w.own[i].Some? ==> var (h, p) := w.own[i].value; p <= 2 && h in w.live && Part(w.live[h], h, p) == i)
  }

  ghost predicate AvailOk(w: World, n: nat)
    requires Shape(w)
  {
    w.fetched <= n < w.submitted ==> w.r.avail[n % NUM] in w.live && w.live[w.r.avail[n % NUM]].stage == Queued(n)
  }

  ghost predicate UsedOk(w: World, n: nat)
    requires Shape(w)
  {
    w.seen <= n < w.returned ==> w.r.used[n % NUM] in w.live && w.live[w.r.used[n % NUM]].stage == Done(n)
  }

  ghost predicate WorkOk(w: World, h: nat) {
    h in w.working ==> h in w.live && w.live[h].stage == Working
  }

  /** A buffer has at most one request, since its caller holds the buffer's lock. */
  ghost predicate OneReq(w: World, h: nat, h': nat) {
    h in w.live && h' in w.live && h != h' ==> w.live[h].buf != w.live[h'].buf
  }

  ghost predicate Inv(w: World) {
    && Shape(w)
    && (forall h {:trigger ReqOk(w, h)} | h in w.live :: ReqOk(w, h))
    && (forall i | 0 <= i < NUM :: DescOk(w, i))
    && (forall n: nat :: AvailOk(w, n))
    && (forall n: nat :: UsedOk(w, n))
    && (forall h: nat :: WorkOk(w, h))
    && (forall h: nat, h': nat :: OneReq(w, h, h'))
  }

  // ---------------------------------------------------------------- steps

  /** virtio_disk_rw up to the notification, with the descriptors h, i and j. */
  function Submitted(r: Ring, h: nat, i: nat, j: nat, b: nat, block: nat, out: bool): (r': Ring)
    requires |r.free| == |r.desc| == |r.ops| == |r.info| == |r.avail| == NUM && h < NUM && i < NUM && j < NUM
  {
    r.(free := r.free[h := false][i := false][j := false],
       ops := r.ops[h := Op(out, block * 2)],
       desc := r.desc[h := Desc(OpAt(h), 16, F_NEXT, i)]
                     [i := Desc(DataOf(b), 1024, if out then F_NEXT else F_NEXT + F_WRITE, j)]
                     [j := Desc(StatusAt(h), 1, F_WRITE, 0)],
       info := r.info[h := Info(Some(b), PENDING)],
       avail := r.avail[r.availIdx % NUM := h],
       availIdx := (r.availIdx + 1) % WRAP)
  }

  ghost predicate SubmitStep(w: World, w': World, h: nat, i: nat, j: nat, b: nat, block: nat, out: bool) {
    && Shape(w) && h < NUM && i < NUM && j < NUM && h != i && h != j && i != j
    && w.r.free[h] && w.r.free[i] && w.r.free[j]
    && (forall h' | h' in w.live :: w.live[h'].buf != b)
    && w' == w.(r := Submitted(w.r, h, i, j, b, block, out),
                busy := w.busy + {b},
                live := w.live[h := Req(i, j, b, block, out, Queued(w.submitted))],
                own := w.own[h := Some((h, 0))][i := Some((h, 1))][j := Some((h, 2))],
                submitted := w.submitted + 1)
  }

  /** The device fetches the next head from the avail ring. */
  ghost predicate FetchStep(w: World, w': World) {
    && Shape(w) && w.devIdx != w.r.availIdx
    && var h := w.r.avail[w.devIdx % NUM];
       && h in w.live
       && w' == w.(devIdx := (w.devIdx + 1) % WRAP, working := w.working + {h}, fetched := w.fetched + 1,
                   live := w.live[h := w.live[h].(stage := Working)])
  }

  /** What the device does with head h, going by the shared memory alone: the request named
      by the first descriptor, on the buffer of the second, with the status byte of the third. */
  function DeviceDoes(r: Ring, data: map<nat, int>, disk: map<nat, int>, h: nat): (z: Option<(map<nat, int>, map<nat, int>, nat)>)
    requires |r.desc| == |r.ops| == NUM
  {
    if h < NUM && r.desc[h].next < NUM && r.desc[r.desc[h].next].next < NUM && r.desc[h].addr.OpAt? && r.desc[h].addr.op < NUM
       && r.desc[r.desc[h].next].addr.DataOf? && r.desc[r.desc[r.desc[h].next].next].addr.StatusAt? then
      var op := r.ops[r.desc[h].addr.op];
      var b := r.desc[r.desc[h].next].addr.buf;
      var st := r.desc[r.desc[r.desc[h].next].next].addr.info;
      if op.out then Some((data, disk[op.sector := At(data, b)], st))
      else Some((data[b := At(disk, op.sector)], disk, st))
    else None
  }

  /** The device completes head h and puts it in the used ring. */
  ghost predicate CompleteStep(w: World, w': World, h: nat) {
    && Shape(w) && h in w.working && h in w.live && DeviceDoes(w.r, w.data, w.disk, h).Some?
    && var (data', disk', st) := DeviceDoes(w.r, w.data, w.disk, h).value;
       && st < NUM
       && w' == w.(data := data', disk := disk',
                   r := w.r.(info := w.r.info[st := w.r.info[st].(status := 0)],
                             used := w.r.used[w.r.usedIdx % NUM := h], usedIdx := (w.r.usedIdx + 1) % WRAP),
                   working := w.working - {h}, returned := w.returned + 1,
                   live := w.live[h := w.live[h].(stage := Done(w.returned))])
  }

  /** A turn of the loop of virtio_disk_intr. */
  ghost predicate SeeStep(w: World, w': World) {
    && Shape(w) && w.r.seen != w.r.usedIdx
    && var h := w.r.used[w.r.seen % NUM];
       && h < NUM && w.r.info[h].status == 0 && w.r.info[h].buf.Some? && h in w.live
       && w' == w.(r := w.r.(seen := (w.r.seen + 1) % WRAP), busy := w.busy - {w.r.info[h].buf.value}, seen := w.seen + 1,
                   live := w.live[h := w.live[h].(stage := Answered)])
  }

  /** free_desc, three times. */
  function Released(r: Ring, h: nat, i: nat, j: nat): (r': Ring)
    requires |r.free| == |r.desc| == |r.info| == NUM && h < NUM && i < NUM && j < NUM
  {
    r.(info := r.info[h := r.info[h].(buf := None)],
       desc := r.desc[h := Desc(Null, 0, 0, 0)][i := Desc(Null, 0, 0, 0)][j := Desc(Null, 0, 0, 0)],
       free := r.free[h := true][i := true][j := true])
  }

  /** The end of virtio_disk_rw: its buffer is no longer busy. */
  ghost predicate FinishStep(w: World, w': World, h: nat) {
    && Shape(w) && h in w.live && w.live[h].buf !in w.busy
    && var q := w.live[h];
       && h < NUM && q.second < NUM && q.third < NUM
       && w' == w.(r := Released(w.r, h, q.second, q.third), live := w.live - {h},
                   own := w.own[h := None][q.second := None][q.third := None])
  }

  datatype Step =
    | Submit(h: nat, i: nat, j: nat, b: nat, block: nat, out: bool)
    | Fetch
    | Complete(h: nat)
    | See
    | Finish(h: nat)

  ghost predicate Next(w: World, w': World, step: Step) {
    match step
    case Submit(h, i, j, b, block, out) => SubmitStep(w, w', h, i, j, b, block, out)
    case Fetch => FetchStep(w, w')
    case Complete(h) => CompleteStep(w, w', h)
    case See => SeeStep(w, w')
    case Finish(h) => FinishStep(w, w', h)
  }
}
