/** The write-ahead log of kernel/log.c on top of the buffer cache, as a system of atomic
    steps: what threads do with buffers, begin_op/log_write/end_op, the block writes of
    commit(), a crash between any two of them, and the block writes of recovery. */
module LogMachine {
  import opened Options
  import opened Blocks
  import opened BufferCache
  import A = LogAdmission

  const ROOTDEV := 1
  const NPROC := A.NPROC

  /** The part of the superblock the log uses.  The header is block `start`, the log
      blocks are the nlog - 1 blocks after it. */
  datatype Layout = Layout(start: nat, nlog: nat, size: nat) {
    ghost predicate Valid() {
      1 <= nlog && start + nlog <= size <= UINT32
    }

    predicate Home(b: nat) {
      b < size && !(start <= b < start + nlog)
    }

    function LogBlock(tail: nat): (b: nat) {
      start + tail + 1
    }
  }

  // ---------------------------------------------------------------- log header

  predicate HeaderFits(b: Block) {
    GetWord(b, 0) <= A.LOGSIZE
  }

  function HeaderList(b: Block): (list: seq<nat>)
    requires HeaderFits(b)
  {
    seq(GetWord(b, 0), i requires 0 <= i < A.LOGSIZE => GetWord(b, i + 1))
  }

  predicate Words(list: seq<nat>) {
    |list| <= A.LOGSIZE && forall i | 0 <= i < |list| :: list[i] < UINT32
  }

  /** Entries k, k + 1, ... of the header copied into the buffer. */
  function EncodeFrom(b: Block, list: seq<nat>, k: nat): (b': Block)
    requires Words(list) && k <= |list|
    ensures forall i | 0 <= i < WORDS ::
              GetWord(b', i) == if k + 1 <= i <= |list| then list[i-1] else GetWord(b, i)
    decreases |list| - k
  {
    if k == |list| then b else EncodeFrom(SetWord(b, k + 1, list[k]), list, k + 1)
  }

  function Encode(b: Block, list: seq<nat>): (b': Block)
    requires Words(list)
    ensures HeaderFits(b') && HeaderList(b') == list
  {
    EncodeFrom(SetWord(b, 0, |list|), list, 0)
  }

  // ---------------------------------------------------------------- states and steps

  type Disk = map<nat, Block>

  datatype Pend = Free | Wants(i: nat) | Drops(i: nat)

  datatype Phase =
    | Running
    | Copying(th: nat, tail: nat)      // write_log
    | Installing(th: nat, tail: nat)   // install_trans(0), header written
    | Clearing(th: nat)                // second write_head
    | Committed(th: nat)               // commit() has returned
    | Booting
    | Replaying(th: nat, tail: nat)    // install_trans(1)
    | ReplayClearing(th: nat)
  {
    predicate Recovering() {
      Booting? || Replaying? || ReplayClearing?
    }

    predicate InCommit() {
      Copying? || Installing? || Clearing? || Committed?
    }
  }

  /** `holder[i]` holds the sleep lock of buffer i; `pend[t]` is a buffer that thread t
      has referenced but not locked, or unlocked but not yet dropped.  `store` and
      `durable` are history: the latest logged contents of the home blocks, and their
      contents as of the last commit. */
  datatype Sys = Sys(disk: Disk, cache: Cache, holder: seq<Option<nat>>, pend: seq<Pend>,
                     log: A.LogState, phase: Phase, store: Disk, durable: Disk)

  predicate Holding(s: Sys, t: nat, i: nat) {
    i < |s.holder| && i < |s.cache.bufs| && s.holder[i] == Some(t) && s.cache.bufs[i].valid
  }

  predicate HoldingBlock(s: Sys, t: nat, i: nat, b: nat) {
    Holding(s, t, i) && s.cache.bufs[i].Holds(ROOTDEV, b)
  }

  function PutData(c: Cache, i: nat, d: Block): (c': Cache)
    requires i < |c.bufs|
  {
    c.(bufs := c.bufs[i := c.bufs[i].(valid := true, data := d)])
  }

  datatype Step =
    | SGet(t: nat, b: nat)
    | SLock(t: nat)
    | SFill(t: nat, i: nat)
    | SUnlock(t: nat, i: nat)
    | SDrop(t: nat)
    | SBegin(t: nat)
    | SKick(t: nat)
    | SWrite(t: nat, i: nat, b: nat, data: Block)
    | SEnd(t: nat)
    | SCopy(t: nat, to: nat, src: nat)
    | SHead(t: nat, h: nat)
    | SInstall(t: nat, l: nat, d: nat)
    | STruncate(t: nat)
    | SClear(t: nat, h: nat)
    | SFinish(t: nat)
    | SCrash
    | SReadHead(t: nat, h: nat)
    | SReplay(t: nat, l: nat, d: nat)
    | SReplayTruncate(t: nat)
    | SReplayClear(t: nat, h: nat)

  ghost predicate Shape(lay: Layout, s: Sys) {
    && lay.Valid()
    && WellFormed(s.cache) && |s.holder| == NBUF && |s.pend| == NPROC && |s.log.op| == NPROC
    && (forall t | 0 <= t < NPROC && !s.pend[t].Free? :: s.pend[t].i < NBUF)
    && (forall b: nat :: b in s.disk <==> b < lay.size)
    && (forall b: nat :: b in s.store <==> lay.Home(b))
    && (forall b: nat :: b in s.durable <==> lay.Home(b))
  }

  // bio.c

  ghost predicate GetStep(lay: Layout, s: Sys, t: nat, b: nat, s': Sys)
    requires Shape(lay, s)
  {
    && t < NPROC && s.pend[t].Free? && b < lay.size
    && var r := Get(s.cache, ROOTDEV, b);
       r.Got? && s' == s.(cache := r.cache, pend := s.pend[t := Wants(r.buf)])
  }

  ghost predicate LockStep(lay: Layout, s: Sys, t: nat, s': Sys)
    requires Shape(lay, s)
  {
    && t < NPROC && s.pend[t].Wants? && s.holder[s.pend[t].i].None?
    && s' == s.(holder := s.holder[s.pend[t].i := Some(t)], pend := s.pend[t := Free])
  }

  ghost predicate FillStep(lay: Layout, s: Sys, t: nat, i: nat, s': Sys)
    requires Shape(lay, s)
  {
    && i < NBUF && s.holder[i] == Some(t) && !s.cache.bufs[i].valid && s.cache.bufs[i].blockno < lay.size
    && s' == s.(cache := PutData(s.cache, i, s.disk[s.cache.bufs[i].blockno]))
  }

  ghost predicate UnlockStep(lay: Layout, s: Sys, t: nat, i: nat, s': Sys)
    requires Shape(lay, s)
  {
    && t < NPROC && s.pend[t].Free? && Holding(s, t, i)
    && s' == s.(holder := s.holder[i := None], pend := s.pend[t := Drops(i)])
  }

  ghost predicate DropStep(lay: Layout, s: Sys, t: nat, s': Sys)
    requires Shape(lay, s)
  {
    && t < NPROC && s.pend[t].Drops? && s.cache.bufs[s.pend[t].i].refcnt > 0
    && s' == s.(cache := Drop(s.cache, s.pend[t].i), pend := s.pend[t := Free])
  }

  // log.c

  /** The buffer is modified, logged, and pinned if its block was not in the log yet. */
  ghost predicate WriteStep(lay: Layout, s: Sys, t: nat, i: nat, b: nat, d: Block, s': Sys)
    requires Shape(lay, s)
  {
    && t < NPROC && HoldingBlock(s, t, i, b)
    && lay.Home(b) && A.Moves(s.log, lay.nlog, A.DoLogWrite(t, b), s'.log)
    && var c := PutData(s.cache, i, d);
       s' == s.(cache := if b in s.log.block then c else Pin(c, i), log := s'.log, store := s.store[b := d])
  }

  ghost predicate EndStep(s: Sys, lay: Layout, t: nat, s': Sys) {
    && A.Moves(s.log, lay.nlog, A.DoEnd(t), s'.log)
    && s' == s.(log := s'.log,
                phase := if !s'.log.committing then Running
                         else if |s.log.block| > 0 then Copying(t, 0) else Committed(t))
  }

  /** One turn of write_log. */
  ghost predicate CopyStep(lay: Layout, s: Sys, t: nat, to: nat, src: nat, s': Sys)
    requires Shape(lay, s)
  {
    && s.phase.Copying? && s.phase.th == t && s.phase.tail < |s.log.block|
    && HoldingBlock(s, t, to, lay.LogBlock(s.phase.tail))
    && HoldingBlock(s, t, src, s.log.block[s.phase.tail])
    && var d := s.cache.bufs[src].data;
       s' == s.(cache := PutData(s.cache, to, d), disk := s.disk[lay.LogBlock(s.phase.tail) := d],
                phase := Copying(t, s.phase.tail + 1))
  }

  /** The first write_head: the commit point. */
  ghost predicate HeadStep(lay: Layout, s: Sys, t: nat, h: nat, s': Sys)
    requires Shape(lay, s)
  {
    && s.phase.Copying? && s.phase.th == t && s.phase.tail == |s.log.block|
    && HoldingBlock(s, t, h, lay.start) && Words(s.log.block)
    && var d := Encode(s.cache.bufs[h].data, s.log.block);
       s' == s.(cache := PutData(s.cache, h, d), disk := s.disk[lay.start := d],
                phase := Installing(t, 0), durable := s.store)
  }

  /** One turn of install_trans(0). */
  ghost predicate InstallStep(lay: Layout, s: Sys, t: nat, l: nat, d: nat, s': Sys)
    requires Shape(lay, s)
  {
    && s.phase.Installing? && s.phase.th == t && s.phase.tail < |s.log.block|
    && HoldingBlock(s, t, l, lay.LogBlock(s.phase.tail))
    && HoldingBlock(s, t, d, s.log.block[s.phase.tail])
    && s.cache.bufs[d].refcnt > 0
    && var data := s.cache.bufs[l].data;
       s' == s.(cache := Unpin(PutData(s.cache, d, data), d), disk := s.disk[s.log.block[s.phase.tail] := data],
                phase := Installing(t, s.phase.tail + 1))
  }

  ghost predicate TruncateStep(s: Sys, t: nat, s': Sys) {
    && s.phase.Installing? && s.phase.th == t && s.phase.tail == |s.log.block|
    && s' == s.(log := s.log.(block := []), phase := Clearing(t))
  }

  /** The second write_head. */
  ghost predicate ClearStep(lay: Layout, s: Sys, t: nat, h: nat, s': Sys)
    requires Shape(lay, s)
  {
    && s.phase.Clearing? && s.phase.th == t && HoldingBlock(s, t, h, lay.start)
    && var d := Encode(s.cache.bufs[h].data, []);
       s' == s.(cache := PutData(s.cache, h, d), disk := s.disk[lay.start := d], phase := Committed(t))
  }

  ghost predicate FinishStep(s: Sys, t: nat, s': Sys) {
    s.phase == Committed(t) && s' == s.(log := A.Finish(s.log), phase := Running)
  }

  // crash and recovery

  function Booted(disk: Disk, durable: Disk): (s: Sys) {
    Sys(disk, InitCache(), seq(NBUF, i => None), seq(NPROC, t => Free), A.Init(), Booting, durable, durable)
  }

  ghost predicate ReadHeadStep(lay: Layout, s: Sys, t: nat, h: nat, s': Sys)
    requires Shape(lay, s)
  {
    && s.phase.Booting? && HoldingBlock(s, t, h, lay.start) && HeaderFits(s.cache.bufs[h].data)
    && s' == s.(log := s.log.(block := HeaderList(s.cache.bufs[h].data)), phase := Replaying(t, 0))
  }

  /** One turn of install_trans(1). */
  ghost predicate ReplayStep(lay: Layout, s: Sys, t: nat, l: nat, d: nat, s': Sys)
    requires Shape(lay, s)
  {
    && s.phase.Replaying? && s.phase.th == t && s.phase.tail < |s.log.block|
    && HoldingBlock(s, t, l, lay.LogBlock(s.phase.tail))
    && HoldingBlock(s, t, d, s.log.block[s.phase.tail])
    && var data := s.cache.bufs[l].data;
       s' == s.(cache := PutData(s.cache, d, data), disk := s.disk[s.log.block[s.phase.tail] := data],
                phase := Replaying(t, s.phase.tail + 1))
  }

  ghost predicate ReplayTruncateStep(s: Sys, t: nat, s': Sys) {
    && s.phase.Replaying? && s.phase.th == t && s.phase.tail == |s.log.block|
    && s' == s.(log := s.log.(block := []), phase := ReplayClearing(t))
  }

  ghost predicate ReplayClearStep(lay: Layout, s: Sys, t: nat, h: nat, s': Sys)
    requires Shape(lay, s)
  {
    && s.phase.ReplayClearing? && s.phase.th == t && HoldingBlock(s, t, h, lay.start)
    && var d := Encode(s.cache.bufs[h].data, []);
       s' == s.(cache := PutData(s.cache, h, d), disk := s.disk[lay.start := d], phase := Running)
  }

  ghost predicate Next(lay: Layout, s: Sys, step: Step, s': Sys)
    requires Shape(lay, s)
  {
    match step
    case SGet(t, b) => GetStep(lay, s, t, b, s')
    case SLock(t) => LockStep(lay, s, t, s')
    case SFill(t, i) => FillStep(lay, s, t, i, s')
    case SUnlock(t, i) => UnlockStep(lay, s, t, i, s')
    case SDrop(t) => DropStep(lay, s, t, s')
    case SBegin(t) => !s.phase.Recovering() && A.Moves(s.log, lay.nlog, A.DoBegin(t), s'.log) && s' == s.(log := s'.log)
    case SKick(t) => A.Moves(s.log, lay.nlog, A.DoKick(t), s'.log) && s' == s.(log := s'.log)
    case SWrite(t, i, b, d) => WriteStep(lay, s, t, i, b, d, s')
    case SEnd(t) => EndStep(s, lay, t, s')
    case SCopy(t, to, src) => CopyStep(lay, s, t, to, src, s')
    case SHead(t, h) => HeadStep(lay, s, t, h, s')
    case SInstall(t, l, d) => InstallStep(lay, s, t, l, d, s')
    case STruncate(t) => TruncateStep(s, t, s')
    case SClear(t, h) => ClearStep(lay, s, t, h, s')
    case SFinish(t) => FinishStep(s, t, s')
    case SCrash => s' == Booted(s.disk, s.durable)
    case SReadHead(t, h) => ReadHeadStep(lay, s, t, h, s')
    case SReplay(t, l, d) => ReplayStep(lay, s, t, l, d, s')
    case SReplayTruncate(t) => ReplayTruncateStep(s, t, s')
    case SReplayClear(t, h) => ReplayClearStep(lay, s, t, h, s')
  }

  // ---------------------------------------------------------------- the invariant

  /** The logged blocks whose buffers are pinned: their newest contents are only there. */
  function Pins(s: Sys): (p: seq<nat>) {
    match s.phase
    case Running => s.log.block
    case Copying(_, _) => s.log.block
    case Installing(_, tail) => if tail <= |s.log.block| then s.log.block[tail..] else []
    case _ => []
  }

  predicate PendsOn(p: Pend, i: nat) {
    !p.Free? && p.i == i
  }

  function CountPend(pend: seq<Pend>, i: nat): (n: nat) {
    if pend == [] then 0 else (if PendsOn(pend[0], i) then 1 else 0) + CountPend(pend[1..], i)
  }

  predicate Pinned(c: Cache, pins: seq<nat>, i: nat)
    requires i < |c.bufs|
  {
    c.bufs[i].dev == ROOTDEV && c.bufs[i].blockno in pins
  }

  function Bit(b: bool): (n: nat) {
    if b then 1 else 0
  }

  ghost predicate KeysOk(lay: Layout, c: Cache) {
    && UniqueKeys(c)
    && forall i | 0 <= i < |c.bufs| ::
         if c.bufs[i].dev == 0 then !c.bufs[i].valid
         else c.bufs[i].dev == ROOTDEV && c.bufs[i].blockno < lay.size
  }

  /** A buffer's reference count is the number of threads that want it, hold it or are
      dropping it, plus one if it is pinned. */
  ghost predicate RefsOk(c: Cache, holder: seq<Option<nat>>, pend: seq<Pend>, pins: seq<nat>)
    requires |holder| == |c.bufs|
  {
    forall i | 0 <= i < |c.bufs| ::
      && c.bufs[i].refcnt == CountPend(pend, i) + Bit(holder[i].Some?) + Bit(Pinned(c, pins, i))
      && (c.bufs[i].dev == 0 ==> c.bufs[i].refcnt == 0)
  }

  ghost predicate Cached(c: Cache, b: nat) {
    exists i :: 0 <= i < |c.bufs| && c.bufs[i].valid && c.bufs[i].Holds(ROOTDEV, b)
  }

  ghost predicate PinsOk(lay: Layout, c: Cache, pins: seq<nat>) {
    forall b | b in pins :: lay.Home(b) && Cached(c, b)
  }

  /** A valid buffer holds the newest contents if pinned, the disk's contents otherwise. */
  ghost predicate Coherent(c: Cache, disk: Disk, store: Disk, pins: seq<nat>) {
    forall i | 0 <= i < |c.bufs| && c.bufs[i].valid ::
      var b := c.bufs[i].blockno;
      if Pinned(c, pins, i) then b in store && c.bufs[i].data == store[b]
      else b in disk && c.bufs[i].data == disk[b]
  }

  ghost predicate BuffersOk(lay: Layout, c: Cache, disk: Disk, store: Disk,
                            holder: seq<Option<nat>>, pend: seq<Pend>, pins: seq<nat>) {
    && |holder| == |c.bufs|
    && KeysOk(lay, c) && RefsOk(c, holder, pend, pins) && PinsOk(lay, c, pins) && Coherent(c, disk, store, pins)
  }

  ghost predicate ListOk(lay: Layout, list: seq<nat>) {
    && |list| <= A.LOGSIZE && |list| <= lay.nlog - 1
    && (forall k | 0 <= k < |list| :: lay.Home(list[k]))
    && (forall j, k | 0 <= j < k < |list| :: list[j] != list[k])
  }

  /** What recovery needs of the disk to rebuild `durable`: a header listing distinct home
      blocks, their contents in the log, and all other home blocks in place. */
  ghost predicate Recoverable(lay: Layout, disk: Disk, durable: Disk) {
    && lay.Valid()
    && (forall b: nat :: b in disk <==> b < lay.size)
    && (forall b: nat :: b in durable <==> lay.Home(b))
    && HeaderFits(disk[lay.start])
    && var list := HeaderList(disk[lay.start]);
       && ListOk(lay, list)
       && (forall k | 0 <= k < |list| :: disk[lay.LogBlock(k)] == durable[list[k]])
       && (forall b | lay.Home(b) && b !in list :: disk[b] == durable[b])
  }

  ghost predicate LogCopies(lay: Layout, disk: Disk, store: Disk, list: seq<nat>, n: nat) {
    && n <= |list|
    && forall k | 0 <= k < n :: lay.LogBlock(k) in disk && list[k] in store && disk[lay.LogBlock(k)] == store[list[k]]
  }

  /** Home blocks other than those in `list` have contents `m` on disk. */
  ghost predicate HomeIs(lay: Layout, disk: Disk, m: Disk, list: seq<nat>) {
    forall b | lay.Home(b) && b !in list :: b in disk && b in m && disk[b] == m[b]
  }

  ghost predicate PhaseOk(lay: Layout, disk: Disk, store: Disk, durable: Disk, block: seq<nat>, phase: Phase) {
    && lay.start in disk && HeaderFits(disk[lay.start])
    && var list := HeaderList(disk[lay.start]);
    match phase
    case Running => list == [] && HomeIs(lay, disk, durable, []) && HomeIs(lay, disk, store, block)
    case Copying(_, tail) =>
      && list == [] && HomeIs(lay, disk, durable, []) && HomeIs(lay, disk, store, block)
      && LogCopies(lay, disk, store, block, tail)
    case Installing(_, tail) =>
      && list == block && store == durable && tail <= |block|
      && LogCopies(lay, disk, store, block, |block|) && HomeIs(lay, disk, store, block[tail..])
    case Clearing(_) => block == [] && store == durable && HomeIs(lay, disk, store, [])
    case Committed(_) => block == [] && store == durable && list == [] && HomeIs(lay, disk, store, [])
    case Booting => block == [] && store == durable
    case Replaying(_, tail) =>
      && list == block && store == durable && tail <= |block|
      && HomeIs(lay, disk, durable, block[tail..])
    case ReplayClearing(_) => block == [] && store == durable && HomeIs(lay, disk, store, [])
  }

  ghost predicate LogOk(log: A.LogState, phase: Phase) {
    if phase.Recovering() then log.(block := []) == A.Init()
    else A.Core(log) && (log.committing <==> phase.InCommit())
  }

  ghost predicate Inv(lay: Layout, s: Sys) {
    && Shape(lay, s)
    && BuffersOk(lay, s.cache, s.disk, s.store, s.holder, s.pend, Pins(s))
    && Recoverable(lay, s.disk, s.durable)
    && LogOk(s.log, s.phase) && ListOk(lay, s.log.block)
    && PhaseOk(lay, s.disk, s.store, s.durable, s.log.block, s.phase)
  }
}
