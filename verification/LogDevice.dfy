/** The block-copying loops of kernel/log.c (write_log, write_head, install_trans, commit,
    read_head, recover_from_log) and the buffer calls of kernel/bio.c they are made of, on
    the mutable cache.  Every method extends a run of the log machine by the steps it
    takes, so what LogSafety proves holds at each point inside them. */
module LogDevice {
  import opened Options
  import opened Blocks
  import opened BufferCache
  import opened LogMachine
  import opened LogSafety
  import A = LogAdmission

  // ---------------------------------------------------------------- runs

  datatype Trace = Trace(ss: seq<Sys>, steps: seq<Step>)

  ghost predicate RunsTo(lay: Layout, base: Disk, tr: Trace, s: Sys) {
    Run(lay, base, tr.ss, tr.steps) && tr.ss[|tr.ss|-1] == s
  }

  /** A run can be continued by one step. */
  lemma Extend(lay: Layout, base: Disk, tr: Trace, s: Sys, step: Step, s': Sys) returns (tr': Trace)
    requires RunsTo(lay, base, tr, s) && Shape(lay, s) && Next(lay, s, step, s')
    ensures RunsTo(lay, base, tr', s')
  {
    tr' := Trace(tr.ss + [s'], tr.steps + [step]);
    forall k | 0 <= k < |tr'.ss| ensures Takes(lay, base, tr'.ss, tr'.steps, k) {
      if k < |tr.ss| {
        assert Takes(lay, base, tr.ss, tr.steps, k);
        TakesExtends(lay, base, tr, tr', k);
      }
    }
  }

  lemma TakesExtends(lay: Layout, base: Disk, tr: Trace, tr': Trace, k: nat)
    requires k < |tr.ss| == |tr.steps| + 1 && |tr'.ss| == |tr'.steps| + 1
    requires tr.ss <= tr'.ss && tr.steps <= tr'.steps && Takes(lay, base, tr.ss, tr.steps, k)
    ensures Takes(lay, base, tr'.ss, tr'.steps, k)
  {
    assert tr'.ss[k] == tr.ss[k];
    if k > 0 {
      assert tr'.ss[k-1] == tr.ss[k-1] && tr'.steps[k-1] == tr.steps[k-1];
    }
  }

  lemma InvAtEnd(lay: Layout, base: Disk, tr: Trace, s: Sys)
    requires RunsTo(lay, base, tr, s)
    ensures Inv(lay, s)
  {
    InvOverRuns(lay, base, tr.ss, tr.steps, |tr.ss| - 1);
  }

  lemma ShapeAtEnd(lay: Layout, base: Disk, tr: Trace, s: Sys)
    requires RunsTo(lay, base, tr, s)
    ensures Shape(lay, s)
  {
    InvAtEnd(lay, base, tr, s);
  }

  /** bget, acquiresleep and the disk read of bread. */
  function AfterBread(s: Sys, t: nat, b: nat): (s': Sys)
    requires |s.cache.bufs| == NBUF && |s.holder| == NBUF && b in s.disk
    requires WellFormed(s.cache) && Get(s.cache, ROOTDEV, b).Got?
  {
    var Got(c, i) := Get(s.cache, ROOTDEV, b);
    if i < NBUF && |c.bufs| == NBUF then
      s.(cache := if c.bufs[i].valid then c else PutData(c, i, s.disk[b]), holder := s.holder[i := Some(t)])
    else s
  }

  /** What a thread alone in the kernel sees of its other buffers. */
  ghost predicate Unheld(s: Sys, b: nat)
    requires |s.cache.bufs| == |s.holder| == NBUF
  {
    forall j | 0 <= j < NBUF && s.holder[j].Some? :: s.cache.bufs[j].blockno != b
  }

  // ---------------------------------------------------------------- when buffers run out

  /** The buffers that nobody references. */
  ghost function Idle(c: Cache): (r: set<nat>) {
    set i | 0 <= i < |c.bufs| && c.bufs[i].refcnt == 0
  }

  /** No buffer has more references than before. */
  ghost predicate LessBusy(c: Cache, c': Cache) {
    |c'.bufs| == |c.bufs| && forall i | 0 <= i < |c.bufs| :: c'.bufs[i].refcnt <= c.bufs[i].refcnt
  }

  ghost predicate SameRefs(c: Cache, c': Cache) {
    |c'.bufs| == |c.bufs| && forall i | 0 <= i < |c.bufs| :: c'.bufs[i].refcnt == c.bufs[i].refcnt
  }

  /** Buffers i and j have one reference more each. */
  ghost predicate Taken(c: Cache, c': Cache, i: nat, j: nat) {
    && |c'.bufs| == |c.bufs|
    && forall x | 0 <= x < |c.bufs| :: c'.bufs[x].refcnt == c.bufs[x].refcnt + if x == i || x == j then 1 else 0
  }

  lemma GivenBack(c0: Cache, c1: Cache, c2: Cache, c3: Cache, i: nat, j: nat)
    requires Taken(c0, c1, i, j) && LessBusy(c1, c2) && Taken(c3, c2, i, j)
    ensures LessBusy(c0, c3)
  {
    forall x | 0 <= x < |c0.bufs| ensures c3.bufs[x].refcnt <= c0.bufs[x].refcnt {
      assert c1.bufs[x].refcnt >= c2.bufs[x].refcnt;
    }
  }

  lemma PutDataRefs(c: Cache, i: nat, d: Block)
    requires i < |c.bufs|
    ensures SameRefs(c, PutData(c, i, d)) && LessBusy(c, PutData(c, i, d))
  {
  }

  lemma UnpinRefs(c: Cache, i: nat, d: Block)
    requires i < |c.bufs| && c.bufs[i].refcnt > 0
    ensures LessBusy(c, Unpin(PutData(c, i, d), i))
  {
  }

  /** Some referenced buffer has block b, so bget finds it there. */
  ghost predicate Kept(c: Cache, b: nat) {
    exists i :: 0 <= i < |c.bufs| && c.bufs[i].Holds(ROOTDEV, b) && c.bufs[i].refcnt > 0
  }

  lemma IdleGrows(c: Cache, c': Cache)
    requires LessBusy(c, c')
    ensures Idle(c) <= Idle(c') && |Idle(c)| <= |Idle(c')|
  {
    assert Idle(c') == Idle(c) + (Idle(c') - Idle(c));
  }

  /** A second buffer can be had, if there were two or the block is kept. */
  lemma SecondBuffer(c: Cache, c1: Cache, i: nat, b: nat)
    requires |c.bufs| == |c1.bufs| && i < |c.bufs| && (forall j | 0 <= j < |c.bufs| && j != i :: c1.bufs[j] == c.bufs[j])
    requires forall j | 0 <= j < |c.bufs| :: !c1.bufs[j].Holds(ROOTDEV, b) && c1.bufs[j].refcnt > 0
    ensures |Idle(c)| <= 1
    ensures !c.bufs[i].Holds(ROOTDEV, b) || c.bufs[i].refcnt == 0 ==> !Kept(c, b)
  {
    assert Idle(c) <= {i};
    assert {i} == Idle(c) + ({i} - Idle(c));
  }

  /** A pinned block is kept. */
  lemma PinnedIsKept(lay: Layout, base: Disk, tr: Trace, s: Sys, b: nat)
    requires RunsTo(lay, base, tr, s) && b in Pins(s)
    ensures Kept(s.cache, b)
  {
    InvAtEnd(lay, base, tr, s);
    assert Cached(s.cache, b);
    var i :| 0 <= i < |s.cache.bufs| && s.cache.bufs[i].valid && s.cache.bufs[i].Holds(ROOTDEV, b);
    assert Pinned(s.cache, Pins(s), i);
  }

  /** write_log and install_trans find the logged block in its pinned buffer. */
  lemma LoggedIsKept(lay: Layout, base: Disk, tr: Trace, s: Sys)
    requires RunsTo(lay, base, tr, s) && (s.phase.Copying? || s.phase.Installing?) && s.phase.tail < |s.log.block|
    ensures Kept(s.cache, s.log.block[s.phase.tail])
  {
    var list, tail := s.log.block, s.phase.tail;
    assert s.phase.Installing? ==> list[tail..][0] == list[tail];
    PinnedIsKept(lay, base, tr, s, list[tail]);
  }

  lemma AllIdle(c: Cache)
    requires |c.bufs| == NBUF && forall i | 0 <= i < NBUF :: c.bufs[i].refcnt == 0
    ensures |Idle(c)| >= 2
  {
    assert Idle(c) == {0, 1} + (Idle(c) - {0, 1});
  }

  lemma BreadLocks(lay: Layout, s: Sys, t: nat, b: nat, s1: Sys)
    requires Inv(lay, s) && GetStep(lay, s, t, b, s1) && Unheld(s, b)
    ensures var i := Get(s.cache, ROOTDEV, b).buf;
            i < NBUF && s.holder[i].None? && s1.cache.bufs[i].Holds(ROOTDEV, b)
  {
    GetCorrect(s.cache, ROOTDEV, b);
  }

  /** A buffer that was read holds its block, and no other buffer changed. */
  ghost predicate ReadInto(s: Sys, s': Sys, t: nat, i: nat, b: nat) {
    && i < NBUF && |s.holder| == |s.cache.bufs| == |s'.cache.bufs| == NBUF
    && s.holder[i].None? && HoldingBlock(s', t, i, b)
    && (forall j | 0 <= j < NBUF && j != i :: s'.cache.bufs[j] == s.cache.bufs[j])
    && (s.cache.bufs[i].Holds(ROOTDEV, b) || s.cache.bufs[i].refcnt == 0)
    && s'.cache.bufs[i].refcnt == s.cache.bufs[i].refcnt + 1
    && s' == s.(cache := s'.cache, holder := s.holder[i := Some(t)])
  }

  lemma BreadFacts(lay: Layout, s: Sys, t: nat, b: nat)
    requires Inv(lay, s) && b < lay.size && Unheld(s, b) && Get(s.cache, ROOTDEV, b).Got?
    ensures ReadInto(s, AfterBread(s, t, b), t, Get(s.cache, ROOTDEV, b).buf, b)
  {
    GetCorrect(s.cache, ROOTDEV, b);
  }

  lemma GetFails(lay: Layout, base: Disk, tr: Trace, s: Sys, b: nat)
    requires RunsTo(lay, base, tr, s) && Shape(lay, s)
    ensures Get(s.cache, ROOTDEV, b).NoBuffers?
            <==> forall i | 0 <= i < NBUF :: !s.cache.bufs[i].Holds(ROOTDEV, b) && s.cache.bufs[i].refcnt > 0
  {
    InvAtEnd(lay, base, tr, s);
    GetCorrect(s.cache, ROOTDEV, b);
  }

  lemma BreadRun(lay: Layout, base: Disk, tr: Trace, s: Sys, t: nat, b: nat) returns (tr': Trace)
    requires RunsTo(lay, base, tr, s) && Shape(lay, s)
    requires t < NPROC && s.pend[t].Free? && b < lay.size && Unheld(s, b) && Get(s.cache, ROOTDEV, b).Got?
    ensures RunsTo(lay, base, tr', AfterBread(s, t, b)) && Shape(lay, AfterBread(s, t, b))
    ensures ReadInto(s, AfterBread(s, t, b), t, Get(s.cache, ROOTDEV, b).buf, b)
  {
    InvAtEnd(lay, base, tr, s);
    BreadFacts(lay, s, t, b);
    var r := Get(s.cache, ROOTDEV, b);
    var i := r.buf;
    var s1 := s.(cache := r.cache, pend := s.pend[t := Wants(i)]);
    BreadLocks(lay, s, t, b, s1);
    tr' := Extend(lay, base, tr, s, SGet(t, b), s1);
    InvAtEnd(lay, base, tr', s1);
    var s2 := s1.(holder := s1.holder[i := Some(t)], pend := s1.pend[t := Free]);
    tr' := Extend(lay, base, tr', s1, SLock(t), s2);
    assert s2.pend == s.pend;
    if !s2.cache.bufs[i].valid {
      InvAtEnd(lay, base, tr', s2);
      tr' := Extend(lay, base, tr', s2, SFill(t, i), AfterBread(s, t, b));
    }
    ShapeAtEnd(lay, base, tr', AfterBread(s, t, b));
  }

  /** brelse */
  function AfterBrelse(s: Sys, t: nat, i: nat): (s': Sys)
    requires WellFormed(s.cache) && i < NBUF && |s.holder| == NBUF && s.cache.bufs[i].refcnt > 0
  {
    s.(cache := Drop(s.cache, i), holder := s.holder[i := None])
  }

  lemma HeldIsReferenced(lay: Layout, s: Sys, i: nat)
    requires Inv(lay, s) && i < NBUF && s.holder[i].Some?
    ensures s.cache.bufs[i].refcnt > 0
  {
  }

  lemma PendingIsReferenced(lay: Layout, s: Sys, t: nat)
    requires Inv(lay, s) && t < NPROC && s.pend[t].Drops?
    ensures s.cache.bufs[s.pend[t].i].refcnt > 0
  {
    CountPendUpdate(s.pend, t, Free, s.pend[t].i);
  }

  lemma BrelseRun(lay: Layout, base: Disk, tr: Trace, s: Sys, t: nat, i: nat) returns (tr': Trace)
    requires RunsTo(lay, base, tr, s) && Shape(lay, s)
    requires t < NPROC && s.pend[t].Free? && Holding(s, t, i)
    ensures s.cache.bufs[i].refcnt > 0 && RunsTo(lay, base, tr', AfterBrelse(s, t, i)) && Shape(lay, AfterBrelse(s, t, i))
  {
    InvAtEnd(lay, base, tr, s);
    HeldIsReferenced(lay, s, i);
    var s1 := s.(holder := s.holder[i := None], pend := s.pend[t := Drops(i)]);
    tr' := Extend(lay, base, tr, s, SUnlock(t, i), s1);
    InvAtEnd(lay, base, tr', s1);
    PendingIsReferenced(lay, s1, t);
    var s2 := AfterBrelse(s, t, i);
    assert s1.pend[t := Free] == s.pend;
    tr' := Extend(lay, base, tr', s1, SDrop(t), s2);
    ShapeAtEnd(lay, base, tr', s2);
  }

  lemma ListFacts(lay: Layout, base: Disk, tr: Trace, s: Sys, k: nat)
    requires RunsTo(lay, base, tr, s) && k < |s.log.block|
    ensures lay.LogBlock(k) < lay.size && s.log.block[k] < lay.size
    ensures lay.Home(s.log.block[k]) && !lay.Home(lay.LogBlock(k)) && Words(s.log.block)
  {
    InvAtEnd(lay, base, tr, s);
  }

  lemma ListWords(lay: Layout, base: Disk, tr: Trace, s: Sys)
    requires RunsTo(lay, base, tr, s)
    ensures Words(s.log.block)
  {
    InvAtEnd(lay, base, tr, s);
  }

  lemma HeaderReadable(lay: Layout, base: Disk, tr: Trace, s: Sys, t: nat, i: nat)
    requires RunsTo(lay, base, tr, s) && s.phase.Booting? && HoldingBlock(s, t, i, lay.start)
    ensures HeaderFits(s.cache.bufs[i].data)
  {
    InvAtEnd(lay, base, tr, s);
  }

  lemma HeldFacts(lay: Layout, base: Disk, tr: Trace, s: Sys, i: nat)
    requires RunsTo(lay, base, tr, s) && i < NBUF && |s.holder| == |s.cache.bufs| == NBUF && s.holder[i].Some?
    ensures s.cache.bufs[i].refcnt > 0
  {
    InvAtEnd(lay, base, tr, s);
  }

  /** The machine step of a write_head, by phase. */
  ghost function HeadStepOf(s: Sys, t: nat, i: nat): (step: Step) {
    if s.phase.Copying? then SHead(t, i) else if s.phase.Clearing? then SClear(t, i) else SReplayClear(t, i)
  }

  ghost function AfterHead(p: Phase, t: nat): (p': Phase) {
    match p
    case Copying(_, _) => Installing(t, 0)
    case Clearing(_) => Committed(t)
    case _ => Running
  }

  lemma HeadRun(lay: Layout, base: Disk, tr: Trace, s: Sys, t: nat, i: nat, d: Block, s': Sys) returns (tr': Trace)
    requires RunsTo(lay, base, tr, s) && Shape(lay, s) && HoldingBlock(s, t, i, lay.start) && Words(s.log.block)
    requires || s.phase == Copying(t, |s.log.block|)
             || ((s.phase == Clearing(t) || s.phase == ReplayClearing(t)) && s.log.block == [])
    requires d == Encode(s.cache.bufs[i].data, s.log.block)
    requires s' == s.(cache := PutData(s.cache, i, d), disk := s.disk[lay.start := d], phase := AfterHead(s.phase, t),
                      durable := if s.phase.Copying? then s.store else s.durable)
    ensures RunsTo(lay, base, tr', s') && Shape(lay, s')
  {
    tr' := Extend(lay, base, tr, s, HeadStepOf(s, t, i), s');
    ShapeAtEnd(lay, base, tr', s');
  }

  lemma InstallRun(lay: Layout, base: Disk, tr: Trace, s: Sys, t: nat, l: nat, d: nat, s': Sys) returns (tr': Trace)
    requires RunsTo(lay, base, tr, s) && Shape(lay, s)
    requires (s.phase.Installing? || s.phase.Replaying?) && s.phase.th == t && s.phase.tail < |s.log.block|
    requires HoldingBlock(s, t, l, lay.LogBlock(s.phase.tail)) && HoldingBlock(s, t, d, s.log.block[s.phase.tail])
    requires s.cache.bufs[d].refcnt > 0
    requires var data := s.cache.bufs[l].data;
             var c := PutData(s.cache, d, data);
             s' == s.(cache := if s.phase.Replaying? then c else Unpin(c, d),
                      disk := s.disk[s.log.block[s.phase.tail] := data],
                      phase := if s.phase.Replaying? then Replaying(t, s.phase.tail + 1) else Installing(t, s.phase.tail + 1))
    ensures RunsTo(lay, base, tr', s') && Shape(lay, s')
  {
    tr' := Extend(lay, base, tr, s, if s.phase.Replaying? then SReplay(t, l, d) else SInstall(t, l, d), s');
    ShapeAtEnd(lay, base, tr', s');
  }

  lemma CopyRun(lay: Layout, base: Disk, tr: Trace, s: Sys, t: nat, to: nat, src: nat, s': Sys) returns (tr': Trace)
    requires RunsTo(lay, base, tr, s) && Shape(lay, s) && CopyStep(lay, s, t, to, src, s')
    ensures RunsTo(lay, base, tr', s') && Shape(lay, s')
  {
    tr' := Extend(lay, base, tr, s, SCopy(t, to, src), s');
    ShapeAtEnd(lay, base, tr', s');
  }

  lemma TruncateRun(lay: Layout, base: Disk, tr: Trace, s: Sys, t: nat, s': Sys) returns (tr': Trace)
    requires RunsTo(lay, base, tr, s) && Shape(lay, s) && (TruncateStep(s, t, s') || ReplayTruncateStep(s, t, s'))
    ensures RunsTo(lay, base, tr', s') && Shape(lay, s')
  {
    tr' := Extend(lay, base, tr, s, if s.phase.Installing? then STruncate(t) else SReplayTruncate(t), s');
    ShapeAtEnd(lay, base, tr', s');
  }

  lemma ReadHeadRun(lay: Layout, base: Disk, tr: Trace, s: Sys, t: nat, h: nat, s': Sys) returns (tr': Trace)
    requires RunsTo(lay, base, tr, s) && Shape(lay, s) && ReadHeadStep(lay, s, t, h, s')
    ensures RunsTo(lay, base, tr', s') && Shape(lay, s')
  {
    tr' := Extend(lay, base, tr, s, SReadHead(t, h), s');
    ShapeAtEnd(lay, base, tr', s');
  }

  /** The disk once commit() has returned. */
  lemma CommittedFacts(lay: Layout, base: Disk, tr: Trace, s: Sys)
    requires RunsTo(lay, base, tr, s) && s.phase.Committed?
    ensures lay.start in s.disk && HeaderFits(s.disk[lay.start]) && HeaderList(s.disk[lay.start]) == []
    ensures HomeIs(lay, s.disk, s.store, []) && s.store == s.durable
  {
    InvAtEnd(lay, base, tr, s);
  }

  /** The disk of a running system. */
  lemma RunningFacts(lay: Layout, base: Disk, tr: Trace, s: Sys)
    requires RunsTo(lay, base, tr, s) && s.phase.Running?
    ensures lay.start in s.disk && HeaderFits(s.disk[lay.start]) && HeaderList(s.disk[lay.start]) == []
    ensures HomeIs(lay, s.disk, s.durable, [])
  {
    InvAtEnd(lay, base, tr, s);
  }

  /** Two locks taken and released leave the lock table as it was. */
  lemma Released(h: seq<Option<nat>>, i: nat, j: nat, x: Option<nat>)
    requires i < |h| && j < |h| && i != j && h[i].None? && h[j].None?
    ensures h[i := x][j := x][j := None][i := None] == h
  {
  }

  // ---------------------------------------------------------------- the kernel's code

  class Device {
    const lay: Layout
    const t: nat                 // the thread that commits or recovers
    var cache: Cache             // bcache, operated on by the functions Bcache implements
    var block: seq<nat>          // lh.block
    var n: nat                   // lh.n
    var disk: Disk

    ghost const base: Disk
    ghost var holder: seq<Option<nat>>
    ghost var pend: seq<Pend>
    ghost var log: A.LogState
    ghost var phase: Phase
    ghost var store: Disk
    ghost var durable: Disk
    ghost var tr: Trace

    ghost function State(): (s: Sys)
      reads this
    {
      Sys(disk, cache, holder, pend, log, phase, store, durable)
    }

    /** The present state is the last of a run, and lh is the machine's log header. */
    ghost predicate Valid()
      reads this
    {
      && |block| == A.LOGSIZE && n <= A.LOGSIZE && block[..n] == log.block
      && t < NPROC && RunsTo(lay, base, tr, State()) && Shape(lay, State())
      && pend[t].Free?
    }

    /** No buffer is held. */
    ghost predicate Quiet()
      reads this
    {
      forall i | 0 <= i < |holder| :: holder[i].None?
    }

    /** Power on with the given disk. */
    constructor (lay: Layout, t: nat, disk: Disk, ghost durable: Disk)
      requires Recoverable(lay, disk, durable) && t < NPROC
      ensures Valid() && Quiet() && this.lay == lay && this.t == t
      ensures State() == Booted(disk, durable) && forall i | 0 <= i < NBUF :: cache.bufs[i].refcnt == 0
    {
      this.lay, this.t, this.disk, n, block := lay, t, disk, 0, seq(A.LOGSIZE, i => 0);
      cache := InitCache();
      base, this.durable, store := durable, durable, durable;
      var s := Booted(disk, durable);
      holder, pend, log, phase := s.holder, s.pend, s.log, s.phase;
      tr := Trace([s], []);
      new;
      ShapeAtEnd(lay, durable, tr, State());
    }

    /** bread; None is the panic of bget. */
    method Bread(b: nat) returns (r: Option<nat>)
      requires Valid() && b < lay.size && Unheld(State(), b)
      modifies this`cache, this`holder, this`tr
      ensures Valid()
      ensures r.None? ==> State() == old(State())
      ensures r.None? <==> forall i | 0 <= i < NBUF :: !old(cache).bufs[i].Holds(ROOTDEV, b) && old(cache).bufs[i].refcnt > 0
      ensures r.Some? ==> ReadInto(old(State()), State(), t, r.value, b)
    {
      ghost var s := State();
      GetFails(lay, base, tr, s, b);
      var g := Get(cache, ROOTDEV, b);
      if g.NoBuffers? {
        return None;
      }
      tr := BreadRun(lay, base, tr, s, t, b);
      cache := g.cache;
      if !cache.bufs[g.buf].valid {
        cache := PutData(cache, g.buf, disk[b]);
      }
      holder := holder[g.buf := Some(t)];
      assert State() == AfterBread(s, t, b);
      return Some(g.buf);
    }

    method Brelse(i: nat)
      requires Valid() && Holding(State(), t, i)
      modifies this`cache, this`holder, this`tr
      ensures Valid() && holder == old(holder)[i := None]
      ensures forall j | 0 <= j < NBUF && j != i :: cache.bufs[j] == old(cache.bufs)[j]
      ensures cache.bufs[i].refcnt == old(cache.bufs)[i].refcnt - 1
    {
      ghost var s := State();
      tr := BrelseRun(lay, base, tr, s, t, i);
      cache := Drop(cache, i);
      holder := holder[i := None];
    }

    /** The two breads at the top of the copying loops. */
    method BreadPair(a: nat, b: nat) returns (r: Option<(nat, nat)>)
      requires Valid() && Quiet() && a < lay.size && b < lay.size && a != b
      modifies this`cache, this`holder, this`tr
      ensures Valid()
      ensures r.Some? ==>
                && var (i, j) := r.value;
                && i < NBUF && j < NBUF && i != j && holder == old(holder)[i := Some(t)][j := Some(t)]
                && HoldingBlock(State(), t, i, a) && HoldingBlock(State(), t, j, b)
                && Taken(old(cache), cache, i, j)
      ensures r.None? ==> |Idle(old(cache))| <= 1 && (Kept(old(cache), b) ==> Idle(old(cache)) == {})
    {
      var i := Bread(a);
      if i.None? { return None; }
      ghost var c1 := cache;
      var j := Bread(b);
      if j.None? {
        SecondBuffer(old(cache), c1, i.value, b);
        return None;
      }
      return Some((i.value, j.value));
    }

    /** The two brelses at the end of the copying loops. */
    method BrelsePair(i: nat, j: nat, ghost h: seq<Option<nat>>)
      requires Valid() && i != j && Holding(State(), t, i) && Holding(State(), t, j)
      requires |h| == NBUF && (forall k | 0 <= k < NBUF :: h[k].None?) && holder == h[i := Some(t)][j := Some(t)]
      modifies this`cache, this`holder, this`tr
      ensures Valid() && Quiet() && Taken(cache, old(cache), i, j)
    {
      Brelse(j);
      Brelse(i);
      Released(h, i, j, Some(t));
    }

    /** write_log */
    method WriteLog() returns (ok: bool)
      requires Valid() && Quiet() && phase == Copying(t, 0)
      modifies this`disk, this`cache, this`holder, this`phase, this`tr
      ensures Valid()
      ensures ok ==> Quiet() && phase == Copying(t, n) && LessBusy(old(cache), cache)
      ensures !ok ==> Idle(old(cache)) == {}
    {
      var tail := 0;
      while tail < n
        invariant 0 <= tail <= n
        invariant Valid() && Quiet() && phase == Copying(t, tail) && LessBusy(old(cache), cache)
      {
        IdleGrows(old(cache), cache);
        ok := WriteLogTurn(tail);
        if !ok { return; }
        tail := tail + 1;
      }
      return true;
    }

    method WriteLogTurn(tail: nat) returns (ok: bool)
      requires Valid() && Quiet() && phase == Copying(t, tail) && tail < n
      modifies this`disk, this`cache, this`holder, this`phase, this`tr
      ensures Valid()
      ensures ok ==> Quiet() && phase == Copying(t, tail + 1) && LessBusy(old(cache), cache)
      ensures !ok ==> Idle(old(cache)) == {}
    {
      ghost var h := holder;
      ListFacts(lay, base, tr, State(), tail);
      LoggedIsKept(lay, base, tr, State());
      var r := BreadPair(lay.LogBlock(tail), block[tail]);
      if r.None? { return false; }
      ghost var c1 := cache;
      CopyBlock(tail, r.value.0, r.value.1);
      ghost var c2 := cache;
      BrelsePair(r.value.0, r.value.1, h);
      GivenBack(old(cache), c1, c2, cache, r.value.0, r.value.1);
      return true;
    }

    /** memmove and bwrite of write_log. */
    method CopyBlock(tail: nat, to: nat, src: nat)
      requires Valid() && phase == Copying(t, tail) && tail < n
      requires HoldingBlock(State(), t, to, lay.LogBlock(tail)) && HoldingBlock(State(), t, src, block[tail])
      modifies this`disk, this`cache, this`phase, this`tr
      ensures Valid() && phase == Copying(t, tail + 1)
      ensures Holding(State(), t, to) && Holding(State(), t, src) && LessBusy(old(cache), cache)
    {
      ghost var s := State();
      var d := cache.bufs[src].data;
      PutDataRefs(cache, to, d);
      cache := PutData(cache, to, d);
      disk := disk[cache.bufs[to].blockno := d];
      phase := Copying(t, tail + 1);
      tr := CopyRun(lay, base, tr, s, t, to, src, State());
    }

    /** The loop of write_head that fills the header buffer. */
    method FillHeader(b0: Block) returns (b: Block)
      requires |block| == A.LOGSIZE && n <= A.LOGSIZE && Words(block[..n])
      ensures b == Encode(b0, block[..n])
    {
      b := SetWord(b0, 0, n);
      var i := 0;
      while i < n
        invariant 0 <= i <= n
        invariant EncodeFrom(b, block[..n], i) == Encode(b0, block[..n])
      {
        b := SetWord(b, i + 1, block[i]);
        i := i + 1;
      }
    }

    ghost predicate HeadDue()
      reads this
    {
      || phase == Copying(t, n)
      || ((phase == Clearing(t) || phase == ReplayClearing(t)) && n == 0)
    }

    /** write_head: the commit point when it follows write_log, else it erases the log. */
    method WriteHead() returns (ok: bool)
      requires Valid() && Quiet() && HeadDue()
      modifies this`disk, this`cache, this`holder, this`phase, this`durable, this`tr
      ensures Valid()
      ensures ok ==> Quiet() && phase == AfterHead(old(phase), t) && LessBusy(old(cache), cache)
      ensures !ok ==> Idle(old(cache)) == {}
      ensures ok ==> durable == if old(phase).Copying? then store else old(durable)
    {
      ghost var h := holder;
      var r := Bread(lay.start);
      if r.None? { return false; }
      PutHeader(r.value);
      Brelse(r.value);
      assert holder == h;
      return true;
    }

    method PutHeader(i: nat)
      requires Valid() && HeadDue() && HoldingBlock(State(), t, i, lay.start)
      modifies this`disk, this`cache, this`phase, this`durable, this`tr
      ensures Valid() && Holding(State(), t, i) && phase == AfterHead(old(phase), t) && SameRefs(old(cache), cache)
      ensures durable == if old(phase).Copying? then store else old(durable)
    {
      ghost var s := State();
      ListWords(lay, base, tr, s);
      var d := FillHeader(cache.bufs[i].data);
      PutDataRefs(cache, i, d);
      cache := PutData(cache, i, d);
      disk := disk[lay.start := d];
      phase, durable := AfterHead(phase, t), if phase.Copying? then store else durable;
      tr := HeadRun(lay, base, tr, s, t, i, d, State());
    }

    /** install_trans */
    method InstallTrans(recovering: bool) returns (ok: bool)
      requires Valid() && Quiet() && phase == InstallPhase(recovering, 0)
      modifies this`disk, this`cache, this`holder, this`phase, this`tr
      ensures Valid()
      ensures ok ==> Quiet() && phase == InstallPhase(recovering, n) && LessBusy(old(cache), cache)
      ensures !ok ==> |Idle(old(cache))| <= if recovering then 1 else 0
    {
      var tail := 0;
      while tail < n
        invariant 0 <= tail <= n
        invariant Valid() && Quiet() && phase == InstallPhase(recovering, tail) && LessBusy(old(cache), cache)
      {
        IdleGrows(old(cache), cache);
        ok := InstallTurn(recovering, tail);
        if !ok { return; }
        tail := tail + 1;
      }
      return true;
    }

    ghost function InstallPhase(recovering: bool, tail: nat): (p: Phase) {
      if recovering then Replaying(t, tail) else Installing(t, tail)
    }

    method InstallTurn(recovering: bool, tail: nat) returns (ok: bool)
      requires Valid() && Quiet() && phase == InstallPhase(recovering, tail) && tail < n
      modifies this`disk, this`cache, this`holder, this`phase, this`tr
      ensures Valid()
      ensures ok ==> Quiet() && phase == InstallPhase(recovering, tail + 1) && LessBusy(old(cache), cache)
      ensures !ok ==> |Idle(old(cache))| <= if recovering then 1 else 0
    {
      ghost var h := holder;
      ListFacts(lay, base, tr, State(), tail);
      if !recovering { LoggedIsKept(lay, base, tr, State()); }
      var r := BreadPair(lay.LogBlock(tail), block[tail]);
      if r.None? { return false; }
      ghost var c1 := cache;
      InstallBlock(recovering, tail, r.value.0, r.value.1);
      ghost var c2 := cache;
      BrelsePair(r.value.0, r.value.1, h);
      GivenBack(old(cache), c1, c2, cache, r.value.0, r.value.1);
      return true;
    }

    /** memmove, bwrite and bunpin of install_trans. */
    method InstallBlock(recovering: bool, tail: nat, l: nat, d: nat)
      requires Valid() && phase == InstallPhase(recovering, tail) && tail < n && l != d
      requires HoldingBlock(State(), t, l, lay.LogBlock(tail)) && HoldingBlock(State(), t, d, block[tail])
      modifies this`disk, this`cache, this`phase, this`tr
      ensures Valid() && phase == InstallPhase(recovering, tail + 1)
      ensures Holding(State(), t, l) && Holding(State(), t, d) && LessBusy(old(cache), cache)
    {
      ghost var s := State();
      HeldFacts(lay, base, tr, s, d);
      var data := cache.bufs[l].data;
      PutDataRefs(cache, d, data);
      UnpinRefs(cache, d, data);
      cache := PutData(cache, d, data);
      disk := disk[block[tail] := data];
      phase := InstallPhase(recovering, tail + 1);
      if !recovering {
        cache := Unpin(cache, d);
      }
      tr := InstallRun(lay, base, tr, s, t, l, d, State());
    }

    /** commit: on return the whole transaction is in the home blocks, durable, and the log
        is empty. */
    method Commit() returns (ok: bool)
      requires Valid() && Quiet() && phase == if n > 0 then Copying(t, 0) else Committed(t)
      modifies this`disk, this`cache, this`holder, this`phase, this`tr, this`n, this`log, this`durable
      ensures Valid()
      ensures !ok ==> Idle(old(cache)) == {}
      ensures ok ==> Quiet() && phase == Committed(t) && n == 0 && durable == store
      ensures ok ==> HomeIs(lay, disk, store, []) && HeaderFits(disk[lay.start]) && HeaderList(disk[lay.start]) == []
    {
      ok := true;
      if n > 0 {
        ok := LogAndCommit();
        if !ok { return; }
        IdleGrows(old(cache), cache);
        ok := InstallAndErase(false);
        if !ok { return; }
      }
      CommittedFacts(lay, base, tr, State());
    }

    /** The first half of commit: up to the commit point. */
    method LogAndCommit() returns (ok: bool)
      requires Valid() && Quiet() && phase == Copying(t, 0)
      modifies this`disk, this`cache, this`holder, this`phase, this`tr, this`durable
      ensures Valid()
      ensures ok ==> Quiet() && phase == Installing(t, 0) && durable == store && LessBusy(old(cache), cache)
      ensures !ok ==> Idle(old(cache)) == {}
    {
      ok := WriteLog();
      if !ok { return; }
      IdleGrows(old(cache), cache);
      ok := WriteHead();
    }

    /** The second half of commit, and of recover_from_log: redo, then erase the log. */
    method InstallAndErase(recovering: bool) returns (ok: bool)
      requires Valid() && Quiet() && phase == InstallPhase(recovering, 0)
      modifies this`disk, this`cache, this`holder, this`phase, this`tr, this`n, this`log, this`durable
      ensures Valid()
      ensures ok ==> Quiet() && n == 0 && durable == old(durable)
      ensures ok ==> phase == if recovering then Running else Committed(t)
      ensures !ok ==> |Idle(old(cache))| <= if recovering then 1 else 0
    {
      ok := InstallTrans(recovering);
      if !ok { return; }
      IdleGrows(old(cache), cache);
      Truncate();
      ok := WriteHead();
    }

    /** `log.lh.n = 0` */
    method Truncate()
      requires Valid() && Quiet() && (phase == Installing(t, n) || phase == Replaying(t, n))
      modifies this`phase, this`tr, this`n, this`log
      ensures Valid() && n == 0 && phase == if old(phase).Installing? then Clearing(t) else ReplayClearing(t)
    {
      ghost var s := State();
      n := 0;
      log := log.(block := []);
      phase := if phase.Installing? then Clearing(t) else ReplayClearing(t);
      tr := TruncateRun(lay, base, tr, s, t, State());
    }

    /** read_head */
    method ReadHead() returns (ok: bool)
      requires Valid() && Quiet() && phase == Booting
      modifies this`cache, this`holder, this`phase, this`tr, this`n, this`block, this`log
      ensures Valid()
      ensures ok ==> Quiet() && phase == Replaying(t, 0) && LessBusy(old(cache), cache)
      ensures !ok ==> Idle(old(cache)) == {}
    {
      ghost var h := holder;
      var r := Bread(lay.start);
      if r.None? { return false; }
      TakeHeader(r.value);
      Brelse(r.value);
      assert holder == h;
      return true;
    }

    method TakeHeader(i: nat)
      requires Valid() && phase == Booting && HoldingBlock(State(), t, i, lay.start)
      modifies this`phase, this`tr, this`n, this`block, this`log
      ensures Valid() && phase == Replaying(t, 0) && Holding(State(), t, i)
    {
      ghost var s := State();
      var b := cache.bufs[i].data;
      HeaderReadable(lay, base, tr, s, t, i);
      n := GetWord(b, 0);
      block := CopyEntries(b);
      log, phase := log.(block := HeaderList(b)), Replaying(t, 0);
      tr := ReadHeadRun(lay, base, tr, s, t, i, State());
    }

    /** The loop of read_head. */
    method CopyEntries(b: Block) returns (list: seq<nat>)
      requires HeaderFits(b) && n == GetWord(b, 0) && |block| == A.LOGSIZE
      ensures |list| == A.LOGSIZE && list[..n] == HeaderList(b)
    {
      list := block;
      var k := 0;
      while k < n
        invariant 0 <= k <= n && |list| == A.LOGSIZE
        invariant forall j | 0 <= j < k :: list[j] == GetWord(b, j + 1)
      {
        list := list[k := GetWord(b, k + 1)];
        k := k + 1;
      }
    }

    /** recover_from_log: on return the home blocks hold the durable contents. */
    method RecoverFromLog() returns (ok: bool)
      requires Valid() && Quiet() && phase == Booting
      modifies this`disk, this`cache, this`holder, this`phase, this`tr, this`n, this`block, this`log, this`durable
      ensures Valid()
      ensures !ok ==> |Idle(old(cache))| <= 1
      ensures (forall i | 0 <= i < NBUF :: old(cache).bufs[i].refcnt == 0) ==> ok
      ensures ok ==> Quiet() && phase == Running && n == 0 && durable == old(durable)
      ensures ok ==> HomeIs(lay, disk, durable, []) && HeaderFits(disk[lay.start]) && HeaderList(disk[lay.start]) == []
    {
      if forall i | 0 <= i < NBUF :: cache.bufs[i].refcnt == 0 { AllIdle(cache); }
      ok := ReadHead();
      if !ok { return; }
      IdleGrows(old(cache), cache);
      ok := InstallAndErase(true);
      if !ok { return; }
      RunningFacts(lay, base, tr, State());
    }
  }
}
