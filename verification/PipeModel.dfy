/** The pipe of kernel/pipe.c: a ring of bytes with 32-bit counters, and the sections of
    pipewrite and piperead between taking the lock and giving it up, as atomic steps. */
module PipeModel {
  import opened Blocks

  const PIPESIZE := 512

  /** `asleepR` and `asleepW` are the processes asleep on nread and nwrite.  `written` are all
      bytes ever written and `taken` is how many have been consumed; nwrite and nread are
      these numbers modulo 2^32.  `silent` says that bytes have been left behind by a killed
      writer since the readers were last woken. */
  datatype Pipe = Pipe(data: seq<byte>, nread: nat, nwrite: nat, readopen: bool, writeopen: bool,
                       asleepR: set<nat>, asleepW: set<nat>,
                       written: seq<byte>, taken: nat, silent: bool)

  /** How a section of pipewrite ends: asleep because the pipe is full, with the return value
      for what was written, or with -1. */
  datatype WriteEnd = Slept | Returned | Failed

  /** Write: `src` is what the call has still to write.  Bytes from `readable` on cannot be
      copied in, and process p is killed once `killed` of them have been stored. */
  datatype Step =
    | Write(p: nat, src: seq<byte>, readable: nat, killed: nat)
    | ReadSleep(p: nat)
    | Read(k: nat)
    | CloseWrite
    | CloseRead
    | Kill(p: nat)

  // ---------------------------------------------------------------- invariant

  ghost predicate ByteOk(s: Pipe, n: nat)
    requires |s.data| == PIPESIZE
  {
    s.taken <= n < |s.written| ==> s.data[n % PIPESIZE] == s.written[n]
  }

  ghost predicate Inv(s: Pipe) {
    && |s.data| == PIPESIZE && s.taken <= |s.written| <= s.taken + PIPESIZE
    && s.nread == s.taken % UINT32 && s.nwrite == |s.written| % UINT32
    && (forall n: nat :: ByteOk(s, n))
    && (s.asleepW != {} ==> s.asleepR == {} && s.readopen && |s.written| == s.taken + PIPESIZE)
    && (s.asleepR != {} ==> s.writeopen && (|s.written| == s.taken || s.silent))
  }

  // ---------------------------------------------------------------- steps

  /** The ring after bytes `bs` have been stored from position n on. */
  function Stored(data: seq<byte>, n: nat, bs: seq<byte>): (data': seq<byte>)
    requires |data| == PIPESIZE
    ensures |data'| == PIPESIZE
    decreases |bs|
  {
    if bs == [] then data else Stored(data, n, bs[..|bs| - 1])[(n + |bs| - 1) % PIPESIZE := bs[|bs| - 1]]
  }

  /** The pipe once bytes `bs` have been written. */
  function WithBytes(s: Pipe, bs: seq<byte>): (s': Pipe)
    requires |s.data| == PIPESIZE
  {
    s.(data := Stored(s.data, |s.written|, bs), nwrite := (s.nwrite + |bs|) % UINT32, written := s.written + bs)
  }

  /** The pipe once k bytes have been consumed. */
  function Without(s: Pipe, k: nat): (s': Pipe) {
    s.(nread := (s.nread + k) % UINT32, taken := s.taken + k)
  }

  function Min(a: int, b: int): (m: int) {
    if a <= b then a else b
  }

  /** How many bytes can still be stored. */
  function Room(s: Pipe): (n: nat) {
    if |s.written| <= s.taken + PIPESIZE then s.taken + PIPESIZE - |s.written| else 0
  }

  /** How many of n bytes a section of pipewrite stores. */
  function Stop(s: Pipe, n: nat, readable: nat, killed: nat): (k: nat)
    ensures k <= n
  {
    if s.readopen then Min(Min(n, killed), Min(readable, Room(s))) else 0
  }

  /** How the section ends there.  A kill is looked for before a full pipe, and a full pipe
      before the next byte is copied in. */
  function EndOf(s: Pipe, n: nat, readable: nat, killed: nat): (end: WriteEnd) {
    var k := Stop(s, n, readable, killed);
    if k == n then Returned
    else if !s.readopen || k == killed then Failed
    else if k == Room(s) then Slept
    else Returned
  }

  /** What lies ahead of position i of what lies ahead of the start. */
  function Ahead(x: nat, i: nat): (y: nat) {
    if i <= x then x - i else 0
  }

  /** pipewrite's tests, in their order, find the end of the section. */
  lemma GoesOn(s: Pipe, n: nat, readable: nat, killed: nat, k: nat)
    requires |s.written| <= s.taken + PIPESIZE && k <= Stop(s, n, readable, killed) && k < n
    ensures |s.written| + k <= s.taken + PIPESIZE
    ensures var end := if !s.readopen || k >= killed then Failed
                       else if |s.written| + k == s.taken + PIPESIZE then Slept
                       else Returned;
            if end == Returned && k < readable then k < Stop(s, n, readable, killed)
            else k == Stop(s, n, readable, killed) && end == EndOf(s, n, readable, killed)
  {
  }

  /** The bytes that a step puts into the pipe. */
  function Put(s: Pipe, step: Step): (bs: seq<byte>) {
    if step.Write? then step.src[..Stop(s, |step.src|, step.readable, step.killed)] else []
  }

  ghost predicate WriteStep(s: Pipe, s': Pipe, p: nat, bs: seq<byte>, end: WriteEnd) {
    && |s.data| == PIPESIZE && p !in s.asleepR && p !in s.asleepW
    && |s.written| + |bs| <= s.taken + PIPESIZE && (bs != [] ==> s.readopen)
    && var s1 := WithBytes(s, bs);
       match end
       case Slept => s.readopen && |s1.written| == s1.taken + PIPESIZE && s' == s1.(asleepR := {}, asleepW := s.asleepW + {p}, silent := false)
       case Returned => s' == s1.(asleepR := {}, silent := false)
       case Failed => s' == s1.(silent := s.silent || bs != [])
  }

  ghost predicate ReadSleepStep(s: Pipe, s': Pipe, p: nat) {
    && s.nread == s.nwrite && s.writeopen && p !in s.asleepW
    && s' == s.(asleepR := s.asleepR + {p})
  }

  ghost predicate ReadStep(s: Pipe, s': Pipe, k: nat) {
    && s.taken + k <= |s.written|
    && s' == Without(s, k).(asleepW := {})
  }

  ghost predicate Next(s: Pipe, s': Pipe, step: Step) {
    match step
    case Write(p, src, readable, killed) => WriteStep(s, s', p, Put(s, step), EndOf(s, |src|, readable, killed))
    case ReadSleep(p) => ReadSleepStep(s, s', p)
    case Read(k) => ReadStep(s, s', k)
    case CloseWrite => s' == s.(writeopen := false, asleepR := {}, silent := false)
    case CloseRead => s' == s.(readopen := false, asleepW := {})
    case Kill(p) => s' == s.(asleepR := s.asleepR - {p}, asleepW := s.asleepW - {p})
  }

  // ---------------------------------------------------------------- counters

  /** With at most PIPESIZE bytes in the pipe the 32-bit counters tell empty from full, and
      pick the slots of the full positions. */
  lemma Counters(r: nat, w: nat)
    requires r <= w <= r + PIPESIZE
    ensures r % UINT32 == w % UINT32 <==> r == w
    ensures w % UINT32 == (r % UINT32 + PIPESIZE) % UINT32 <==> w == r + PIPESIZE
    ensures w % UINT32 % PIPESIZE == w % PIPESIZE && r % UINT32 % PIPESIZE == r % PIPESIZE
  {
    SlotOf(r);
    SlotOf(w);
    SameResidue(r, w);
    Wrap(r, PIPESIZE);
    SameResidue(w, r + PIPESIZE);
  }

  lemma SameResidue(r: nat, w: nat)
    requires r <= w < r + UINT32
    ensures r % UINT32 == w % UINT32 <==> r == w
  {
    var q, p := r / UINT32, w / UINT32;
    assert r == UINT32 * q + r % UINT32 && w == UINT32 * p + w % UINT32;
  }

  lemma SlotOf(w: nat)
    ensures w % UINT32 % PIPESIZE == w % PIPESIZE
  {
    var q, m := w / UINT32, w % UINT32;
    assert w == UINT32 * q + m;
    assert w == PIPESIZE * (8388608 * q + m / PIPESIZE) + m % PIPESIZE;
  }

  lemma Wrap(a: nat, k: nat)
    ensures (a % UINT32 + k) % UINT32 == (a + k) % UINT32
  {
    var q := a / UINT32;
    assert a + k == UINT32 * q + (a % UINT32 + k);
    ModShift(q, a % UINT32 + k);
  }

  lemma {:induction false} ModShift(q: nat, x: nat)
    ensures (UINT32 * q + x) % UINT32 == x % UINT32
    decreases q
  {
    if q > 0 {
      ModShift(q - 1, x);
      assert UINT32 * q + x == UINT32 * (q - 1) + x + UINT32;
    }
  }

  // ---------------------------------------------------------------- every step keeps the invariant

  /** Positions that are less than a ring apart have different slots. */
  lemma OtherSlot(m: nat, n: nat)
    requires m < n < m + PIPESIZE
    ensures m % PIPESIZE != n % PIPESIZE
  {
  }

  lemma {:induction false} StoredBytes(data: seq<byte>, n: nat, bs: seq<byte>, m: nat)
    requires |data| == PIPESIZE && |bs| <= PIPESIZE && m < n + |bs| <= m + PIPESIZE
    ensures Stored(data, n, bs)[m % PIPESIZE] == if n <= m then bs[m - n] else data[m % PIPESIZE]
    decreases |bs|
  {
    if bs != [] {
      var last := n + |bs| - 1;
      if m < last {
        OtherSlot(m, last);
        StoredBytes(data, n, bs[..|bs| - 1], m);
      }
    }
  }

  lemma WriteKeeps(s: Pipe, s': Pipe, p: nat, bs: seq<byte>, end: WriteEnd)
    requires Inv(s) && WriteStep(s, s', p, bs, end)
    ensures Inv(s')
  {
    Wrap(|s.written|, |bs|);
    forall n: nat ensures ByteOk(s', n) {
      assert ByteOk(s, n);
      if s.taken <= n < |s.written| + |bs| { StoredBytes(s.data, |s.written|, bs, n); }
    }
  }

  lemma StepKeeps(s: Pipe, s': Pipe, step: Step)
    requires Inv(s) && Next(s, s', step)
    ensures Inv(s')
  {
    match step
    case Write(p, src, readable, killed) => WriteKeeps(s, s', p, Put(s, step), EndOf(s, |src|, readable, killed));
    case ReadSleep(p) => ReadSleepKeeps(s, s', p);
    case Read(k) => ReadKeeps(s, s', k);
    case _ => SameBytes(s, s');
  }

  lemma ReadSleepKeeps(s: Pipe, s': Pipe, p: nat)
    requires Inv(s) && ReadSleepStep(s, s', p)
    ensures Inv(s')
  {
    Counters(s.taken, |s.written|);
    SameBytes(s, s');
  }

  lemma ReadKeeps(s: Pipe, s': Pipe, k: nat)
    requires Inv(s) && ReadStep(s, s', k)
    ensures Inv(s')
  {
    Wrap(s.taken, k);
    SameBytes(s, s');
  }

  lemma SameBytes(s: Pipe, s': Pipe)
    requires Inv(s) && s'.data == s.data && s'.written == s.written && s'.taken >= s.taken
    ensures forall n: nat :: ByteOk(s', n)
  {
    forall n: nat ensures ByteOk(s', n) {
      assert ByteOk(s, n);
    }
  }

  // ---------------------------------------------------------------- runs

  ghost predicate Run(ss: seq<Pipe>, steps: seq<Step>) {
    |ss| == |steps| + 1 && forall n | 0 <= n < |steps| :: Next(ss[n], ss[n + 1], steps[n])
  }

  lemma {:induction false} InvOverRuns(ss: seq<Pipe>, steps: seq<Step>, n: nat)
    requires Run(ss, steps) && Inv(ss[0]) && n < |ss|
    ensures Inv(ss[n])
  {
    if n > 0 {
      InvOverRuns(ss, steps, n - 1);
      StepKeeps(ss[n - 1], ss[n], steps[n - 1]);
    }
  }

  /** All bytes that writes have put in, in the order of the run. */
  ghost function Sent(ss: seq<Pipe>, steps: seq<Step>): (bs: seq<byte>)
    requires |ss| == |steps| + 1
    decreases |steps|
  {
    if steps == [] then []
    else
      var m := |steps| - 1;
      Sent(ss[..|ss| - 1], steps[..m]) + Put(ss[m], steps[m])
  }

  /** The bytes that a read step takes out of the ring, one slot after the other. */
  function Slots(data: seq<byte>, r: nat, k: nat): (bs: seq<byte>)
    requires |data| == PIPESIZE
  {
    if k == 0 then [] else Slots(data, r, k - 1) + [data[(r + k - 1) % PIPESIZE]]
  }

  /** All bytes that reads have taken out, in the order of the run. */
  ghost function Received(ss: seq<Pipe>, steps: seq<Step>): (bs: seq<byte>)
    requires |ss| == |steps| + 1 && forall n | 0 <= n < |ss| :: |ss[n].data| == PIPESIZE
    decreases |steps|
  {
    if steps == [] then []
    else
      var m := |steps| - 1;
      Received(ss[..|ss| - 1], steps[..m]) + if steps[m].Read? then Slots(ss[m].data, ss[m].nread, steps[m].k) else []
  }

  lemma {:induction false} SlotsAreWritten(s: Pipe, k: nat)
    requires Inv(s) && s.taken + k <= |s.written|
    ensures Slots(s.data, s.nread, k) == s.written[s.taken..s.taken + k]
    decreases k
  {
    if k > 0 {
      SlotsAreWritten(s, k - 1);
      var n := s.taken + k - 1;
      assert ByteOk(s, n);
      assert (s.nread + k - 1) % PIPESIZE == n % PIPESIZE by { SlotSum(s.taken, k - 1); }
      assert s.written[s.taken..s.taken + k] == s.written[s.taken..n] + [s.written[n]];
    }
  }

  lemma SlotSum(r: nat, k: nat)
    ensures (r % UINT32 + k) % PIPESIZE == (r + k) % PIPESIZE
  {
    var q, m := r / UINT32, r % UINT32;
    assert r == UINT32 * q + m;
    assert r + k == PIPESIZE * (8388608 * q) + (m + k);
  }

  /** First in, first out: in every run the bytes taken out are a prefix of the bytes put in,
      with at most PIPESIZE between them. */
  lemma {:induction false} Fifo(ss: seq<Pipe>, steps: seq<Step>)
    requires Run(ss, steps) && Inv(ss[0]) && ss[0].written == [] && ss[0].taken == 0
    ensures forall n | 0 <= n < |ss| :: |ss[n].data| == PIPESIZE
    ensures var last := ss[|ss| - 1];
            && last.written == Sent(ss, steps) && last.taken <= |Sent(ss, steps)| <= last.taken + PIPESIZE
            && Received(ss, steps) == Sent(ss, steps)[..last.taken]
    decreases |steps|
  {
    DataSizes(ss, steps);
    var m := |steps|;
    InvOverRuns(ss, steps, m);
    if m > 0 {
      RunPrefix(ss, steps, m - 1);
      Fifo(ss[..m], steps[..m - 1]);
      InvOverRuns(ss, steps, m - 1);
      StepLog(ss[m - 1], ss[m], steps[m - 1]);
      FifoStep(ss[m - 1], steps[m - 1], Sent(ss[..m], steps[..m - 1]), Received(ss[..m], steps[..m - 1]));
    }
  }

  lemma DataSizes(ss: seq<Pipe>, steps: seq<Step>)
    requires Run(ss, steps) && Inv(ss[0])
    ensures forall n | 0 <= n < |ss| :: |ss[n].data| == PIPESIZE
  {
    forall n | 0 <= n < |ss| ensures |ss[n].data| == PIPESIZE {
      InvOverRuns(ss, steps, n);
    }
  }

  lemma RunPrefix(ss: seq<Pipe>, steps: seq<Step>, m: nat)
    requires Run(ss, steps) && m < |steps|
    ensures Run(ss[..m + 1], steps[..m]) && Next(ss[m], ss[m + 1], steps[m])
  {
    var ss', steps' := ss[..m + 1], steps[..m];
    forall n | 0 <= n < m ensures Next(ss'[n], ss'[n + 1], steps'[n]) {
      assert Next(ss[n], ss[n + 1], steps[n]);
    }
  }

  /** What a step adds to the bytes written and consumed. */
  lemma StepLog(s: Pipe, s': Pipe, step: Step)
    requires Next(s, s', step)
    ensures s'.written == s.written + Put(s, step)
    ensures s'.taken == s.taken + if step.Read? then step.k else 0
    ensures step.Read? ==> s.taken + step.k <= |s.written|
  {
  }

  lemma FifoStep(s: Pipe, step: Step, sent: seq<byte>, got: seq<byte>)
    requires Inv(s) && s.written == sent && got == sent[..s.taken]
    requires step.Read? ==> s.taken + step.k <= |s.written|
    ensures var sent' := sent + Put(s, step);
            var taken' := s.taken + if step.Read? then step.k else 0;
            taken' <= |sent'| && got + (if step.Read? then Slots(s.data, s.nread, step.k) else []) == sent'[..taken']
  {
    if step.Read? {
      SlotsAreWritten(s, step.k);
      SlicesJoin(sent, s.taken, step.k);
    } else {
      TakeOfSum(sent, Put(s, step), s.taken);
    }
  }

  lemma TakeOfSum(a: seq<byte>, b: seq<byte>, n: nat)
    requires n <= |a|
    ensures (a + b)[..n] == a[..n] && a[..n] + [] == a[..n]
  {
  }

  lemma SlicesJoin(a: seq<byte>, n: nat, k: nat)
    requires n + k <= |a|
    ensures a[..n] + a[n..n + k] == a[..n + k] && a + [] == a
  {
  }

  lemma SliceSnoc(a: seq<byte>, n: nat, m: nat)
    requires n <= m < |a|
    ensures a[n..m] + [a[m]] == a[n..m + 1]
  {
  }

  /** No reader and writer are ever asleep at the same time. */
  lemma NeverBothAsleep(ss: seq<Pipe>, steps: seq<Step>, n: nat)
    requires Run(ss, steps) && Inv(ss[0]) && n < |ss|
    ensures ss[n].asleepR == {} || ss[n].asleepW == {}
  {
    InvOverRuns(ss, steps, n);
  }

  /** Once the writing end is closed no reader sleeps, and none goes to sleep again. */
  lemma {:induction false} NoSleepAfterCloseWrite(ss: seq<Pipe>, steps: seq<Step>, m: nat, n: nat)
    requires Run(ss, steps) && Inv(ss[0]) && m < n < |ss| && steps[m] == CloseWrite
    ensures !ss[n].writeopen && ss[n].asleepR == {}
    ensures n < |steps| ==> !steps[n].ReadSleep?
  {
    assert Next(ss[n - 1], ss[n], steps[n - 1]);
    if m < n - 1 { NoSleepAfterCloseWrite(ss, steps, m, n - 1); }
    InvOverRuns(ss, steps, n);
    if n < |steps| { assert Next(ss[n], ss[n + 1], steps[n]); }
  }

  /** Once the reading end is closed no writer sleeps, nothing is written any more, and
      pipewrite of any bytes at all returns -1. */
  lemma {:induction false} NothingAfterCloseRead(ss: seq<Pipe>, steps: seq<Step>, m: nat, n: nat)
    requires Run(ss, steps) && Inv(ss[0]) && m < n < |ss| && steps[m] == CloseRead
    ensures !ss[n].readopen && ss[n].asleepW == {} && ss[n].written == ss[m].written
    ensures n < |steps| && steps[n].Write? && steps[n].src != [] ==>
              EndOf(ss[n], |steps[n].src|, steps[n].readable, steps[n].killed) == Failed
  {
    assert Next(ss[n - 1], ss[n], steps[n - 1]);
    if m < n - 1 { NothingAfterCloseRead(ss, steps, m, n - 1); }
    InvOverRuns(ss, steps, n);
  }

  /** The writer is killed after it has stored a byte and before anything else stops it. */
  predicate KilledMidWrite(s: Pipe, step: Step) {
    && step.Write? && s.readopen
    && 0 < step.killed < |step.src| && step.killed <= step.readable && step.killed <= Room(s)
  }

  /** That is when pipewrite returns -1 with bytes left behind. */
  lemma FailsMidWrite(s: Pipe, step: Step)
    requires step.Write?
    ensures EndOf(s, |step.src|, step.readable, step.killed) == Failed && Put(s, step) != [] <==> KilledMidWrite(s, step)
  {
  }

  /** As long as no writer is killed mid-call, a sleeping reader has nothing to read, and a
      sleeping writer has no room. */
  lemma {:induction false} SleepersHaveCause(ss: seq<Pipe>, steps: seq<Step>, n: nat)
    requires Run(ss, steps) && Inv(ss[0]) && !ss[0].silent && n < |ss|
    requires forall m | 0 <= m < n :: !KilledMidWrite(ss[m], steps[m])
    ensures !ss[n].silent
    ensures ss[n].asleepR != {} ==> ss[n].writeopen && |ss[n].written| == ss[n].taken
    ensures ss[n].asleepW != {} ==> ss[n].readopen && |ss[n].written| == ss[n].taken + PIPESIZE
  {
    InvOverRuns(ss, steps, n);
    if n > 0 {
      SleepersHaveCause(ss, steps, n - 1);
      assert Next(ss[n - 1], ss[n], steps[n - 1]);
    }
  }

  /** Two steps that do it: a reader goes to sleep, and a writer of two bytes is killed after
      the first. */
  lemma KilledWriterStrandsReader(s: Pipe, s1: Pipe, s2: Pipe, r: nat, p: nat, b: byte, c: byte)
    requires Inv(s) && |s.written| == s.taken && s.writeopen && s.readopen && r !in s.asleepW && p != r
    requires p !in s.asleepR && p !in s.asleepW
    requires Next(s, s1, ReadSleep(r)) && Next(s1, s2, Write(p, [b, c], 2, 1))
    ensures r in s2.asleepR && s2.written == s.written + [b] && s2.taken == s.taken
  {
    assert Put(s1, Write(p, [b, c], 2, 1)) == [b];
  }

  /** A sleeping reader has nothing to read. */
  predicate ReadersHaveCause(s: Pipe) {
    s.asleepR != {} ==> |s.written| == s.taken
  }

  /** A step takes that away exactly if a writer is killed in the middle of it while a reader
      sleeps. */
  lemma StrandsExactly(s: Pipe, s': Pipe, step: Step)
    requires Inv(s) && ReadersHaveCause(s) && Next(s, s', step)
    ensures ReadersHaveCause(s') <==> !(KilledMidWrite(s, step) && s.asleepR != {})
  {
    if step.Write? { FailsMidWrite(s, step); }
    Counters(s.taken, |s.written|);
  }

  /** A write that has come to byte i of n is killed after it has stored another byte, with
      more to write and nothing else to stop it. */
  predicate CutShort(s: Pipe, n: nat, i: nat, readable: nat, killed: nat) {
    s.readopen && i < killed < n && killed <= readable && killed - i <= Room(s)
  }

  /** StrandsExactly, in the terms of a whole call of pipewrite. */
  lemma StrandsAhead(s: Pipe, s': Pipe, p: nat, src: seq<byte>, i: nat, readable: nat, killed: nat)
    requires Inv(s) && i <= |src| && Next(s, s', Write(p, src[i..], Ahead(readable, i), Ahead(killed, i)))
    ensures ReadersHaveCause(s) ==> (!ReadersHaveCause(s') <==> s.asleepR != {} && CutShort(s, |src|, i, readable, killed))
  {
    if ReadersHaveCause(s) { StrandsExactly(s, s', Write(p, src[i..], Ahead(readable, i), Ahead(killed, i))); }
  }

  lemma StoredNext(data: seq<byte>, n: nat, bs: seq<byte>, b: byte)
    requires |data| == PIPESIZE
    ensures Stored(data, n, bs + [b]) == Stored(data, n, bs)[(n + |bs|) % PIPESIZE := b]
  {
    assert (bs + [b])[..|bs|] == bs;
  }

  /** pipewrite's test for a full pipe. */
  lemma FullTest(s: Pipe, bs: seq<byte>)
    requires Inv(s) && |s.written| + |bs| <= s.taken + PIPESIZE
    ensures var s1 := WithBytes(s, bs);
            && (s1.nwrite == (s1.nread + PIPESIZE) % UINT32 <==> |s1.written| == s1.taken + PIPESIZE)
            && s1.nwrite % PIPESIZE == |s1.written| % PIPESIZE
  {
    Wrap(|s.written|, |bs|);
    Counters(s.taken, |s.written| + |bs|);
  }

  lemma WithMore(s: Pipe, bs: seq<byte>, b: byte)
    requires Inv(s) && |s.written| + |bs| < s.taken + PIPESIZE
    ensures var s1 := WithBytes(s, bs);
            WithBytes(s, bs + [b]) == s1.(data := s1.data[s1.nwrite % PIPESIZE := b], nwrite := (s1.nwrite + 1) % UINT32, written := s1.written + [b])
  {
    FullTest(s, bs);
    StoredNext(s.data, |s.written|, bs, b);
    Wrap(s.nwrite + |bs|, 1);
    assert s.written + (bs + [b]) == s.written + bs + [b];
  }

  /** Inv, kept folded. */
  ghost predicate Sound(s: Pipe) {
    forall p | p == s :: Inv(p)
  }

  lemma NoneTaken(s: Pipe)
    requires Sound(s)
    ensures Without(s, 0) == s
  {
    assert Inv(s);
  }

  /** piperead's test for an empty pipe, and the byte it takes. */
  lemma EmptyTest(s: Pipe, k: nat)
    requires Inv(s) && s.taken + k <= |s.written|
    ensures var s1 := Without(s, k);
            && (s1.nread == s1.nwrite <==> s1.taken == |s1.written|)
            && (s1.taken < |s1.written| ==> s1.data[s1.nread % PIPESIZE] == s1.written[s1.taken])
            && Without(s, k + 1) == s1.(nread := (s1.nread + 1) % UINT32, taken := s1.taken + 1)
  {
    Wrap(s.taken, k);
    Wrap(s.nread + k, 1);
    Counters(s.taken + k, |s.written|);
    assert ByteOk(s, s.taken + k);
  }
}
