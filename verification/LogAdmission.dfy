/** Admission control of the write-ahead log (begin_op, end_op and log_write in
    kernel/log.c): which operations may be outstanding, how many log blocks they have
    reserved, who sleeps on `&log` and who will wake them. */
module LogAdmission {
  import opened Options

  const NPROC := 64
  const MAXOPBLOCKS := 10
  const LOGSIZE := MAXOPBLOCKS * 3

  /** `block` is lh.block[..lh.n].  `op[t]` tells whether thread t is between begin_op
      and end_op, and how many of its MAXOPBLOCKS it has not used; `asleep` are the
      threads sleeping in begin_op. */
  datatype LogState = LogState(block: seq<nat>, outstanding: int, committing: bool,
                               op: seq<Option<nat>>, asleep: set<nat>)

  function Init(): (s: LogState) {
    LogState([], 0, false, seq(NPROC, i => None), {})
  }

  function CountOps(op: seq<Option<nat>>): (n: nat) {
    if op == [] then 0 else (if op[0].Some? then 1 else 0) + CountOps(op[1..])
  }

  function Unused(op: seq<Option<nat>>): (n: nat) {
    if op == [] then 0 else (if op[0].Some? then op[0].value else 0) + Unused(op[1..])
  }

  function Weight(x: Option<nat>): (n: nat) {
    if x.Some? then x.value else 0
  }

  function One(x: Option<nat>): (n: nat) {
    if x.Some? then 1 else 0
  }

  lemma {:induction false} UpdateOp(op: seq<Option<nat>>, t: nat, x: Option<nat>)
    requires t < |op|
    ensures CountOps(op[t := x]) == CountOps(op) - One(op[t]) + One(x)
    ensures Unused(op[t := x]) == Unused(op) - Weight(op[t]) + Weight(x)
    ensures CountOps(op) >= One(op[t]) && Unused(op) >= Weight(op[t])
  {
    if t == 0 {
      assert op[t := x][1..] == op[1..];
    } else {
      assert op[t := x][1..] == op[1..][t - 1 := x];
      UpdateOp(op[1..], t - 1, x);
    }
  }

  lemma {:induction false} UnusedBound(op: seq<Option<nat>>)
    requires forall i | 0 <= i < |op| :: Weight(op[i]) <= MAXOPBLOCKS
    ensures Unused(op) <= MAXOPBLOCKS * CountOps(op)
  {
    if op != [] {
      UnusedBound(op[1..]);
    }
  }

  // ---------------------------------------------------------------- the operations

  /** One pass of the begin_op loop: sleep, or be admitted. */
  predicate MustSleep(s: LogState) {
    s.committing || |s.block| + (s.outstanding + 1) * MAXOPBLOCKS > LOGSIZE
  }

  function Begin(s: LogState, t: nat): (s': LogState)
    requires t < |s.op|
  {
    if MustSleep(s) then s.(asleep := s.asleep + {t})
    else s.(outstanding := s.outstanding + 1, op := s.op[t := Some(MAXOPBLOCKS)])
  }

  /** "too big a transaction" and "log_write outside of trans" */
  predicate LogWritePanics(s: LogState, size: nat) {
    |s.block| >= LOGSIZE || |s.block| >= size - 1 || s.outstanding < 1
  }

  /** Thread t uses up one of the blocks it has reserved, if it has one. */
  function Spend(op: seq<Option<nat>>, t: nat): (op': seq<Option<nat>>)
    requires t < |op|
  {
    if op[t].Some? && op[t].value > 0 then op[t := Some(op[t].value - 1)] else op
  }

  function LogWrite(s: LogState, t: nat, b: nat): (s': LogState)
    requires t < |s.op|
  {
    if b in s.block then s else s.(block := s.block + [b], op := Spend(s.op, t))
  }

  /** The first critical section of end_op. */
  function End(s: LogState, t: nat): (s': LogState)
    requires t < |s.op|
  {
    var s1 := s.(outstanding := s.outstanding - 1, op := s.op[t := None]);
    if s1.outstanding == 0 then s1.(committing := true) else s1.(asleep := {})
  }

  /** The second critical section of end_op, after commit(). */
  function Finish(s: LogState): (s': LogState) {
    s.(committing := false, asleep := {})
  }

  datatype Event =
    | DoBegin(t: nat)
    | DoLogWrite(t: nat, b: nat)
    | DoEnd(t: nat)
    | DoTruncate            // commit() sets lh.n = 0
    | DoFinish
    | DoKick(t: nat)        // kill() makes a sleeper runnable

  /** What the code does, whether or not operations keep to their budgets. */
  ghost predicate Moves(s: LogState, size: nat, e: Event, s': LogState) {
    match e
    case DoBegin(t) => t < |s.op| && s.op[t].None? && t !in s.asleep && s' == Begin(s, t)
    case DoLogWrite(t, b) =>
      t < |s.op| && !LogWritePanics(s, size) && s' == LogWrite(s, t, b)
    case DoEnd(t) => t < |s.op| && s.op[t].Some? && !s.committing && s' == End(s, t)
    case DoTruncate => s.committing && s' == s.(block := [])
    case DoFinish => s.committing && s.block == [] && s' == Finish(s)
    case DoKick(t) => s' == s.(asleep := s.asleep - {t})
  }

  /** log_write is called within an operation, and adds no more blocks than it has reserved. */
  predicate Budgeted(s: LogState, e: Event) {
    e.DoLogWrite? ==> e.t < |s.op| && s.op[e.t].Some? && (e.b !in s.block ==> s.op[e.t].value > 0)
  }

  ghost predicate Next(s: LogState, size: nat, e: Event, s': LogState) {
    Moves(s, size, e, s') && Budgeted(s, e)
  }

  ghost predicate Reachable(s: LogState, size: nat, steps: nat)
    decreases steps
  {
    if steps == 0 then s == Init()
    else exists p, e :: Reachable(p, size, steps - 1) && Next(p, size, e, s)
  }

  // ---------------------------------------------------------------- the invariant

  /** What holds even if operations log more than they have reserved. */
  ghost predicate Core(s: LogState) {
    && |s.op| == NPROC
    && s.outstanding == CountOps(s.op)
    && (forall i | 0 <= i < NPROC :: Weight(s.op[i]) <= MAXOPBLOCKS)
    && |s.block| <= LOGSIZE
    && (forall i, j | 0 <= i < j < |s.block| :: s.block[i] != s.block[j])
    && (s.committing ==> s.outstanding == 0)
    && (!s.committing && s.outstanding == 0 ==> s.block == [])
    && (s.asleep != {} ==> s.committing || s.outstanding > 0)
  }

  ghost predicate Inv(s: LogState) {
    Core(s) && |s.block| + Unused(s.op) <= LOGSIZE
  }

  lemma {:induction false} AllNone(op: seq<Option<nat>>)
    requires forall i | 0 <= i < |op| :: op[i].None?
    ensures CountOps(op) == 0 && Unused(op) == 0
  {
    if op != [] {
      AllNone(op[1..]);
    }
  }

  lemma InitInv()
    ensures Inv(Init())
  {
    AllNone(Init().op);
  }

  lemma SpendOps(op: seq<Option<nat>>, t: nat)
    requires t < |op|
    ensures |Spend(op, t)| == |op| && CountOps(Spend(op, t)) == CountOps(op)
    ensures Unused(Spend(op, t)) == Unused(op) - if op[t].Some? && op[t].value > 0 then 1 else 0
    ensures forall i | 0 <= i < |op| :: Weight(Spend(op, t)[i]) <= Weight(op[i])
  {
    if op[t].Some? && op[t].value > 0 { UpdateOp(op, t, Some(op[t].value - 1)); }
  }

  lemma MovesKeepsCore(s: LogState, size: nat, e: Event, s': LogState)
    requires Core(s) && Moves(s, size, e, s')
    ensures Core(s')
  {
    match e
    case DoBegin(t) => UpdateOp(s.op, t, Some(MAXOPBLOCKS));
    case DoLogWrite(t, b) => SpendOps(s.op, t);
    case DoEnd(t) => UpdateOp(s.op, t, None);
    case DoTruncate =>
    case DoFinish =>
    case DoKick(t) =>
  }

  lemma NextKeepsInv(s: LogState, size: nat, e: Event, s': LogState)
    requires Inv(s) && Next(s, size, e, s')
    ensures Inv(s')
  {
    MovesKeepsCore(s, size, e, s');
    match e
    case DoBegin(t) =>
      UpdateOp(s.op, t, Some(MAXOPBLOCKS));
      UnusedBound(s.op);
    case DoLogWrite(t, b) => SpendOps(s.op, t);
    case DoEnd(t) => UpdateOp(s.op, t, None);
    case DoTruncate =>
    case DoFinish =>
    case DoKick(t) =>
  }

  /** Log reservation: over all interleavings lh.n plus the unused budgets of the
      outstanding operations is at most LOGSIZE, committing implies that no operation is
      outstanding, an idle log is empty, and whoever sleeps in begin_op has an active
      operation or commit that will wake it. */
  lemma {:induction false} ReservationOverRuns(s: LogState, size: nat, steps: nat)
    requires Reachable(s, size, steps)
    ensures Inv(s)
    decreases steps
  {
    if steps == 0 {
      InitInv();
    } else {
      var p, e :| Reachable(p, size, steps - 1) && Next(p, size, e, s);
      ReservationOverRuns(p, size, steps - 1);
      NextKeepsInv(p, size, e, s);
    }
  }

  lemma AtMostThreeStep(s: LogState, size: nat, e: Event, s': LogState)
    requires s.outstanding <= 3 && Moves(s, size, e, s')
    ensures s'.outstanding <= 3
  {
  }

  lemma {:induction false} AtMostThree(s: LogState, size: nat, steps: nat)
    requires Reachable(s, size, steps)
    ensures s.outstanding <= 3
    decreases steps
  {
    if steps > 0 {
      var p, e :| Reachable(p, size, steps - 1) && Next(p, size, e, s);
      AtMostThree(p, size, steps - 1);
      AtMostThreeStep(p, size, e, s);
    }
  }

  /** Exactly when begin_op makes an operation wait, in every interleaving: during a commit,
      beside three operations, beside two if any block has been logged, and beside one if
      more than ten have.  An idle log admits anyone, and there are never four operations. */
  lemma {:induction false} AdmissionOverRuns(s: LogState, size: nat, steps: nat)
    requires Reachable(s, size, steps)
    ensures 0 <= s.outstanding <= 3
    ensures MustSleep(s) <==>
              || s.committing || s.outstanding == 3
              || (s.outstanding == 2 && |s.block| > 0) || (s.outstanding == 1 && |s.block| > 10)
    ensures s.outstanding == 0 && !s.committing ==> !MustSleep(s)
  {
    ReservationOverRuns(s, size, steps);
    AtMostThree(s, size, steps);
  }

  /** The panic in end_op is unreachable: an operation that has begun and not ended
      keeps the log from committing. */
  lemma EndCannotPanic(s: LogState, t: nat)
    requires Core(s) && t < NPROC && s.op[t].Some?
    ensures !s.committing && s.outstanding >= 1
  {
    UpdateOp(s.op, t, s.op[t]);
  }

  // ---------------------------------------------------------------- when log_write panics

  /** No operation that still has `k` unused blocks can be stopped by the panic in
      log_write, in any reachable state of a log of `size` blocks. */
  ghost predicate SafeWith(k: nat, size: nat) {
    forall s, steps: nat, t | Reachable(s, size, steps) && 0 <= t < NPROC && t < |s.op| && s.op[t].Some? && s.op[t].value >= k ::
      !LogWritePanics(s, size)
  }

  /** Three operations, after `m` distinct blocks have been logged by them in turn. */
  function Full(m: nat): (s: LogState)
    requires m <= LOGSIZE
  {
    LogState(seq(m, i => i), 3, false,
             seq(NPROC, i => None)
               [0 := Some(if m < 10 then 10 - m else 0)]
               [1 := Some(if m <= 10 then 10 else if m < 20 then 20 - m else 0)]
               [2 := Some(if m <= 20 then 10 else 30 - m)],
             {})
  }

  lemma ReachableStep(p: LogState, size: nat, steps: nat, e: Event, s: LogState)
    requires Reachable(p, size, steps) && Next(p, size, e, s)
    ensures Reachable(s, size, steps + 1)
  {
  }

  lemma ThreeAdmitted(size: nat)
    ensures Reachable(Full(0), size, 3)
  {
    var s0 := Init();
    var s1 := Begin(s0, 0);
    var s2 := Begin(s1, 1);
    ReachableStep(s0, size, 0, DoBegin(0), s1);
    ReachableStep(s1, size, 1, DoBegin(1), s2);
    assert Begin(s2, 2).op == Full(0).op;
    ReachableStep(s2, size, 2, DoBegin(2), Full(0));
  }

  lemma LogOneMore(m: nat, size: nat)
    requires 0 < m <= LOGSIZE && m < size
    ensures Next(Full(m - 1), size, DoLogWrite((m - 1) / 10, m - 1), Full(m))
  {
    var s, t := Full(m - 1), (m - 1) / 10;
    assert m - 1 !in s.block;
    assert LogWrite(s, t, m - 1).block == Full(m).block;
    assert t == 0 || t == 1 || t == 2;
    assert LogWrite(s, t, m - 1).op == Full(m).op;
  }

  lemma {:induction false} FullReachable(m: nat, size: nat)
    requires m <= LOGSIZE && m < size
    ensures Reachable(Full(m), size, m + 3)
  {
    if m == 0 {
      ThreeAdmitted(size);
    } else {
      FullReachable(m - 1, size);
      LogOneMore(m, size);
      ReachableStep(Full(m - 1), size, m + 2, DoLogWrite((m - 1) / 10, m - 1), Full(m));
    }
  }

  /** Exactly how much unused budget keeps log_write from panicking.  With the layout
      written by mkfs (nlog = LOGSIZE, so 29 usable log blocks) that is 2 blocks or more:
      admission reserves against LOGSIZE blocks, one more than the disk log can hold. */
  lemma PanicThreshold(k: nat, size: nat)
    requires k <= MAXOPBLOCKS && size >= 1
    ensures SafeWith(k, size) <==> LOGSIZE - k < LOGSIZE && LOGSIZE - k < size - 1
  {
    var ok := LOGSIZE - k < LOGSIZE && LOGSIZE - k < size - 1;
    if ok {
      forall s, steps: nat, t | Reachable(s, size, steps) && 0 <= t < NPROC && t < |s.op| && s.op[t].Some? && s.op[t].value >= k
        ensures !LogWritePanics(s, size)
      {
        ReservationOverRuns(s, size, steps);
        UpdateOp(s.op, t, s.op[t]);
      }
    } else {
      var m := if size - 1 <= LOGSIZE - k then size - 1 else LOGSIZE - k;
      FullReachable(m, size);
      assert Full(m).op[2].value >= k;
      assert LogWritePanics(Full(m), size);
    }
  }

  lemma SafeBudgetOfMkfsLayout()
    ensures SafeWith(2, LOGSIZE) && !SafeWith(1, LOGSIZE)
  {
    PanicThreshold(2, LOGSIZE);
    PanicThreshold(1, LOGSIZE);
  }

  // ---------------------------------------------------------------- struct log

  datatype WriteOutcome = TooBig | OutsideTransaction | Absorbed | Added

  class Log {
    const size: nat
    const block: array<nat>
    var n: nat
    var outstanding: int
    var committing: bool
    ghost var op: seq<Option<nat>>
    ghost var asleep: set<nat>

    ghost predicate Valid()
      reads this
    {
      block.Length == LOGSIZE && n <= LOGSIZE
    }

    ghost function State(): (s: LogState)
      requires Valid()
      reads this, block
    {
      LogState(block[..n], outstanding, committing, op, asleep)
    }

    constructor (size: nat)
      ensures Valid() && fresh(block) && this.size == size
      ensures State() == Init()
    {
      this.size := size;
      block := new nat[LOGSIZE];
      n, outstanding, committing := 0, 0, false;
      op, asleep := seq(NPROC, i => None), {};
    }

    method BeginOp(t: nat) returns (admitted: bool)
      requires Valid() && t < |op|
      modifies this
      ensures Valid() && State() == Begin(old(State()), t)
      ensures admitted <==> !MustSleep(old(State()))
      ensures admitted <==> !old(committing) && old(n) + (old(outstanding) + 1) * MAXOPBLOCKS <= LOGSIZE
      ensures n == old(n) && committing == old(committing) && outstanding == old(outstanding) + if admitted then 1 else 0
    {
      if committing {
        admitted, asleep := false, asleep + {t};
      } else if n + (outstanding + 1) * MAXOPBLOCKS > LOGSIZE {
        admitted, asleep := false, asleep + {t};
      } else {
        admitted, outstanding, op := true, outstanding + 1, op[t := Some(MAXOPBLOCKS)];
      }
    }

    method EndOp(t: nat) returns (doCommit: bool)
      requires Valid() && Core(State()) && t < NPROC && op[t].Some?
      modifies this
      ensures Valid() && State() == End(old(State()), t)
      ensures doCommit <==> outstanding == 0
    {
      doCommit := false;
      outstanding := outstanding - 1;
      op := op[t := None];
      EndCannotPanic(old(State()), t);
      assert !committing;
      if outstanding == 0 {
        doCommit, committing := true, true;
      } else {
        asleep := {};
      }
    }

    method EndCommit()
      requires Valid()
      modifies this
      ensures Valid() && State() == Finish(old(State()))
    {
      committing, asleep := false, {};
    }

    /** log_write; `Added` is the case in which the buffer is pinned. */
    method LogBlock(t: nat, b: nat) returns (r: WriteOutcome)
      requires Valid() && t < |op|
      modifies this, block
      ensures Valid()
      ensures r in {TooBig, OutsideTransaction} <==> LogWritePanics(old(State()), size)
      ensures r == TooBig <==> old(n) >= LOGSIZE || old(n) >= size - 1
      ensures if LogWritePanics(old(State()), size) then State() == old(State())
              else State() == LogWrite(old(State()), t, b) && (r == Added <==> b !in old(State()).block)
    {
      if n >= LOGSIZE || n >= size - 1 {
        return TooBig;
      }
      if outstanding < 1 {
        return OutsideTransaction;
      }
      var i := 0;
      while i < n && block[i] != b
        invariant 0 <= i <= n && b !in block[..i]
      {
        i := i + 1;
      }
      block[i] := b;
      if i == n {
        op := Spend(op, t);
        n := n + 1;
        assert block[..n] == old(block[..n]) + [b];
        return Added;
      }
      assert block[..n] == old(block[..n]);
      return Absorbed;
    }
  }
}
