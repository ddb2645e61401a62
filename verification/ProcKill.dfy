/** What sleep, wakeup and kill do to each other in every interleaving: who can wake a process,
    when a process is marked killed, and when wait() sleeps although it has been killed. */
module ProcKill {
  import opened Options
  import opened ProcMachine
  import opened ProcSafety
  import opened ProcTable

  /** What the invariant says of the processes that a step can concern: a slot that fork is
      building is in use, and a process about to sleep in wait runs. */
  ghost predicate Targets(s: Sys, step: Step)
    requires Sizes(s)
  {
    && (forall q | 0 <= q < NPROC && s.pc[q].WaitDecided? :: s.procs[q].state == RUNNING)
    && (step.SForkFail? || step.SForkParent? || step.SForkRun? ==>
          step.p < NPROC && (Forking(s.pc[step.p]) ==> s.pc[step.p].np < NPROC && s.procs[s.pc[step.p].np].state == USED))
  }

  lemma TargetsOk(initp: nat, s: Sys, step: Step, s': Sys)
    requires Inv(initp, s) && Next(initp, s, step, s')
    ensures Targets(s, step)
  {
    forall q | 0 <= q < NPROC && s.pc[q].WaitDecided? ensures s.procs[q].state == RUNNING {
      assert ThreadOk(initp, s, q);
    }
    if step.SForkFail? || step.SForkParent? || step.SForkRun? {
      assert ForkOk(s, step.p);
    }
  }

  lemma StepAt(initp: nat, ss: seq<Sys>, steps: seq<Step>, k: nat)
    requires Run(initp, ss, steps) && k < |steps|
    ensures Sizes(ss[k]) && Sizes(ss[k + 1]) && Targets(ss[k], steps[k]) && Next(initp, ss[k], steps[k], ss[k + 1])
  {
    InvOverRuns(initp, ss, steps, k);
    InvOverRuns(initp, ss, steps, k + 1);
    assert Takes(initp, ss, steps, k + 1);
    TargetsOk(initp, ss[k], steps[k], ss[k + 1]);
  }

  lemma SizesAt(initp: nat, ss: seq<Sys>, steps: seq<Step>, k: nat)
    requires Run(initp, ss, steps) && k < |ss|
    ensures Sizes(ss[k])
  {
    InvOverRuns(initp, ss, steps, k);
  }

  // ---------------------------------------------------------------- waking

  /** The step wakes process q: a kill, or a wakeup on the channel q sleeps on. */
  ghost predicate Wakes(initp: nat, s: Sys, step: Step, q: nat)
    requires Sizes(s) && q < NPROC
  {
    match step
    case SKill(x) => x == q
    case SWakeOther(x, c) => x == q && s.procs[q].chan == OtherChan(c)
    case SWakeInit(p) => p < NPROC && s.pc[p].ExitWakeInit? && s.pc[p].j == q && s.procs[q].chan == ProcChan(initp)
    case SWakeParent(p) =>
      && p < NPROC && s.pc[p].ExitWakeParent? && s.pc[p].j == q
      && s.procs[p].parent.Some? && s.procs[q].chan == ProcChan(s.procs[p].parent.value)
    case _ => false
  }

  lemma SleeperStep(initp: nat, s: Sys, step: Step, s': Sys, q: nat)
    requires Sizes(s) && Targets(s, step) && Next(initp, s, step, s') && Sizes(s')
    requires q < NPROC && s.procs[q].state == SLEEPING
    ensures s'.procs[q].state == if Wakes(initp, s, step, q) then RUNNABLE else SLEEPING
    ensures s'.procs[q].chan == s.procs[q].chan && s'.pc[q] == s.pc[q]
  {
  }

  /** A sleeping process goes on sleeping, on the same channel, until a kill of it or a wakeup
      on that channel; then it is runnable. */
  lemma NoSpuriousWakeup(initp: nat, ss: seq<Sys>, steps: seq<Step>, k: nat, q: nat)
    requires Run(initp, ss, steps) && k < |steps| && q < NPROC && Sizes(ss[k]) && Sizes(ss[k + 1])
    requires ss[k].procs[q].state == SLEEPING
    ensures ss[k + 1].procs[q].state == if Wakes(initp, ss[k], steps[k], q) then RUNNABLE else SLEEPING
    ensures ss[k + 1].procs[q].chan == ss[k].procs[q].chan
  {
    StepAt(initp, ss, steps, k);
    SleeperStep(initp, ss[k], steps[k], ss[k + 1], q);
  }

  // ---------------------------------------------------------------- killing

  /** Right after a kill of q, q is marked and is not asleep; a process that was not asleep
      keeps its state, and nothing else changes. */
  lemma KillWakes(initp: nat, ss: seq<Sys>, steps: seq<Step>, k: nat, q: nat)
    requires Run(initp, ss, steps) && k < |steps| && steps[k] == SKill(q)
    ensures q < NPROC && Sizes(ss[k]) && Sizes(ss[k + 1])
    ensures var x, y := ss[k].procs[q], ss[k + 1].procs[q];
            && y.killed && y.state != SLEEPING && y.state == (if x.state == SLEEPING then RUNNABLE else x.state)
            && y.chan == x.chan && y.parent == x.parent && y.pid == x.pid && y.xstate == x.xstate
    ensures forall i | 0 <= i < NPROC && i != q :: ss[k + 1].procs[i] == ss[k].procs[i]
    ensures ss[k + 1].pc == ss[k].pc && ss[k + 1].waitLock == ss[k].waitLock
  {
    StepAt(initp, ss, steps, k);
  }

  /** The step frees slot q: fork undoes its allocation, or wait reaps a zombie. */
  ghost predicate Frees(s: Sys, step: Step, q: nat)
    requires Sizes(s) && q < NPROC
  {
    match step
    case SForkFail(p) => p < NPROC && s.pc[p] == ForkAllocated(q)
    case SScan(p, copied) =>
      copied && p < NPROC && s.pc[p].WaitScan? && s.pc[p].k == q && Child(s, q, p) && s.procs[q].state == ZOMBIE
    case _ => false
  }

  lemma KilledStep(initp: nat, s: Sys, step: Step, s': Sys, q: nat)
    requires Sizes(s) && Next(initp, s, step, s') && q < NPROC
    ensures Sizes(s') && (s'.procs[q].killed <==> step == SKill(q) || (s.procs[q].killed && !Frees(s, step, q)))
  {
  }

  lemma KilledAt(initp: nat, ss: seq<Sys>, steps: seq<Step>, k: nat, next: nat, q: nat)
    requires Run(initp, ss, steps) && next == k + 1 < |ss| && q < NPROC
    ensures Sizes(ss[k]) && Sizes(ss[next])
    ensures ss[next].procs[q].killed <==> steps[k] == SKill(q) || (ss[k].procs[q].killed && !Frees(ss[k], steps[k], q))
  {
    StepAt(initp, ss, steps, k);
    KilledStep(initp, ss[k], steps[k], ss[next], q);
  }

  /** Step j killed what is in slot q, which has not been freed between then and state k. */
  ghost predicate KilledSince(ss: seq<Sys>, steps: seq<Step>, q: nat, j: nat, k: nat)
    requires j < k < |ss| == |steps| + 1 && q < NPROC
  {
    steps[j] == SKill(q) && forall m | j < m < k :: Sizes(ss[m]) && !Frees(ss[m], steps[m], q)
  }

  /** A slot is marked exactly if it has been killed since it was last freed. */
  lemma {:induction false} KilledIff(initp: nat, ss: seq<Sys>, steps: seq<Step>, k: nat, q: nat)
    requires Run(initp, ss, steps) && k < |ss| && q < NPROC
    ensures Sizes(ss[k])
    ensures ss[k].procs[q].killed <==> exists j :: 0 <= j < k && KilledSince(ss, steps, q, j, k)
  {
    SizesAt(initp, ss, steps, k);
    if k == 0 {
      assert Takes(initp, ss, steps, 0);
    } else {
      KilledIff(initp, ss, steps, k - 1, q);
      KilledAt(initp, ss, steps, k - 1, k, q);
      if steps[k - 1] == SKill(q) {
        assert KilledSince(ss, steps, q, k - 1, k);
      } else if ss[k].procs[q].killed {
        var j :| 0 <= j < k - 1 && KilledSince(ss, steps, q, j, k - 1);
        assert KilledSince(ss, steps, q, j, k);
      } else if j :| 0 <= j < k && KilledSince(ss, steps, q, j, k) {
        assert j < k - 1 && KilledSince(ss, steps, q, j, k - 1);
      }
    }
  }

  /** freeproc leaves nothing behind: in every run an unused slot has no pid, parent, channel
      or status, and the slots with a pid are exactly those in use. */
  lemma {:induction false} BlankSlots(initp: nat, ss: seq<Sys>, steps: seq<Step>, k: nat, q: nat)
    requires Run(initp, ss, steps) && k < |ss| && q < NPROC
    ensures Sizes(ss[k]) && (ss[k].procs[q].pid > 0 <==> ss[k].procs[q].state != UNUSED)
    ensures ss[k].procs[q].state == UNUSED ==> Blank(ss[k].procs[q])
  {
    InvOverRuns(initp, ss, steps, k);
    if k == 0 {
      assert Takes(initp, ss, steps, 0);
    } else {
      BlankSlots(initp, ss, steps, k - 1, q);
      BlankAt(initp, ss, steps, k - 1, k, q);
    }
  }

  ghost predicate Blank(x: Proc) {
    x == Proc(UNUSED, NoChan, None, x.killed, 0, 0)
  }

  lemma BlankAt(initp: nat, ss: seq<Sys>, steps: seq<Step>, k: nat, next: nat, q: nat)
    requires Run(initp, ss, steps) && next == k + 1 < |ss| && q < NPROC && Sizes(ss[k]) && Sizes(ss[next])
    requires ss[k].procs[q].state == UNUSED ==> Blank(ss[k].procs[q])
    ensures ss[next].procs[q].state == UNUSED ==> Blank(ss[next].procs[q])
  {
    StepAt(initp, ss, steps, k);
    BlankStep(initp, ss[k], steps[k], ss[next], q);
  }

  lemma BlankStep(initp: nat, s: Sys, step: Step, s': Sys, q: nat)
    requires Sizes(s) && Targets(s, step) && Next(initp, s, step, s') && Sizes(s') && q < NPROC
    requires s.procs[q].state == UNUSED ==> Blank(s.procs[q])
    ensures s'.procs[q].state == UNUSED ==> Blank(s'.procs[q])
  {
  }

  // ---------------------------------------------------------------- killed and asleep in wait

  /** Process q sleeps in wait, or is past its test of p->killed. */
  ghost predicate Committed(s: Sys, q: nat)
    requires Sizes(s) && q < NPROC
  {
    s.pc[q].WaitDecided? || SleepsInWait(s, q)
  }

  /** Step j killed q between its test of p->killed and its call of sleep, and it has been in
      wait ever since. */
  ghost predicate KillMissed(ss: seq<Sys>, steps: seq<Step>, q: nat, j: nat, k: nat)
    requires j < k < |ss| == |steps| + 1 && q < NPROC
  {
    && steps[j] == SKill(q) && Sizes(ss[j]) && ss[j].pc[q].WaitDecided?
    && forall m | j < m <= k :: Sizes(ss[m]) && Committed(ss[m], q)
  }

  lemma CommittedStep(initp: nat, s: Sys, step: Step, s': Sys, q: nat)
    requires Sizes(s) && Targets(s, step) && Next(initp, s, step, s') && Sizes(s') && q < NPROC && Committed(s', q)
    ensures s'.procs[q].killed ==>
              (Committed(s, q) && s.procs[q].killed) || (s.pc[q].WaitDecided? && step == SKill(q))
    ensures Committed(s, q) && s.procs[q].killed ==> s'.procs[q].killed
  {
    KilledStep(initp, s, step, s', q);
  }

  lemma CommittedAt(initp: nat, ss: seq<Sys>, steps: seq<Step>, k: nat, next: nat, q: nat)
    requires Run(initp, ss, steps) && next == k + 1 < |ss| && q < NPROC && Sizes(ss[next]) && Committed(ss[next], q)
    ensures Sizes(ss[k])
    ensures ss[next].procs[q].killed ==>
              (Committed(ss[k], q) && ss[k].procs[q].killed) || (ss[k].pc[q].WaitDecided? && steps[k] == SKill(q))
    ensures Committed(ss[k], q) && ss[k].procs[q].killed ==> ss[next].procs[q].killed
  {
    StepAt(initp, ss, steps, k);
    CommittedStep(initp, ss[k], steps[k], ss[next], q);
  }

  /** A process sleeps in wait although it has been killed exactly if the kill came after it
      tested p->killed and before it slept. */
  lemma {:induction false} KilledSleeper(initp: nat, ss: seq<Sys>, steps: seq<Step>, k: nat, q: nat)
    requires Run(initp, ss, steps) && k < |ss| && q < NPROC && Sizes(ss[k]) && Committed(ss[k], q)
    ensures ss[k].procs[q].killed <==> exists j :: 0 <= j < k && KillMissed(ss, steps, q, j, k)
  {
    if k == 0 {
      assert Takes(initp, ss, steps, 0);
    } else {
      CommittedAt(initp, ss, steps, k - 1, k, q);
      if Committed(ss[k - 1], q) { KilledSleeper(initp, ss, steps, k - 1, q); }
      if ss[k].procs[q].killed {
        if Committed(ss[k - 1], q) && ss[k - 1].procs[q].killed {
          var j :| 0 <= j < k - 1 && KillMissed(ss, steps, q, j, k - 1);
          assert KillMissed(ss, steps, q, j, k);
        } else {
          assert KillMissed(ss, steps, q, k - 1, k);
        }
      } else if j :| 0 <= j < k && KillMissed(ss, steps, q, j, k) {
        if j == k - 1 {
          KilledAt(initp, ss, steps, j, k, q);
        } else {
          assert KillMissed(ss, steps, q, j, k - 1);
        }
      }
    }
  }

  // ---------------------------------------------------------------- examples

  lemma Go(tr: Trace, s: Sys, step: Step, s1: Sys) returns (tr': Trace, s': Sys)
    requires RunsTo(0, tr, s) && Sizes(s) && Next(0, s, step, s1)
    ensures RunsTo(0, tr', s') && s' == s1
  {
    tr' := Extend(0, tr, s, step, s1);
    s' := s1;
  }

  /** init has been scheduled, and slot 1 killed if asked for. */
  lemma Booted(kill: bool) returns (tr: Trace, s: Sys)
    ensures RunsTo(0, tr, s) && Sizes(s) && s.procs[0] == Proc(RUNNING, NoChan, None, false, 1, 0) && s.pc[0] == Outside
    ensures s.procs[1] == Proc(UNUSED, NoChan, None, kill, 0, 0) && s.waitLock.None?
    ensures forall i | 1 < i < NPROC :: s.procs[i].parent.None?
  {
    var blank := Proc(UNUSED, NoChan, None, false, 0, 0);
    s := Sys(seq(NPROC, _ => blank)[0 := Proc(RUNNABLE, NoChan, None, false, 1, 0)], seq(NPROC, _ => NoThread)[0 := Outside],
             None, 2, map[], []);
    tr := Trace([s], []);
    assert Takes(0, tr.ss, tr.steps, 0);
    var s1 := s.(procs := s.procs[0 := s.procs[0].(state := RUNNING)]);
    tr, s := Go(tr, s, SSched(0), s1);
    if kill {
      var s2 := s.(procs := s.procs[1 := KillOne(s.procs[1])]);
      tr, s := Go(tr, s, SKill(1), s2);
    }
  }

  /** init forks a child, in slot 1. */
  lemma Forked(kill: bool) returns (tr: Trace, s: Sys)
    ensures RunsTo(0, tr, s) && Sizes(s) && s.procs[0] == Proc(RUNNING, NoChan, None, false, 1, 0) && s.pc[0] == Outside
    ensures s.procs[1].state == RUNNABLE && s.procs[1].parent == Some(0) && s.procs[1].killed == kill && s.waitLock.None?
    ensures forall i | 1 < i < NPROC :: s.procs[i].parent.None?
  {
    tr, s := Booted(kill);
    var s1 := s.(procs := s.procs[1 := s.procs[1].(state := USED, pid := s.nextpid)], pc := s.pc[0 := ForkAllocated(1)],
                 nextpid := s.nextpid + 1);
    tr, s := Go(tr, s, SForkAlloc(0, 1), s1);
    var s2 := s.(procs := s.procs[1 := s.procs[1].(parent := Some(0))], pc := s.pc[0 := ForkParented(1)]);
    tr, s := Go(tr, s, SForkParent(0), s2);
    var s3 := s.(procs := s.procs[1 := s.procs[1].(state := RUNNABLE)], pc := s.pc[0 := Outside][1 := Outside]);
    tr, s := Go(tr, s, SForkRun(0), s3);
  }

  /** kill(0) marks an unused slot, and the mark is still there when fork uses the slot: a
      process can be killed before it exists. */
  lemma BornKilled() returns (tr: Trace, s: Sys)
    ensures RunsTo(0, tr, s) && Sizes(s) && s.procs[1].state == RUNNABLE && s.procs[1].killed
  {
    tr, s := Forked(true);
  }

  /** A process that has been killed can sleep in wait. */
  lemma KilledAsleep() returns (tr: Trace, s: Sys)
    ensures RunsTo(0, tr, s) && Sizes(s) && SleepsInWait(s, 0) && s.procs[0].killed && s.waitLock.None?
  {
    tr, s := Forked(false);
    var s1 := s.(waitLock := Some(0), pc := s.pc[0 := WaitScan(0, false)]);
    tr, s := Go(tr, s, SWaitStart(0), s1);
    var k := 0;
    while k < NPROC
      invariant 0 <= k <= NPROC && RunsTo(0, tr, s) && Sizes(s) && s.procs == s1.procs && s.pc[0] == WaitScan(k, k > 1)
    {
      var s2 := s.(pc := s.pc[0 := WaitScan(k + 1, k + 1 > 1)]);
      tr, s := Go(tr, s, SScan(0, true), s2);
      k := k + 1;
    }
    var s3 := s.(pc := s.pc[0 := WaitDecided]);
    tr, s := Go(tr, s, SWaitEnd(0), s3);
    var s4 := s.(procs := s.procs[0 := KillOne(s.procs[0])]);
    tr, s := Go(tr, s, SKill(0), s4);
    var s5 := s.(procs := s.procs[0 := s.procs[0].(state := SLEEPING, chan := ProcChan(0))], pc := s.pc[0 := WaitSleep],
                 waitLock := None);
    tr, s := Go(tr, s, SWaitSleep(0), s5);
  }
}
