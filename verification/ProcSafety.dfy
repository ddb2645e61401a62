/** No exit is lost: the invariant of the process machine over every interleaving. */
module ProcSafety {
  import opened Options
  import opened ProcMachine

  lemma StartInv(initp: nat, s: Sys)
    requires Start(initp, s)
    ensures Inv(initp, s)
  {
  }

  // ---------------------------------------------------------------- frames

  /** Nothing that PidsOk looks at has changed, but nextpid may have grown. */
  ghost predicate SamePids(s: Sys, s': Sys) {
    && Sizes(s) && Sizes(s')
    && (forall i | 0 <= i < NPROC ::
          && s'.procs[i].pid == s.procs[i].pid && s'.procs[i].xstate == s.procs[i].xstate
          && (s'.procs[i].state == UNUSED <==> s.procs[i].state == UNUSED)
          && (s'.procs[i].state == ZOMBIE <==> s.procs[i].state == ZOMBIE))
    && s'.nextpid >= s.nextpid && s'.exited == s.exited && s'.reaped == s.reaped
  }

  lemma PidsFrame(s: Sys, s': Sys)
    requires SamePids(s, s') && PidsOk(s)
    ensures PidsOk(s')
  {
    forall pid | pid in s'.exited ensures pid < s'.nextpid && Accounted(s', pid) {
      assert Accounted(s, pid);
      if i :| 0 <= i < NPROC && s.procs[i].state == ZOMBIE && s.procs[i].pid == pid {
        assert s'.procs[i].state == ZOMBIE && s'.procs[i].pid == pid;
      }
    }
  }

  /** Family relations are as before: who is whose child, who lives, who is a zombie. */
  ghost predicate SameFamily(s: Sys, s': Sys) {
    && Sizes(s) && Sizes(s')
    && forall i | 0 <= i < NPROC ::
         && s'.procs[i].parent == s.procs[i].parent
         && s'.procs[i].Alive() == s.procs[i].Alive()
         && (s'.procs[i].state == USED <==> s.procs[i].state == USED)
         && (s'.procs[i].state == ZOMBIE <==> s.procs[i].state == ZOMBIE)
  }

  /** Process q has the same children, and the same of them are zombies. */
  ghost predicate SameChildren(s: Sys, s': Sys, q: nat) {
    && Sizes(s) && Sizes(s')
    && forall i | 0 <= i < NPROC ::
         && Child(s', i, q) == Child(s, i, q)
         && (Child(s, i, q) ==> (s'.procs[i].state == ZOMBIE <==> s.procs[i].state == ZOMBIE))
  }

  /** Nobody has gone to sleep in wait. */
  ghost predicate NoNewSleepers(s: Sys, s': Sys)
    requires Sizes(s) && Sizes(s')
  {
    forall q | 0 <= q < NPROC && SleepsInWait(s', q) :: SleepsInWait(s, q)
  }

  lemma ParentFrame(s: Sys, s': Sys, i: nat)
    requires SameFamily(s, s') && i < NPROC && ParentOk(s, i)
    ensures ParentOk(s', i)
  {
  }

  lemma ScanFrame(s: Sys, s': Sys, p: nat)
    requires p < NPROC && SameChildren(s, s', p) && NoNewSleepers(s, s') && ScanOk(s, p)
    requires s'.pc[p] == s.pc[p] && s'.procs[p].parent == s.procs[p].parent
    ensures ScanOk(s', p)
  {
    match s.pc[p]
    case ExitWakeParent(j) =>
      forall q | 0 <= q < j && q < NPROC && Child(s', p, q) ensures !SleepsInWait(s', q) {
        assert Child(s, p, q);
      }
    case WaitScan(k, havekids) =>
      if i :| 0 <= i < k && i < NPROC && Child(s, i, p) {
        assert Child(s', i, p);
      }
    case WaitDecided =>
      var i :| 0 <= i < NPROC && Child(s, i, p);
      assert Child(s', i, p);
    case _ =>
  }

  lemma ForkFrame(s: Sys, s': Sys, i: nat)
    requires SameFamily(s, s') && i < NPROC && ForkOk(s, i)
    requires forall j | 0 <= j < NPROC :: s'.pc[j] == s.pc[j] || (!Forking(s'.pc[j]) && !Forking(s.pc[j]))
    ensures ForkOk(s', i)
  {
  }

  lemma ForksFrame(s: Sys, s': Sys)
    requires Sizes(s) && Sizes(s')
    requires forall i | 0 <= i < NPROC && Forking(s'.pc[i]) :: Forking(s.pc[i]) && s'.pc[i].np == s.pc[i].np
    requires forall i, j | 0 <= i < NPROC && 0 <= j < NPROC :: ForksDiffer(s, i, j)
    ensures forall i, j | 0 <= i < NPROC && 0 <= j < NPROC :: ForksDiffer(s', i, j)
  {
    forall i, j | 0 <= i < NPROC && 0 <= j < NPROC ensures ForksDiffer(s', i, j) {
      assert ForksDiffer(s, i, j);
    }
  }

  lemma WaiterFrame(initp: nat, s: Sys, s': Sys, q: nat)
    requires q < NPROC && SameChildren(s, s', q) && NoNewSleepers(s, s') && WaiterOk(initp, s, q)
    requires initp < NPROC
    requires InitWillWake(initp, s) ==> InitWillWake(initp, s') || !SleepsInWait(s', initp)
    ensures WaiterOk(initp, s', q)
  {
    if SleepsInWait(s', q) {
      assert SleepsInWait(s, q);
      if i :| 0 <= i < NPROC && Child(s', i, q) && s'.procs[i].state == ZOMBIE {
        assert Child(s, i, q) && s.procs[i].state == ZOMBIE;
      }
      var i :| 0 <= i < NPROC && Child(s, i, q);
      assert Child(s', i, q);
    }
  }

  /** Steps that only move a living process between sleeping, runnable and running. */
  lemma StateChange(initp: nat, s: Sys, s': Sys)
    requires Inv(initp, s) && SameFamily(s, s') && SamePids(s, s') && NoNewSleepers(s, s')
    requires s'.pc == s.pc && s'.waitLock == s.waitLock
    requires forall i | 0 <= i < NPROC :: ThreadOk(initp, s', i)
    ensures Inv(initp, s')
  {
    PidsFrame(s, s');
    forall i | 0 <= i < NPROC ensures ForkOk(s', i) && ParentOk(s', i) && ScanOk(s', i) && WaiterOk(initp, s', i) {
      assert ForkOk(s, i) && ParentOk(s, i) && ScanOk(s, i) && WaiterOk(initp, s, i);
      ForkFrame(s, s', i);
      ParentFrame(s, s', i);
      assert SameChildren(s, s', i);
      ScanFrame(s, s', i);
      WaiterFrame(initp, s, s', i);
    }
    ForksFrame(s, s');
  }

  // ---------------------------------------------------------------- scheduling

  /** What a section under one p->lock may do to a process of another thread. */
  ghost predicate MayBecome(s: Sys, p: nat, x: Proc)
    requires Sizes(s) && p < NPROC
  {
    var was := s.procs[p];
    && x.parent == was.parent && x.pid == was.pid && x.xstate == was.xstate
    && x.Alive() == was.Alive() && (!x.Alive() ==> x.state == was.state)
    && (x.state == SLEEPING ==> (x.chan.OtherChan? && s.pc[p].Outside?) || (was.state == SLEEPING && x.chan == was.chan))
    && (s.pc[p].HoldsWaitLock() ==> x.state == RUNNING)
  }

  lemma ChangeOne(initp: nat, s: Sys, p: nat, x: Proc, s': Sys)
    requires Inv(initp, s) && p < NPROC && MayBecome(s, p, x)
    requires s' == s.(procs := s.procs[p := x])
    ensures Inv(initp, s')
  {
    forall i | 0 <= i < NPROC ensures ThreadOk(initp, s', i) {
      assert ThreadOk(initp, s, i);
    }
    StateChange(initp, s, s');
  }

  lemma ScheduleKeeps(initp: nat, s: Sys, step: Step, s': Sys)
    requires step.SSched? || step.SYield? || step.SSleepOther? || step.SWakeOther? || step.SResume? || step.SKill?
    requires Inv(initp, s) && Next(initp, s, step, s')
    ensures Inv(initp, s')
  {
    var p := if step.SWakeOther? || step.SKill? then step.q else step.p;
    assert ThreadOk(initp, s, p);
    ChangeOne(initp, s, p, s'.procs[p], s');
  }

  // ---------------------------------------------------------------- fork

  lemma ForkFailKeeps(initp: nat, s: Sys, p: nat, s': Sys)
    requires Inv(initp, s) && ForkFailStep(s, p, s')
    ensures Inv(initp, s')
  {
    var np := s.pc[p].np;
    assert ForkOk(s, p) && ThreadOk(initp, s, p) && ThreadOk(initp, s, np);
    forall i | 0 <= i < NPROC ensures ThreadOk(initp, s', i) && ForkOk(s', i) && ParentOk(s', i) {
      assert ThreadOk(initp, s, i) && ForkOk(s, i) && ParentOk(s, i) && ForksDiffer(s, i, p);
    }
    ForkFailScans(initp, s, p, s');
    ForksFrame(s, s');
    UnusedPids(s, np, s');
  }

  lemma ForkFailScans(initp: nat, s: Sys, p: nat, s': Sys)
    requires Inv(initp, s) && ForkFailStep(s, p, s')
    ensures forall i | 0 <= i < NPROC :: ScanOk(s', i) && WaiterOk(initp, s', i)
  {
    var np := s.pc[p].np;
    assert ForkOk(s, p) && ThreadOk(initp, s, p) && ThreadOk(initp, s, np);
    forall i | 0 <= i < NPROC ensures ScanOk(s', i) && WaiterOk(initp, s', i) {
      assert ScanOk(s, i) && WaiterOk(initp, s, i);
      assert SameChildren(s, s', i);
      if i != p && i != np {
        ScanFrame(s, s', i);
      }
      WaiterFrame(initp, s, s', i);
    }
  }

  lemma UnusedPids(s: Sys, np: nat, s': Sys)
    requires Sizes(s) && Sizes(s') && PidsOk(s) && np < NPROC && s.procs[np].state == USED
    requires s'.procs == s.procs[np := Freed(s.procs[np])]
    requires s'.nextpid == s.nextpid && s'.exited == s.exited && s'.reaped == s.reaped
    ensures PidsOk(s')
  {
    forall pid | pid in s'.exited ensures pid < s'.nextpid && Accounted(s', pid) {
      assert Accounted(s, pid);
      if i :| 0 <= i < NPROC && s.procs[i].state == ZOMBIE && s.procs[i].pid == pid {
        assert s'.procs[i].state == ZOMBIE && s'.procs[i].pid == pid;
      }
    }
  }

  lemma ForkAllocKeeps(initp: nat, s: Sys, p: nat, np: nat, s': Sys)
    requires Inv(initp, s) && ForkAllocStep(s, p, np, s')
    ensures Inv(initp, s')
  {
    assert ThreadOk(initp, s, np) && ThreadOk(initp, s, p);
    forall i | 0 <= i < NPROC ensures ThreadOk(initp, s', i) && ForkOk(s', i) && ParentOk(s', i) {
      assert ThreadOk(initp, s, i) && ForkOk(s, i) && ParentOk(s, i);
    }
    ForkAllocScans(initp, s, p, np, s');
    forall i, j | 0 <= i < NPROC && 0 <= j < NPROC ensures ForksDiffer(s', i, j) {
      assert ForksDiffer(s, i, j) && ForkOk(s, i) && ForkOk(s, j);
    }
    AllocPids(s, np, s');
  }

  lemma ForkAllocScans(initp: nat, s: Sys, p: nat, np: nat, s': Sys)
    requires Inv(initp, s) && ForkAllocStep(s, p, np, s')
    ensures forall i | 0 <= i < NPROC :: ScanOk(s', i) && WaiterOk(initp, s', i)
  {
    assert ThreadOk(initp, s, np) && ThreadOk(initp, s, p);
    forall i | 0 <= i < NPROC ensures ScanOk(s', i) && WaiterOk(initp, s', i) {
      assert ScanOk(s, i) && WaiterOk(initp, s, i);
      assert SameChildren(s, s', i);
      if i != p {
        ScanFrame(s, s', i);
      }
      WaiterFrame(initp, s, s', i);
    }
  }

  lemma AllocPids(s: Sys, np: nat, s': Sys)
    requires Sizes(s) && Sizes(s') && PidsOk(s) && np < NPROC && s.procs[np].state == UNUSED && s.nextpid > 0
    requires s'.procs == s.procs[np := s.procs[np].(state := USED, pid := s.nextpid)]
    requires s'.nextpid == s.nextpid + 1 && s'.exited == s.exited && s'.reaped == s.reaped
    ensures PidsOk(s')
  {
    forall pid | pid in s'.exited ensures pid < s'.nextpid && Accounted(s', pid) {
      assert Accounted(s, pid);
      if i :| 0 <= i < NPROC && s.procs[i].state == ZOMBIE && s.procs[i].pid == pid {
        assert s'.procs[i].state == ZOMBIE && s'.procs[i].pid == pid;
      }
    }
  }

  lemma ForkParentKeeps(initp: nat, s: Sys, p: nat, s': Sys)
    requires Inv(initp, s) && ForkParentStep(s, p, s')
    ensures Inv(initp, s')
  {
    var np := s.pc[p].np;
    assert ForkOk(s, p) && ThreadOk(initp, s, p) && ThreadOk(initp, s, np);
    forall i | 0 <= i < NPROC ensures ThreadOk(initp, s', i) && ForkOk(s', i) && ParentOk(s', i) {
      assert ThreadOk(initp, s, i) && ForkOk(s, i) && ParentOk(s, i) && ForksDiffer(s, i, p);
    }
    ForkParentScans(initp, s, p, s');
    ForksFrame(s, s');
    PidsFrame(s, s');
  }

  lemma ForkParentScans(initp: nat, s: Sys, p: nat, s': Sys)
    requires Inv(initp, s) && ForkParentStep(s, p, s')
    ensures forall i | 0 <= i < NPROC :: ScanOk(s', i) && WaiterOk(initp, s', i)
  {
    var np := s.pc[p].np;
    assert ForkOk(s, p) && ThreadOk(initp, s, p) && ThreadOk(initp, s, np);
    forall i | 0 <= i < NPROC ensures ScanOk(s', i) && WaiterOk(initp, s', i) {
      assert ScanOk(s, i) && WaiterOk(initp, s, i) && ThreadOk(initp, s, i);
      if i != p {
        assert SameChildren(s, s', i);
        if i != np {
          ScanFrame(s, s', i);
        }
        WaiterFrame(initp, s, s', i);
      }
    }
  }

  lemma ForkRunKeeps(initp: nat, s: Sys, p: nat, s': Sys)
    requires Inv(initp, s) && ForkRunStep(s, p, s')
    ensures Inv(initp, s')
  {
    ForkRunThreads(initp, s, p, s');
    ForkRunScans(initp, s, p, s');
    ForksFrame(s, s');
    assert ForkOk(s, p);
    PidsFrame(s, s');
  }

  lemma ForkRunThreads(initp: nat, s: Sys, p: nat, s': Sys)
    requires Inv(initp, s) && ForkRunStep(s, p, s')
    ensures Sizes(s') && LockOk(initp, s')
    ensures forall i | 0 <= i < NPROC :: ThreadOk(initp, s', i) && ForkOk(s', i) && ParentOk(s', i)
  {
    var np := s.pc[p].np;
    assert ForkOk(s, p) && ThreadOk(initp, s, p) && ThreadOk(initp, s, np);
    forall i | 0 <= i < NPROC ensures ThreadOk(initp, s', i) && ForkOk(s', i) && ParentOk(s', i) {
      assert ThreadOk(initp, s, i) && ForkOk(s, i) && ParentOk(s, i) && ForksDiffer(s, i, p);
    }
  }

  lemma ForkRunScans(initp: nat, s: Sys, p: nat, s': Sys)
    requires Inv(initp, s) && ForkRunStep(s, p, s')
    ensures forall i | 0 <= i < NPROC :: ScanOk(s', i) && WaiterOk(initp, s', i)
  {
    var np := s.pc[p].np;
    assert ForkOk(s, p) && ThreadOk(initp, s, p) && ThreadOk(initp, s, np);
    forall i | 0 <= i < NPROC ensures ScanOk(s', i) && WaiterOk(initp, s', i) {
      assert ScanOk(s, i) && WaiterOk(initp, s, i);
      assert SameChildren(s, s', i);
      if i != p && i != np {
        ScanFrame(s, s', i);
      }
      WaiterFrame(initp, s, s', i);
    }
  }

  // ---------------------------------------------------------------- exit and wait

  /** Only the holder of wait_lock can be scanning. */
  lemma OthersDoNotScan(initp: nat, s: Sys, p: nat, i: nat)
    requires Sizes(s) && i < NPROC && ThreadOk(initp, s, i)
    requires (s.waitLock.None? || s.waitLock == Some(p)) && i != p
    ensures !s.pc[i].HoldsWaitLock() && ScanOk(s, i)
  {
  }

  /** Process p takes, keeps or gives up wait_lock and moves on; no process changes. */
  lemma PcChange(initp: nat, s: Sys, p: nat, s': Sys)
    requires Inv(initp, s) && p < NPROC && (s.waitLock.None? || s.waitLock == Some(p))
    requires Sizes(s') && s' == s.(pc := s.pc[p := s'.pc[p]], waitLock := s'.waitLock)
    requires s'.waitLock == if s'.pc[p].HoldsWaitLock() then Some(p) else None
    requires !Forking(s.pc[p]) && !Forking(s'.pc[p])
    requires ThreadOk(initp, s', p) && ScanOk(s', p)
    requires InitWillWake(initp, s) ==> InitWillWake(initp, s') || !SleepsInWait(s', initp)
    ensures Inv(initp, s')
  {
    PidsFrame(s, s');
    forall i | 0 <= i < NPROC
      ensures ThreadOk(initp, s', i) && ForkOk(s', i) && ParentOk(s', i) && ScanOk(s', i) && WaiterOk(initp, s', i)
    {
      assert ThreadOk(initp, s, i) && ForkOk(s, i) && ParentOk(s, i) && WaiterOk(initp, s, i);
      ForkFrame(s, s', i);
      assert SameChildren(s, s', i);
      WaiterFrame(initp, s, s', i);
      if i != p {
        OthersDoNotScan(initp, s, p, i);
        OthersDoNotScan(initp, s', p, i);
      }
    }
    ForksFrame(s, s');
  }

  lemma ExitStartKeeps(initp: nat, s: Sys, p: nat, s': Sys)
    requires Inv(initp, s) && ExitStartStep(initp, s, p, s')
    ensures Inv(initp, s')
  {
    assert ThreadOk(initp, s, p);
    PcChange(initp, s, p, s');
  }

  lemma WaitStartKeeps(initp: nat, s: Sys, p: nat, s': Sys)
    requires Inv(initp, s) && WaitStartStep(s, p, s')
    ensures Inv(initp, s')
  {
    assert ThreadOk(initp, s, p);
    PcChange(initp, s, p, s');
  }

  lemma ReparentKeeps(initp: nat, s: Sys, p: nat, s': Sys)
    requires Inv(initp, s) && ReparentStep(initp, s, p, s')
    ensures Inv(initp, s')
  {
    var k := s.pc[p].k;
    assert ThreadOk(initp, s, p) && ScanOk(s, p);
    if k < NPROC && Child(s, k, p) {
      GiveToInit(initp, s, p, s');
    } else {
      assert forall i | 0 <= i < NPROC :: Child(s', i, p) == Child(s, i, p);
      PcChange(initp, s, p, s');
    }
  }

  lemma GiveToInit(initp: nat, s: Sys, p: nat, s': Sys)
    requires Inv(initp, s) && ReparentStep(initp, s, p, s')
    requires s.pc[p].k < NPROC && Child(s, s.pc[p].k, p)
    ensures Inv(initp, s')
  {
    var k := s.pc[p].k;
    assert ThreadOk(initp, s, p) && ScanOk(s, p) && ThreadOk(initp, s, k) && ForkOk(s, k) && ParentOk(s, k);
    forall i | 0 <= i < NPROC ensures ThreadOk(initp, s', i) && ForkOk(s', i) && ParentOk(s', i) {
      assert ThreadOk(initp, s, i) && ForkOk(s, i) && ParentOk(s, i);
    }
    GiveToInitScans(initp, s, p, s');
    ForksFrame(s, s');
    PidsFrame(s, s');
  }

  lemma GiveToInitScans(initp: nat, s: Sys, p: nat, s': Sys)
    requires Inv(initp, s) && ReparentStep(initp, s, p, s')
    requires s.pc[p].k < NPROC && Child(s, s.pc[p].k, p)
    requires forall i | 0 <= i < NPROC :: ThreadOk(initp, s', i)
    ensures forall i | 0 <= i < NPROC :: ScanOk(s', i) && WaiterOk(initp, s', i)
  {
    var k := s.pc[p].k;
    assert ThreadOk(initp, s, p) && ScanOk(s, p);
    forall i | 0 <= i < NPROC ensures ScanOk(s', i) {
      if i != p {
        OthersDoNotScan(initp, s', p, i);
      } else {
        forall j | 0 <= j <= k ensures !Child(s', j, p) {
          assert j < k ==> !Child(s, j, p);
        }
      }
    }
    forall q | 0 <= q < NPROC ensures WaiterOk(initp, s', q) {
      assert WaiterOk(initp, s, q);
      if q == initp {
        assert Child(s', k, q);
      } else if q != p {
        assert SameChildren(s, s', q);
        WaiterFrame(initp, s, s', q);
      }
    }
  }

  /** wakeup() of a process by the holder of wait_lock, then the holder moves on. */
  lemma WakeKeeps(initp: nat, s: Sys, p: nat, j: nat, chan: Chan, s1: Sys)
    requires Inv(initp, s) && p < NPROC && j < NPROC
    requires s1 == s.(procs := if j == p then s.procs else s.procs[j := WakeOne(s.procs[j], chan)])
    requires s.pc[p].HoldsWaitLock()
    ensures Inv(initp, s1)
  {
    assert ThreadOk(initp, s, j) && ThreadOk(initp, s, p);
    if j != p {
      ChangeOne(initp, s, j, WakeOne(s.procs[j], chan), s1);
    }
  }

  lemma WakeInitKeeps(initp: nat, s: Sys, p: nat, s': Sys)
    requires Inv(initp, s) && WakeInitStep(initp, s, p, s')
    ensures Inv(initp, s')
  {
    assert ThreadOk(initp, s, p) && ScanOk(s, p);
    var Pcv := s.pc[p];
    if Pcv.j >= NPROC {
      assert forall i | 0 <= i < NPROC :: Child(s', i, p) == Child(s, i, p);
      PcChange(initp, s, p, s');
    } else {
      var s1 := s.(procs := s'.procs);
      WakeKeeps(initp, s, p, Pcv.j, ProcChan(initp), s1);
      assert ThreadOk(initp, s1, p) && ScanOk(s1, p);
      assert forall i | 0 <= i < NPROC :: Child(s', i, p) == Child(s1, i, p);
      PcChange(initp, s1, p, s');
    }
  }

  lemma WakeParentKeeps(initp: nat, s: Sys, p: nat, s': Sys)
    requires Inv(initp, s) && WakeParentStep(s, p, s')
    ensures Inv(initp, s')
  {
    assert ThreadOk(initp, s, p) && ScanOk(s, p);
    var j, q := s.pc[p].j, s.procs[p].parent.value;
    var s1 := s.(procs := s'.procs);
    WakeKeeps(initp, s, p, j, ProcChan(q), s1);
    assert ThreadOk(initp, s1, p) && ScanOk(s1, p) && ParentOk(s, p);
    assert forall i | 0 <= i < NPROC :: Child(s', i, p) == Child(s1, i, p);
    forall r | 0 <= r < j + 1 && r < NPROC && Child(s', p, r) ensures !SleepsInWait(s', r) {
      assert Child(s1, p, r);
      assert SleepsInWait(s', r) == SleepsInWait(s1, r);
    }
    PcChange(initp, s1, p, s');
  }

  lemma ZombieKeeps(initp: nat, s: Sys, p: nat, status: int, s': Sys)
    requires Inv(initp, s) && ZombieStep(s, p, status, s')
    ensures Inv(initp, s')
  {
    ZombieThreads(initp, s, p, status, s');
    ZombieScans(initp, s, p, status, s');
    ForksFrame(s, s');
    assert ThreadOk(initp, s, p);
    ExitPids(s, p, status, s');
  }

  lemma ZombieThreads(initp: nat, s: Sys, p: nat, status: int, s': Sys)
    requires Inv(initp, s) && ZombieStep(s, p, status, s')
    ensures Sizes(s') && LockOk(initp, s')
    ensures forall i | 0 <= i < NPROC :: ThreadOk(initp, s', i) && ForkOk(s', i) && ParentOk(s', i)
  {
    assert ThreadOk(initp, s, p) && ScanOk(s, p) && ParentOk(s, p);
    forall i | 0 <= i < NPROC ensures ThreadOk(initp, s', i) && ForkOk(s', i) && ParentOk(s', i) {
      assert ThreadOk(initp, s, i) && ForkOk(s, i) && ParentOk(s, i);
      assert !Child(s, i, p);
    }
  }

  /** Nobody misses the exit: the parent of p was woken before, and the scan of its wait is
      kept out by wait_lock. */
  lemma ZombieScans(initp: nat, s: Sys, p: nat, status: int, s': Sys)
    requires Inv(initp, s) && ZombieStep(s, p, status, s')
    requires forall i | 0 <= i < NPROC :: ThreadOk(initp, s', i)
    ensures forall i | 0 <= i < NPROC :: ScanOk(s', i) && WaiterOk(initp, s', i)
  {
    assert ThreadOk(initp, s, p) && ScanOk(s, p) && ParentOk(s, p);
    forall i | 0 <= i < NPROC ensures ScanOk(s', i) && WaiterOk(initp, s', i) {
      assert WaiterOk(initp, s, i);
      if i != p {
        OthersDoNotScan(initp, s', p, i);
        if !Child(s, p, i) {
          assert SameChildren(s, s', i);
          WaiterFrame(initp, s, s', i);
        }
      }
    }
  }

  lemma ExitPids(s: Sys, p: nat, status: int, s': Sys)
    requires Sizes(s) && Sizes(s') && PidsOk(s) && p < NPROC && s.procs[p].state == RUNNING
    requires s'.procs == s.procs[p := s.procs[p].(state := ZOMBIE, xstate := status)]
    requires s'.nextpid == s.nextpid && s'.exited == s.exited[s.procs[p].pid := status] && s'.reaped == s.reaped
    ensures PidsOk(s')
  {
    forall pid | pid in s'.exited ensures pid < s'.nextpid && Accounted(s', pid) {
      if pid == s.procs[p].pid {
        assert s'.procs[p].state == ZOMBIE && s'.procs[p].pid == pid;
      } else {
        assert Accounted(s, pid);
        if i :| 0 <= i < NPROC && s.procs[i].state == ZOMBIE && s.procs[i].pid == pid {
          assert s'.procs[i].state == ZOMBIE && s'.procs[i].pid == pid;
        }
      }
    }
  }

  lemma ScanKeeps(initp: nat, s: Sys, p: nat, copied: bool, s': Sys)
    requires Inv(initp, s) && ScanStep(s, p, copied, s')
    ensures Inv(initp, s')
  {
    assert ThreadOk(initp, s, p) && ScanOk(s, p);
    var k := s.pc[p].k;
    if Child(s, k, p) && s.procs[k].state == ZOMBIE && copied {
      ReapKeeps(initp, s, p, s');
    } else {
      ScanOn(initp, s, p, copied, s');
      PcChange(initp, s, p, s');
    }
  }

  lemma ScanOn(initp: nat, s: Sys, p: nat, copied: bool, s': Sys)
    requires Sizes(s) && p < NPROC && ThreadOk(initp, s, p) && ScanOk(s, p) && ScanStep(s, p, copied, s')
    requires !(Child(s, s.pc[p].k, p) && s.procs[s.pc[p].k].state == ZOMBIE && copied)
    ensures Sizes(s') && ThreadOk(initp, s', p) && ScanOk(s', p)
  {
    var k := s.pc[p].k;
    forall i | 0 <= i < NPROC ensures Child(s', i, p) == Child(s, i, p) && s'.procs[i] == s.procs[i] { }
    if s'.pc[p].WaitScan? {
      forall i | 0 <= i < k + 1 && i < NPROC && Child(s', i, p) ensures s'.procs[i].state != ZOMBIE {
        assert Child(s, i, p);
      }
      ScanKids(s, s', p, k);
    }
  }

  /** havekids after one more slot has been looked at. */
  lemma ScanKids(s: Sys, s': Sys, p: nat, k: nat)
    requires Sizes(s) && Sizes(s') && p < NPROC && k < NPROC && s.pc[p].WaitScan? && s'.pc[p].WaitScan?
    requires s'.pc[p].havekids == (s.pc[p].havekids || Child(s, k, p))
    requires forall i | 0 <= i < NPROC :: Child(s', i, p) == Child(s, i, p)
    requires s.pc[p].havekids <==> exists i :: 0 <= i < k && i < NPROC && Child(s, i, p)
    ensures s'.pc[p].havekids <==> exists i :: 0 <= i < k + 1 && i < NPROC && Child(s', i, p)
  {
    if Child(s, k, p) {
      assert Child(s', k, p);
    } else if s.pc[p].havekids {
      var i :| 0 <= i < k && i < NPROC && Child(s, i, p);
      assert Child(s', i, p);
    } else {
      forall i | 0 <= i < k + 1 && i < NPROC ensures !Child(s', i, p) {
        assert i < k ==> !Child(s, i, p);
      }
    }
  }

  lemma ReapKeeps(initp: nat, s: Sys, p: nat, s': Sys)
    requires Inv(initp, s) && ScanStep(s, p, true, s')
    requires Child(s, s.pc[p].k, p) && s.procs[s.pc[p].k].state == ZOMBIE
    ensures Inv(initp, s')
  {
    ReapThreads(initp, s, p, s');
    ReapScans(initp, s, p, s');
    ForksFrame(s, s');
    ReapPids(s, s.pc[p].k, s');
  }

  lemma ReapThreads(initp: nat, s: Sys, p: nat, s': Sys)
    requires Inv(initp, s) && ScanStep(s, p, true, s')
    requires Child(s, s.pc[p].k, p) && s.procs[s.pc[p].k].state == ZOMBIE
    ensures Sizes(s') && LockOk(initp, s')
    ensures forall i | 0 <= i < NPROC :: ThreadOk(initp, s', i) && ForkOk(s', i) && ParentOk(s', i)
  {
    assert ThreadOk(initp, s, p) && ThreadOk(initp, s, s.pc[p].k);
    forall i | 0 <= i < NPROC ensures ThreadOk(initp, s', i) && ForkOk(s', i) && ParentOk(s', i) {
      assert ThreadOk(initp, s, i) && ForkOk(s, i) && ParentOk(s, i);
    }
  }

  lemma ReapScans(initp: nat, s: Sys, p: nat, s': Sys)
    requires Inv(initp, s) && ScanStep(s, p, true, s')
    requires Child(s, s.pc[p].k, p) && s.procs[s.pc[p].k].state == ZOMBIE
    requires forall i | 0 <= i < NPROC :: ThreadOk(initp, s', i)
    ensures forall i | 0 <= i < NPROC :: ScanOk(s', i) && WaiterOk(initp, s', i)
  {
    assert ThreadOk(initp, s, p);
    forall i | 0 <= i < NPROC ensures ScanOk(s', i) && WaiterOk(initp, s', i) {
      assert WaiterOk(initp, s, i);
      if i != p {
        OthersDoNotScan(initp, s', p, i);
        assert SameChildren(s, s', i);
        WaiterFrame(initp, s, s', i);
      }
    }
  }

  lemma ReapedAfter(s: Sys, k: nat, s': Sys)
    requires Sizes(s) && Sizes(s') && LivePids(s) && ReapedPids(s) && ExitedPids(s) && k < NPROC && s.procs[k].state == ZOMBIE
    requires s'.procs == s.procs[k := Freed(s.procs[k])]
    requires s'.nextpid == s.nextpid && s'.exited == s.exited && s'.reaped == s.reaped + [(s.procs[k].pid, s.procs[k].xstate)]
    ensures ReapedPids(s')
  {
    var n := |s.reaped|;
    forall j, i | 0 <= j < |s'.reaped| && 0 <= i < NPROC && s'.procs[i].state != UNUSED
      ensures s'.reaped[j].0 != s'.procs[i].pid
    {
      assert i != k && s'.procs[i] == s.procs[i];
      assert j < n ==> s'.reaped[j] == s.reaped[j];
    }
    forall j, l | 0 <= j < l < |s'.reaped| ensures s'.reaped[j].0 != s'.reaped[l].0 {
      assert s'.reaped[j] == s.reaped[j];
      assert l < n ==> s'.reaped[l] == s.reaped[l];
    }
  }

  lemma ReapPids(s: Sys, k: nat, s': Sys)
    requires Sizes(s) && Sizes(s') && PidsOk(s) && k < NPROC && s.procs[k].state == ZOMBIE
    requires s'.procs == s.procs[k := Freed(s.procs[k])]
    requires s'.nextpid == s.nextpid && s'.exited == s.exited && s'.reaped == s.reaped + [(s.procs[k].pid, s.procs[k].xstate)]
    ensures PidsOk(s')
  {
    ReapedAfter(s, k, s');
    forall pid | pid in s'.exited ensures pid < s'.nextpid && Accounted(s', pid) {
      ReapAccounted(s, k, s', pid);
    }
  }

  lemma ReapAccounted(s: Sys, k: nat, s': Sys, pid: nat)
    requires Sizes(s) && Sizes(s') && k < NPROC && Accounted(s, pid)
    requires s'.procs == s.procs[k := Freed(s.procs[k])] && s'.reaped == s.reaped + [(s.procs[k].pid, s.procs[k].xstate)]
    ensures Accounted(s', pid)
  {
    if i :| 0 <= i < NPROC && s.procs[i].state == ZOMBIE && s.procs[i].pid == pid {
      if i == k {
        assert s'.reaped[|s.reaped|].0 == pid;
      } else {
        assert s'.procs[i].state == ZOMBIE && s'.procs[i].pid == pid;
      }
    } else {
      var l :| 0 <= l < |s.reaped| && s.reaped[l].0 == pid;
      assert s'.reaped[l].0 == pid;
    }
  }

  lemma WaitEndKeeps(initp: nat, s: Sys, p: nat, s': Sys)
    requires Inv(initp, s) && WaitEndStep(s, p, s')
    ensures Inv(initp, s')
  {
    assert ThreadOk(initp, s, p) && ScanOk(s, p);
    assert forall i | 0 <= i < NPROC :: Child(s', i, p) == Child(s, i, p);
    PcChange(initp, s, p, s');
  }

  lemma SleepKeeps(initp: nat, s: Sys, p: nat, s': Sys)
    requires Inv(initp, s) && WaitSleepStep(s, p, s')
    ensures Inv(initp, s')
  {
    assert ThreadOk(initp, s, p) && ScanOk(s, p);
    forall i | 0 <= i < NPROC
      ensures ThreadOk(initp, s', i) && ForkOk(s', i) && ParentOk(s', i) && ScanOk(s', i) && WaiterOk(initp, s', i)
    {
      assert ThreadOk(initp, s, i) && ForkOk(s, i) && ParentOk(s, i) && WaiterOk(initp, s, i);
      if i != p {
        OthersDoNotScan(initp, s', p, i);
        SleepWaiter(initp, s, p, s', i);
      } else {
        var c :| 0 <= c < NPROC && Child(s, c, p);
        assert Child(s', c, p);
        assert forall c | 0 <= c < NPROC :: Child(s', c, p) == Child(s, c, p);
      }
    }
    ForksFrame(s, s');
    PidsFrame(s, s');
  }

  lemma SleepWaiter(initp: nat, s: Sys, p: nat, s': Sys, q: nat)
    requires Sizes(s) && LockOk(initp, s) && WaitSleepStep(s, p, s')
    requires s.waitLock == Some(p) && q < NPROC && q != p && WaiterOk(initp, s, q)
    ensures WaiterOk(initp, s', q)
  {
    if SleepsInWait(s', q) {
      assert SleepsInWait(s, q);
      var c :| 0 <= c < NPROC && Child(s, c, q);
      assert Child(s', c, q) && !InitWillWake(initp, s);
      forall i | 0 <= i < NPROC && Child(s', i, q) ensures s'.procs[i].state != ZOMBIE {
        assert Child(s, i, q);
      }
    }
  }

  lemma WokenKeeps(initp: nat, s: Sys, p: nat, s': Sys)
    requires Inv(initp, s) && WokenStep(s, p, s')
    ensures Inv(initp, s')
  {
    assert ThreadOk(initp, s, p);
    forall i | 0 <= i < NPROC ensures ThreadOk(initp, s', i) && ForkOk(s', i) && ParentOk(s', i) {
      assert ThreadOk(initp, s, i) && ForkOk(s, i) && ParentOk(s, i);
    }
    WokenScans(initp, s, p, s');
    ForksFrame(s, s');
    PidsFrame(s, s');
  }

  lemma WokenScans(initp: nat, s: Sys, p: nat, s': Sys)
    requires Inv(initp, s) && WokenStep(s, p, s')
    ensures forall i | 0 <= i < NPROC :: ScanOk(s', i) && WaiterOk(initp, s', i)
  {
    assert ThreadOk(initp, s, p);
    forall i | 0 <= i < NPROC ensures ScanOk(s', i) && WaiterOk(initp, s', i) {
      assert ScanOk(s, i) && WaiterOk(initp, s, i);
      assert SameChildren(s, s', i);
      WaiterFrame(initp, s, s', i);
      if i != p {
        ScanFrame(s, s', i);
      }
    }
  }

  // ---------------------------------------------------------------- runs

  lemma NextKeepsInv(initp: nat, s: Sys, step: Step, s': Sys)
    requires Inv(initp, s) && Next(initp, s, step, s')
    ensures Inv(initp, s')
  {
    match step
    case SForkFail(p) => ForkFailKeeps(initp, s, p, s');
    case SForkAlloc(p, np) => ForkAllocKeeps(initp, s, p, np, s');
    case SForkParent(p) => ForkParentKeeps(initp, s, p, s');
    case SForkRun(p) => ForkRunKeeps(initp, s, p, s');
    case SExitStart(p) => ExitStartKeeps(initp, s, p, s');
    case SReparent(p) => ReparentKeeps(initp, s, p, s');
    case SWakeInit(p) => WakeInitKeeps(initp, s, p, s');
    case SWakeParent(p) => WakeParentKeeps(initp, s, p, s');
    case SZombie(p, status) => ZombieKeeps(initp, s, p, status, s');
    case SWaitStart(p) => WaitStartKeeps(initp, s, p, s');
    case SScan(p, copied) => ScanKeeps(initp, s, p, copied, s');
    case SWaitEnd(p) => WaitEndKeeps(initp, s, p, s');
    case SWaitSleep(p) => SleepKeeps(initp, s, p, s');
    case SWoken(p) => WokenKeeps(initp, s, p, s');
    case _ => ScheduleKeeps(initp, s, step, s');
  }

  ghost predicate Run(initp: nat, ss: seq<Sys>, steps: seq<Step>) {
    |ss| == |steps| + 1 && forall k | 0 <= k < |ss| :: Takes(initp, ss, steps, k)
  }

  ghost predicate Takes(initp: nat, ss: seq<Sys>, steps: seq<Step>, k: nat)
    requires k < |ss| == |steps| + 1
  {
    if k == 0 then Start(initp, ss[0])
    else Sizes(ss[k-1]) && Next(initp, ss[k-1], steps[k-1], ss[k])
  }

  lemma {:induction false} InvOverRuns(initp: nat, ss: seq<Sys>, steps: seq<Step>, k: nat)
    requires Run(initp, ss, steps) && k < |ss|
    ensures Inv(initp, ss[k])
  {
    assert Takes(initp, ss, steps, k);
    if k == 0 {
      StartInv(initp, ss[0]);
    } else {
      InvOverRuns(initp, ss, steps, k - 1);
      NextKeepsInv(initp, ss[k-1], steps[k-1], ss[k]);
    }
  }

  /** No lost exit: in every interleaving, whenever wait_lock is free, a process asleep in
      wait has children and none of them is a zombie. */
  lemma NoLostExit(initp: nat, ss: seq<Sys>, steps: seq<Step>, k: nat, q: nat)
    requires Run(initp, ss, steps) && k < |ss| && q < NPROC && Sizes(ss[k])
    requires ss[k].waitLock.None? && SleepsInWait(ss[k], q)
    ensures forall i | 0 <= i < NPROC && Child(ss[k], i, q) :: ss[k].procs[i].state != ZOMBIE
    ensures exists i :: 0 <= i < NPROC && Child(ss[k], i, q)
  {
    InvOverRuns(initp, ss, steps, k);
    assert WaiterOk(initp, ss[k], q);
  }

  /** Every parent pointer names a process that is neither unused nor a zombie, and every
      process but init has one from the time it first runs until it is reaped. */
  lemma ParentsAlive(initp: nat, ss: seq<Sys>, steps: seq<Step>, k: nat, i: nat)
    requires Run(initp, ss, steps) && k < |ss| && i < NPROC && Sizes(ss[k])
    ensures ss[k].procs[i].parent.Some? ==>
              var q := ss[k].procs[i].parent.value;
              q < NPROC && ss[k].procs[q].state != UNUSED && ss[k].procs[q].state != ZOMBIE
    ensures ss[k].procs[i].Alive() && i != initp ==> ss[k].procs[i].parent.Some?
  {
    InvOverRuns(initp, ss, steps, k);
    assert ParentOk(ss[k], i) && ThreadOk(initp, ss[k], i);
  }

  /** Each exit is accounted for exactly once: a process that exited is a zombie or has
      been returned by one wait call, with its exit status, and never by two. */
  lemma ReapedOnce(initp: nat, ss: seq<Sys>, steps: seq<Step>, k: nat, pid: nat)
    requires Run(initp, ss, steps) && k < |ss| && Sizes(ss[k]) && pid in ss[k].exited
    ensures var s := ss[k];
            var zombie := exists i :: 0 <= i < NPROC && s.procs[i].state == ZOMBIE && s.procs[i].pid == pid;
            var reaped := exists j :: 0 <= j < |s.reaped| && s.reaped[j].0 == pid;
            zombie != reaped
    ensures forall j | 0 <= j < |ss[k].reaped| && ss[k].reaped[j].0 == pid :: ss[k].reaped[j].1 == ss[k].exited[pid]
    ensures forall j, l | 0 <= j < l < |ss[k].reaped| && ss[k].reaped[j].0 == pid :: ss[k].reaped[l].0 != pid
  {
    InvOverRuns(initp, ss, steps, k);
    assert Accounted(ss[k], pid);
  }
}
