/** fork, exit, wait, kill, sleep and wakeup of kernel/proc.c as a system of atomic steps,
    one per critical section: a section under some p->lock is one step, and wait_lock is
    held across several of them. */
module ProcMachine {
  import opened Options

  const NPROC := 64

  datatype ProcState = UNUSED | USED | SLEEPING | RUNNABLE | RUNNING | ZOMBIE

  /** What a process sleeps on: wait() uses the address of its own struct proc. */
  datatype Chan = NoChan | ProcChan(p: nat) | OtherChan(c: nat)

  datatype Proc = Proc(state: ProcState, chan: Chan, parent: Option<nat>, killed: bool, pid: nat, xstate: int) {
    predicate Alive() {
      state == SLEEPING || state == RUNNABLE || state == RUNNING
    }
  }

  /** Where the kernel thread of a process is. */
  datatype Pc =
    | NoThread                            // slot unused, being built, or a zombie
    | Outside                             // holds no lock of these functions
    | ForkAllocated(np: nat)              // fork: child allocated
    | ForkParented(np: nat)               // fork: parent pointer set
    | ExitReparent(k: nat)                // exit: scanning for children
    | ExitWakeInit(k: nat, j: nat)        // exit: wakeup(initproc) after giving child k away
    | ExitWakeParent(j: nat)              // exit: wakeup(p->parent)
    | WaitScan(k: nat, havekids: bool)    // wait: scanning for zombies
    | WaitDecided                         // wait: has children and was not killed, about to sleep
    | WaitSleep                           // wait: inside sleep(p, &wait_lock)
    | WaitRetry                           // wait: woken, about to reacquire wait_lock
  {
    predicate HoldsWaitLock() {
      ExitReparent? || ExitWakeInit? || ExitWakeParent? || WaitScan? || WaitDecided?
    }
  }

  /** `exited` and `reaped` are history: the status each process exited with, and the
      (pid, status) pairs that wait() has returned, in order. */
  datatype Sys = Sys(procs: seq<Proc>, pc: seq<Pc>, waitLock: Option<nat>, nextpid: nat,
                     exited: map<nat, int>, reaped: seq<(nat, int)>)

  // ---------------------------------------------------------------- sections under p->lock

  /** The section of wakeup() for one process. */
  function WakeOne(p: Proc, chan: Chan): (p': Proc) {
    if p.state == SLEEPING && p.chan == chan then p.(state := RUNNABLE) else p
  }

  /** The section of kill() for the process found. */
  function KillOne(p: Proc): (p': Proc) {
    p.(killed := true, state := if p.state == SLEEPING then RUNNABLE else p.state)
  }

  /** freeproc */
  function Freed(p: Proc): (p': Proc) {
    Proc(UNUSED, NoChan, None, false, 0, 0)
  }

  // ---------------------------------------------------------------- steps

  datatype Step =
    | SSched(p: nat)
    | SYield(p: nat)
    | SSleepOther(p: nat, c: nat)
    | SWakeOther(q: nat, c: nat)
    | SResume(p: nat)
    | SKill(q: nat)
    | SForkFail(p: nat)
    | SForkAlloc(p: nat, np: nat)
    | SForkParent(p: nat)
    | SForkRun(p: nat)
    | SExitStart(p: nat)
    | SReparent(p: nat)
    | SWakeInit(p: nat)
    | SWakeParent(p: nat)
    | SZombie(p: nat, status: int)
    | SWaitStart(p: nat)
    | SScan(p: nat, copied: bool)
    | SWaitEnd(p: nat)
    | SWaitSleep(p: nat)
    | SWoken(p: nat)

  ghost predicate Sizes(s: Sys) {
    |s.procs| == NPROC && |s.pc| == NPROC
  }

  /** Process p runs on some CPU and is at a point satisfying no further condition. */
  predicate Runs(s: Sys, p: nat) {
    p < |s.procs| && s.procs[p].state == RUNNING
  }

  // scheduler(), yield(), and sleep()/wakeup() on any other channel

  ghost predicate SchedStep(s: Sys, p: nat, s': Sys)
    requires Sizes(s)
  {
    p < NPROC && s.procs[p].state == RUNNABLE && s' == s.(procs := s.procs[p := s.procs[p].(state := RUNNING)])
  }

  ghost predicate YieldStep(s: Sys, p: nat, s': Sys)
    requires Sizes(s)
  {
    Runs(s, p) && s.waitLock != Some(p) && s' == s.(procs := s.procs[p := s.procs[p].(state := RUNNABLE)])
  }

  ghost predicate SleepOtherStep(s: Sys, p: nat, c: nat, s': Sys)
    requires Sizes(s)
  {
    Runs(s, p) && s.pc[p].Outside? && s' == s.(procs := s.procs[p := s.procs[p].(state := SLEEPING, chan := OtherChan(c))])
  }

  ghost predicate WakeOtherStep(s: Sys, q: nat, c: nat, s': Sys)
    requires Sizes(s)
  {
    q < NPROC && s' == s.(procs := s.procs[q := WakeOne(s.procs[q], OtherChan(c))])
  }

  ghost predicate ResumeStep(s: Sys, p: nat, s': Sys)
    requires Sizes(s)
  {
    Runs(s, p) && s.pc[p].Outside? && s' == s.(procs := s.procs[p := s.procs[p].(chan := NoChan)])
  }

  ghost predicate KillStep(s: Sys, q: nat, s': Sys)
    requires Sizes(s)
  {
    q < NPROC && s' == s.(procs := s.procs[q := KillOne(s.procs[q])])
  }

  // fork()

  /** There is no memory for the new process: its slot is freed again. */
  ghost predicate ForkFailStep(s: Sys, p: nat, s': Sys)
    requires Sizes(s)
  {
    && Runs(s, p) && s.pc[p].ForkAllocated? && s.pc[p].np < NPROC
    && var np := s.pc[p].np;
       s' == s.(procs := s.procs[np := Freed(s.procs[np])], pc := s.pc[p := Outside])
  }

  ghost predicate ForkAllocStep(s: Sys, p: nat, np: nat, s': Sys)
    requires Sizes(s)
  {
    && Runs(s, p) && s.pc[p].Outside? && np < NPROC && s.procs[np].state == UNUSED
    && s' == s.(procs := s.procs[np := s.procs[np].(state := USED, pid := s.nextpid)],
                pc := s.pc[p := ForkAllocated(np)], nextpid := s.nextpid + 1)
  }

  ghost predicate ForkParentStep(s: Sys, p: nat, s': Sys)
    requires Sizes(s)
  {
    && Runs(s, p) && s.pc[p].ForkAllocated? && s.waitLock.None? && s.pc[p].np < NPROC
    && var np := s.pc[p].np;
       s' == s.(procs := s.procs[np := s.procs[np].(parent := Some(p))], pc := s.pc[p := ForkParented(np)])
  }

  ghost predicate ForkRunStep(s: Sys, p: nat, s': Sys)
    requires Sizes(s)
  {
    && Runs(s, p) && s.pc[p].ForkParented? && s.pc[p].np < NPROC
    && var np := s.pc[p].np;
       s' == s.(procs := s.procs[np := s.procs[np].(state := RUNNABLE)], pc := s.pc[p := Outside][np := Outside])
  }

  // exit()

  ghost predicate ExitStartStep(initp: nat, s: Sys, p: nat, s': Sys)
    requires Sizes(s)
  {
    && Runs(s, p) && s.pc[p].Outside? && p != initp && s.waitLock.None?
    && s' == s.(waitLock := Some(p), pc := s.pc[p := ExitReparent(0)])
  }

  ghost predicate ReparentStep(initp: nat, s: Sys, p: nat, s': Sys)
    requires Sizes(s)
  {
    && Runs(s, p) && s.pc[p].ExitReparent?
    && var k := s.pc[p].k;
       if k >= NPROC then s' == s.(pc := s.pc[p := ExitWakeParent(0)])
       else if s.procs[k].parent == Some(p) then
         s' == s.(procs := s.procs[k := s.procs[k].(parent := Some(initp))], pc := s.pc[p := ExitWakeInit(k, 0)])
       else s' == s.(pc := s.pc[p := ExitReparent(k + 1)])
  }

  ghost predicate WakeInitStep(initp: nat, s: Sys, p: nat, s': Sys)
    requires Sizes(s)
  {
    && Runs(s, p) && s.pc[p].ExitWakeInit?
    && var j := s.pc[p].j;
       if j >= NPROC then s' == s.(pc := s.pc[p := ExitReparent(s.pc[p].k + 1)])
       else s' == s.(procs := if j == p then s.procs else s.procs[j := WakeOne(s.procs[j], ProcChan(initp))],
                     pc := s.pc[p := ExitWakeInit(s.pc[p].k, j + 1)])
  }

  ghost predicate WakeParentStep(s: Sys, p: nat, s': Sys)
    requires Sizes(s)
  {
    && Runs(s, p) && s.pc[p].ExitWakeParent? && s.pc[p].j < NPROC && s.procs[p].parent.Some?
    && var j := s.pc[p].j;
       s' == s.(procs := if j == p then s.procs else s.procs[j := WakeOne(s.procs[j], ProcChan(s.procs[p].parent.value))],
                pc := s.pc[p := ExitWakeParent(j + 1)])
  }

  ghost predicate ZombieStep(s: Sys, p: nat, status: int, s': Sys)
    requires Sizes(s)
  {
    && Runs(s, p) && s.pc[p].ExitWakeParent? && s.pc[p].j >= NPROC
    && s' == s.(procs := s.procs[p := s.procs[p].(state := ZOMBIE, xstate := status)],
                pc := s.pc[p := NoThread], waitLock := None, exited := s.exited[s.procs[p].pid := status])
  }

  // wait()

  ghost predicate WaitStartStep(s: Sys, p: nat, s': Sys)
    requires Sizes(s)
  {
    && Runs(s, p) && (s.pc[p].Outside? || s.pc[p].WaitRetry?) && s.waitLock.None?
    && s' == s.(waitLock := Some(p), pc := s.pc[p := WaitScan(0, false)])
  }

  /** One turn of the scan; `copied` tells whether copying out the status succeeds. */
  ghost predicate ScanStep(s: Sys, p: nat, copied: bool, s': Sys)
    requires Sizes(s)
  {
    && Runs(s, p) && s.pc[p].WaitScan? && s.pc[p].k < NPROC
    && var k := s.pc[p].k;
       if s.procs[k].parent != Some(p) then s' == s.(pc := s.pc[p := WaitScan(k + 1, s.pc[p].havekids)])
       else if s.procs[k].state != ZOMBIE then s' == s.(pc := s.pc[p := WaitScan(k + 1, true)])
       else if !copied then s' == s.(pc := s.pc[p := Outside], waitLock := None)
       else s' == s.(procs := s.procs[k := Freed(s.procs[k])], pc := s.pc[p := Outside], waitLock := None,
                     reaped := s.reaped + [(s.procs[k].pid, s.procs[k].xstate)])
  }

  /** After the scan p->killed is read, under no p->lock. */
  ghost predicate WaitEndStep(s: Sys, p: nat, s': Sys)
    requires Sizes(s)
  {
    && Runs(s, p) && s.pc[p].WaitScan? && s.pc[p].k >= NPROC
    && if !s.pc[p].havekids || s.procs[p].killed then s' == s.(pc := s.pc[p := Outside], waitLock := None)
       else s' == s.(pc := s.pc[p := WaitDecided])
  }

  /** sleep(p, &wait_lock) takes p->lock before it gives wait_lock up. */
  ghost predicate WaitSleepStep(s: Sys, p: nat, s': Sys)
    requires Sizes(s)
  {
    && Runs(s, p) && s.pc[p].WaitDecided?
    && s' == s.(procs := s.procs[p := s.procs[p].(state := SLEEPING, chan := ProcChan(p))],
                pc := s.pc[p := WaitSleep], waitLock := None)
  }

  ghost predicate WokenStep(s: Sys, p: nat, s': Sys)
    requires Sizes(s)
  {
    && Runs(s, p) && s.pc[p].WaitSleep?
    && s' == s.(procs := s.procs[p := s.procs[p].(chan := NoChan)], pc := s.pc[p := WaitRetry])
  }

  ghost predicate Next(initp: nat, s: Sys, step: Step, s': Sys)
    requires Sizes(s)
  {
    match step
    case SSched(p) => SchedStep(s, p, s')
    case SYield(p) => YieldStep(s, p, s')
    case SSleepOther(p, c) => SleepOtherStep(s, p, c, s')
    case SWakeOther(q, c) => WakeOtherStep(s, q, c, s')
    case SResume(p) => ResumeStep(s, p, s')
    case SKill(q) => KillStep(s, q, s')
    case SForkFail(p) => ForkFailStep(s, p, s')
    case SForkAlloc(p, np) => ForkAllocStep(s, p, np, s')
    case SForkParent(p) => ForkParentStep(s, p, s')
    case SForkRun(p) => ForkRunStep(s, p, s')
    case SExitStart(p) => ExitStartStep(initp, s, p, s')
    case SReparent(p) => ReparentStep(initp, s, p, s')
    case SWakeInit(p) => WakeInitStep(initp, s, p, s')
    case SWakeParent(p) => WakeParentStep(s, p, s')
    case SZombie(p, status) => ZombieStep(s, p, status, s')
    case SWaitStart(p) => WaitStartStep(s, p, s')
    case SScan(p, copied) => ScanStep(s, p, copied, s')
    case SWaitEnd(p) => WaitEndStep(s, p, s')
    case SWaitSleep(p) => WaitSleepStep(s, p, s')
    case SWoken(p) => WokenStep(s, p, s')
  }

  /** userinit() has made the first process runnable and nothing has run. */
  ghost predicate Start(initp: nat, s: Sys) {
    && Sizes(s) && initp < NPROC
    && s.procs[initp] == Proc(RUNNABLE, NoChan, None, false, 1, 0) && s.pc[initp] == Outside
    && (forall i | 0 <= i < NPROC && i != initp :: s.procs[i] == Proc(UNUSED, NoChan, None, false, 0, 0) && s.pc[i] == NoThread)
    && s.waitLock == None && s.nextpid == 2 && s.exited == map[] && s.reaped == []
  }

  // ---------------------------------------------------------------- the invariant

  predicate SleepsInWait(s: Sys, q: nat)
    requires q < |s.procs|
  {
    s.procs[q].state == SLEEPING && s.procs[q].chan == ProcChan(q)
  }

  predicate Child(s: Sys, i: nat, q: nat)
    requires i < |s.procs|
  {
    s.procs[i].parent == Some(q)
  }

  predicate Forking(c: Pc) {
    c.ForkAllocated? || c.ForkParented?
  }

  predicate Exiting(c: Pc) {
    c.ExitReparent? || c.ExitWakeInit? || c.ExitWakeParent?
  }

  /** The program counter of process i agrees with its state, and only the lock holder is
      inside a section that holds wait_lock. */
  ghost predicate ThreadOk(initp: nat, s: Sys, i: nat)
    requires Sizes(s) && i < NPROC
  {
    && (s.procs[i].Alive() <==> !s.pc[i].NoThread?)
    && (s.procs[i].Alive() && i != initp ==> s.procs[i].parent.Some?)
    && (s.procs[i].state == UNUSED ==> s.procs[i].parent.None?)
    && (s.pc[i].HoldsWaitLock() ==> s.waitLock == Some(i) && s.procs[i].state == RUNNING)
    && (Exiting(s.pc[i]) ==> i != initp)
    && (s.procs[i].state == SLEEPING ==>
          match s.procs[i].chan
          case ProcChan(q) => q == i && s.pc[i].WaitSleep?
          case OtherChan(_) => s.pc[i].Outside?
          case NoChan => false)
  }

  ghost predicate LockOk(initp: nat, s: Sys)
    requires Sizes(s)
  {
    && initp < NPROC && s.procs[initp].Alive() && s.procs[initp].parent == None
    && (s.waitLock.Some? ==> s.waitLock.value < NPROC && s.pc[s.waitLock.value].HoldsWaitLock())
  }

  /** A child under construction belongs to the one thread that is forking it. */
  ghost predicate ForkOk(s: Sys, i: nat)
    requires Sizes(s) && i < NPROC
  {
    && (Forking(s.pc[i]) ==> s.pc[i].np < NPROC && s.procs[s.pc[i].np].state == USED)
    && (s.pc[i].ForkAllocated? ==> s.procs[s.pc[i].np].parent.None?)
    && (s.pc[i].ForkParented? ==> Child(s, s.pc[i].np, i))
    && (s.procs[i].state == USED && s.procs[i].parent.Some? ==>
          s.procs[i].parent.value < NPROC && s.pc[s.procs[i].parent.value] == ForkParented(i))
  }

  ghost predicate ForksDiffer(s: Sys, i: nat, j: nat)
    requires Sizes(s) && i < NPROC && j < NPROC
  {
    i != j && Forking(s.pc[i]) && Forking(s.pc[j]) ==> s.pc[i].np != s.pc[j].np
  }

  ghost predicate ParentOk(s: Sys, i: nat)
    requires Sizes(s) && i < NPROC
  {
    s.procs[i].parent.Some? ==>
      var q := s.procs[i].parent.value;
      q < NPROC && q != i && s.procs[q].Alive()
  }

  /** How far exit or wait of process p has got. */
  ghost predicate ScanOk(s: Sys, p: nat)
    requires Sizes(s) && p < NPROC
  {
    match s.pc[p]
    case ExitReparent(k) => forall i | 0 <= i < k && i < NPROC :: !Child(s, i, p)
    case ExitWakeInit(k, j) => k < NPROC && forall i | 0 <= i <= k :: !Child(s, i, p)
    case ExitWakeParent(j) =>
      && (forall i | 0 <= i < NPROC :: !Child(s, i, p))
      && (forall q | 0 <= q < j && q < NPROC && Child(s, p, q) :: !SleepsInWait(s, q))
    case WaitScan(k, havekids) =>
      && (forall i | 0 <= i < k && i < NPROC && Child(s, i, p) :: s.procs[i].state != ZOMBIE)
      && (havekids <==> exists i :: 0 <= i < k && i < NPROC && Child(s, i, p))
    case WaitDecided =>
      && (forall i | 0 <= i < NPROC && Child(s, i, p) :: s.procs[i].state != ZOMBIE)
      && (exists i :: 0 <= i < NPROC && Child(s, i, p))
    case _ => true
  }

  /** Some process has given a child to init and is still about to wake it. */
  ghost predicate InitWillWake(initp: nat, s: Sys)
    requires Sizes(s)
  {
    && s.waitLock.Some? && s.waitLock.value < NPROC
    && s.pc[s.waitLock.value].ExitWakeInit? && s.pc[s.waitLock.value].j <= initp
  }

  /** A process asleep in wait has a child, and no zombie child, except that init may have
      just been given one by a process that is about to wake it. */
  ghost predicate WaiterOk(initp: nat, s: Sys, q: nat)
    requires Sizes(s) && q < NPROC
  {
    SleepsInWait(s, q) ==>
      && (exists i :: 0 <= i < NPROC && Child(s, i, q))
      && ((exists i :: 0 <= i < NPROC && Child(s, i, q) && s.procs[i].state == ZOMBIE) ==> q == initp && InitWillWake(initp, s))
  }

  /** Pids of present processes are positive, distinct and below nextpid. */
  ghost predicate LivePids(s: Sys)
    requires Sizes(s)
  {
    && s.nextpid > 0
    && (forall i | 0 <= i < NPROC && s.procs[i].state != UNUSED :: 0 < s.procs[i].pid < s.nextpid)
    && (forall i, j | 0 <= i < j < NPROC && s.procs[i].state != UNUSED && s.procs[j].state != UNUSED :: s.procs[i].pid != s.procs[j].pid)
  }

  /** wait() has returned each pid at most once, with its exit status, and none of them is
      the pid of a present process. */
  ghost predicate ReapedPids(s: Sys)
    requires Sizes(s)
  {
    && (forall k | 0 <= k < |s.reaped| :: s.reaped[k].0 < s.nextpid && s.reaped[k].0 in s.exited && s.exited[s.reaped[k].0] == s.reaped[k].1)
    && (forall k, i | 0 <= k < |s.reaped| && 0 <= i < NPROC && s.procs[i].state != UNUSED :: s.reaped[k].0 != s.procs[i].pid)
    && (forall k, l | 0 <= k < l < |s.reaped| :: s.reaped[k].0 != s.reaped[l].0)
  }

  /** Exactly the zombies and the reaped have exited. */
  ghost predicate ExitedPids(s: Sys)
    requires Sizes(s)
  {
    && (forall i | 0 <= i < NPROC && s.procs[i].state == ZOMBIE :: s.procs[i].pid in s.exited && s.exited[s.procs[i].pid] == s.procs[i].xstate)
    && (forall i | 0 <= i < NPROC && s.procs[i].state != ZOMBIE && s.procs[i].state != UNUSED :: s.procs[i].pid !in s.exited)
    && (forall pid | pid in s.exited :: pid < s.nextpid && Accounted(s, pid))
  }

  ghost predicate PidsOk(s: Sys)
    requires Sizes(s)
  {
    LivePids(s) && ReapedPids(s) && ExitedPids(s)
  }

  /** An exited process is a zombie or has been reaped. */
  ghost predicate Accounted(s: Sys, pid: nat) {
    || (exists i :: 0 <= i < |s.procs| && s.procs[i].state == ZOMBIE && s.procs[i].pid == pid)
    || (exists k :: 0 <= k < |s.reaped| && s.reaped[k].0 == pid)
  }

  ghost predicate Inv(initp: nat, s: Sys) {
    && Sizes(s) && LockOk(initp, s)
    && (forall i | 0 <= i < NPROC :: ThreadOk(initp, s, i))
    && (forall i | 0 <= i < NPROC :: ForkOk(s, i))
    && (forall i, j | 0 <= i < NPROC && 0 <= j < NPROC :: ForksDiffer(s, i, j))
    && (forall i | 0 <= i < NPROC :: ParentOk(s, i))
    && (forall p | 0 <= p < NPROC :: ScanOk(s, p))
    && (forall q | 0 <= q < NPROC :: WaiterOk(initp, s, q))
    && PidsOk(s)
  }
}
