/** The process table of kernel/proc.c and the loops over it: wakeup, reparent, exit, wait,
    kill, and the slot search of allocproc.  Each method extends a run of the process
    machine by the sections it executes. */
module ProcTable {
  import opened Options
  import opened ProcMachine
  import opened ProcSafety

  datatype Trace = Trace(ss: seq<Sys>, steps: seq<Step>)

  ghost predicate RunsTo(initp: nat, tr: Trace, s: Sys) {
    Run(initp, tr.ss, tr.steps) && tr.ss[|tr.ss|-1] == s
  }

  /** A run can be continued by one step. */
  lemma Extend(initp: nat, tr: Trace, s: Sys, step: Step, s': Sys) returns (tr': Trace)
    requires RunsTo(initp, tr, s) && Sizes(s) && Next(initp, s, step, s')
    ensures RunsTo(initp, tr', s')
  {
    tr' := Trace(tr.ss + [s'], tr.steps + [step]);
    forall k | 0 <= k < |tr'.ss| ensures Takes(initp, tr'.ss, tr'.steps, k) {
      if k < |tr.ss| {
        assert Takes(initp, tr.ss, tr.steps, k);
        assert tr'.ss[k] == tr.ss[k];
        assert k > 0 ==> tr'.ss[k-1] == tr.ss[k-1] && tr'.steps[k-1] == tr.steps[k-1];
      }
    }
  }

  lemma InvAtEnd(initp: nat, tr: Trace, s: Sys)
    requires RunsTo(initp, tr, s)
    ensures Inv(initp, s)
  {
    InvOverRuns(initp, tr.ss, tr.steps, |tr.ss| - 1);
  }

  /** A running process other than init has a parent, which is some other process. */
  lemma HasParent(initp: nat, tr: Trace, s: Sys, p: nat)
    requires RunsTo(initp, tr, s) && Sizes(s) && p < NPROC && s.procs[p].Alive() && p != initp
    ensures s.procs[p].parent.Some? && s.procs[p].parent.value < NPROC && s.procs[p].parent.value != p
  {
    InvAtEnd(initp, tr, s);
    assert ThreadOk(initp, s, p) && ParentOk(s, p);
  }

  // ---------------------------------------------------------------- what the loops compute

  /** What wakeup(chan), called by process p, leaves of each process. */
  function WakeAll(procs: seq<Proc>, p: nat, chan: Chan): (r: seq<Proc>) {
    seq(|procs|, i requires 0 <= i < |procs| => if i == p then procs[i] else WakeOne(procs[i], chan))
  }

  /** What kill leaves of the process it finds, field by field. */
  ghost predicate Marked(x: Proc, y: Proc) {
    && y.killed && y.state == (if x.state == SLEEPING then RUNNABLE else x.state)
    && y.chan == x.chan && y.parent == x.parent && y.pid == x.pid && y.xstate == x.xstate
  }

  /** What wakeup(chan) leaves of a process other than the caller, field by field. */
  ghost predicate Roused(x: Proc, chan: Chan, y: Proc) {
    && y.state == (if x.state == SLEEPING && x.chan == chan then RUNNABLE else x.state) && y.killed == x.killed
    && y.chan == x.chan && y.parent == x.parent && y.pid == x.pid && y.xstate == x.xstate
  }

  ghost predicate HasChild(procs: seq<Proc>, p: nat, k: nat) {
    exists i :: 0 <= i < k && i < |procs| && procs[i].parent == Some(p)
  }

  function GiveAway(x: Proc, p: nat, initp: nat): (y: Proc) {
    if x.parent == Some(p) then x.(parent := Some(initp)) else x
  }

  /** What reparent(p) leaves of process i, once slots below k have been visited. */
  ghost function Reparented(procs: seq<Proc>, p: nat, initp: nat, k: nat, i: nat): (y: Proc)
    requires i < |procs|
  {
    var y := if i < k then GiveAway(procs[i], p, initp) else procs[i];
    if i != p && HasChild(procs, p, k) then WakeOne(y, ProcChan(initp)) else y
  }

  /** One turn of reparent, pointwise. */
  lemma ReparentedNext(procs: seq<Proc>, p: nat, initp: nat, k: nat, i: nat)
    requires k < |procs| && i < |procs| && (k == p ==> procs[k].parent != Some(p))
    ensures var y := Reparented(procs, p, initp, k, i);
            Reparented(procs, p, initp, k + 1, i) ==
            if procs[k].parent == Some(p) then
              (var z := if i == k then y.(parent := Some(initp)) else y;
               if i == p then z else WakeOne(z, ProcChan(initp)))
            else y
  {
    assert HasChild(procs, p, k) ==> HasChild(procs, p, k + 1);
    if procs[k].parent == Some(p) {
      assert HasChild(procs, p, k + 1);
    } else {
      assert HasChild(procs, p, k + 1) ==> HasChild(procs, p, k);
    }
  }

  /** What exit(status) of p leaves of process i. */
  ghost function Exited(procs: seq<Proc>, p: nat, initp: nat, status: int, i: nat): (y: Proc)
    requires i < |procs| && p < |procs| && procs[p].parent.Some?
  {
    var y := Reparented(procs, p, initp, |procs|, i);
    if i == p then y.(state := ZOMBIE, xstate := status) else WakeOne(y, ProcChan(procs[p].parent.value))
  }

  ghost predicate IsZombieChild(procs: seq<Proc>, p: nat, k: nat)
    requires k < |procs|
  {
    procs[k].parent == Some(p) && procs[k].state == ZOMBIE
  }

  ghost predicate NoZombieChild(procs: seq<Proc>, p: nat, k: nat) {
    forall i | 0 <= i < k && i < |procs| :: !IsZombieChild(procs, p, i)
  }

  datatype WaitResult = Reaped(pid: nat, status: int) | CopyFailed | NoChildren | Slept

  /** wait() reaped the first zombie child of p, in slot k. */
  ghost predicate ReapedAt(was: seq<Proc>, now: seq<Proc>, p: nat, r: WaitResult, k: nat) {
    && k < |was| && IsZombieChild(was, p, k) && NoZombieChild(was, p, k)
    && r == Reaped(was[k].pid, was[k].xstate) && now == was[k := Freed(was[k])]
  }

  /** What a pass of wait() by p returns and leaves, by the children p has. */
  ghost predicate WaitOutcome(was: seq<Proc>, now: seq<Proc>, p: nat, copied: bool, r: WaitResult)
    requires p < |was|
  {
    if !NoZombieChild(was, p, |was|) then
      if copied then exists k :: ReapedAt(was, now, p, r, k) else r == CopyFailed && now == was
    else if !HasChild(was, p, |was|) || was[p].killed then r == NoChildren && now == was
    else r == Slept && now == was[p := was[p].(state := SLEEPING, chan := ProcChan(p))]
  }

  ghost predicate FirstUnused(procs: seq<Proc>, np: nat) {
    np < |procs| && procs[np].state == UNUSED && forall i | 0 <= i < np :: procs[i].state != UNUSED
  }

  /** What fork() by p returns and leaves: a new process in the first unused slot, or none
      if there is no slot or no memory; in that case the slot that was tried is blank. */
  ghost predicate ForkOutcome(was: seq<Proc>, now: seq<Proc>, p: nat, pid: nat, memory: bool, r: Option<nat>) {
    match r
    case Some(np) => memory && FirstUnused(was, np) && now == was[np := was[np].(state := RUNNABLE, parent := Some(p), pid := pid)]
    case None =>
      if exists np: nat :: FirstUnused(was, np) then
        !memory && exists np: nat :: FirstUnused(was, np) && now == was[np := Freed(was[np])]
      else now == was
  }

  lemma HasChildNext(procs: seq<Proc>, p: nat, k: nat)
    requires k < |procs|
    ensures HasChild(procs, p, k + 1) <==> HasChild(procs, p, k) || procs[k].parent == Some(p)
  {
    if HasChild(procs, p, k) {
      var i :| 0 <= i < k && procs[i].parent == Some(p);
      assert HasChild(procs, p, k + 1);
    }
  }

  class Table {
    const initp: nat
    const procs: array<Proc>
    var waitLock: Option<nat>
    var nextpid: nat

    ghost var pc: seq<Pc>
    ghost var exited: map<nat, int>
    ghost var reaped: seq<(nat, int)>
    ghost var tr: Trace

    ghost function State(): (s: Sys)
      reads this, procs
    {
      Sys(procs[..], pc, waitLock, nextpid, exited, reaped)
    }

    ghost predicate Valid()
      reads this, procs
    {
      procs.Length == NPROC && |pc| == NPROC && initp < NPROC && RunsTo(initp, tr, State())
    }

    /** userinit() */
    constructor (initp: nat)
      requires initp < NPROC
      ensures Valid() && fresh(procs) && this.initp == initp && Start(initp, State())
    {
      this.initp := initp;
      var a := new Proc[NPROC](_ => Proc(UNUSED, NoChan, None, false, 0, 0));
      a[initp] := Proc(RUNNABLE, NoChan, None, false, 1, 0);
      procs, waitLock, nextpid := a, None, 2;
      pc := seq(NPROC, i => NoThread)[initp := Outside];
      exited, reaped := map[], [];
      new;
      tr := Trace([State()], []);
      assert Takes(initp, tr.ss, tr.steps, 0);
    }

    method Put(i: nat, x: Proc)
      requires i < procs.Length
      modifies procs
      ensures procs[..] == old(procs[..])[i := x]
    {
      procs[i] := x;
    }

    /** A step in which only the program counter of p moves. */
    ghost method Move(p: nat, c: Pc, step: Step)
      requires Valid() && p < NPROC && Next(initp, State(), step, State().(pc := pc[p := c]))
      modifies this`pc, this`tr
      ensures Valid() && pc == old(pc)[p := c]
    {
      var s := State();
      pc := pc[p := c];
      tr := Extend(initp, tr, s, step, State());
    }

    /** acquire(&wait_lock) by p. */
    method Acquire(p: nat, ghost c: Pc, ghost step: Step)
      requires Valid() && p < NPROC && Next(initp, State(), step, State().(waitLock := Some(p), pc := pc[p := c]))
      modifies this`waitLock, this`pc, this`tr
      ensures Valid() && waitLock == Some(p) && pc == old(pc)[p := c]
    {
      ghost var s := State();
      waitLock := Some(p);
      pc := pc[p := c];
      tr := Extend(initp, tr, s, step, State());
    }

    /** Where process p is in exit() when wakeup has come to slot j. */
    ghost function Waking(toInit: Option<nat>, j: nat): (c: Pc) {
      if toInit.Some? then ExitWakeInit(toInit.value, j) else ExitWakeParent(j)
    }

    /** Whom p is waking: init, or its parent. */
    ghost predicate WakesOn(p: nat, chan: Chan, toInit: Option<nat>)
      reads this, procs
    {
      if toInit.Some? then chan == ProcChan(initp)
      else p < procs.Length && procs[p].parent.Some? && chan == ProcChan(procs[p].parent.value)
    }

    /** A turn of wakeup. */
    method WakeSlot(p: nat, j: nat, chan: Chan, ghost toInit: Option<nat>)
      requires Valid() && p < NPROC && j < NPROC && procs[p].state == RUNNING && pc[p] == Waking(toInit, j)
      requires WakesOn(p, chan, toInit)
      modifies procs, this`pc, this`tr
      ensures Valid() && pc == old(pc)[p := Waking(toInit, j + 1)]
      ensures procs[..] == if j == p then old(procs[..]) else old(procs[..])[j := WakeOne(old(procs[j]), chan)]
    {
      ghost var s := State();
      if j != p {
        Put(j, WakeOne(procs[j], chan));
      }
      pc := pc[p := Waking(toInit, j + 1)];
      tr := Extend(initp, tr, s, if toInit.Some? then SWakeInit(p) else SWakeParent(p), State());
    }

    /** wakeup(chan) called by process p, which holds wait_lock in exit(). */
    method Wakeup(p: nat, chan: Chan, ghost toInit: Option<nat>)
      requires Valid() && p < NPROC && procs[p].state == RUNNING
      requires pc[p] == Waking(toInit, 0) && WakesOn(p, chan, toInit)
      modifies procs, this`pc, this`tr
      ensures Valid() && procs[..] == WakeAll(old(procs[..]), p, chan)
      ensures forall i | 0 <= i < NPROC && i != p :: Roused(old(procs[..])[i], chan, procs[i])
      ensures pc == old(pc)[p := Waking(toInit, NPROC)]
    {
      ghost var was := procs[..];
      var j := 0;
      while j < NPROC
        invariant 0 <= j <= NPROC && Valid()
        invariant forall i | 0 <= i < NPROC :: procs[i] == if i == p || i >= j then was[i] else WakeOne(was[i], chan)
        invariant pc == old(pc)[p := Waking(toInit, j)]
      {
        WakeSlot(p, j, chan, toInit);
        j := j + 1;
      }
      assert procs[..] == WakeAll(was, p, chan);
    }

    /** reparent(p), called with wait_lock held. */
    method Reparent(p: nat)
      requires Valid() && p < NPROC && p != initp && procs[p].state == RUNNING && pc[p] == ExitReparent(0)
      requires procs[p].parent != Some(p)
      modifies procs, this`pc, this`tr
      ensures Valid() && pc == old(pc)[p := ExitReparent(NPROC)]
      ensures forall i | 0 <= i < NPROC :: procs[i] == Reparented(old(procs[..]), p, initp, NPROC, i)
    {
      ghost var was := procs[..];
      var k := 0;
      while k < NPROC
        invariant 0 <= k <= NPROC && Valid() && pc == old(pc)[p := ExitReparent(k)]
        invariant forall i | 0 <= i < NPROC :: procs[i] == Reparented(was, p, initp, k, i)
      {
        ReparentTurn(p, k, was);
        k := k + 1;
      }
    }

    method ReparentTurn(p: nat, k: nat, ghost was: seq<Proc>)
      requires Valid() && p < NPROC && k < NPROC && procs[p].state == RUNNING && pc[p] == ExitReparent(k)
      requires |was| == NPROC && was[p].parent != Some(p)
      requires forall i | 0 <= i < NPROC :: procs[i] == Reparented(was, p, initp, k, i)
      modifies procs, this`pc, this`tr
      ensures Valid() && pc == old(pc)[p := ExitReparent(k + 1)]
      ensures forall i | 0 <= i < NPROC :: procs[i] == Reparented(was, p, initp, k + 1, i)
    {
      forall i | 0 <= i < NPROC {
        ReparentedNext(was, p, initp, k, i);
      }
      if procs[k].parent == Some(p) {
        GiveAwayChild(p, k);
      } else {
        Move(p, ExitReparent(k + 1), SReparent(p));
      }
    }

    /** Slot k is a child of p: it goes to init, which is woken. */
    method GiveAwayChild(p: nat, k: nat)
      requires Valid() && p < NPROC && k < NPROC && k != p && procs[p].state == RUNNING && pc[p] == ExitReparent(k)
      requires procs[k].parent == Some(p)
      modifies procs, this`pc, this`tr
      ensures Valid() && pc == old(pc)[p := ExitReparent(k + 1)]
      ensures procs[..] == WakeAll(old(procs[..])[k := old(procs[k]).(parent := Some(initp))], p, ProcChan(initp))
    {
      ghost var s := State();
      Put(k, procs[k].(parent := Some(initp)));
      pc := pc[p := ExitWakeInit(k, 0)];
      tr := Extend(initp, tr, s, SReparent(p), State());
      Wakeup(p, ProcChan(initp), Some(k));
      Move(p, ExitReparent(k + 1), SWakeInit(p));
    }

    /** The part of exit() that involves the process table. */
    method Exit(p: nat, status: int)
      requires Valid() && p < NPROC && p != initp && procs[p].state == RUNNING && pc[p].Outside? && waitLock.None?
      modifies procs, this`pc, this`tr, this`waitLock, this`exited
      ensures Valid() && waitLock.None? && pc[p].NoThread?
      ensures old(procs[p].parent).Some?
      ensures forall i | 0 <= i < NPROC :: procs[i] == Exited(old(procs[..]), p, initp, status, i)
    {
      HasParent(initp, tr, State(), p);
      Acquire(p, ExitReparent(0), SExitStart(p));
      Reparent(p);
      Move(p, ExitWakeParent(0), SReparent(p));
      Wakeup(p, ProcChan(procs[p].parent.value), None);
      BecomeZombie(p, status);
    }

    /** The end of exit(). */
    method BecomeZombie(p: nat, status: int)
      requires Valid() && p < NPROC && procs[p].state == RUNNING && pc[p] == ExitWakeParent(NPROC)
      modifies procs, this`pc, this`tr, this`waitLock, this`exited
      ensures Valid() && waitLock.None? && pc[p].NoThread?
      ensures procs[..] == old(procs[..])[p := old(procs[p]).(state := ZOMBIE, xstate := status)]
    {
      ghost var s := State();
      exited := exited[procs[p].pid := status];
      Put(p, procs[p].(state := ZOMBIE, xstate := status));
      pc := pc[p := NoThread];
      waitLock := None;
      tr := Extend(initp, tr, s, SZombie(p, status), State());
    }

    /** One pass of wait(): reap the first zombie child, give up, or sleep. */
    method WaitPass(p: nat, copied: bool) returns (r: WaitResult)
      requires Valid() && p < NPROC && procs[p].state == RUNNING && (pc[p].Outside? || pc[p].WaitRetry?) && waitLock.None?
      modifies procs, this`pc, this`tr, this`waitLock, this`reaped
      ensures Valid() && waitLock.None?
      ensures WaitOutcome(old(procs[..]), procs[..], p, copied, r)
    {
      ghost var was := procs[..];
      Acquire(p, WaitScan(0, false), SWaitStart(p));
      var havekids := false;
      var k := 0;
      while k < NPROC
        invariant 0 <= k <= NPROC && Valid() && procs[..] == was && procs[p].state == RUNNING
        invariant pc[p] == WaitScan(k, havekids)
        invariant NoZombieChild(was, p, k) && havekids == HasChild(was, p, k)
      {
        HasChildNext(was, p, k);
        if procs[k].parent == Some(p) {
          if procs[k].state == ZOMBIE {
            assert IsZombieChild(was, p, k);
            r := Reap(p, k, havekids, copied);
            assert copied ==> ReapedAt(was, procs[..], p, r, k);
            return;
          }
          havekids := true;
        }
        ScanOne(p, k, havekids, copied);
        k := k + 1;
      }
      r := EndPass(p, havekids);
    }

    /** wait() moves past slot k. */
    ghost method ScanOne(p: nat, k: nat, havekids: bool, copied: bool)
      requires Valid() && p < NPROC && k < NPROC && procs[p].state == RUNNING && pc[p].WaitScan? && pc[p].k == k
      requires procs[k].parent == Some(p) ==> procs[k].state != ZOMBIE
      requires havekids == (pc[p].havekids || procs[k].parent == Some(p))
      modifies this`pc, this`tr
      ensures Valid() && pc == old(pc)[p := WaitScan(k + 1, havekids)]
    {
      Move(p, WaitScan(k + 1, havekids), SScan(p, copied));
    }

    /** wait() has found a zombie child in slot k. */
    method Reap(p: nat, k: nat, ghost havekids: bool, copied: bool) returns (r: WaitResult)
      requires Valid() && p < NPROC && k < NPROC && procs[p].state == RUNNING && pc[p] == WaitScan(k, havekids)
      requires IsZombieChild(procs[..], p, k)
      modifies procs, this`pc, this`tr, this`waitLock, this`reaped
      ensures Valid() && waitLock.None?
      ensures if copied then
                && r == Reaped(old(procs[..])[k].pid, old(procs[..])[k].xstate)
                && procs[..] == old(procs[..])[k := Freed(old(procs[..])[k])] && procs[k].state == UNUSED && procs[k].pid == 0
                && procs[k].parent.None? && procs[k].chan == NoChan && !procs[k].killed && procs[k].xstate == 0
              else r == CopyFailed && procs[..] == old(procs[..])
    {
      ghost var s := State();
      waitLock := None;
      pc := pc[p := Outside];
      if !copied {
        tr := Extend(initp, tr, s, SScan(p, false), State());
        return CopyFailed;
      }
      r := Reaped(procs[k].pid, procs[k].xstate);
      reaped := reaped + [(r.pid, r.status)];
      Put(k, Freed(procs[k]));
      tr := Extend(initp, tr, s, SScan(p, true), State());
    }

    /** wait() has found no zombie child. */
    method EndPass(p: nat, havekids: bool) returns (r: WaitResult)
      requires Valid() && p < NPROC && procs[p].state == RUNNING && pc[p] == WaitScan(NPROC, havekids)
      modifies procs, this`pc, this`tr, this`waitLock
      ensures Valid() && waitLock.None?
      ensures if !havekids || old(procs[p]).killed then r == NoChildren && procs[..] == old(procs[..])
              else r == Slept && procs[..] == old(procs[..])[p := old(procs[p]).(state := SLEEPING, chan := ProcChan(p))]
    {
      ghost var s := State();
      if !havekids || procs[p].killed {
        waitLock := None;
        pc := pc[p := Outside];
        tr := Extend(initp, tr, s, SWaitEnd(p), State());
        return NoChildren;
      }
      Move(p, WaitDecided, SWaitEnd(p));
      s := State();
      Put(p, procs[p].(state := SLEEPING, chan := ProcChan(p)));
      waitLock := None;
      pc := pc[p := WaitSleep];
      tr := Extend(initp, tr, s, SWaitSleep(p), State());
      return Slept;
    }

    /** kill(pid); false is the return value -1. */
    method Kill(pid: nat) returns (found: bool)
      requires Valid()
      modifies procs, this`tr
      ensures Valid()
      ensures found <==> exists i :: 0 <= i < NPROC && old(procs[..])[i].pid == pid
      ensures if found then exists i :: 0 <= i < NPROC && old(procs[..])[i].pid == pid
                              && (forall j | 0 <= j < i :: old(procs[..])[j].pid != pid)
                              && Marked(old(procs[..])[i], procs[..][i])
                              && procs[..] == old(procs[..])[i := KillOne(old(procs[..])[i])]
              else procs[..] == old(procs[..])
    {
      var i := 0;
      while i < NPROC
        invariant 0 <= i <= NPROC && forall j | 0 <= j < i :: procs[j].pid != pid
      {
        if procs[i].pid == pid {
          ghost var s := State();
          Put(i, KillOne(procs[i]));
          tr := Extend(initp, tr, s, SKill(i), State());
          return true;
        }
        i := i + 1;
      }
      return false;
    }

    /** The search of allocproc, for process p: the first unused slot is taken. */
    method AllocProc(p: nat) returns (r: Option<nat>)
      requires Valid() && p < NPROC && procs[p].state == RUNNING && pc[p].Outside?
      modifies procs, this`pc, this`tr, this`nextpid
      ensures Valid()
      ensures r.None? ==> State() == old(State()) && forall i | 0 <= i < NPROC :: procs[i].state != UNUSED
      ensures r.Some? ==>
                && FirstUnused(old(procs[..]), r.value) && pc == old(pc)[p := ForkAllocated(r.value)]
                && procs[..] == old(procs[..])[r.value := old(procs[..])[r.value].(state := USED, pid := old(nextpid))]
                && nextpid == old(nextpid) + 1
    {
      var np := 0;
      while np < NPROC && procs[np].state != UNUSED
        invariant 0 <= np <= NPROC && forall i | 0 <= i < np :: procs[i].state != UNUSED
      {
        np := np + 1;
      }
      if np == NPROC {
        return None;
      }
      ghost var s := State();
      Put(np, procs[np].(state := USED, pid := nextpid));
      nextpid := nextpid + 1;
      pc := pc[p := ForkAllocated(np)];
      tr := Extend(initp, tr, s, SForkAlloc(p, np), State());
      return Some(np);
    }

    /** fork(); `memory` says whether there is memory for the trapframe, the page table and the
        copy of the parent's memory.  None is the return value -1. */
    method Fork(p: nat, memory: bool) returns (r: Option<nat>)
      requires Valid() && p < NPROC && procs[p].state == RUNNING && pc[p].Outside? && waitLock.None?
      modifies procs, this`pc, this`tr, this`nextpid
      ensures Valid()
      ensures ForkOutcome(old(procs[..]), procs[..], p, old(nextpid), memory, r)
      ensures pc == if r.Some? then old(pc)[r.value := Outside] else old(pc)
    {
      r := AllocProc(p);
      if r.None? {
        return;
      }
      if !memory {
        ghost var s := State();
        Put(r.value, Freed(procs[r.value]));
        pc := pc[p := Outside];
        tr := Extend(initp, tr, s, SForkFail(p), State());
        assert FirstUnused(old(procs[..]), r.value);
        return None;
      }
      StartChild(p, r.value);
    }

    /** The end of fork(). */
    method StartChild(p: nat, np: nat)
      requires Valid() && p < NPROC && np < NPROC && np != p && procs[p].state == RUNNING && waitLock.None?
      requires pc[p] == ForkAllocated(np)
      modifies procs, this`pc, this`tr
      ensures Valid() && pc == old(pc)[p := Outside][np := Outside]
      ensures procs[..] == old(procs[..])[np := old(procs[np]).(state := RUNNABLE, parent := Some(p))]
    {
      ghost var s := State();
      Put(np, procs[np].(parent := Some(p)));
      pc := pc[p := ForkParented(np)];
      tr := Extend(initp, tr, s, SForkParent(p), State());
      s := State();
      Put(np, procs[np].(state := RUNNABLE));
      pc := pc[p := Outside][np := Outside];
      tr := Extend(initp, tr, s, SForkRun(p), State());
    }
  }
}
