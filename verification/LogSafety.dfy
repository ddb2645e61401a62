/** Every step of the log machine keeps its invariant, and what follows over whole runs:
    crash atomicity, and refinement of a flat block store. */
module LogSafety {
  import opened Options
  import opened Blocks
  import opened BufferCache
  import opened LogMachine
  import A = LogAdmission

  // ---------------------------------------------------------------- buffers

  lemma {:induction false} CountPendUpdate(pend: seq<Pend>, t: nat, p: Pend, i: nat)
    requires t < |pend|
    ensures CountPend(pend[t := p], i) == CountPend(pend, i) - Bit(PendsOn(pend[t], i)) + Bit(PendsOn(p, i))
    ensures CountPend(pend, i) >= Bit(PendsOn(pend[t], i))
  {
    if t == 0 {
      assert pend[t := p][1..] == pend[1..];
    } else {
      assert pend[t := p][1..] == pend[1..][t - 1 := p];
      CountPendUpdate(pend[1..], t - 1, p, i);
    }
  }

  /** A pinned block stays cached when some other buffer changes. */
  lemma PinsStay(c: Cache, c': Cache, pins: seq<nat>)
    requires forall x | x in pins :: Cached(c, x)
    requires |c'.bufs| == |c.bufs|
    requires forall i | 0 <= i < |c.bufs| && Pinned(c, pins, i) && c.bufs[i].valid ::
               c'.bufs[i].valid && c'.bufs[i].dev == c.bufs[i].dev && c'.bufs[i].blockno == c.bufs[i].blockno
    ensures forall x | x in pins :: Cached(c', x)
  {
    forall x | x in pins ensures Cached(c', x) {
      assert Cached(c, x);
      var j :| 0 <= j < |c.bufs| && c.bufs[j].valid && c.bufs[j].Holds(ROOTDEV, x);
      assert Pinned(c, pins, j);
      assert c'.bufs[j].valid && c'.bufs[j].Holds(ROOTDEV, x);
    }
  }

  lemma GetContents(lay: Layout, c: Cache, disk: Disk, store: Disk, holder: seq<Option<nat>>,
                    pend: seq<Pend>, pins: seq<nat>, b: nat)
    requires WellFormed(c) && BuffersOk(lay, c, disk, store, holder, pend, pins)
    requires b < lay.size && Get(c, ROOTDEV, b).Got?
    ensures var Got(c', i) := Get(c, ROOTDEV, b);
            WellFormed(c') && i < NBUF && KeysOk(lay, c') && PinsOk(lay, c', pins) && Coherent(c', disk, store, pins)
  {
    GetCorrect(c, ROOTDEV, b);
    var Got(c', i) := Get(c, ROOTDEV, b);
    assert Pinned(c, pins, i) ==> c.bufs[i].refcnt > 0;
    PinsStay(c, c', pins);
    forall j | 0 <= j < NBUF && c'.bufs[j].valid ensures c'.bufs[j] == c.bufs[j].(refcnt := c'.bufs[j].refcnt) {
    }
  }

  lemma GetRefs(lay: Layout, c: Cache, disk: Disk, store: Disk, holder: seq<Option<nat>>,
                pend: seq<Pend>, pins: seq<nat>, t: nat, b: nat)
    requires WellFormed(c) && BuffersOk(lay, c, disk, store, holder, pend, pins)
    requires t < |pend| && pend[t].Free? && b < lay.size && Get(c, ROOTDEV, b).Got?
    ensures var Got(c', i) := Get(c, ROOTDEV, b);
            |c'.bufs| == |holder| && RefsOk(c', holder, pend[t := Wants(i)], pins)
  {
    GetCorrect(c, ROOTDEV, b);
    var Got(c', i) := Get(c, ROOTDEV, b);
    if b in pins {
      assert Cached(c, b);
    }
    forall j | 0 <= j < NBUF
      ensures CountPend(pend[t := Wants(i)], j) == CountPend(pend, j) + Bit(j == i)
    {
      CountPendUpdate(pend, t, Wants(i), j);
    }
  }

  lemma GetKeeps(lay: Layout, s: Sys, t: nat, b: nat, s': Sys)
    requires Inv(lay, s) && GetStep(lay, s, t, b, s')
    ensures Inv(lay, s')
  {
    assert Pins(s') == Pins(s);
    GetContents(lay, s.cache, s.disk, s.store, s.holder, s.pend, Pins(s), b);
    GetRefs(lay, s.cache, s.disk, s.store, s.holder, s.pend, Pins(s), t, b);
  }

  lemma LockKeeps(lay: Layout, s: Sys, t: nat, s': Sys)
    requires Inv(lay, s) && LockStep(lay, s, t, s')
    ensures Inv(lay, s')
  {
    assert Pins(s') == Pins(s);
    forall j | 0 <= j < NBUF
      ensures CountPend(s'.pend, j) == CountPend(s.pend, j) - Bit(j == s.pend[t].i)
    {
      CountPendUpdate(s.pend, t, Free, j);
    }
  }

  lemma UnlockKeeps(lay: Layout, s: Sys, t: nat, i: nat, s': Sys)
    requires Inv(lay, s) && UnlockStep(lay, s, t, i, s')
    ensures Inv(lay, s')
  {
    assert Pins(s') == Pins(s);
    forall j | 0 <= j < NBUF
      ensures CountPend(s'.pend, j) == CountPend(s.pend, j) + Bit(j == i)
    {
      CountPendUpdate(s.pend, t, Drops(i), j);
    }
  }

  lemma DropBuffers(lay: Layout, c: Cache, disk: Disk, store: Disk, holder: seq<Option<nat>>,
                    pend: seq<Pend>, pins: seq<nat>, t: nat)
    requires WellFormed(c) && BuffersOk(lay, c, disk, store, holder, pend, pins)
    requires t < |pend| && pend[t].Drops? && pend[t].i < NBUF && c.bufs[pend[t].i].refcnt > 0
    ensures var c' := Drop(c, pend[t].i);
            WellFormed(c') && BuffersOk(lay, c', disk, store, holder, pend[t := Free], pins)
  {
    var i := pend[t].i;
    var c' := Drop(c, i);
    if c.bufs[i].refcnt == 1 {
      MoveToFrontPermutes(c.lru, i, NBUF);
    }
    forall j | 0 <= j < NBUF
      ensures CountPend(pend[t := Free], j) == CountPend(pend, j) - Bit(j == i)
    {
      CountPendUpdate(pend, t, Free, j);
    }
    PinsStay(c, c', pins);
    assert KeysOk(lay, c');
    assert RefsOk(c', holder, pend[t := Free], pins);
    assert Coherent(c', disk, store, pins);
  }

  lemma DropKeeps(lay: Layout, s: Sys, t: nat, s': Sys)
    requires Inv(lay, s) && DropStep(lay, s, t, s')
    ensures Inv(lay, s')
  {
    assert Pins(s') == Pins(s);
    DropBuffers(lay, s.cache, s.disk, s.store, s.holder, s.pend, Pins(s), t);
  }

  // ---------------------------------------------------------------- block writes

  /** Filling a buffer that was not valid, or writing a buffer through to the disk. */
  lemma WriteThrough(lay: Layout, c: Cache, disk: Disk, store: Disk,
                     holder: seq<Option<nat>>, pend: seq<Pend>, pins: seq<nat>, i: nat, b: nat, d: Block)
    requires BuffersOk(lay, c, disk, store, holder, pend, pins)
    requires i < |c.bufs| && c.bufs[i].Holds(ROOTDEV, b) && b !in pins
    ensures BuffersOk(lay, PutData(c, i, d), disk[b := d], store, holder, pend, pins)
  {
    var c' := PutData(c, i, d);
    PinsStay(c, c', pins);
    forall j | 0 <= j < |c.bufs| ensures Pinned(c', pins, j) == Pinned(c, pins, j) {
    }
  }

  /** A buffer that is not valid holds no pinned block. */
  lemma NotValidNotPinned(lay: Layout, c: Cache, pins: seq<nat>, i: nat)
    requires KeysOk(lay, c) && PinsOk(lay, c, pins) && i < |c.bufs| && !c.bufs[i].valid
    ensures !Pinned(c, pins, i)
  {
    assert Pinned(c, pins, i) ==> Cached(c, c.bufs[i].blockno);
  }

  lemma FillKeeps(lay: Layout, s: Sys, t: nat, i: nat, s': Sys)
    requires Inv(lay, s) && FillStep(lay, s, t, i, s')
    ensures Inv(lay, s')
  {
    assert Pins(s') == Pins(s);
    var b := s.cache.bufs[i].blockno;
    NotValidNotPinned(lay, s.cache, Pins(s), i);
    WriteThrough(lay, s.cache, s.disk, s.store, s.holder, s.pend, Pins(s), i, b, s.disk[b]);
    assert s.disk[b := s.disk[b]] == s.disk;
  }

  lemma CopyPhase(lay: Layout, disk: Disk, store: Disk, durable: Disk, list: seq<nat>, t: nat, tail: nat)
    requires Recoverable(lay, disk, durable) && ListOk(lay, list) && tail < |list| && list[tail] in store
    requires PhaseOk(lay, disk, store, durable, list, Copying(t, tail))
    ensures var disk' := disk[lay.LogBlock(tail) := store[list[tail]]];
            && Recoverable(lay, disk', durable)
            && PhaseOk(lay, disk', store, durable, list, Copying(t, tail + 1))
  {
    assert !lay.Home(lay.LogBlock(tail)) && lay.LogBlock(tail) != lay.start;
  }

  lemma CopyBuffers(lay: Layout, s: Sys, t: nat, to: nat, src: nat, s': Sys)
    requires Inv(lay, s) && CopyStep(lay, s, t, to, src, s')
    ensures Shape(lay, s') && BuffersOk(lay, s'.cache, s'.disk, s'.store, s'.holder, s'.pend, Pins(s'))
    ensures var b := s.log.block[s.phase.tail]; b in s.store && s.cache.bufs[src].data == s.store[b]
  {
    WriteThrough(lay, s.cache, s.disk, s.store, s.holder, s.pend, Pins(s), to, lay.LogBlock(s.phase.tail), s.cache.bufs[src].data);
    assert Pinned(s.cache, Pins(s), src);
  }

  lemma CopyKeeps(lay: Layout, s: Sys, t: nat, to: nat, src: nat, s': Sys)
    requires Inv(lay, s) && CopyStep(lay, s, t, to, src, s')
    ensures Inv(lay, s')
  {
    CopyBuffers(lay, s, t, to, src, s');
    CopyPhase(lay, s.disk, s.store, s.durable, s.log.block, t, s.phase.tail);
  }

  lemma HeadPhase(lay: Layout, disk: Disk, store: Disk, durable: Disk, list: seq<nat>, t: nat, d: Block)
    requires Recoverable(lay, disk, durable) && ListOk(lay, list) && HeaderFits(d) && HeaderList(d) == list
    requires forall b: nat :: b in store <==> lay.Home(b)
    requires PhaseOk(lay, disk, store, durable, list, Copying(t, |list|))
    ensures var disk' := disk[lay.start := d];
            && Recoverable(lay, disk', store)
            && PhaseOk(lay, disk', store, store, list, Installing(t, 0))
  {
    assert list[0..] == list;
    assert LogCopies(lay, disk, store, list, |list|);
    assert HomeIs(lay, disk, store, list);
  }

  lemma HeadKeeps(lay: Layout, s: Sys, t: nat, h: nat, s': Sys)
    requires Inv(lay, s) && HeadStep(lay, s, t, h, s')
    ensures Inv(lay, s')
  {
    PinsInstalling(s');
    var d := s'.disk[lay.start];
    WriteThrough(lay, s.cache, s.disk, s.store, s.holder, s.pend, Pins(s), h, lay.start, d);
    HeadPhase(lay, s.disk, s.store, s.durable, s.log.block, t, d);
    assert s.log.block[0..] == s.log.block;
  }

  lemma ClearKeeps(lay: Layout, s: Sys, t: nat, h: nat, s': Sys)
    requires Inv(lay, s) && ClearStep(lay, s, t, h, s')
    ensures Inv(lay, s')
  {
    assert Pins(s') == Pins(s) == [];
    WriteThrough(lay, s.cache, s.disk, s.store, s.holder, s.pend, [], h, lay.start, s'.disk[lay.start]);
  }

  lemma ReplayClearKeeps(lay: Layout, s: Sys, t: nat, h: nat, s': Sys)
    requires Inv(lay, s) && ReplayClearStep(lay, s, t, h, s')
    ensures Inv(lay, s')
  {
    assert Pins(s') == Pins(s) == [];
    WriteThrough(lay, s.cache, s.disk, s.store, s.holder, s.pend, [], h, lay.start, s'.disk[lay.start]);
    A.InitInv();
    assert s.log == A.Init();
    ClearedPhase(lay, s.disk, s.store, s.durable, Encode(s.cache.bufs[h].data, []));
  }

  /** The state of the disk and the log once recovery has erased the header. */
  lemma ClearedPhase(lay: Layout, disk: Disk, store: Disk, durable: Disk, d: Block)
    requires Recoverable(lay, disk, durable) && store == durable && HomeIs(lay, disk, store, [])
    requires HeaderFits(d) && HeaderList(d) == []
    ensures Recoverable(lay, disk[lay.start := d], durable)
    ensures PhaseOk(lay, disk[lay.start := d], store, durable, [], Running)
  {
    ClearedDisk(lay, disk, durable, d);
  }

  /** With every home block in place the header can be erased. */
  lemma ClearedDisk(lay: Layout, disk: Disk, durable: Disk, d: Block)
    requires Recoverable(lay, disk, durable) && HomeIs(lay, disk, durable, [])
    requires HeaderFits(d) && HeaderList(d) == []
    ensures Recoverable(lay, disk[lay.start := d], durable) && HomeIs(lay, disk[lay.start := d], durable, [])
  {
  }

  /** Installing a logged block leaves the disk recoverable to the same contents. */
  lemma InstalledDisk(lay: Layout, disk: Disk, durable: Disk, k: nat)
    requires Recoverable(lay, disk, durable) && k < |HeaderList(disk[lay.start])|
    ensures var b := HeaderList(disk[lay.start])[k];
            b != lay.start && Recoverable(lay, disk[b := durable[b]], durable)
  {
    var list := HeaderList(disk[lay.start]);
    assert lay.Home(list[k]);
  }

  /** During recovery a buffer of the log block holds what was committed. */
  lemma ReplayedData(lay: Layout, s: Sys, l: nat)
    requires Inv(lay, s) && s.phase.Replaying? && s.phase.tail < |s.log.block|
    requires l < NBUF && s.cache.bufs[l].valid && s.cache.bufs[l].Holds(ROOTDEV, lay.LogBlock(s.phase.tail))
    ensures var b := s.log.block[s.phase.tail]; b in s.durable && s.cache.bufs[l].data == s.durable[b]
  {
    assert !Pinned(s.cache, Pins(s), l);
    assert s.cache.bufs[l].data == s.disk[lay.LogBlock(s.phase.tail)];
  }

  lemma ReplayPhase(lay: Layout, disk: Disk, durable: Disk, list: seq<nat>, t: nat, tail: nat)
    requires Recoverable(lay, disk, durable) && ListOk(lay, list) && tail < |list|
    requires PhaseOk(lay, disk, durable, durable, list, Replaying(t, tail))
    ensures var disk' := disk[list[tail] := durable[list[tail]]];
            && Recoverable(lay, disk', durable)
            && PhaseOk(lay, disk', durable, durable, list, Replaying(t, tail + 1))
  {
    InstalledOne(lay, disk, durable, list, tail);
    InstalledDisk(lay, disk, durable, tail);
  }

  lemma ReplayKeeps(lay: Layout, s: Sys, t: nat, l: nat, d: nat, s': Sys)
    requires Inv(lay, s) && ReplayStep(lay, s, t, l, d, s')
    ensures Inv(lay, s')
  {
    ReplayedData(lay, s, l);
    ReplayBuffers(lay, s, t, l, d, s');
    ReplayDisk(lay, s, t, l, d, s');
  }

  lemma ReplayBuffers(lay: Layout, s: Sys, t: nat, l: nat, d: nat, s': Sys)
    requires Inv(lay, s) && ReplayStep(lay, s, t, l, d, s')
    ensures Shape(lay, s') && BuffersOk(lay, s'.cache, s'.disk, s'.store, s'.holder, s'.pend, Pins(s'))
  {
    assert Pins(s') == Pins(s) == [];
    WriteThrough(lay, s.cache, s.disk, s.store, s.holder, s.pend, [], d, s.log.block[s.phase.tail], s.cache.bufs[l].data);
  }

  lemma ReplayDisk(lay: Layout, s: Sys, t: nat, l: nat, d: nat, s': Sys)
    requires Shape(lay, s) && ReplayStep(lay, s, t, l, d, s')
    requires Recoverable(lay, s.disk, s.durable) && LogOk(s.log, s.phase) && ListOk(lay, s.log.block)
    requires PhaseOk(lay, s.disk, s.store, s.durable, s.log.block, s.phase)
    requires var b := s.log.block[s.phase.tail]; b in s.durable && s.cache.bufs[l].data == s.durable[b]
    ensures Recoverable(lay, s'.disk, s'.durable) && LogOk(s'.log, s'.phase) && ListOk(lay, s'.log.block)
    ensures PhaseOk(lay, s'.disk, s'.store, s'.durable, s'.log.block, s'.phase)
  {
    assert s.store == s.durable && s.phase == Replaying(t, s.phase.tail) && s'.phase == Replaying(t, s.phase.tail + 1);
    ReplayPhase(lay, s.disk, s.durable, s.log.block, t, s.phase.tail);
  }

  /** Installing block `tail` leaves one home block fewer to install. */
  lemma InstalledOne(lay: Layout, disk: Disk, m: Disk, list: seq<nat>, tail: nat)
    requires ListOk(lay, list) && tail < |list| && list[tail] in m
    requires HomeIs(lay, disk, m, list[tail..])
    ensures HomeIs(lay, disk[list[tail] := m[list[tail]]], m, list[tail + 1..])
  {
    assert list[tail..] == [list[tail]] + list[tail + 1..];
  }

  lemma TailOf(lay: Layout, list: seq<nat>, tail: nat)
    requires ListOk(lay, list) && tail < |list|
    ensures list[tail..] == [list[tail]] + list[tail + 1..] && list[tail] !in list[tail + 1..]
  {
  }

  lemma PinsInstalling(s: Sys)
    requires s.phase.Installing? && s.phase.tail <= |s.log.block|
    ensures Pins(s) == s.log.block[s.phase.tail..]
  {
  }

  lemma InstallBuffers(lay: Layout, s: Sys, t: nat, l: nat, d: nat, s': Sys)
    requires Inv(lay, s) && InstallStep(lay, s, t, l, d, s')
    ensures Shape(lay, s') && BuffersOk(lay, s'.cache, s'.disk, s'.store, s'.holder, s'.pend, Pins(s'))
    ensures var b := s.log.block[s.phase.tail]; b in s.store && s'.disk == s.disk[b := s.store[b]]
  {
    var tail := s.phase.tail;
    var b := s.log.block[tail];
    var rest := s.log.block[tail + 1..];
    TailOf(lay, s.log.block, tail);
    LoggedData(lay, s, l);
    PinsInstalling(s);
    PinsInstalling(s');
    var c' := Unpin(PutData(s.cache, d, s.store[b]), d);
    var disk' := s.disk[b := s.store[b]];
    assert s'.cache == c' && s'.disk == disk';
    assert BuffersOk(lay, c', disk', s.store, s.holder, s.pend, rest) by {
      UnpinBuffers(lay, s.cache, s.disk, s.store, s.holder, s.pend, b, rest, d);
    }
  }

  lemma InstallPhase(lay: Layout, disk: Disk, store: Disk, durable: Disk, list: seq<nat>, phase: Phase)
    requires Recoverable(lay, disk, durable) && ListOk(lay, list) && phase.Installing? && phase.tail < |list|
    requires PhaseOk(lay, disk, store, durable, list, phase)
    ensures list[phase.tail] in store
    ensures var disk' := disk[list[phase.tail] := store[list[phase.tail]]];
            && Recoverable(lay, disk', durable)
            && PhaseOk(lay, disk', store, durable, list, Installing(phase.th, phase.tail + 1))
  {
    var b := list[phase.tail];
    InstalledOne(lay, disk, store, list, phase.tail);
    InstalledDisk(lay, disk, store, phase.tail);
    InstalledCopies(lay, disk, store, list, b);
  }

  lemma InstalledCopies(lay: Layout, disk: Disk, store: Disk, list: seq<nat>, b: nat)
    requires LogCopies(lay, disk, store, list, |list|) && b in store && lay.Home(b)
    requires |list| <= lay.nlog - 1
    ensures LogCopies(lay, disk[b := store[b]], store, list, |list|)
  {
  }

  lemma CommittingOk(log: A.LogState, phase: Phase, phase': Phase)
    requires LogOk(log, phase) && phase.InCommit() && phase'.InCommit()
    ensures LogOk(log, phase')
  {
  }

  lemma InstallKeeps(lay: Layout, s: Sys, t: nat, l: nat, d: nat, s': Sys)
    requires Inv(lay, s) && InstallStep(lay, s, t, l, d, s')
    ensures Inv(lay, s')
  {
    InstallBuffers(lay, s, t, l, d, s');
    InstallPhase(lay, s.disk, s.store, s.durable, s.log.block, s.phase);
    CommittingOk(s.log, s.phase, s'.phase);
  }

  /** During installation a buffer of the log block holds what was logged. */
  lemma LoggedData(lay: Layout, s: Sys, l: nat)
    requires Inv(lay, s) && s.phase.Installing? && s.phase.tail < |s.log.block|
    requires l < NBUF && s.cache.bufs[l].valid && s.cache.bufs[l].Holds(ROOTDEV, lay.LogBlock(s.phase.tail))
    ensures s.cache.bufs[l].data == s.store[s.log.block[s.phase.tail]]
  {
    assert !Pinned(s.cache, Pins(s), l);
    assert LogCopies(lay, s.disk, s.store, s.log.block, |s.log.block|);
  }

  /** Once a pinned buffer's contents are on disk it can be unpinned. */
  lemma UnpinBuffers(lay: Layout, c: Cache, disk: Disk, store: Disk, holder: seq<Option<nat>>,
                     pend: seq<Pend>, b: nat, rest: seq<nat>, i: nat)
    requires BuffersOk(lay, c, disk, store, holder, pend, [b] + rest)
    requires b in store && b !in rest && i < |c.bufs| && c.bufs[i].valid && c.bufs[i].Holds(ROOTDEV, b)
    ensures c.bufs[i].refcnt > 0 && c.bufs[i].data == store[b]
    ensures BuffersOk(lay, Unpin(PutData(c, i, store[b]), i), disk[b := store[b]], store, holder, pend, rest)
  {
    var pins := [b] + rest;
    var c' := Unpin(PutData(c, i, store[b]), i);
    forall x | x in rest ensures x in pins {
    }
    PinsStay(c, c', pins);
    assert Pinned(c, pins, i) && !Pinned(c', rest, i);
    forall j | 0 <= j < |c.bufs| && j != i ensures Pinned(c', rest, j) == Pinned(c, pins, j) {
    }
  }

  // ---------------------------------------------------------------- transactions

  lemma WriteKeeps(lay: Layout, s: Sys, t: nat, i: nat, b: nat, d: Block, s': Sys)
    requires Inv(lay, s) && WriteStep(lay, s, t, i, b, d, s')
    ensures Inv(lay, s')
  {
    A.MovesKeepsCore(s.log, lay.nlog, A.DoLogWrite(t, b), s'.log);
    assert s.phase == Running;
    WriteBuffers(lay, s.cache, s.disk, s.store, s.holder, s.pend, s.log.block, i, b, d);
    assert Pins(s') == if b in s.log.block then s.log.block else s.log.block + [b];
    assert ListOk(lay, s'.log.block);
    assert HomeIs(lay, s'.disk, s'.store, s'.log.block) by {
      assert HomeIs(lay, s.disk, s.store, s.log.block);
    }
  }

  lemma WriteBuffers(lay: Layout, c: Cache, disk: Disk, store: Disk, holder: seq<Option<nat>>,
                     pend: seq<Pend>, pins: seq<nat>, i: nat, b: nat, d: Block)
    requires BuffersOk(lay, c, disk, store, holder, pend, pins)
    requires i < |c.bufs| && c.bufs[i].valid && c.bufs[i].Holds(ROOTDEV, b) && lay.Home(b)
    ensures var c1 := PutData(c, i, d);
            if b in pins then BuffersOk(lay, c1, disk, store[b := d], holder, pend, pins)
            else BuffersOk(lay, Pin(c1, i), disk, store[b := d], holder, pend, pins + [b])
  {
    var c1 := PutData(c, i, d);
    if b in pins {
      PinsStay(c, c1, pins);
      forall j | 0 <= j < |c.bufs| ensures Pinned(c1, pins, j) == Pinned(c, pins, j) {
      }
    } else {
      var c' := Pin(c1, i);
      var pins' := pins + [b];
      PinsStay(c, c', pins);
      assert c'.bufs[i].valid && c'.bufs[i].Holds(ROOTDEV, b);
      assert Cached(c', b);
      assert Pinned(c', pins', i) && !Pinned(c, pins, i);
      forall j | 0 <= j < |c.bufs| && j != i ensures Pinned(c', pins', j) == Pinned(c, pins, j) {
      }
    }
  }

  lemma EndKeeps(lay: Layout, s: Sys, t: nat, s': Sys)
    requires Inv(lay, s) && EndStep(s, lay, t, s')
    ensures Inv(lay, s')
  {
    A.MovesKeepsCore(s.log, lay.nlog, A.DoEnd(t), s'.log);
    assert s.phase == Running;
    assert Pins(s') == Pins(s);
    assert HomeIs(lay, s.disk, s.durable, []) && HomeIs(lay, s.disk, s.store, s.log.block);
    if s.log.block == [] {
      assert s.store == s.durable;
    }
  }

  lemma TruncateKeeps(lay: Layout, s: Sys, t: nat, s': Sys)
    requires Inv(lay, s) && TruncateStep(s, t, s')
    ensures Inv(lay, s')
  {
    assert Pins(s') == Pins(s) == [];
    A.MovesKeepsCore(s.log, lay.nlog, A.DoTruncate, s'.log);
    assert s.log.block[|s.log.block|..] == [];
  }

  lemma FinishKeeps(lay: Layout, s: Sys, t: nat, s': Sys)
    requires Inv(lay, s) && FinishStep(s, t, s')
    ensures Inv(lay, s')
  {
    assert Pins(s') == Pins(s) == [];
    A.MovesKeepsCore(s.log, lay.nlog, A.DoFinish, s'.log);
  }

  // ---------------------------------------------------------------- crash and recovery

  lemma {:induction false} NothingPending(pend: seq<Pend>, i: nat)
    requires forall t | 0 <= t < |pend| :: pend[t].Free?
    ensures CountPend(pend, i) == 0
  {
    if pend != [] {
      NothingPending(pend[1..], i);
    }
  }

  lemma BootInv(lay: Layout, disk: Disk, durable: Disk)
    requires Recoverable(lay, disk, durable)
    ensures Inv(lay, Booted(disk, durable))
  {
    var s := Booted(disk, durable);
    InitPermutes();
    forall i | 0 <= i < NBUF ensures CountPend(s.pend, i) == 0 {
      NothingPending(s.pend, i);
    }
    assert Pins(s) == [];
  }

  lemma ReadHeadKeeps(lay: Layout, s: Sys, t: nat, h: nat, s': Sys)
    requires Inv(lay, s) && ReadHeadStep(lay, s, t, h, s')
    ensures Inv(lay, s')
  {
    assert Pins(s') == Pins(s) == [];
    assert s.cache.bufs[h].data == s.disk[lay.start];
    assert s'.log.block[0..] == s'.log.block;
  }

  lemma ReplayTruncateKeeps(lay: Layout, s: Sys, t: nat, s': Sys)
    requires Inv(lay, s) && ReplayTruncateStep(s, t, s')
    ensures Inv(lay, s')
  {
    assert Pins(s') == Pins(s) == [];
    assert s.log.block[|s.log.block|..] == [];
  }

  lemma BufferStepKeeps(lay: Layout, s: Sys, step: Step, s': Sys)
    requires step.SGet? || step.SLock? || step.SFill? || step.SUnlock? || step.SDrop?
    requires Inv(lay, s) && Next(lay, s, step, s')
    ensures Inv(lay, s')
  {
    match step
    case SGet(t, b) => GetKeeps(lay, s, t, b, s');
    case SLock(t) => LockKeeps(lay, s, t, s');
    case SFill(t, i) => FillKeeps(lay, s, t, i, s');
    case SUnlock(t, i) => UnlockKeeps(lay, s, t, i, s');
    case SDrop(t) => DropKeeps(lay, s, t, s');
  }

  lemma OpStepKeeps(lay: Layout, s: Sys, step: Step, s': Sys)
    requires step.SBegin? || step.SKick? || step.SWrite? || step.SEnd? || step.SFinish?
    requires Inv(lay, s) && Next(lay, s, step, s')
    ensures Inv(lay, s')
  {
    match step
    case SBegin(t) => BeginKeeps(lay, s, t, s');
    case SKick(t) => KickKeeps(lay, s, t, s');
    case SWrite(t, i, b, d) => WriteKeeps(lay, s, t, i, b, d, s');
    case SEnd(t) => EndKeeps(lay, s, t, s');
    case SFinish(t) => FinishKeeps(lay, s, t, s');
  }

  lemma CommitStepKeeps(lay: Layout, s: Sys, step: Step, s': Sys)
    requires step.SCopy? || step.SHead? || step.SInstall?
    requires Inv(lay, s) && Next(lay, s, step, s')
    ensures Inv(lay, s')
  {
    match step
    case SCopy(t, to, src) => CopyKeeps(lay, s, t, to, src, s');
    case SHead(t, h) => HeadKeeps(lay, s, t, h, s');
    case SInstall(t, l, d) => InstallKeeps(lay, s, t, l, d, s');
  }

  lemma EraseStepKeeps(lay: Layout, s: Sys, step: Step, s': Sys)
    requires step.STruncate? || step.SClear? || step.SReplayTruncate? || step.SReplayClear?
    requires Inv(lay, s) && Next(lay, s, step, s')
    ensures Inv(lay, s')
  {
    match step
    case STruncate(t) => TruncateKeeps(lay, s, t, s');
    case SClear(t, h) => ClearKeeps(lay, s, t, h, s');
    case SReplayTruncate(t) => ReplayTruncateKeeps(lay, s, t, s');
    case SReplayClear(t, h) => ReplayClearKeeps(lay, s, t, h, s');
  }

  lemma RecoveryStepKeeps(lay: Layout, s: Sys, step: Step, s': Sys)
    requires step.SCrash? || step.SReadHead? || step.SReplay?
    requires Inv(lay, s) && Next(lay, s, step, s')
    ensures Inv(lay, s')
  {
    match step
    case SCrash => BootInv(lay, s.disk, s.durable);
    case SReadHead(t, h) => ReadHeadKeeps(lay, s, t, h, s');
    case SReplay(t, l, d) => ReplayKeeps(lay, s, t, l, d, s');
  }

  lemma NextKeepsInv(lay: Layout, s: Sys, step: Step, s': Sys)
    requires Inv(lay, s) && Next(lay, s, step, s')
    ensures Inv(lay, s')
  {
    if step.SGet? || step.SLock? || step.SFill? || step.SUnlock? || step.SDrop? {
      BufferStepKeeps(lay, s, step, s');
    } else if step.SBegin? || step.SKick? || step.SWrite? || step.SEnd? || step.SFinish? {
      OpStepKeeps(lay, s, step, s');
    } else if step.SCopy? || step.SHead? || step.SInstall? {
      CommitStepKeeps(lay, s, step, s');
    } else if step.SCrash? || step.SReadHead? || step.SReplay? {
      RecoveryStepKeeps(lay, s, step, s');
    } else {
      EraseStepKeeps(lay, s, step, s');
    }
  }

  lemma BeginKeeps(lay: Layout, s: Sys, t: nat, s': Sys)
    requires Inv(lay, s) && Next(lay, s, SBegin(t), s')
    ensures Inv(lay, s')
  {
    A.MovesKeepsCore(s.log, lay.nlog, A.DoBegin(t), s'.log);
    assert Pins(s') == Pins(s);
  }

  lemma KickKeeps(lay: Layout, s: Sys, t: nat, s': Sys)
    requires Inv(lay, s) && Next(lay, s, SKick(t), s')
    ensures Inv(lay, s')
  {
    assert Pins(s') == Pins(s);
    if !s.phase.Recovering() {
      A.MovesKeepsCore(s.log, lay.nlog, A.DoKick(t), s'.log);
    } else {
      assert s'.log == s.log;
    }
  }

  // ---------------------------------------------------------------- runs

  /** A run starts from a power-on with any recoverable disk, such as the one mkfs writes. */
  ghost predicate Run(lay: Layout, durable: Disk, ss: seq<Sys>, steps: seq<Step>) {
    |ss| == |steps| + 1 && forall k | 0 <= k < |ss| :: Takes(lay, durable, ss, steps, k)
  }

  /** State k of a run is a power-on state, or follows from the state before it. */
  ghost predicate Takes(lay: Layout, durable: Disk, ss: seq<Sys>, steps: seq<Step>, k: nat)
    requires k < |ss| == |steps| + 1
  {
    if k == 0 then Recoverable(lay, ss[0].disk, durable) && ss[0] == Booted(ss[0].disk, durable)
    else Shape(lay, ss[k-1]) && Next(lay, ss[k-1], steps[k-1], ss[k])
  }

  /** Inv, kept folded. */
  ghost predicate Good(lay: Layout, s: Sys) {
    forall l | l == lay :: Inv(l, s)
  }

  lemma FirstGood(lay: Layout, durable: Disk, ss: seq<Sys>, steps: seq<Step>)
    requires |ss| == |steps| + 1 && Takes(lay, durable, ss, steps, 0)
    ensures Good(lay, ss[0])
  {
    BootInv(lay, ss[0].disk, durable);
  }

  lemma StepKeepsGood(lay: Layout, s: Sys, step: Step, s': Sys)
    requires Good(lay, s) && Shape(lay, s) && Next(lay, s, step, s')
    ensures Good(lay, s')
  {
    assert Inv(lay, s);
    NextKeepsInv(lay, s, step, s');
  }

  lemma TakesKeepsGood(lay: Layout, durable: Disk, ss: seq<Sys>, steps: seq<Step>, k: nat)
    requires 0 < k < |ss| == |steps| + 1
    requires Takes(lay, durable, ss, steps, k) && Good(lay, ss[k-1])
    ensures Good(lay, ss[k])
  {
    StepKeepsGood(lay, ss[k-1], steps[k-1], ss[k]);
  }

  lemma {:induction false} GoodOverRuns(lay: Layout, durable: Disk, ss: seq<Sys>, steps: seq<Step>, k: nat)
    requires Run(lay, durable, ss, steps) && k < |ss|
    ensures Good(lay, ss[k])
  {
    assert Takes(lay, durable, ss, steps, k);
    if k == 0 {
      FirstGood(lay, durable, ss, steps);
    } else {
      GoodOverRuns(lay, durable, ss, steps, k - 1);
      TakesKeepsGood(lay, durable, ss, steps, k);
    }
  }

  lemma InvOverRuns(lay: Layout, durable: Disk, ss: seq<Sys>, steps: seq<Step>, k: nat)
    requires Run(lay, durable, ss, steps) && k < |ss|
    ensures Inv(lay, ss[k])
  {
    GoodOverRuns(lay, durable, ss, steps, k);
  }

  // ---------------------------------------------------------------- recovery as a function

  /** install_trans(1) from entry k on, as a function of the disk. */
  function ReplayFrom(lay: Layout, disk: Disk, list: seq<nat>, k: nat): (d: Disk)
    requires k <= |list| && forall j | 0 <= j < |list| :: lay.LogBlock(j) in disk
    ensures forall b | b in disk :: b in d
    decreases |list| - k
  {
    if k == |list| then disk
    else ReplayFrom(lay, disk[list[k] := disk[lay.LogBlock(k)]], list, k + 1)
  }

  predicate HasLog(lay: Layout, disk: Disk) {
    && lay.start in disk && HeaderFits(disk[lay.start])
    && forall j | 0 <= j < GetWord(disk[lay.start], 0) :: lay.LogBlock(j) in disk
  }

  /** recover_from_log on a disk. */
  function Recover(lay: Layout, disk: Disk): (d: Disk)
    requires HasLog(lay, disk)
  {
    var d := ReplayFrom(lay, disk, HeaderList(disk[lay.start]), 0);
    d[lay.start := Encode(d[lay.start], [])]
  }

  lemma {:induction false} ReplayedAll(lay: Layout, disk: Disk, durable: Disk, k: nat)
    requires Recoverable(lay, disk, durable) && k <= |HeaderList(disk[lay.start])|
    requires HomeIs(lay, disk, durable, HeaderList(disk[lay.start])[k..])
    ensures var d := ReplayFrom(lay, disk, HeaderList(disk[lay.start]), k);
            Recoverable(lay, d, durable) && HomeIs(lay, d, durable, []) && d[lay.start] == disk[lay.start]
    decreases |HeaderList(disk[lay.start])| - k
  {
    var list := HeaderList(disk[lay.start]);
    if k == |list| {
      assert list[k..] == [];
    } else {
      InstalledOne(lay, disk, durable, list, k);
      InstalledDisk(lay, disk, durable, k);
      var disk' := disk[list[k] := durable[list[k]]];
      assert disk'[lay.start] == disk[lay.start];
      ReplayedAll(lay, disk', durable, k + 1);
    }
  }

  /** The home blocks as recovery leaves them. */
  function RecoveredHome(lay: Layout, disk: Disk): (m: Disk)
    requires HasLog(lay, disk)
  {
    var d := Recover(lay, disk);
    map b: nat | b < lay.size && lay.Home(b) && b in d :: d[b]
  }

  /** A finished recovery leaves exactly the durable contents in the home blocks and an
      empty log; recovering again changes nothing. */
  lemma RecoverCorrect(lay: Layout, disk: Disk, durable: Disk)
    requires Recoverable(lay, disk, durable)
    ensures HasLog(lay, disk)
    ensures var d := Recover(lay, disk);
            && RecoveredHome(lay, disk) == durable
            && HeaderFits(d[lay.start]) && HeaderList(d[lay.start]) == []
            && Recoverable(lay, d, durable) && HasLog(lay, d) && Recover(lay, d) == d
  {
    RecoverHome(lay, disk, durable);
    RecoverFixed(lay, Recover(lay, disk), durable);
  }

  lemma RecoverHome(lay: Layout, disk: Disk, durable: Disk)
    requires Recoverable(lay, disk, durable)
    ensures HasLog(lay, disk)
    ensures var d := Recover(lay, disk);
            && Recoverable(lay, d, durable) && HomeIs(lay, d, durable, [])
            && HeaderFits(d[lay.start]) && HeaderList(d[lay.start]) == []
            && d[lay.start] == Encode(d[lay.start], [])
    ensures RecoveredHome(lay, disk) == durable
  {
    var list := HeaderList(disk[lay.start]);
    assert list[0..] == list;
    ReplayedAll(lay, disk, durable, 0);
    var d0 := ReplayFrom(lay, disk, list, 0);
    ClearedDisk(lay, d0, durable, Encode(d0[lay.start], []));
    ClearTwice(d0[lay.start]);
    HomeMap(lay, Recover(lay, disk), durable);
  }

  lemma HomeMap(lay: Layout, d: Disk, durable: Disk)
    requires HomeIs(lay, d, durable, []) && forall b: nat :: b in durable <==> lay.Home(b)
    ensures (map b: nat | b < lay.size && lay.Home(b) && b in d :: d[b]) == durable
  {
  }

  lemma ClearTwice(b: Block)
    ensures Encode(Encode(b, []), []) == Encode(b, [])
  {
  }

  lemma RecoverFixed(lay: Layout, d: Disk, durable: Disk)
    requires Recoverable(lay, d, durable) && HeaderList(d[lay.start]) == [] && d[lay.start] == Encode(d[lay.start], [])
    ensures HasLog(lay, d) && Recover(lay, d) == d
  {
  }

  // ---------------------------------------------------------------- crash atomicity

  /** A block store with commits: what a client of the log may rely on.  `store` holds the
      latest logged contents and `durable` the contents that a crash falls back to. */
  datatype Flat = Flat(store: Disk, durable: Disk)

  function FlatStep(f: Flat, step: Step): (f': Flat) {
    match step
    case SWrite(_, _, b, d) => f.(store := f.store[b := d])
    case SHead(_, _) => f.(durable := f.store)
    case SCrash => f.(store := f.durable)
    case _ => f
  }

  function FlatAfter(durable: Disk, steps: seq<Step>, k: nat): (f: Flat)
    requires k <= |steps|
  {
    if k == 0 then Flat(durable, durable) else FlatStep(FlatAfter(durable, steps, k - 1), steps[k - 1])
  }

  lemma HistoryBuffers(lay: Layout, s: Sys, step: Step, s': Sys)
    requires step.SGet? || step.SLock? || step.SFill? || step.SUnlock? || step.SDrop? || step.SBegin? || step.SKick?
    requires Shape(lay, s) && Next(lay, s, step, s')
    ensures s'.store == s.store && s'.durable == s.durable
  {
  }

  lemma HistoryCommit(lay: Layout, s: Sys, step: Step, s': Sys)
    requires step.SEnd? || step.SCopy? || step.SInstall? || step.STruncate? || step.SClear? || step.SFinish?
    requires Shape(lay, s) && Next(lay, s, step, s')
    ensures s'.store == s.store && s'.durable == s.durable
  {
  }

  /** A crash resets the store and a commit point moves `durable`, at most one of them. */
  lemma HistoryStep(lay: Layout, s: Sys, step: Step, s': Sys)
    requires Shape(lay, s) && Next(lay, s, step, s')
    ensures Flat(s'.store, s'.durable) == FlatStep(Flat(s.store, s.durable), step)
  {
    if step.SGet? || step.SLock? || step.SFill? || step.SUnlock? || step.SDrop? || step.SBegin? || step.SKick? {
      HistoryBuffers(lay, s, step, s');
    } else if step.SEnd? || step.SCopy? || step.SInstall? || step.STruncate? || step.SClear? || step.SFinish? {
      HistoryCommit(lay, s, step, s');
    }
  }

  lemma {:induction false} HistoryIsFlat(lay: Layout, durable: Disk, ss: seq<Sys>, steps: seq<Step>, k: nat)
    requires Run(lay, durable, ss, steps) && k < |ss|
    ensures FlatAfter(durable, steps, k) == Flat(ss[k].store, ss[k].durable)
  {
    if k == 0 {
      assert Takes(lay, durable, ss, steps, 0);
    } else {
      HistoryIsFlat(lay, durable, ss, steps, k - 1);
      RunHistoryStep(lay, durable, ss, steps, k);
    }
  }

  lemma RunHistoryStep(lay: Layout, durable: Disk, ss: seq<Sys>, steps: seq<Step>, k: nat)
    requires Run(lay, durable, ss, steps) && 0 < k < |ss|
    ensures Flat(ss[k].store, ss[k].durable) == FlatStep(Flat(ss[k-1].store, ss[k-1].durable), steps[k-1])
  {
    assert Takes(lay, durable, ss, steps, k);
    HistoryStep(lay, ss[k-1], steps[k-1], ss[k]);
  }

  /** Crash atomicity, for a crash at any point of any run, also inside earlier recoveries:
      a finished recovery leaves in the home blocks exactly the contents logged up to the
      last commit point (first write_head), all of them and nothing newer. */
  lemma CrashAtomicity(lay: Layout, durable: Disk, ss: seq<Sys>, steps: seq<Step>, k: nat)
    requires Run(lay, durable, ss, steps) && k < |ss|
    ensures HasLog(lay, ss[k].disk)
    ensures RecoveredHome(lay, ss[k].disk) == FlatAfter(durable, steps, k).durable
  {
    InvOverRuns(lay, durable, ss, steps, k);
    HistoryIsFlat(lay, durable, ss, steps, k);
    RecoverCorrect(lay, ss[k].disk, ss[k].durable);
  }

  /** What recovery would produce changes at one step only, the first write_head, and then
      from all old to all new. */
  lemma CommitPoint(lay: Layout, s: Sys, step: Step, s': Sys)
    requires Inv(lay, s) && Next(lay, s, step, s')
    ensures HasLog(lay, s.disk) && HasLog(lay, s'.disk)
    ensures RecoveredHome(lay, s'.disk) == if step.SHead? then s.store else RecoveredHome(lay, s.disk)
  {
    NextKeepsInv(lay, s, step, s');
    HistoryStep(lay, s, step, s');
    RecoverCorrect(lay, s.disk, s.durable);
    RecoverCorrect(lay, s'.disk, s'.durable);
  }

  // ---------------------------------------------------------------- refinement of the flat store

  /** bread returns the latest logged contents: any home block that a thread holds, in a
      running system, has the contents of the flat store. */
  lemma ReadsLatest(lay: Layout, durable: Disk, ss: seq<Sys>, steps: seq<Step>, k: nat, t: nat, i: nat, b: nat)
    requires Run(lay, durable, ss, steps) && k < |ss|
    requires !ss[k].phase.Recovering() && HoldingBlock(ss[k], t, i, b) && lay.Home(b)
    ensures b in FlatAfter(durable, steps, k).store && ss[k].cache.bufs[i].data == FlatAfter(durable, steps, k).store[b]
  {
    InvOverRuns(lay, durable, ss, steps, k);
    HistoryIsFlat(lay, durable, ss, steps, k);
    HeldIsLatest(lay, ss[k], t, i, b);
  }

  lemma HeldIsLatest(lay: Layout, s: Sys, t: nat, i: nat, b: nat)
    requires Inv(lay, s) && !s.phase.Recovering() && HoldingBlock(s, t, i, b) && lay.Home(b)
    ensures s.cache.bufs[i].data == s.store[b]
  {
    if !Pinned(s.cache, Pins(s), i) {
      assert s.cache.bufs[i].data == s.disk[b];
      match s.phase
      case Installing(_, tail) => assert HomeIs(lay, s.disk, s.store, s.log.block[tail..]);
      case Running => assert HomeIs(lay, s.disk, s.store, s.log.block);
      case Copying(_, _) => assert HomeIs(lay, s.disk, s.store, s.log.block);
      case Clearing(_) => assert HomeIs(lay, s.disk, s.store, []);
      case Committed(_) => assert HomeIs(lay, s.disk, s.store, []);
      case _ =>
    }
  }

  /** The steps that write to the disk. */
  predicate Writes(step: Step) {
    step.SCopy? || step.SHead? || step.SInstall? || step.SClear? || step.SReplay? || step.SReplayClear?
  }

  lemma DiskFrame(lay: Layout, s: Sys, step: Step, s': Sys)
    requires Shape(lay, s) && Next(lay, s, step, s') && !Writes(step)
    ensures s'.disk == s.disk
  {
  }

  lemma HomeFrame(lay: Layout, s: Sys, step: Step, s': Sys, b: nat)
    requires Shape(lay, s) && ListOk(lay, s.log.block) && Next(lay, s, step, s') && lay.Home(b)
    requires !step.SInstall? && !step.SReplay?
    ensures b in s'.disk && s'.disk[b] == s.disk[b]
  {
    if Writes(step) {
      assert s.phase.Copying? && s.phase.tail < |s.log.block| ==> !lay.Home(lay.LogBlock(s.phase.tail));
    } else {
      DiskFrame(lay, s, step, s');
    }
  }

  lemma InstallCommitted(lay: Layout, s: Sys, t: nat, l: nat, d: nat, s': Sys, b: nat)
    requires Inv(lay, s) && InstallStep(lay, s, t, l, d, s') && lay.Home(b) && b in s'.disk && s'.disk[b] != s.disk[b]
    ensures s'.disk[b] == s.durable[b] && HeaderFits(s.disk[lay.start]) && b in HeaderList(s.disk[lay.start])
  {
    LoggedData(lay, s, l);
  }

  lemma ReplayCommitted(lay: Layout, s: Sys, t: nat, l: nat, d: nat, s': Sys, b: nat)
    requires Inv(lay, s) && ReplayStep(lay, s, t, l, d, s') && lay.Home(b) && b in s'.disk && s'.disk[b] != s.disk[b]
    ensures s'.disk[b] == s.durable[b] && HeaderFits(s.disk[lay.start]) && b in HeaderList(s.disk[lay.start])
  {
    ReplayedData(lay, s, l);
  }

  /** No uncommitted contents reach a home location: the only writes there install blocks
      of a transaction whose header is on disk. */
  lemma HomeWritesAreCommitted(lay: Layout, s: Sys, step: Step, s': Sys, b: nat)
    requires Inv(lay, s) && Next(lay, s, step, s') && lay.Home(b) && b in s'.disk && s'.disk[b] != s.disk[b]
    ensures step.SInstall? || step.SReplay?
    ensures s'.disk[b] == s.durable[b] && s'.durable == s.durable
    ensures HeaderFits(s.disk[lay.start]) && b in HeaderList(s.disk[lay.start])
  {
    if step.SInstall? {
      InstallCommitted(lay, s, step.t, step.l, step.d, s', b);
    } else if step.SReplay? {
      ReplayCommitted(lay, s, step.t, step.l, step.d, s', b);
    } else {
      HomeFrame(lay, s, step, s', b);
    }
  }

  /** One buffer per block, always. */
  lemma OneBufferPerBlock(lay: Layout, durable: Disk, ss: seq<Sys>, steps: seq<Step>, k: nat, i: nat, j: nat)
    requires Run(lay, durable, ss, steps) && k < |ss| && i < NBUF && j < NBUF
    requires |ss[k].cache.bufs| == NBUF && ss[k].cache.bufs[i].dev != 0
    requires ss[k].cache.bufs[j].Holds(ss[k].cache.bufs[i].dev, ss[k].cache.bufs[i].blockno)
    ensures i == j
  {
    InvOverRuns(lay, durable, ss, steps, k);
  }
}
