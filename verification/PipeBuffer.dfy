/** pipewrite, piperead and pipeclose of kernel/pipe.c over the ring buffer, as steps of the
    pipe machine. */
module PipeBuffer {
  import opened Options
  import opened Blocks
  import opened PipeModel

  class Buffer {
    const data: array<byte>
    var nread: nat
    var nwrite: nat
    var readopen: bool
    var writeopen: bool
    var asleepR: set<nat>
    var asleepW: set<nat>
    ghost var written: seq<byte>
    ghost var taken: nat
    ghost var silent: bool

    ghost function State(): (s: Pipe)
      reads this, data
    {
      Pipe(data[..], nread, nwrite, readopen, writeopen, asleepR, asleepW, written, taken, silent)
    }

    ghost predicate Valid()
      reads this, data
    {
      Inv(State())
    }

    /** pipealloc */
    constructor ()
      ensures Valid() && fresh(data) && readopen && writeopen && written == [] && taken == 0 && !silent
      ensures asleepR == {} && asleepW == {}
    {
      data := new byte[PIPESIZE](_ => 0);
      nread, nwrite := 0, 0;
      readopen, writeopen := true, true;
      asleepR, asleepW := {}, {};
      written, taken, silent := [], 0, false;
    }

    /** The part of pipewrite that stores a byte. */
    method Store(ch: byte, ghost s: Pipe, ghost bs: seq<byte>)
      requires Inv(s) && data.Length == PIPESIZE && |s.written| + |bs| < s.taken + PIPESIZE && State() == WithBytes(s, bs)
      modifies this`nwrite, this`written, data
      ensures State() == WithBytes(s, bs + [ch])
    {
      WithMore(s, bs, ch);
      ghost var before := data[..];
      data[nwrite % PIPESIZE] := ch;
      assert data[..] == before[nwrite % PIPESIZE := ch];
      nwrite := (nwrite + 1) % UINT32;
      written := written + [ch];
    }

    /** A section of pipewrite by process p, from byte i of `src` on.  Bytes from `readable` on
        cannot be copied in; from byte `killed` on the process has been killed.  `i'` is how
        far it got, and `end` how it stopped.  A reader is left asleep beside bytes to read
        exactly if one slept and the writer was killed in the middle. */
    method Pipewrite(p: nat, src: seq<byte>, i: nat, readable: nat, killed: nat) returns (end: WriteEnd, i': nat)
      requires Valid() && p !in asleepR && p !in asleepW && i <= |src|
      modifies this`nwrite, this`written, this`silent, this`asleepR, this`asleepW, data
      ensures Valid() && Next(old(State()), State(), Write(p, src[i..], Ahead(readable, i), Ahead(killed, i)))
      ensures i' == i + Stop(old(State()), |src| - i, Ahead(readable, i), Ahead(killed, i))
      ensures end == EndOf(old(State()), |src| - i, Ahead(readable, i), Ahead(killed, i))
      ensures !readopen && i < |src| ==> end == Failed && i' == i
      ensures old(ReadersHaveCause(State())) ==>
                (!ReadersHaveCause(State()) <==> old(asleepR) != {} && CutShort(old(State()), |src|, i, readable, killed))
    {
      ghost var s := State();
      ghost var step := Write(p, src[i..], Ahead(readable, i), Ahead(killed, i));
      end, i' := Fill(src, i, readable, killed);
      WakeUp(p, s, src[i..i'], end);
      assert src[i..][..i' - i] == src[i..i'];
      StepKeeps(s, State(), step);
      StrandsAhead(s, State(), p, src, i, readable, killed);
    }

    /** The end of a section: readers are woken unless the call fails. */
    method WakeUp(p: nat, ghost s: Pipe, ghost bs: seq<byte>, end: WriteEnd)
      requires |s.data| == PIPESIZE && State() == WithBytes(s, bs) && p !in s.asleepR && p !in s.asleepW
      requires |s.written| + |bs| <= s.taken + PIPESIZE && (bs != [] ==> s.readopen)
      requires end == Slept ==> s.readopen && |written| == taken + PIPESIZE
      modifies this`silent, this`asleepR, this`asleepW
      ensures WriteStep(s, State(), p, bs, end)
    {
      match end {
        case Failed =>
          silent := silent || bs != [];
        case Slept =>
          asleepR, silent := {}, false;
          asleepW := asleepW + {p};
        case Returned =>
          asleepR, silent := {}, false;
      }
    }

    /** The loop of pipewrite, up to the wakeup. */
    method Fill(src: seq<byte>, i: nat, readable: nat, killed: nat) returns (end: WriteEnd, i': nat)
      requires Valid() && i <= |src|
      modifies this`nwrite, this`written, data
      ensures i' == i + Stop(old(State()), |src| - i, Ahead(readable, i), Ahead(killed, i))
      ensures end == EndOf(old(State()), |src| - i, Ahead(readable, i), Ahead(killed, i))
      ensures |old(data[..])| == PIPESIZE && State() == WithBytes(old(State()), src[i..i'])
      ensures |old(written)| + (i' - i) <= taken + PIPESIZE && (i < i' ==> readopen)
      ensures end == Slept ==> readopen && |written| == taken + PIPESIZE
    {
      ghost var s := State();
      ghost var n, rd, kl := |src| - i, Ahead(readable, i), Ahead(killed, i);
      i' := i;
      ghost var bs: seq<byte> := [];
      assert s.written + [] == s.written;
      while i' < |src|
        invariant i <= i' <= |src| && bs == src[i..i'] && i' - i <= Stop(s, n, rd, kl)
        invariant data.Length == PIPESIZE && State() == WithBytes(s, bs)
      {
        GoesOn(s, n, rd, kl, i' - i);
        if !readopen || i' >= killed {
          return Failed, i';
        }
        FullTest(s, bs);
        if nwrite == (nread + PIPESIZE) % UINT32 {
          return Slept, i';
        }
        if i' >= readable {
          break;
        }
        Store(src[i'], s, bs);
        SliceSnoc(src, i, i');
        bs := bs + [src[i']];
        i' := i' + 1;
      }
      return Returned, i';
    }

    /** A section of piperead by process p.  Bytes from `room` on cannot be copied out.  None
        means it has gone to sleep, -1 that it was killed; otherwise `k` bytes were consumed
        and `dst` holds those that were copied out. */
    method Piperead(p: nat, n: nat, room: nat, killed: bool) returns (r: Option<int>, dst: seq<byte>, ghost k: nat)
      requires Valid() && p !in asleepR && p !in asleepW
      modifies this`nread, this`taken, this`asleepR, this`asleepW
      ensures Valid()
      ensures r.None? <==> |old(written)| == old(taken) && writeopen && !killed
      ensures r == Some(-1) <==> |old(written)| == old(taken) && writeopen && killed
      ensures r.None? ==> ReadSleepStep(old(State()), State(), p)
      ensures r == Some(-1) ==> State() == old(State())
      ensures r.Some? && r.value >= 0 ==>
                && ReadStep(old(State()), State(), k) && r.value == |dst| <= n && |dst| <= k
                && dst == old(written)[old(taken)..old(taken) + |dst|]
                && k == (if |dst| < n && |dst| == room && old(taken) + |dst| < |written| then |dst| + 1 else |dst|)
                && (|dst| == n || |dst| == room || taken == |written|)
      ensures r.Some? ==> r.value >= -1
      ensures |old(written)| == old(taken) && !writeopen ==> r == Some(0)
    {
      ghost var s := State();
      dst, k := [], 0;
      EmptyTest(s, 0);
      if nread == nwrite && writeopen {
        if killed {
          return Some(-1), dst, k;
        }
        asleepR := asleepR + {p};
        ReadSleepKeeps(s, State(), p);
        return None, dst, k;
      }
      dst, k := CopyLoop(n, room);
      asleepW := {};
      ReadKeeps(s, State(), k);
      return Some(|dst|), dst, k;
    }

    /** The copying loop of piperead. */
    method CopyLoop(n: nat, room: nat) returns (dst: seq<byte>, ghost k: nat)
      requires Sound(State()) && data.Length == PIPESIZE && taken <= |written|
      modifies this`nread, this`taken
      ensures State() == Without(old(State()), k) && taken == old(taken) + k <= |written|
      ensures |dst| <= n && |dst| <= k && dst == written[old(taken)..old(taken) + |dst|]
      ensures k == (if |dst| < n && |dst| == room && old(taken) + |dst| < |written| then |dst| + 1 else |dst|)
      ensures |dst| == n || |dst| == room || taken == |written|
    {
      ghost var s := State();
      dst, k := [], 0;
      NoneTaken(s);
      while |dst| < n
        invariant |dst| <= n && |dst| <= room && k == |dst| && s.taken + k <= |written| && State() == Without(s, k)
        invariant dst == written[s.taken..s.taken + k]
        decreases n - |dst|
      {
        var empty := Drained(s, k);
        if empty {
          break;
        }
        var ch := TakeByte(s, k);
        k := k + 1;
        if |dst| >= room {
          break;
        }
        SliceSnoc(written, s.taken, s.taken + k - 1);
        dst := dst + [ch];
      }
    }

    /** `pi->nread == pi->nwrite`: nothing is left to read. */
    method Drained(ghost s: Pipe, ghost k: nat) returns (b: bool)
      requires Sound(s) && s.taken + k <= |s.written| && State() == Without(s, k)
      ensures b <==> s.taken + k == |s.written|
    {
      assert Inv(s);
      EmptyTest(s, k);
      b := nread == nwrite;
    }

    /** `pi->data[pi->nread++ % PIPESIZE]`, which is the oldest byte. */
    method TakeByte(ghost s: Pipe, ghost k: nat) returns (ch: byte)
      requires Sound(s) && data.Length == PIPESIZE && State() == Without(s, k) && s.taken + k < |s.written|
      modifies this`nread, this`taken
      ensures ch == s.written[s.taken + k] && State() == Without(s, k + 1)
    {
      assert Inv(s);
      EmptyTest(s, k);
      ch := data[nread % PIPESIZE];
      nread := (nread + 1) % UINT32;
      taken := taken + 1;
    }

    /** pipeclose, up to freeing the page when both ends are closed. */
    method Pipeclose(writable: bool)
      requires Valid()
      modifies this`readopen, this`writeopen, this`asleepR, this`asleepW, this`silent
      ensures Valid() && Next(old(State()), State(), if writable then CloseWrite else CloseRead)
    {
      ghost var s := State();
      if writable {
        writeopen := false;
        asleepR, silent := {}, false;
      } else {
        readopen := false;
        asleepW := {};
      }
      StepKeeps(s, State(), if writable then CloseWrite else CloseRead);
    }
  }
}
