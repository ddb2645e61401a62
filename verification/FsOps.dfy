/** The block allocator and the file layer of kernel/fs.c, and the chunking of writes in
    kernel/file.c, on a flat block store.  `logged` is the set of blocks passed to
    log_write since the operation began. */
module FsOps {
  import opened Options
  import opened Blocks
  import opened FsModel
  import opened FsSpace

  function Min(a: nat, b: nat): (m: nat) {
    if a < b then a else b
  }

  lemma SlicesJoin(c: seq<byte>, i: nat, j: nat, k: nat)
    requires i <= j <= k <= |c|
    ensures c[i..j] + c[j..k] == c[i..k]
  {
  }

  /** What one turn of the loop of writei did; OutOfBlocks is the panic of balloc. */
  datatype Turn = OutOfBlocks | CopyFailed | Copied

  /** Refused is the result -1 of writei. */
  datatype WriteResult = NoBlocks | Refused | Wrote(count: nat)

  /** The offsets and lengths, as 32-bit numbers, that writei turns down. */
  predicate WriteRefused(size: nat, off: nat, n: nat) {
    off > size || off + n > MAXFILE * BSIZE
  }

  /** How many of n bytes writei copies when `readable` of them can be: whole pieces, which
      end with a block of the file or with the source. */
  function CopiedBytes(off: nat, n: nat, readable: nat): (k: nat)
    ensures k <= n && k <= readable && (n <= readable ==> k == n)
  {
    var end := (off + readable) / BSIZE * BSIZE;
    if n <= readable then n else if end > off then end - off else 0
  }

  /** The loop of writei stops there. */
  lemma CopiedAt(off: nat, n: nat, readable: nat, tot: nat)
    requires tot < n && tot <= readable && (tot == 0 || (off + tot) % BSIZE == 0)
    ensures readable < tot + TurnLen(off + tot, n - tot) ==> tot == CopiedBytes(off, n, readable)
  {
  }

  /** When filewrite writes everything. */
  predicate FileWritable(size: nat, off: nat, n: nat, readable: nat) {
    n == 0 || (!WriteRefused(size, off, n) && n <= readable)
  }

  lemma MinNext(done: nat, n: nat, k: nat, n1: nat)
    requires k == Min(done, n) < n && n1 == Min(n - k, CHUNK)
    ensures k == done && k + n1 == Min(done + CHUNK, n)
  {
  }

  /** What has been written so far decides whether the next chunk is refused. */
  lemma SizeAfter(sup: Super, fs: Fs, fs': Fs, i: nat, off: nat, src: seq<byte>, k: nat, n: nat)
    requires FilesAfter(sup, fs, fs', i, off, src, k)
    ensures Inv(sup, fs) && Inv(sup, fs') && i < sup.ninodes && k <= |src|
    ensures fs.inodes[i].size <= MAXFILE * BSIZE && fs'.inodes[i].size <= MAXFILE * BSIZE
    ensures WriteRefused(fs'.inodes[i].size, off + k, n) <==> WriteRefused(fs.inodes[i].size, off, k + n)
  {
    assert FilesAt(sup, fs, fs', i, off, src, k);
    assert |Content(sup, fs', i)| == fs'.inodes[i].size && |Content(sup, fs, i)| == fs.inodes[i].size;
  }

  class FileSystem {
    const sup: Super
    var blocks: seq<Block>
    var inodes: seq<Inode>
    ghost var logged: set<nat>

    ghost function State(): (fs: Fs)
      reads this
    {
      Fs(blocks, inodes)
    }

    ghost predicate Valid()
      reads this
    {
      Inv(sup, State())
    }

    /** A volume without files, as mkfs begins it: all zero, with the metadata marked in the
        free map. */
    constructor (sup: Super)
      requires sup.Valid()
      ensures this.sup == sup && Valid() && logged == {} && forall i | 0 <= i < sup.ninodes :: inodes[i].size == 0
    {
      this.sup := sup;
      blocks := seq(sup.size, _ => ZeroBlock());
      inodes := seq(sup.ninodes, _ => Inode(0, 0, 0, seq(NDIRECT + 1, _ => 0)));
      logged := {};
      new;
      MarkMetadata();
      EmptyVolume(sup, State());
    }

    /** balloc of mkfs. */
    method MarkMetadata()
      requires sup.Valid() && |blocks| == sup.size && forall b | 0 <= b < sup.size :: blocks[b] == ZeroBlock()
      modifies this`blocks
      ensures |blocks| == sup.size && forall b | 0 <= b < sup.size :: Bit(sup, blocks, b) <==> b < sup.nmeta
    {
      forall b | 0 <= b < sup.size ensures !Bit(sup, blocks, b) {
        ZeroBits(b % 8);
      }
      var i := 0;
      while i < sup.nmeta
        invariant 0 <= i <= sup.nmeta && |blocks| == sup.size
        invariant forall b | 0 <= b < sup.size :: Bit(sup, blocks, b) <==> b < i
      {
        forall b | 0 <= b < sup.size ensures Bit(sup, WithBit(sup, blocks, i, true), b) <==> b < i + 1 {
          WithBitChanges(sup, blocks, i, true, b);
        }
        blocks := WithBit(sup, blocks, i, true);
        i := i + 1;
      }
    }

    /** balloc; None is the panic "out of blocks". */
    method Balloc() returns (r: Option<nat>)
      requires sup.Valid() && |blocks| == sup.size
      modifies this`blocks, this`logged
      ensures r.None? ==> blocks == old(blocks) && forall c | 0 <= c < sup.size :: Bit(sup, blocks, c)
      ensures r.Some? ==>
                && r.value < sup.size && !Bit(sup, old(blocks), r.value)
                && (forall c | 0 <= c < r.value :: Bit(sup, old(blocks), c))
                && blocks == Allocated(sup, old(blocks), r.value)
                && logged == old(logged) + {sup.BBlock(r.value), r.value}
                && Covered(old(blocks), blocks, old(logged), logged)
    {
      var b := 0;
      while b < sup.size
        invariant b % BPB == 0
        invariant blocks == old(blocks) && logged == old(logged)
        invariant forall c | 0 <= c < b && c < sup.size :: Bit(sup, blocks, c)
        decreases sup.size - b
      {
        var bb := sup.BBlock(b);
        var bi := 0;
        while bi < BPB && b + bi < sup.size
          invariant 0 <= bi <= BPB
          invariant blocks == old(blocks) && logged == old(logged)
          invariant forall c | 0 <= c < b + bi && c < sup.size :: Bit(sup, blocks, c)
        {
          BitIndex(b, bi);
          if !GetBit(blocks[bb][bi / 8], bi % 8) {
            assert !Bit(sup, blocks, b + bi);
            Mark(bb, bi, b + bi);
            return Some(b + bi);
          }
          bi := bi + 1;
        }
        b := b + BPB;
      }
      return None;
    }

    /** The part of balloc that marks block c, bit bi of free-map block bb, and zeroes it. */
    method Mark(bb: nat, bi: nat, c: nat)
      requires sup.Valid() && |blocks| == sup.size && c < sup.size && bb == sup.BBlock(c) && bi == c % BPB && bi % 8 == c % 8
      modifies this`blocks, this`logged
      ensures blocks == Allocated(sup, old(blocks), c) && logged == old(logged) + {bb, c}
      ensures Covered(old(blocks), blocks, old(logged), logged)
    {
      blocks := blocks[bb := blocks[bb][bi / 8 := PutByteBit(blocks[bb][bi / 8], bi % 8, true)]];
      logged := logged + {bb};
      assert blocks == WithBit(sup, old(blocks), c, true);
      blocks := blocks[c := ZeroBlock()];
      logged := logged + {c};
      AllocatedCovered(sup, old(blocks), c, old(logged));
    }

    /** bfree; false is the panic "freeing free block". */
    method Bfree(b: nat) returns (ok: bool)
      requires sup.Valid() && |blocks| == sup.size && b < sup.size
      modifies this`blocks, this`logged
      ensures ok == Bit(sup, old(blocks), b)
      ensures ok ==> blocks == WithBit(sup, old(blocks), b, false) && logged == old(logged) + {sup.BBlock(b)}
      ensures !ok ==> blocks == old(blocks) && logged == old(logged)
      ensures Covered(old(blocks), blocks, old(logged), logged)
    {
      var bb := sup.BBlock(b);
      var bi := b % BPB;
      assert bi % 8 == b % 8;
      if !GetBit(blocks[bb][bi / 8], bi % 8) {
        return false;
      }
      blocks := blocks[bb := blocks[bb][bi / 8 := PutByteBit(blocks[bb][bi / 8], bi % 8, false)]];
      logged := logged + {bb};
      return true;
    }

    /** bmap: block `bn` of file i, allocated if it was missing; None is the panic of balloc
        or of bmap.  `maps` are the free-map blocks it logged: one per block it allocated. */
    method Bmap(i: nat, bn: nat) returns (r: Option<nat>, ghost maps: set<nat>)
      requires Valid() && i < sup.ninodes
      modifies this`blocks, this`inodes, this`logged
      ensures bn >= MAXFILE ==> r.None? && State() == old(State()) && logged == old(logged)
      ensures r.Some? ==> bn < MAXFILE && Valid() && Mapped(sup, old(State()), State(), i, bn, r.value)
      ensures bn < MAXFILE && Slot(sup, old(State()), i, bn) != 0 ==> r.Some? && logged == old(logged) && maps == {}
      ensures r.Some? ==> |maps| <= if bn < NDIRECT || Slot(sup, old(State()), i, INDIRECT) != 0 then 1 else 2
      ensures r.Some? ==> logged <= old(logged) + maps + {r.value} + (if bn < NDIRECT then {} else {Slot(sup, State(), i, INDIRECT)})
      ensures r.Some? && Slot(sup, old(State()), i, INDIRECT) != 0 ==> Slot(sup, State(), i, INDIRECT) == Slot(sup, old(State()), i, INDIRECT)
      ensures r.Some? ==> AllLogged(old(State()), State(), i, old(logged), logged)
      ensures r.Some? ==> Provided(sup, old(State()), State(), i, bn, 1)
      ensures bn < MAXFILE && r.None? ==> NoneFree() && Starved(sup, old(State()), i, bn, 1)
    {
      if bn < NDIRECT {
        r, maps := BmapDirect(i, bn);
        return;
      }
      if bn >= MAXFILE {
        return None, {};
      }
      ghost var fs := State();
      assert InodeShape(sup, inodes[i]);
      if inodes[i].addrs[NDIRECT] != 0 {
        r, maps := BmapEntry(i, bn);
        return;
      }
      assert Slot(sup, fs, i, bn) == 0;
      r, maps := AddIndirect(i);
      if r.None? {
        NoneClear(sup, fs, i, bn);
        return;
      }
      ghost var fs1, maps1, logged1, ind := State(), maps, logged, r.value;
      r, maps := BmapEntry(i, bn);
      if r.None? {
        OneClear(sup, fs, fs1, i, bn, ind);
        return;
      }
      GrownProvides(sup, fs, fs1, State(), i, bn, ind);
      AllLoggedNext(fs, fs1, State(), i, old(logged), logged1, logged);
      maps := maps + maps1;
      GrownThenMapped(sup, fs, fs1, State(), i, Slot(sup, fs1, i, INDIRECT), bn, r.value);
    }

    /** Every bit of the free map is set. */
    ghost predicate NoneFree()
      reads this
    {
      sup.Valid() && |blocks| == sup.size && forall c | 0 <= c < sup.size :: Bit(sup, blocks, c)
    }

    /** The part of bmap for the direct blocks. */
    method BmapDirect(i: nat, bn: nat) returns (r: Option<nat>, ghost maps: set<nat>)
      requires Valid() && i < sup.ninodes && bn < NDIRECT
      modifies this`blocks, this`inodes, this`logged
      ensures r.Some? ==> Valid() && Mapped(sup, old(State()), State(), i, bn, r.value)
      ensures Slot(sup, old(State()), i, bn) != 0 ==> r.Some? && logged == old(logged) && maps == {}
      ensures r.Some? ==> |maps| <= 1 && logged <= old(logged) + maps + {r.value}
      ensures r.Some? ==> Slot(sup, State(), i, INDIRECT) == Slot(sup, old(State()), i, INDIRECT)
      ensures r.Some? ==> AllLogged(old(State()), State(), i, old(logged), logged)
      ensures r.Some? ==> Provided(sup, old(State()), State(), i, bn, 1)
      ensures r.None? ==> NoneFree() && Starved(sup, old(State()), i, bn, 1)
    {
      ghost var fs := State();
      maps := {};
      assert InodeShape(sup, inodes[i]) && IsSlot(sup, i, bn);
      assert InRange(sup, fs, i, bn);
      var addr := inodes[i].addrs[bn];
      if addr != 0 {
        FoundProvides(sup, fs, i, bn);
        AllLoggedStart(fs, i, logged);
        return Some(addr), {};
      }
      r := Balloc();
      if r.None? {
        NoneClear(sup, fs, i, bn);
        return;
      }
      DirectMapped(sup, fs, i, bn, r.value);
      SetAddr(i, bn, r.value);
      MappedProvides(sup, fs, State(), i, bn, r.value);
      maps := {sup.BBlock(r.value)};
    }

    /** The part of bmap that allocates the indirect block. */
    method AddIndirect(i: nat) returns (r: Option<nat>, ghost maps: set<nat>)
      requires Valid() && i < sup.ninodes && Slot(sup, State(), i, INDIRECT) == 0
      modifies this`blocks, this`inodes, this`logged
      ensures r.Some? ==> Valid() && Grown(sup, old(State()), State(), i, r.value)
      ensures r.Some? ==> |maps| <= 1 && logged <= old(logged) + maps + {r.value}
      ensures r.Some? ==> AllLogged(old(State()), State(), i, old(logged), logged)
      ensures r.None? ==> State() == old(State()) && NoneFree()
    {
      ghost var fs := State();
      maps := {};
      assert InodeShape(sup, inodes[i]);
      r := Balloc();
      if r.None? { return; }
      IndirectGrown(sup, fs, i, r.value);
      SetAddr(i, NDIRECT, r.value);
      maps := {sup.BBlock(r.value)};
    }

    /** The part of bmap that looks into the indirect block. */
    method BmapEntry(i: nat, bn: nat) returns (r: Option<nat>, ghost maps: set<nat>)
      requires Valid() && i < sup.ninodes && NDIRECT <= bn < MAXFILE && Slot(sup, State(), i, INDIRECT) != 0
      modifies this`blocks, this`logged
      ensures r.Some? ==> Valid() && Mapped(sup, old(State()), State(), i, bn, r.value)
      ensures Slot(sup, old(State()), i, bn) != 0 ==> r.Some? && logged == old(logged) && maps == {}
      ensures r.Some? ==> |maps| <= 1 && logged <= old(logged) + maps + {r.value, Slot(sup, State(), i, INDIRECT)}
      ensures r.Some? ==> Slot(sup, State(), i, INDIRECT) == Slot(sup, old(State()), i, INDIRECT)
      ensures r.Some? ==> AllLogged(old(State()), State(), i, old(logged), logged)
      ensures r.Some? ==> Provided(sup, old(State()), State(), i, bn, 1)
      ensures r.None? ==> State() == old(State()) && NoneFree() && Starved(sup, old(State()), i, bn, 1)
    {
      ghost var fs := State();
      maps := {};
      assert InodeShape(sup, inodes[i]) && IsSlot(sup, i, bn) && InRange(sup, fs, i, bn);
      var ind := inodes[i].addrs[NDIRECT];
      var addr := GetWord(blocks[ind], bn - NDIRECT);
      if addr != 0 {
        FoundProvides(sup, fs, i, bn);
        AllLoggedStart(fs, i, logged);
        return Some(addr), {};
      }
      r := Balloc();
      if r.None? {
        NoneClear(sup, fs, i, bn);
        return;
      }
      EntryMapped(sup, fs, i, bn, r.value);
      ghost var blocks1, logged1 := blocks, logged;
      blocks := blocks[ind := SetWord(blocks[ind], bn - NDIRECT, r.value)];
      logged := logged + {ind};
      BlockCovered(blocks1, ind, blocks[ind], logged1);
      CoveredNext(fs.blocks, blocks1, blocks, old(logged), logged1, logged);
      MappedProvides(sup, fs, State(), i, bn, r.value);
      maps := {sup.BBlock(r.value)};
    }

    /** itrunc.  Its calls of bfree cannot panic. */
    method Itrunc(i: nat)
      requires Valid() && i < sup.ninodes
      modifies this`blocks, this`inodes, this`logged
      ensures Valid() && Truncated(sup, old(State()), State(), i)
      ensures AllLogged(old(State()), State(), i, old(logged), logged) && sup.IBlock(i) in logged
    {
      ghost var fs := State();
      assert InodeShape(sup, inodes[i]);
      FreeDirect(i, fs, logged);
      if inodes[i].addrs[NDIRECT] != 0 {
        FreeIndirect(i, inodes[i].addrs[NDIRECT], fs, old(logged));
        SetAddr(i, NDIRECT, 0);
      } else {
        FreeingSkip(sup, fs, blocks, i, NDIRECT);
      }
      CoveredMore(fs.blocks, blocks, old(logged), logged, sup.IBlock(i));
      inodes := inodes[i := inodes[i].(size := 0)];
      logged := logged + {sup.IBlock(i)};
      assert inodes[i].addrs == Emptied(fs.inodes[i]).addrs;
      TruncatedSlots(sup, fs, State(), i);
      TruncatedInv(sup, fs, State(), i);
    }

    /** The loop of itrunc over the direct blocks. */
    method FreeDirect(i: nat, ghost fs: Fs, ghost base: set<nat>)
      requires Inv(sup, fs) && State() == fs && i < sup.ninodes && |inodes[i].addrs| == NDIRECT + 1 && logged == base
      modifies this`blocks, this`inodes, this`logged
      ensures |inodes| == sup.ninodes && |inodes[i].addrs| == NDIRECT + 1
      ensures inodes == fs.inodes[i := fs.inodes[i].(addrs := inodes[i].addrs)]
      ensures forall l | 0 <= l <= NDIRECT :: inodes[i].addrs[l] == if l < NDIRECT then 0 else fs.inodes[i].addrs[l]
      ensures Freeing(sup, fs, blocks, i, NDIRECT) && Covered(fs.blocks, blocks, base, logged)
    {
      var k := 0;
      while k < NDIRECT
        invariant 0 <= k <= NDIRECT
        invariant |inodes| == sup.ninodes && |inodes[i].addrs| == NDIRECT + 1
        invariant inodes == fs.inodes[i := fs.inodes[i].(addrs := inodes[i].addrs)]
        invariant forall l | 0 <= l <= NDIRECT :: inodes[i].addrs[l] == if l < k then 0 else fs.inodes[i].addrs[l]
        invariant Freeing(sup, fs, blocks, i, k) && Covered(fs.blocks, blocks, base, logged)
      {
        FreeingNext(sup, fs, blocks, i, k);
        if inodes[i].addrs[k] != 0 {
          FreeOne(inodes[i].addrs[k], fs, base);
          SetAddr(i, k, 0);
        }
        k := k + 1;
      }
    }

    /** A call of bfree that cannot panic. */
    method FreeOne(b: nat, ghost fs: Fs, ghost base: set<nat>)
      requires sup.Valid() && |blocks| == sup.size && b < sup.size && Bit(sup, blocks, b) && Covered(fs.blocks, blocks, base, logged)
      modifies this`blocks, this`logged
      ensures blocks == WithBit(sup, old(blocks), b, false) && Covered(fs.blocks, blocks, base, logged)
    {
      var ok := Bfree(b);
      assert ok;
      CoveredNext(fs.blocks, old(blocks), blocks, base, old(logged), logged);
    }

    /** `ip->addrs[k] = b` */
    method SetAddr(i: nat, k: nat, b: nat)
      requires i < |inodes| && k < |inodes[i].addrs|
      modifies this`inodes
      ensures inodes == old(inodes)[i := old(inodes)[i].(addrs := old(inodes)[i].addrs[k := b])]
    {
      inodes := inodes[i := inodes[i].(addrs := inodes[i].addrs[k := b])];
    }

    /** The loop of itrunc over the indirect block. */
    method FreeIndirect(i: nat, ind: nat, ghost fs: Fs, ghost base: set<nat>)
      requires Inv(sup, fs) && Freeing(sup, fs, blocks, i, NDIRECT) && Covered(fs.blocks, blocks, base, logged)
      requires ind == Slot(sup, fs, i, INDIRECT) && ind != 0
      modifies this`blocks, this`logged
      ensures Freeing(sup, fs, blocks, i, NSLOT) && Covered(fs.blocks, blocks, base, logged)
    {
      assert IsSlot(sup, i, INDIRECT) && InRange(sup, fs, i, INDIRECT);
      var j := 0;
      while j < NINDIRECT
        invariant 0 <= j <= NINDIRECT
        invariant Freeing(sup, fs, blocks, i, NDIRECT + j) && Covered(fs.blocks, blocks, base, logged)
      {
        FreeingNext(sup, fs, blocks, i, NDIRECT + j);
        assert blocks[ind] == fs.blocks[ind];
        var a := GetWord(blocks[ind], j);
        if a != 0 {
          FreeOne(a, fs, base);
        }
        j := j + 1;
      }
      FreeingNext(sup, fs, blocks, i, INDIRECT);
      FreeOne(ind, fs, base);
    }
  
    // ---------------------------------------------------------------- reading and writing

    /** The bytes of file i. */
    ghost function Bytes(i: nat): (s: seq<byte>)
      reads this
      requires Valid() && i < sup.ninodes
    {
      assert Sized(sup, State(), i);
      Content(sup, State(), i)
    }

    /** The volume is in order and file i holds the bytes c. */
    ghost predicate Contains(i: nat, c: seq<byte>)
      reads this
    {
      Valid() && i < sup.ninodes && |c| == inodes[i].size && Bytes(i) == c
    }

    /** Contains, kept folded. */
    ghost predicate Reading(i: nat, c: seq<byte>)
      reads this
    {
      forall j | j == i :: Contains(j, c)
    }

    /** The part of readi that finds a block and takes up to `left` bytes of it. */
    method ReadBlock(i: nat, at: nat, left: nat, ghost c: seq<byte>) returns (chunk: seq<byte>)
      requires Reading(i, c) && 0 < left && at + left <= |c|
      modifies this`blocks, this`inodes, this`logged
      ensures State() == old(State()) && logged == old(logged)
      ensures Reading(i, c) && 0 < |chunk| <= left && chunk == c[at..at + |chunk|]
    {
      assert Contains(i, c);
      var m := TurnLen(at, left);
      BelowSize(sup, State(), i, at);
      BlockSlice(sup, State(), i, at, m);
      var b, _ := Bmap(i, at / BSIZE);
      chunk := blocks[b.value][at % BSIZE..at % BSIZE + m];
    }

    /** readi.  `room` is how many bytes can be copied out; None is the result -1. */
    method Readi(i: nat, off: nat, n: nat, room: nat) returns (r: Option<nat>, dst: seq<byte>)
      requires Valid() && i < sup.ninodes && off < UINT32 && n < UINT32
      modifies this`blocks, this`inodes, this`logged
      ensures State() == old(State()) && logged == old(logged)
      ensures Valid() && dst <= ReadSlice(Bytes(i), off, n)
      ensures r.Some? ==> dst == ReadSlice(Bytes(i), off, n) && r.value == |dst|
      ensures r.Some? <==> |ReadSlice(Bytes(i), off, n)| <= room
    {
      assert Sized(sup, State(), i);
      if off > inodes[i].size || (off + n) % UINT32 < off {
        return Some(0), [];
      }
      var n' := if off + n > inodes[i].size then inodes[i].size - off else n;
      assert Contains(i, Bytes(i));
      r, dst := ReadLoop(i, off, n', room, Bytes(i));
    }

    /** The loop of readi. */
    method ReadLoop(i: nat, off: nat, n: nat, room: nat, ghost c: seq<byte>) returns (r: Option<nat>, dst: seq<byte>)
      requires Reading(i, c) && off + n <= |c|
      modifies this`blocks, this`inodes, this`logged
      ensures State() == old(State()) && logged == old(logged)
      ensures |dst| <= n && dst == c[off..off + |dst|]
      ensures r.Some? ==> |dst| == n && r.value == n
      ensures r.Some? <==> n <= room
    {
      dst := [];
      var tot := 0;
      while tot < n
        invariant 0 <= tot <= n && tot <= room
        invariant State() == old(State()) && logged == old(logged) && Reading(i, c)
        invariant dst == c[off..off + tot]
      {
        var chunk := ReadBlock(i, off + tot, n - tot, c);
        if room < tot + |chunk| {
          return None, dst;
        }
        dst := dst + chunk;
        SlicesJoin(c, off, off + tot, off + tot + |chunk|);
        tot := tot + |chunk|;
      }
      return Some(tot), dst;
    }

    /** Block b is block k of file i. */
    ghost predicate IsBlock(i: nat, k: nat, b: nat)
      reads this
    {
      Shape(sup, State()) && i < sup.ninodes && k < MAXFILE && b == Slot(sup, State(), i, k) && 0 < b < sup.size
    }

    /** The call of bmap in the loop of writei. */
    method MapTurn(i: nat, src: seq<byte>, off: nat, tot: nat, bn: nat, ghost fs: Fs, ghost base: set<nat>, ghost t: Touched)
      returns (r: Option<nat>, ghost t': Touched)
      requires Progress(sup, fs, base, i, off, src, State(), logged, t, tot) && AllLogged(fs, State(), i, base, logged)
      requires i < sup.ninodes && bn == (off + tot) / BSIZE < MAXFILE && bn == off / BSIZE + t.turns
      requires Provided(sup, fs, State(), i, off / BSIZE, t.turns)
      requires tot == 0 || t.turns > 0
      modifies this`blocks, this`inodes, this`logged
      ensures r.Some? ==>
                && Progress(sup, fs, base, i, off, src, State(), logged, t', tot)
                && IsBlock(i, bn, r.value) && r.value in t'.data && t'.turns == t.turns + 1
                && AllLogged(fs, State(), i, base, logged)
                && Provided(sup, fs, State(), i, off / BSIZE, t'.turns)
      ensures r.None? ==> NoneFree() && forall m: nat | t.turns < m <= MAXFILE - off / BSIZE :: Starved(sup, fs, i, off / BSIZE, m)
    {
      ghost var fs1, logged1 := State(), logged;
      ghost var maps;
      assert Going(sup, fs, base, i, off, src, fs1, logged, t, tot);
      r, maps := Bmap(i, bn);
      if r.None? {
        forall m: nat | t.turns < m <= MAXFILE - off / BSIZE ensures Starved(sup, fs, i, off / BSIZE, m) {
          StarvedJoin(sup, fs, fs1, i, off / BSIZE, t.turns, bn, 1, m);
        }
        return r, t;
      }
      ProvidedJoin(sup, fs, fs1, State(), i, off / BSIZE, t.turns, bn, 1, t.turns + 1);
      assert MapLogged(sup, fs1, State(), i, bn, r.value, maps, logged1, logged);
      ProgressMapped(sup, fs, base, i, off, src, fs1, logged1, t, tot, State(), logged, bn, r.value, maps);
      t' := Touch(sup, fs1, State(), i, bn, r.value, maps, t);
      AllLoggedNext(fs, fs1, State(), i, base, logged1, logged);
    }

    /** A turn of the loop of writei: the block at `off + tot`, m bytes.  `readable` is how
        many bytes of the source can be copied in. */
    method WriteTurn(i: nat, src: seq<byte>, readable: nat, off: nat, tot: nat, m: nat,
                     ghost fs: Fs, ghost base: set<nat>, ghost t: Touched)
      returns (r: Turn, ghost t': Touched)
      requires Progress(sup, fs, base, i, off, src, State(), logged, t, tot) && AllLogged(fs, State(), i, base, logged)
      requires i < sup.ninodes && off + tot < MAXFILE * BSIZE && tot + m <= |src| && (off + tot) % BSIZE + m <= BSIZE
      requires (off + tot) / BSIZE == off / BSIZE + t.turns && Provided(sup, fs, State(), i, off / BSIZE, t.turns)
      requires tot == 0 || t.turns > 0
      modifies this`blocks, this`inodes, this`logged
      ensures r == CopyFailed ==> readable < tot + m && Progress(sup, fs, base, i, off, src, State(), logged, t', tot)
      ensures r == Copied ==> tot + m <= readable && Progress(sup, fs, base, i, off, src, State(), logged, t', tot + m)
      ensures r != OutOfBlocks ==> t'.turns == t.turns + 1 && AllLogged(fs, State(), i, base, logged)
      ensures r != OutOfBlocks ==> Provided(sup, fs, State(), i, off / BSIZE, t'.turns)
      ensures r == OutOfBlocks ==>
                NoneFree() && forall m: nat | t.turns < m <= MAXFILE - off / BSIZE :: Starved(sup, fs, i, off / BSIZE, m)
    {
      var at := off + tot;
      var addr;
      addr, t' := MapTurn(i, src, off, tot, at / BSIZE, fs, base, t);
      if addr.None? {
        return OutOfBlocks, t;
      }
      var b := addr.value;
      if readable < tot + m {
        return CopyFailed, t';
      }
      ghost var fs2, logged2 := State(), logged;
      assert Going(sup, fs, base, i, off, src, fs2, logged2, t', tot);
      ProvidedPatched(sup, fs, fs2, i, off / BSIZE, t'.turns, at / BSIZE, Patched(blocks[b], at % BSIZE, src[tot..tot + m]));
      blocks := blocks[b := Patched(blocks[b], at % BSIZE, src[tot..tot + m])];
      logged := logged + {b};
      ProgressCopied(sup, fs, base, i, off, src, fs2, logged2, t', tot, State(), m, b);
      BlockCovered(fs2.blocks, b, blocks[b], logged2);
      CoveredNext(fs.blocks, fs2.blocks, blocks, base, logged2, logged);
      return Copied, t';
    }

    /** The loop of writei. */
    method WriteLoop(i: nat, src: seq<byte>, readable: nat, off: nat) returns (r: Option<nat>, ghost t: Touched)
      requires Valid() && i < sup.ninodes && off <= inodes[i].size && off + |src| <= MAXFILE * BSIZE
      modifies this`blocks, this`inodes, this`logged
      ensures r.Some? ==>
                && r.value == CopiedBytes(off, |src|, readable) && AllLogged(old(State()), State(), i, old(logged), logged)
                && Progress(sup, old(State()), old(logged), i, off, src, State(), logged, t, r.value)
                && t.turns <= Spanned(off, |src|)
                && Provided(sup, old(State()), State(), i, off / BSIZE, Turns(off, |src|, readable))
      ensures r.None? ==> NoneFree() && Starved(sup, old(State()), i, off / BSIZE, Turns(off, |src|, readable))
    {
      ghost var fs := State();
      TurnsFit(off, |src|, readable);
      ProvidedNone(sup, fs, i, off / BSIZE);
      var tot := 0;
      t := Touched({}, {}, {}, 0, 0);
      ProgressStart(sup, fs, logged, i, off, src);
      while tot < |src|
        invariant 0 <= tot <= |src| && tot <= readable
        invariant tot == 0 || tot == |src| || (off + tot) % BSIZE == 0
        invariant AllLogged(fs, State(), i, old(logged), logged)
        invariant Progress(sup, fs, old(logged), i, off, src, State(), logged, t, tot)
        invariant t.turns == Spanned(off, tot) <= Spanned(off, |src|)
        invariant Provided(sup, fs, State(), i, off / BSIZE, t.turns)
      {
        TurnsAt(off, |src|, readable, tot);
        var m := TurnLen(off + tot, |src| - tot);
        SpannedTurn(off, tot, |src|);
        CopiedAt(off, |src|, readable, tot);
        var turn;
        turn, t := WriteTurn(i, src, readable, off, tot, m, fs, old(logged), t);
        if turn == OutOfBlocks {
          return None, t;
        }
        if turn == CopyFailed {
          return Some(tot), t;
        }
        tot := tot + m;
      }
      TurnsEnd(off, |src|, readable);
      return Some(tot), t;
    }

    /** writei.  `touched` bounds the blocks it logged. */
    method Writei(i: nat, src: seq<byte>, readable: nat, off: nat) returns (r: WriteResult, ghost touched: set<nat>)
      requires Valid() && i < sup.ninodes && off < UINT32 && |src| < UINT32
      modifies this`blocks, this`inodes, this`logged
      ensures r == Refused <==> WriteRefused(old(inodes)[i].size, off, |src|)
      ensures r == Refused ==> State() == old(State()) && logged == old(logged)
      ensures r.Wrote? ==>
                && Valid() && r.count == CopiedBytes(off, |src|, readable)
                && off <= |old(Bytes(i))| && Bytes(i) == Splice(old(Bytes(i)), off, src[..r.count])
                && forall j | 0 <= j < sup.ninodes && j != i :: SameFile(sup, old(State()), State(), j)
      ensures r.Wrote? ==> logged <= old(logged) + touched && |touched| <= WriteBudget(off, |src|)
      ensures r.Wrote? ==> AllLogged(old(State()), State(), i, old(logged), logged) && sup.IBlock(i) in logged
      ensures r.Wrote? ==> off <= MAXFILE * BSIZE && Served(sup, old(State()), State(), i, off, |src|, readable)
      ensures r.Wrote? ==> HasSpace(sup, old(State()), i, off, |src|, readable)
      ensures r == NoBlocks ==> NoneFree() && LacksSpace(sup, old(State()), i, off, |src|, readable)
    {
      touched := {};
      ghost var fs := State();
      assert Sized(sup, fs, i);
      if off > inodes[i].size || (off + |src|) % UINT32 < off {
        return Refused, touched;
      }
      if (off + |src|) % UINT32 > MAXFILE * BSIZE {
        return Refused, touched;
      }
      var tot;
      ghost var t;
      tot, t := WriteLoop(i, src, readable, off);
      if tot.None? {
        WriteLacks(sup, fs, i, off, |src|, readable);
        return NoBlocks, touched;
      }
      assert Going(sup, fs, old(logged), i, off, src, State(), logged, t, tot.value);
      TouchedBound(sup, fs, State(), i, t, off, |src|);
      ghost var fs1, logged1 := State(), logged;
      if off + tot.value > inodes[i].size {
        inodes := inodes[i := inodes[i].(size := off + tot.value)];
      }
      logged := logged + {sup.IBlock(i)};
      touched := t.All() + {sup.IBlock(i)};
      SizeWritten(sup, fs, fs1, State(), i, off, src, tot.value);
      AllLoggedInode(fs, fs1, State(), i, old(logged), logged1, sup.IBlock(i));
      ProvidedSized(sup, fs, fs1, State(), i, off / BSIZE, Turns(off, |src|, readable));
      WriteServed(sup, fs, State(), i, off, |src|, readable);
      return Wrote(tot.value), touched;
    }
  
    /** The branch of filewrite for files: the chunks are operations of their own.  `states`
        are the volumes between them, and `ops` the sets of blocks they logged; None is the
        panic of balloc. */
    method FileWrite(i: nat, off: nat, src: seq<byte>, readable: nat)
      returns (r: Option<int>, off': nat, ghost states: seq<Fs>, ghost ops: seq<set<nat>>)
      requires Valid() && i < sup.ninodes && off < UINT32 && |src| < UINT32 / 2
      modifies this`blocks, this`inodes, this`logged
      ensures Chunks(sup, states, i, off, src, ops) && states[0] == old(State())
      ensures r.Some? ==> states[|ops|] == State()
      ensures r.Some? ==> off <= off' && FilesAfter(sup, old(State()), State(), i, off, src, off' - off)
      ensures r.Some? ==> r.value == if FileWritable(old(inodes)[i].size, off, |src|, readable) then |src| else -1
      ensures r.Some? && r.value >= 0 ==> off' == off + |src| <= off + |ops| * CHUNK
      ensures r.Some? && r.value > 0 ==> HasSpace(sup, old(State()), i, off, |src|, |src|)
      ensures r.None? ==> NoneFree() && (off + |src| <= MAXFILE * BSIZE ==> LacksSpace(sup, old(State()), i, off, |src|, readable))
    {
      ServedNothing(sup, State(), i, off);
      FilesStart(sup, State(), i, off, src);
      r, off', states, ops := WriteChunks(i, off, src, readable);
    }

    /** filewrite's loop. */
    method WriteChunks(i: nat, off: nat, src: seq<byte>, readable: nat)
      returns (r: Option<int>, off': nat, ghost states: seq<Fs>, ghost ops: seq<set<nat>>)
      requires i < |inodes| && off < UINT32 && |src| < UINT32 / 2
      requires FilesAfter(sup, State(), State(), i, off, src, 0) && Served(sup, State(), State(), i, off, 0, 0)
      modifies this`blocks, this`inodes, this`logged
      ensures Chunks(sup, states, i, off, src, ops) && states[0] == old(State())
      ensures r.Some? ==> states[|ops|] == State()
      ensures r.Some? ==> off <= off' && FilesAfter(sup, old(State()), State(), i, off, src, off' - off)
      ensures r.Some? ==> r.value == if FileWritable(old(inodes)[i].size, off, |src|, readable) then |src| else -1
      ensures r.Some? && r.value >= 0 ==> off' == off + |src| <= off + |ops| * CHUNK
      ensures r.Some? && r.value > 0 ==> HasSpace(sup, old(State()), i, off, |src|, |src|)
      ensures r.None? ==> NoneFree() && (off + |src| <= MAXFILE * BSIZE ==> LacksSpace(sup, old(State()), i, off, |src|, readable))
    {
      ghost var fs := State();
      var k := 0;
      off', ops, states := off, [], [State()];
      ChunksStart(sup, fs, i, off, src);
      while k < |src|
        invariant 0 <= k <= |src| && k <= readable && off' == off + k
        invariant k == Min(|ops| * CHUNK, |src|)
        invariant FilesAfter(sup, fs, State(), i, off, src, k)
        invariant Chunks(sup, states, i, off, src, ops) && states[0] == fs && states[|ops|] == State()
        invariant k > 0 ==> !WriteRefused(fs.inodes[i].size, off, k)
        invariant Served(sup, fs, State(), i, off, k, k)
      {
        var n1 := Min(|src| - k, CHUNK);
        MinNext(|ops| * CHUNK, |src|, k, n1);
        logged := {};
        ghost var fs1 := State();
        var w, chunk := WriteChunk(i, off, src, readable, k, n1, fs);
        if w == NoBlocks {
          if off + |src| <= MAXFILE * BSIZE {
            LacksNext(sup, fs, fs1, i, off, k, n1, readable, off + k, readable - k, |src|);
          }
          return None, off', states, ops;
        }
        ChunksNext(sup, states, i, off, src, ops, State(), chunk, k);
        states, ops := states + [State()], ops + [chunk];
        if w == Refused {
          break;
        }
        off' := off' + w.count;
        ghost var next := k + w.count;
        assert off' - off == next;
        if w.count != n1 {
          return Some(-1), off', states, ops;
        }
        ServedNext(sup, fs, fs1, State(), i, off, k, n1, readable, off + k, readable - k, next);
        k := k + n1;
        assert k == next && (|ops| - 1) * CHUNK + CHUNK == |ops| * CHUNK;
      }
      if k == |src| && k > 0 { ServedEnough(sup, fs, State(), i, off, k, k); }
      r := Some(if k == |src| then |src| else -1);
    }

    /** The body of filewrite's loop. */
    method WriteChunk(i: nat, off: nat, src: seq<byte>, readable: nat, k: nat, n1: nat, ghost fs: Fs)
      returns (w: WriteResult, ghost chunk: set<nat>)
      requires FilesAfter(sup, fs, State(), i, off, src, k) && i < |fs.inodes| && logged == {}
      requires off < UINT32 && |src| < UINT32 / 2 && k + n1 <= |src| && k <= readable && n1 <= CHUNK
      requires k > 0 ==> off + k <= MAXFILE * BSIZE
      modifies this`blocks, this`inodes, this`logged
      ensures w != NoBlocks ==> chunk == logged && ChunkOp(sup, old(State()), State(), i, chunk)
      ensures w.Refused? ==> State() == old(State())
      ensures w.Refused? <==> WriteRefused(fs.inodes[i].size, off, k + n1)
      ensures w.Wrote? ==> w.count == CopiedBytes(off + k, n1, readable - k)
      ensures w.Wrote? ==> FilesAfter(sup, fs, State(), i, off, src, k + w.count)
      ensures w.Wrote? ==> off + k <= MAXFILE * BSIZE && Served(sup, old(State()), State(), i, off + k, n1, readable - k)
      ensures w == NoBlocks ==> NoneFree() && LacksSpace(sup, old(State()), i, off + k, n1, readable - k)
    {
      ghost var fs1 := State();
      SizeAfter(sup, fs, fs1, i, off, src, k, n1);
      w, chunk := LogChunk(i, src[k..k + n1], readable - k, off + k);
      if w.Wrote? {
        FilesNext(sup, fs, fs1, State(), i, off, src, k, n1, w.count);
      }
    }

    /** The call of writei in filewrite, between begin_op and end_op. */
    method LogChunk(i: nat, src: seq<byte>, readable: nat, off: nat) returns (w: WriteResult, ghost chunk: set<nat>)
      requires Valid() && i < sup.ninodes && off < UINT32 && |src| <= CHUNK && logged == {}
      modifies this`blocks, this`inodes, this`logged
      ensures w != NoBlocks ==> chunk == logged && ChunkOp(sup, old(State()), State(), i, chunk)
      ensures w == Refused <==> WriteRefused(old(inodes)[i].size, off, |src|)
      ensures w == Refused ==> State() == old(State())
      ensures w.Wrote? ==>
                && Valid() && w.count == CopiedBytes(off, |src|, readable)
                && off <= |old(Bytes(i))| && Bytes(i) == Splice(old(Bytes(i)), off, src[..w.count])
                && forall j | 0 <= j < sup.ninodes && j != i :: SameFile(sup, old(State()), State(), j)
      ensures w.Wrote? ==> off <= MAXFILE * BSIZE && Served(sup, old(State()), State(), i, off, |src|, readable)
      ensures w == NoBlocks ==> NoneFree() && LacksSpace(sup, old(State()), i, off, |src|, readable)
    {
      ghost var fs, touched := State(), {};
      w, touched := Writei(i, src, readable, off);
      chunk := logged;
      if w.Wrote? {
        ChunkLogged(sup, fs, State(), i, chunk, touched, off, |src|);
      } else if w == Refused {
        ChunkRefused(sup, fs, i);
      }
    }
  }
}
