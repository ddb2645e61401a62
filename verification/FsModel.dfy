/** On-disk structures of kernel/fs.c: the free map, inodes with direct and indirect block
    numbers, who owns which block, and what bytes a file holds. */
module FsModel {
  import opened Blocks

  const NDIRECT := 12
  const NINDIRECT := 256
  const MAXFILE := NDIRECT + NINDIRECT
  const BPB := 8192          // bitmap bits per block
  const MAXOPBLOCKS := 10    // blocks one operation may log
  const IPB := 16            // inodes per block
  const INDIRECT := MAXFILE  // the slot that holds the indirect block itself
  const NSLOT := MAXFILE + 1

  /** The part of the superblock the block layer uses: blocks below `nmeta` are metadata. */
  datatype Super = Super(size: nat, ninodes: nat, inodestart: nat, bmapstart: nat, nmeta: nat) {
    ghost predicate Valid() {
      && inodestart + ninodes / IPB < bmapstart
      && bmapstart + size / BPB < nmeta <= size < UINT32
    }

    function IBlock(i: nat): (b: nat) {
      i / IPB + inodestart
    }

    function BBlock(b: nat): (bb: nat) {
      b / BPB + bmapstart
    }

    predicate Data(b: nat) {
      nmeta <= b < size
    }
  }

  datatype Inode = Inode(typ: int, nlink: int, size: nat, addrs: seq<nat>)

  /** `blocks` are the contents of the flat block store, `inodes` the in-memory inodes. */
  datatype Fs = Fs(blocks: seq<Block>, inodes: seq<Inode>)

  ghost predicate Shape(sup: Super, fs: Fs) {
    && sup.Valid() && |fs.blocks| == sup.size && |fs.inodes| == sup.ninodes
    && forall i | 0 <= i < sup.ninodes :: InodeShape(sup, fs.inodes[i])
  }

  ghost predicate InodeShape(sup: Super, ip: Inode) {
    && |ip.addrs| == NDIRECT + 1
    && forall k | 0 <= k <= NDIRECT :: ip.addrs[k] < sup.size
  }

  // ---------------------------------------------------------------- free map

  predicate Bit(sup: Super, blocks: seq<Block>, b: nat)
    requires |blocks| == sup.size && sup.BBlock(b) < sup.size
  {
    GetBit(blocks[sup.BBlock(b)][b % BPB / 8], b % 8)
  }

  /** Where balloc looks for bit bi of the free-map block that begins at block b. */
  lemma BitIndex(b: nat, bi: nat)
    requires b % BPB == 0 && bi < BPB
    ensures (b + bi) / BPB == b / BPB && (b + bi) % BPB == bi && (b + bi) % 8 == bi % 8
  {
    var q := b / BPB;
    assert b == 8192 * q;
    DivBy(8192, q, bi);
    DivBy(8, 1024 * q + bi / 8, bi % 8);
  }

  lemma DivBy(d: nat, q: nat, r: nat)
    requires r < d && (d == 8 || d == 8192)
    ensures (d * q + r) / d == q && (d * q + r) % d == r
  {
  }

  function PutByteBit(x: byte, k: nat, v: bool): (y: byte)
    requires k < 8
  {
    PutBitBound(x, k, v, 8);
    assert Pow2(8) == 256 by { Pow2Of8(); }
    PutBit(x, k, v)
  }

  lemma Pow2Of8()
    ensures Pow2(8) == 256
  {
    assert Pow2(4) == 16;
    assert Pow2(6) == 64;
  }

  function WithBit(sup: Super, blocks: seq<Block>, b: nat, v: bool): (blocks': seq<Block>)
    requires |blocks| == sup.size && sup.BBlock(b) < sup.size
    ensures |blocks'| == |blocks|
  {
    var bb := blocks[sup.BBlock(b)];
    var bi := b % BPB;
    blocks[sup.BBlock(b) := bb[bi / 8 := PutByteBit(bb[bi / 8], bi % 8, v)]]
  }

  /** Setting or clearing a block's bit changes that bit only, and no other block. */
  lemma WithBitChanges(sup: Super, blocks: seq<Block>, b: nat, v: bool, c: nat)
    requires |blocks| == sup.size && sup.BBlock(b) < sup.size && sup.BBlock(c) < sup.size
    ensures Bit(sup, WithBit(sup, blocks, b, v), c) == if c == b then v else Bit(sup, blocks, c)
  {
    assert b % BPB % 8 == b % 8;
    assert c % BPB % 8 == c % 8;
    if c != b && sup.BBlock(c) == sup.BBlock(b) && c % BPB / 8 == b % BPB / 8 {
      assert c / BPB == b / BPB && c % BPB != b % BPB;
      PutBitOther(blocks[sup.BBlock(b)][b % BPB / 8], b % 8, v, c % 8);
    }
  }

  // ---------------------------------------------------------------- block ownership

  /** Block number k of file i, or 0; slot INDIRECT is the indirect block itself. */
  ghost function Slot(sup: Super, fs: Fs, i: nat, k: nat): (b: nat)
    requires Shape(sup, fs) && i < sup.ninodes && k < NSLOT
  {
    assert InodeShape(sup, fs.inodes[i]);
    var a := fs.inodes[i].addrs;
    if k < NDIRECT then a[k]
    else if k == INDIRECT then a[NDIRECT]
    else if a[NDIRECT] == 0 then 0
    else GetWord(fs.blocks[a[NDIRECT]], k - NDIRECT)
  }

  ghost predicate IsSlot(sup: Super, i: nat, k: nat) {
    i < sup.ninodes && k < NSLOT
  }

  ghost predicate Owned(sup: Super, fs: Fs, b: nat)
    requires Shape(sup, fs)
  {
    exists i, k :: IsSlot(sup, i, k) && Slot(sup, fs, i, k) == b
  }

  /** Two different slots never name the same block. */
  ghost predicate Differ(sup: Super, fs: Fs, i: nat, k: nat, j: nat, l: nat)
    requires Shape(sup, fs) && IsSlot(sup, i, k) && IsSlot(sup, j, l)
  {
    (i != j || k != l) && Slot(sup, fs, i, k) != 0 ==> Slot(sup, fs, i, k) != Slot(sup, fs, j, l)
  }

  ghost predicate InRange(sup: Super, fs: Fs, i: nat, k: nat)
    requires Shape(sup, fs) && IsSlot(sup, i, k)
  {
    Slot(sup, fs, i, k) != 0 ==> sup.Data(Slot(sup, fs, i, k))
  }

  /** A file is not too long, and every block below its size is mapped. */
  ghost predicate Sized(sup: Super, fs: Fs, i: nat)
    requires Shape(sup, fs) && i < sup.ninodes
  {
    && fs.inodes[i].size <= MAXFILE * BSIZE
    && forall k | 0 <= k < MAXFILE && k * BSIZE < fs.inodes[i].size :: Slot(sup, fs, i, k) != 0
  }

  /** The bit of a block is set exactly if the block is metadata or owned. */
  ghost predicate BitOk(sup: Super, fs: Fs, b: nat)
    requires Shape(sup, fs) && b < sup.size
  {
    Bit(sup, fs.blocks, b) <==> b < sup.nmeta || Owned(sup, fs, b)
  }

  ghost predicate SlotsOk(sup: Super, fs: Fs) {
    && Shape(sup, fs)
    && (forall i, k, j, l | IsSlot(sup, i, k) && IsSlot(sup, j, l) :: Differ(sup, fs, i, k, j, l))
    && (forall i, k | IsSlot(sup, i, k) :: InRange(sup, fs, i, k))
    && (forall i | 0 <= i < sup.ninodes :: Sized(sup, fs, i))
  }

  ghost predicate Inv(sup: Super, fs: Fs) {
    SlotsOk(sup, fs) && forall b | 0 <= b < sup.size :: BitOk(sup, fs, b)
  }

  /** A volume without files is in order if its free map marks the metadata and nothing else. */
  lemma EmptyVolume(sup: Super, fs: Fs)
    requires Shape(sup, fs)
    requires forall i, k | 0 <= i < sup.ninodes && 0 <= k <= NDIRECT :: fs.inodes[i].addrs[k] == 0
    requires forall i | 0 <= i < sup.ninodes :: fs.inodes[i].size == 0
    requires forall b | 0 <= b < sup.size :: Bit(sup, fs.blocks, b) <==> b < sup.nmeta
    ensures Inv(sup, fs)
  {
    forall i: nat, k: nat | IsSlot(sup, i, k) ensures Slot(sup, fs, i, k) == 0 {
      assert fs.inodes[i].addrs[NDIRECT] == 0;
    }
    forall i: nat, k: nat, j: nat, l: nat | IsSlot(sup, i, k) && IsSlot(sup, j, l) ensures Differ(sup, fs, i, k, j, l) { }
    forall b | 0 <= b < sup.size ensures BitOk(sup, fs, b) { }
  }

  lemma {:induction false} ZeroBits(k: nat)
    ensures !GetBit(0, k)
  {
    if k > 0 { ZeroBits(k - 1); }
  }

  /** The slots of fs' are those of fs. */
  ghost predicate SameSlots(sup: Super, fs: Fs, fs': Fs) {
    && Shape(sup, fs) && Shape(sup, fs')
    && (forall i | 0 <= i < sup.ninodes :: fs'.inodes[i].size == fs.inodes[i].size)
    && forall i, k | IsSlot(sup, i, k) :: Slot(sup, fs', i, k) == Slot(sup, fs, i, k)
  }

  lemma SameSlotsKeep(sup: Super, fs: Fs, fs': Fs)
    requires SlotsOk(sup, fs) && SameSlots(sup, fs, fs')
    ensures SlotsOk(sup, fs')
    ensures forall b: nat :: Owned(sup, fs', b) <==> Owned(sup, fs, b)
  {
    forall i, k, j, l | IsSlot(sup, i, k) && IsSlot(sup, j, l) ensures Differ(sup, fs', i, k, j, l) {
      assert Differ(sup, fs, i, k, j, l);
    }
    forall i, k | IsSlot(sup, i, k) ensures InRange(sup, fs', i, k) {
      assert InRange(sup, fs, i, k);
    }
    forall i | 0 <= i < sup.ninodes ensures Sized(sup, fs', i) {
      assert Sized(sup, fs, i);
      forall k | 0 <= k < MAXFILE && k * BSIZE < fs'.inodes[i].size ensures Slot(sup, fs', i, k) != 0 {
        assert IsSlot(sup, i, k);
      }
    }
  }

  /** Writing blocks that are no indirect block moves no slot. */
  lemma OtherBlocksKeepSlots(sup: Super, fs: Fs, fs': Fs)
    requires Shape(sup, fs) && |fs'.blocks| == sup.size && fs'.inodes == fs.inodes
    requires forall i | 0 <= i < sup.ninodes && Slot(sup, fs, i, INDIRECT) != 0 ::
               fs'.blocks[Slot(sup, fs, i, INDIRECT)] == fs.blocks[Slot(sup, fs, i, INDIRECT)]
    ensures SameSlots(sup, fs, fs')
  {
    forall i: nat, k: nat | IsSlot(sup, i, k) ensures Slot(sup, fs', i, k) == Slot(sup, fs, i, k) {
      assert Slot(sup, fs, i, INDIRECT) == fs.inodes[i].addrs[NDIRECT];
    }
  }

  /** Slot (i, k) is the only one that differs, and it now names b. */
  ghost predicate OneSlot(sup: Super, fs: Fs, fs': Fs, i: nat, k: nat, b: nat) {
    && Shape(sup, fs) && Shape(sup, fs') && IsSlot(sup, i, k)
    && (forall j | 0 <= j < sup.ninodes :: fs'.inodes[j].size == fs.inodes[j].size)
    && Slot(sup, fs', i, k) == b
    && forall j, l | IsSlot(sup, j, l) && (j != i || l != k) :: Slot(sup, fs', j, l) == Slot(sup, fs, j, l)
  }

  /** Giving a block that nobody owns to an empty slot keeps the slots distinct. */
  lemma AddSlot(sup: Super, fs: Fs, fs': Fs, i: nat, k: nat, b: nat)
    requires SlotsOk(sup, fs) && OneSlot(sup, fs, fs', i, k, b)
    requires Slot(sup, fs, i, k) == 0 && sup.Data(b) && !Owned(sup, fs, b)
    ensures SlotsOk(sup, fs')
    ensures forall c: nat | c != 0 :: Owned(sup, fs', c) <==> c == b || Owned(sup, fs, c)
  {
    forall x, y, j, l | IsSlot(sup, x, y) && IsSlot(sup, j, l) ensures Differ(sup, fs', x, y, j, l) {
      assert Differ(sup, fs, x, y, j, l);
      assert Slot(sup, fs, x, y) != b && Slot(sup, fs, j, l) != b;
    }
    forall x, y | IsSlot(sup, x, y) ensures InRange(sup, fs', x, y) {
      assert InRange(sup, fs, x, y);
    }
    forall x | 0 <= x < sup.ninodes ensures Sized(sup, fs', x) {
      assert Sized(sup, fs, x);
      forall y | 0 <= y < MAXFILE && y * BSIZE < fs'.inodes[x].size ensures Slot(sup, fs', x, y) != 0 {
        assert IsSlot(sup, x, y);
      }
    }
    forall c: nat | c != 0 ensures Owned(sup, fs', c) <==> c == b || Owned(sup, fs, c) {
      if c == b {
        assert IsSlot(sup, i, k) && Slot(sup, fs', i, k) == b;
      }
      if Owned(sup, fs, c) {
        var x, y :| IsSlot(sup, x, y) && Slot(sup, fs, x, y) == c;
        assert Slot(sup, fs', x, y) == c;
      }
      if Owned(sup, fs', c) && c != b {
        var x, y :| IsSlot(sup, x, y) && Slot(sup, fs', x, y) == c;
        assert Slot(sup, fs, x, y) == c;
      }
    }
  }

  // ---------------------------------------------------------------- allocation

  /** The free map with block b marked in use, and the block zeroed. */
  function Allocated(sup: Super, blocks: seq<Block>, b: nat): (blocks': seq<Block>)
    requires |blocks| == sup.size && b < sup.size && sup.BBlock(b) < sup.size
    ensures |blocks'| == |blocks|
  {
    WithBit(sup, blocks, b, true)[b := ZeroBlock()]
  }

  lemma AllocBits(sup: Super, blocks: seq<Block>, b: nat, c: nat)
    requires sup.Valid() && |blocks| == sup.size && sup.Data(b) && c < sup.size
    ensures Bit(sup, Allocated(sup, blocks, b), c) <==> c == b || Bit(sup, blocks, c)
  {
    WithBitChanges(sup, blocks, b, true, c);
    assert sup.BBlock(c) != b;
  }

  /** A block whose bit is clear is a data block that nobody owns; marking it in use moves
      no slot and changes no owned block. */
  lemma AllocFresh(sup: Super, fs: Fs, b: nat)
    requires Inv(sup, fs) && b < sup.size && !Bit(sup, fs.blocks, b)
    ensures sup.Data(b) && !Owned(sup, fs, b)
    ensures var fs' := Fs(Allocated(sup, fs.blocks, b), fs.inodes);
            && SameSlots(sup, fs, fs') && SlotsOk(sup, fs') && !Owned(sup, fs', b)
            && (forall i, k | IsSlot(sup, i, k) && Slot(sup, fs, i, k) != 0 ::
                  fs'.blocks[Slot(sup, fs, i, k)] == fs.blocks[Slot(sup, fs, i, k)])
  {
    assert BitOk(sup, fs, b);
    var fs' := Fs(Allocated(sup, fs.blocks, b), fs.inodes);
    forall i, k | IsSlot(sup, i, k) && Slot(sup, fs, i, k) != 0
      ensures fs'.blocks[Slot(sup, fs, i, k)] == fs.blocks[Slot(sup, fs, i, k)]
    {
      assert InRange(sup, fs, i, k);
      assert Slot(sup, fs, i, k) != b && Slot(sup, fs, i, k) != sup.BBlock(b);
    }
    forall i | 0 <= i < sup.ninodes && Slot(sup, fs, i, INDIRECT) != 0
      ensures fs'.blocks[Slot(sup, fs, i, INDIRECT)] == fs.blocks[Slot(sup, fs, i, INDIRECT)]
    {
      assert IsSlot(sup, i, INDIRECT);
    }
    OtherBlocksKeepSlots(sup, fs, fs');
    SameSlotsKeep(sup, fs, fs');
  }

  /** A fresh block in an empty slot: the invariant holds again. */
  lemma AllocPlaced(sup: Super, fs: Fs, b: nat, fs': Fs, i: nat, k: nat)
    requires Inv(sup, fs) && b < sup.size && !Bit(sup, fs.blocks, b)
    requires OneSlot(sup, Fs(Allocated(sup, fs.blocks, b), fs.inodes), fs', i, k, b)
    requires Slot(sup, fs, i, k) == 0
    requires forall c | 0 <= c < sup.size :: Bit(sup, fs'.blocks, c) == Bit(sup, Allocated(sup, fs.blocks, b), c)
    ensures Inv(sup, fs')
  {
    AllocFresh(sup, fs, b);
    var fs1 := Fs(Allocated(sup, fs.blocks, b), fs.inodes);
    SameSlotsKeep(sup, fs, fs1);
    AddSlot(sup, fs1, fs', i, k, b);
    forall c | 0 <= c < sup.size ensures BitOk(sup, fs', c) {
      assert BitOk(sup, fs, c);
      AllocBits(sup, fs.blocks, b, c);
      assert c != 0 ==> (Owned(sup, fs', c) <==> c == b || Owned(sup, fs1, c));
    }
  }

  lemma PlaceDirect(sup: Super, fs: Fs, i: nat, k: nat, b: nat)
    requires Shape(sup, fs) && i < sup.ninodes && k < NDIRECT && b < sup.size
    ensures OneSlot(sup, fs, fs.(inodes := fs.inodes[i := fs.inodes[i].(addrs := fs.inodes[i].addrs[k := b])]), i, k, b)
  {
    assert InodeShape(sup, fs.inodes[i]);
    var fs' := fs.(inodes := fs.inodes[i := fs.inodes[i].(addrs := fs.inodes[i].addrs[k := b])]);
    forall j | 0 <= j < sup.ninodes ensures InodeShape(sup, fs'.inodes[j]) {
      assert InodeShape(sup, fs.inodes[j]);
    }
  }

  lemma ZeroWord(j: nat)
    requires j < WORDS
    ensures GetWord(ZeroBlock(), j) == 0
  {
  }

  lemma PlaceIndirect(sup: Super, fs: Fs, i: nat, b: nat)
    requires Shape(sup, fs) && i < sup.ninodes && b < sup.size && fs.blocks[b] == ZeroBlock()
    requires Slot(sup, fs, i, INDIRECT) == 0
    ensures OneSlot(sup, fs, fs.(inodes := fs.inodes[i := fs.inodes[i].(addrs := fs.inodes[i].addrs[NDIRECT := b])]), i, INDIRECT, b)
  {
    assert InodeShape(sup, fs.inodes[i]);
    var fs' := fs.(inodes := fs.inodes[i := fs.inodes[i].(addrs := fs.inodes[i].addrs[NDIRECT := b])]);
    forall j | 0 <= j < sup.ninodes ensures InodeShape(sup, fs'.inodes[j]) {
      assert InodeShape(sup, fs.inodes[j]);
    }
    forall l | NDIRECT <= l < MAXFILE ensures Slot(sup, fs', i, l) == Slot(sup, fs, i, l) {
      ZeroWord(l - NDIRECT);
    }
  }

  lemma PlaceEntry(sup: Super, fs: Fs, i: nat, k: nat, b: nat)
    requires SlotsOk(sup, fs) && i < sup.ninodes && NDIRECT <= k < MAXFILE && b < sup.size
    requires Slot(sup, fs, i, INDIRECT) != 0
    ensures var a := Slot(sup, fs, i, INDIRECT);
            OneSlot(sup, fs, fs.(blocks := fs.blocks[a := SetWord(fs.blocks[a], k - NDIRECT, b)]), i, k, b)
  {
    var a := Slot(sup, fs, i, INDIRECT);
    assert InodeShape(sup, fs.inodes[i]);
    var fs' := fs.(blocks := fs.blocks[a := SetWord(fs.blocks[a], k - NDIRECT, b)]);
    forall j: nat, l: nat | IsSlot(sup, j, l) && (j != i || l != k) ensures Slot(sup, fs', j, l) == Slot(sup, fs, j, l) {
      assert Differ(sup, fs, i, INDIRECT, j, INDIRECT);
      assert InodeShape(sup, fs.inodes[j]);
    }
  }

  /** The bytes of a data block named by a slot are those of the block store. */
  ghost predicate DataSame(sup: Super, fs: Fs, fs': Fs) {
    && Shape(sup, fs) && |fs'.blocks| == sup.size
    && forall j, l | IsSlot(sup, j, l) && l != INDIRECT && 0 < Slot(sup, fs, j, l) < sup.size ::
         fs'.blocks[Slot(sup, fs, j, l)] == fs.blocks[Slot(sup, fs, j, l)]
  }

  /** What bmap(i, k) = b leaves: the slot is mapped, a newly mapped block is zeroed, and no
      other data slot and no data block changes. */
  ghost predicate Mapped(sup: Super, fs: Fs, fs': Fs, i: nat, k: nat, b: nat) {
    && Shape(sup, fs) && Shape(sup, fs') && IsSlot(sup, i, k) && k != INDIRECT
    && Slot(sup, fs', i, k) == b && sup.Data(b)
    && (forall j, l | IsSlot(sup, j, l) && l != INDIRECT && (j != i || l != k) :: Slot(sup, fs', j, l) == Slot(sup, fs, j, l))
    && (forall j | 0 <= j < sup.ninodes :: fs'.inodes[j] == fs.inodes[j].(addrs := fs'.inodes[j].addrs))
    && DataSame(sup, fs, fs')
    && (if Slot(sup, fs, i, k) == 0 then fs'.blocks[b] == ZeroBlock() else fs' == fs)
  }

  lemma DirectMapped(sup: Super, fs: Fs, i: nat, k: nat, b: nat)
    requires Inv(sup, fs) && i < sup.ninodes && k < NDIRECT && Slot(sup, fs, i, k) == 0
    requires b < sup.size && !Bit(sup, fs.blocks, b)
    ensures var fs1 := Fs(Allocated(sup, fs.blocks, b), fs.inodes);
            |fs.inodes[i].addrs| == NDIRECT + 1 &&
            var fs' := fs1.(inodes := fs.inodes[i := fs.inodes[i].(addrs := fs.inodes[i].addrs[k := b])]);
            Inv(sup, fs') && Mapped(sup, fs, fs', i, k, b)
  {
    var fs1 := Fs(Allocated(sup, fs.blocks, b), fs.inodes);
    assert InodeShape(sup, fs.inodes[i]);
    var fs' := fs1.(inodes := fs.inodes[i := fs.inodes[i].(addrs := fs.inodes[i].addrs[k := b])]);
    AllocFresh(sup, fs, b);
    PlaceDirect(sup, fs1, i, k, b);
    AllocPlaced(sup, fs, b, fs', i, k);
  }

  /** The file has been given an indirect block, and nothing else has changed. */
  ghost predicate Grown(sup: Super, fs: Fs, fs': Fs, i: nat, b: nat) {
    && Shape(sup, fs) && Shape(sup, fs') && i < sup.ninodes && Slot(sup, fs', i, INDIRECT) == b && b != 0
    && (forall j, l | IsSlot(sup, j, l) && l != INDIRECT :: Slot(sup, fs', j, l) == Slot(sup, fs, j, l))
    && (forall j | 0 <= j < sup.ninodes :: fs'.inodes[j] == fs.inodes[j].(addrs := fs'.inodes[j].addrs))
    && DataSame(sup, fs, fs')
  }

  lemma IndirectGrown(sup: Super, fs: Fs, i: nat, b: nat)
    requires Inv(sup, fs) && i < sup.ninodes && Slot(sup, fs, i, INDIRECT) == 0
    requires b < sup.size && !Bit(sup, fs.blocks, b)
    ensures var fs1 := Fs(Allocated(sup, fs.blocks, b), fs.inodes);
            |fs.inodes[i].addrs| == NDIRECT + 1 &&
            var fs' := fs1.(inodes := fs.inodes[i := fs.inodes[i].(addrs := fs.inodes[i].addrs[NDIRECT := b])]);
            Inv(sup, fs') && Grown(sup, fs, fs', i, b)
  {
    var fs1 := Fs(Allocated(sup, fs.blocks, b), fs.inodes);
    assert InodeShape(sup, fs.inodes[i]);
    var fs' := fs1.(inodes := fs.inodes[i := fs.inodes[i].(addrs := fs.inodes[i].addrs[NDIRECT := b])]);
    AllocFresh(sup, fs, b);
    assert IsSlot(sup, i, INDIRECT);
    PlaceIndirect(sup, fs1, i, b);
    AllocPlaced(sup, fs, b, fs', i, INDIRECT);
  }

  lemma EntryMapped(sup: Super, fs: Fs, i: nat, k: nat, b: nat)
    requires Inv(sup, fs) && i < sup.ninodes && NDIRECT <= k < MAXFILE && Slot(sup, fs, i, k) == 0
    requires Slot(sup, fs, i, INDIRECT) != 0 && b < sup.size && !Bit(sup, fs.blocks, b)
    ensures var a := Slot(sup, fs, i, INDIRECT);
            var blocks1 := Allocated(sup, fs.blocks, b);
            blocks1[a] == fs.blocks[a] &&
            var fs' := fs.(blocks := blocks1[a := SetWord(blocks1[a], k - NDIRECT, b)]);
            Inv(sup, fs') && Mapped(sup, fs, fs', i, k, b)
  {
    var a := Slot(sup, fs, i, INDIRECT);
    var fs1 := Fs(Allocated(sup, fs.blocks, b), fs.inodes);
    AllocFresh(sup, fs, b);
    assert IsSlot(sup, i, INDIRECT) && IsSlot(sup, i, k);
    assert InRange(sup, fs, i, INDIRECT);
    var fs' := fs.(blocks := fs1.blocks[a := SetWord(fs1.blocks[a], k - NDIRECT, b)]);
    PlaceEntry(sup, fs1, i, k, b);
    assert a != b;
    forall c | 0 <= c < sup.size ensures Bit(sup, fs'.blocks, c) == Bit(sup, fs1.blocks, c) {
      assert sup.BBlock(c) != a;
    }
    AllocPlaced(sup, fs, b, fs', i, k);
    EntryData(sup, fs, fs1, fs', i, a);
  }

  lemma EntryData(sup: Super, fs: Fs, fs1: Fs, fs': Fs, i: nat, a: nat)
    requires SlotsOk(sup, fs) && i < sup.ninodes && a == Slot(sup, fs, i, INDIRECT) && a != 0
    requires |fs1.blocks| == |fs'.blocks| == sup.size
    requires forall j, l | IsSlot(sup, j, l) && Slot(sup, fs, j, l) != 0 :: fs1.blocks[Slot(sup, fs, j, l)] == fs.blocks[Slot(sup, fs, j, l)]
    requires forall c | 0 <= c < sup.size && c != a :: fs'.blocks[c] == fs1.blocks[c]
    ensures DataSame(sup, fs, fs')
  {
    forall j, l | IsSlot(sup, j, l) && l != INDIRECT && 0 < Slot(sup, fs, j, l) < sup.size
      ensures fs'.blocks[Slot(sup, fs, j, l)] == fs.blocks[Slot(sup, fs, j, l)]
    {
      assert IsSlot(sup, i, INDIRECT);
      assert Differ(sup, fs, i, INDIRECT, j, l);
    }
  }

  lemma GrownThenMapped(sup: Super, fs: Fs, fs1: Fs, fs2: Fs, i: nat, a: nat, k: nat, b: nat)
    requires SlotsOk(sup, fs) && Grown(sup, fs, fs1, i, a) && Mapped(sup, fs1, fs2, i, k, b) && Slot(sup, fs, i, k) == 0
    ensures Mapped(sup, fs, fs2, i, k, b)
  {
    forall j, l | IsSlot(sup, j, l) && l != INDIRECT && 0 < Slot(sup, fs, j, l) < sup.size
      ensures fs2.blocks[Slot(sup, fs, j, l)] == fs.blocks[Slot(sup, fs, j, l)]
    {
      assert Slot(sup, fs1, j, l) == Slot(sup, fs, j, l);
    }
    assert Slot(sup, fs1, i, k) == 0;
  }

  // ---------------------------------------------------------------- truncation

  /** Block c is named by one of the first n slots of file i. */
  ghost predicate FreedBefore(sup: Super, fs: Fs, i: nat, n: nat, c: nat)
    requires Shape(sup, fs) && i < sup.ninodes && n <= NSLOT
  {
    c != 0 && exists l :: 0 <= l < n && Slot(sup, fs, i, l) == c
  }

  /** The free map after the blocks in the first n slots of file i have been freed. */
  ghost predicate Freeing(sup: Super, fs: Fs, blocks: seq<Block>, i: nat, n: nat) {
    && Shape(sup, fs) && i < sup.ninodes && n <= NSLOT && |blocks| == sup.size
    && (forall c | sup.nmeta <= c < sup.size :: blocks[c] == fs.blocks[c])
    && (forall c | 0 <= c < sup.size :: Bit(sup, blocks, c) <==> Bit(sup, fs.blocks, c) && !FreedBefore(sup, fs, i, n, c))
  }

  lemma FreedBeforeNext(sup: Super, fs: Fs, i: nat, n: nat, c: nat)
    requires Shape(sup, fs) && i < sup.ninodes && n < NSLOT
    ensures FreedBefore(sup, fs, i, n + 1, c) <==> FreedBefore(sup, fs, i, n, c) || (c != 0 && Slot(sup, fs, i, n) == c)
  {
    if FreedBefore(sup, fs, i, n, c) {
      var l :| 0 <= l < n && Slot(sup, fs, i, l) == c;
      assert 0 <= l < n + 1 && Slot(sup, fs, i, l) == c;
    }
  }

  /** The next block to free is still marked in use: nothing is freed twice. */
  lemma FreeingNext(sup: Super, fs: Fs, blocks: seq<Block>, i: nat, n: nat)
    requires Inv(sup, fs) && Freeing(sup, fs, blocks, i, n) && n < NSLOT
    ensures var b := Slot(sup, fs, i, n);
            if b == 0 then Freeing(sup, fs, blocks, i, n + 1)
            else sup.Data(b) && Bit(sup, blocks, b) && Freeing(sup, fs, WithBit(sup, blocks, b, false), i, n + 1)
  {
    var b := Slot(sup, fs, i, n);
    assert IsSlot(sup, i, n) && InRange(sup, fs, i, n);
    if b != 0 {
      assert BitOk(sup, fs, b) && Owned(sup, fs, b);
      forall l | 0 <= l < n ensures Slot(sup, fs, i, l) != b {
        assert Differ(sup, fs, i, n, i, l);
      }
      assert !FreedBefore(sup, fs, i, n, b);
    }
    var blocks' := if b == 0 then blocks else WithBit(sup, blocks, b, false);
    forall c | 0 <= c < sup.size
      ensures Bit(sup, blocks', c) <==> Bit(sup, fs.blocks, c) && !FreedBefore(sup, fs, i, n + 1, c)
    {
      FreedBeforeNext(sup, fs, i, n, c);
      if b != 0 {
        WithBitChanges(sup, blocks, b, false, c);
      }
    }
  }

  /** A file without an indirect block has nothing more to free after its direct blocks. */
  lemma {:induction false} FreeingSkip(sup: Super, fs: Fs, blocks: seq<Block>, i: nat, n: nat)
    requires Inv(sup, fs) && Freeing(sup, fs, blocks, i, n) && NDIRECT <= n && Slot(sup, fs, i, INDIRECT) == 0
    ensures Freeing(sup, fs, blocks, i, NSLOT)
    decreases NSLOT - n
  {
    if n < NSLOT {
      FreeingNext(sup, fs, blocks, i, n);
      FreeingSkip(sup, fs, blocks, i, n + 1);
    }
  }

  /** The inode that itrunc writes back. */
  function Emptied(ip: Inode): (ip': Inode) {
    ip.(size := 0, addrs := seq(NDIRECT + 1, k => 0))
  }

  /** After itrunc file i owns nothing, every other file is as before, and exactly the
      blocks file i owned are free again. */
  ghost predicate Truncated(sup: Super, fs: Fs, fs': Fs, i: nat) {
    && Shape(sup, fs) && Shape(sup, fs') && i < sup.ninodes
    && fs'.inodes == fs.inodes[i := Emptied(fs.inodes[i])]
    && (forall k | 0 <= k < NSLOT :: Slot(sup, fs', i, k) == 0)
    && (forall j, l | IsSlot(sup, j, l) && j != i :: Slot(sup, fs', j, l) == Slot(sup, fs, j, l))
    && (forall c | sup.nmeta <= c < sup.size :: fs'.blocks[c] == fs.blocks[c])
    && (forall c | 0 <= c < sup.size :: Bit(sup, fs'.blocks, c) <==> Bit(sup, fs.blocks, c) && !FreedBefore(sup, fs, i, NSLOT, c))
  }

  lemma TruncatedSlots(sup: Super, fs: Fs, fs': Fs, i: nat)
    requires Inv(sup, fs) && Freeing(sup, fs, fs'.blocks, i, NSLOT)
    requires fs'.inodes == fs.inodes[i := Emptied(fs.inodes[i])]
    ensures Truncated(sup, fs, fs', i)
  {
    forall j | 0 <= j < sup.ninodes ensures InodeShape(sup, fs'.inodes[j]) {
      assert InodeShape(sup, fs.inodes[j]);
    }
    forall j: nat, l: nat | IsSlot(sup, j, l) && j != i ensures Slot(sup, fs', j, l) == Slot(sup, fs, j, l) {
      assert IsSlot(sup, j, INDIRECT) && InRange(sup, fs, j, INDIRECT);
      assert Slot(sup, fs, j, INDIRECT) == fs.inodes[j].addrs[NDIRECT];
    }
  }

  lemma TruncatedOwners(sup: Super, fs: Fs, fs': Fs, i: nat, c: nat)
    requires Inv(sup, fs) && Truncated(sup, fs, fs', i) && c != 0
    ensures Owned(sup, fs', c) <==> Owned(sup, fs, c) && !FreedBefore(sup, fs, i, NSLOT, c)
  {
    if Owned(sup, fs', c) {
      var j, l :| IsSlot(sup, j, l) && Slot(sup, fs', j, l) == c;
      assert j != i && Slot(sup, fs, j, l) == c;
      forall k | 0 <= k < NSLOT ensures Slot(sup, fs, i, k) != c {
        assert IsSlot(sup, i, k) && Differ(sup, fs, j, l, i, k);
      }
    }
    if Owned(sup, fs, c) && !FreedBefore(sup, fs, i, NSLOT, c) {
      var j, l :| IsSlot(sup, j, l) && Slot(sup, fs, j, l) == c;
      assert j != i;
      assert Slot(sup, fs', j, l) == c;
    }
  }

  lemma TruncatedInv(sup: Super, fs: Fs, fs': Fs, i: nat)
    requires Inv(sup, fs) && Truncated(sup, fs, fs', i)
    ensures Inv(sup, fs')
  {
    forall x, y, j, l | IsSlot(sup, x, y) && IsSlot(sup, j, l) ensures Differ(sup, fs', x, y, j, l) {
      assert Differ(sup, fs, x, y, j, l);
    }
    forall x, y | IsSlot(sup, x, y) ensures InRange(sup, fs', x, y) {
      assert InRange(sup, fs, x, y);
    }
    forall x | 0 <= x < sup.ninodes ensures Sized(sup, fs', x) {
      assert Sized(sup, fs, x);
      forall y | 0 <= y < MAXFILE && y * BSIZE < fs'.inodes[x].size ensures Slot(sup, fs', x, y) != 0 {
        assert IsSlot(sup, x, y);
      }
    }
    forall c | 0 <= c < sup.size ensures BitOk(sup, fs', c) {
      assert BitOk(sup, fs, c);
      if c != 0 {
        TruncatedOwners(sup, fs, fs', i, c);
      }
      if FreedBefore(sup, fs, i, NSLOT, c) {
        var k :| 0 <= k < NSLOT && Slot(sup, fs, i, k) == c;
        assert IsSlot(sup, i, k) && InRange(sup, fs, i, k);
      }
    }
  }

  // ---------------------------------------------------------------- file contents

  /** Byte p of file i, as far as the block that holds it is mapped. */
  ghost function ByteAt(sup: Super, fs: Fs, i: nat, p: nat): (x: byte)
    requires Shape(sup, fs) && i < sup.ninodes && p < MAXFILE * BSIZE
  {
    var b := Slot(sup, fs, i, p / BSIZE);
    if b < sup.size then fs.blocks[b][p % BSIZE] else 0
  }

  ghost function Content(sup: Super, fs: Fs, i: nat): (s: seq<byte>)
    requires Shape(sup, fs) && i < sup.ninodes && fs.inodes[i].size <= MAXFILE * BSIZE
  {
    seq(fs.inodes[i].size, p requires 0 <= p < fs.inodes[i].size => ByteAt(sup, fs, i, p))
  }

  /** The bytes a read of n bytes at `off` is to return, with 32-bit offsets. */
  function ReadSlice(c: seq<byte>, off: nat, n: nat): (r: seq<byte>) {
    if off > |c| || (off + n) % UINT32 < off then []
    else if off + n > |c| then c[off..]
    else c[off..off + n]
  }

  /** `c` with the bytes from `off` on overwritten by `s`, extended if need be. */
  function Splice(c: seq<byte>, off: nat, s: seq<byte>): (r: seq<byte>)
    requires off <= |c|
  {
    c[..off] + s + (if off + |s| <= |c| then c[off + |s|..] else [])
  }

  /** Byte p of file i while `src` is being written at `off` and `tot` bytes have been done. */
  ghost predicate ByteOk(sup: Super, fs: Fs, fs': Fs, i: nat, off: nat, src: seq<byte>, tot: nat, p: nat)
    requires Shape(sup, fs) && Shape(sup, fs') && i < sup.ninodes && tot <= |src| && p < MAXFILE * BSIZE
  {
    p < fs.inodes[i].size || off <= p < off + tot ==>
      && Slot(sup, fs', i, p / BSIZE) != 0
      && ByteAt(sup, fs', i, p) == if off <= p < off + tot then src[p - off] else ByteAt(sup, fs, i, p)
  }

  ghost predicate ByteKept(sup: Super, fs: Fs, fs': Fs, j: nat, p: nat)
    requires Shape(sup, fs) && Shape(sup, fs') && j < sup.ninodes && p < MAXFILE * BSIZE
  {
    p < fs.inodes[j].size ==> ByteAt(sup, fs', j, p) == ByteAt(sup, fs, j, p)
  }

  /** `tot` bytes of `src` have been written to file i from `off` on: every byte below the
      old size or in the written range is mapped and has the value it should have. */
  ghost predicate Written(sup: Super, fs: Fs, fs': Fs, i: nat, off: nat, src: seq<byte>, tot: nat) {
    && Shape(sup, fs) && Shape(sup, fs') && i < sup.ninodes && tot <= |src|
    && (forall j | 0 <= j < sup.ninodes :: fs'.inodes[j] == fs.inodes[j].(addrs := fs'.inodes[j].addrs))
    && (forall p | 0 <= p < MAXFILE * BSIZE :: ByteOk(sup, fs, fs', i, off, src, tot, p))
    && (forall j, p | 0 <= j < sup.ninodes && j != i && 0 <= p < MAXFILE * BSIZE :: ByteKept(sup, fs, fs', j, p))
  }

  /** itrunc leaves file i empty and the bytes of every other file alone. */
  lemma TruncatedFiles(sup: Super, fs: Fs, fs': Fs, i: nat, j: nat)
    requires Inv(sup, fs) && Truncated(sup, fs, fs', i) && j < sup.ninodes
    ensures fs.inodes[j].size <= MAXFILE * BSIZE && fs'.inodes[j].size <= MAXFILE * BSIZE
    ensures Content(sup, fs', j) == if j == i then [] else Content(sup, fs, j)
  {
    assert Sized(sup, fs, j);
    if j != i {
      forall p | 0 <= p < fs.inodes[j].size ensures ByteAt(sup, fs', j, p) == ByteAt(sup, fs, j, p) {
        BelowSize(sup, fs, j, p);
        assert IsSlot(sup, j, p / BSIZE) && InRange(sup, fs, j, p / BSIZE);
      }
    }
  }

  /** A byte below the size of a file is mapped. */
  lemma BelowSize(sup: Super, fs: Fs, i: nat, p: nat)
    requires SlotsOk(sup, fs) && i < sup.ninodes && p < fs.inodes[i].size
    ensures p < MAXFILE * BSIZE && Slot(sup, fs, i, p / BSIZE) != 0
  {
    assert Sized(sup, fs, i);
    assert p / BSIZE * BSIZE <= p;
  }

  lemma NothingWritten(sup: Super, fs: Fs, i: nat, off: nat, src: seq<byte>)
    requires SlotsOk(sup, fs) && i < sup.ninodes
    ensures Written(sup, fs, fs, i, off, src, 0)
  {
    forall p | 0 <= p < MAXFILE * BSIZE ensures ByteOk(sup, fs, fs, i, off, src, 0, p) {
      if p < fs.inodes[i].size { BelowSize(sup, fs, i, p); }
    }
  }

  /** A data block overwritten in part. */
  function Patched(was: Block, o: nat, s: seq<byte>): (b: Block)
    requires o + |s| <= BSIZE
  {
    was[..o] + s + was[o + |s|..]
  }

  /** Overwriting the data block of slot (i, k) moves no slot and no bit. */
  lemma PatchKeepsInv(sup: Super, fs: Fs, i: nat, k: nat, data: Block)
    requires Inv(sup, fs) && i < sup.ninodes && k < MAXFILE && Slot(sup, fs, i, k) != 0
    ensures var b := Slot(sup, fs, i, k);
            b < sup.size && Inv(sup, fs.(blocks := fs.blocks[b := data])) && SameSlots(sup, fs, fs.(blocks := fs.blocks[b := data]))
  {
    var b := Slot(sup, fs, i, k);
    assert IsSlot(sup, i, k) && InRange(sup, fs, i, k);
    var fs' := fs.(blocks := fs.blocks[b := data]);
    forall j | 0 <= j < sup.ninodes && Slot(sup, fs, j, INDIRECT) != 0
      ensures fs'.blocks[Slot(sup, fs, j, INDIRECT)] == fs.blocks[Slot(sup, fs, j, INDIRECT)]
    {
      assert IsSlot(sup, j, INDIRECT) && Differ(sup, fs, i, k, j, INDIRECT);
    }
    OtherBlocksKeepSlots(sup, fs, fs');
    SameSlotsKeep(sup, fs, fs');
    forall c | 0 <= c < sup.size ensures BitOk(sup, fs', c) {
      assert BitOk(sup, fs, c);
      assert sup.BBlock(c) != b;
    }
  }

  /** Overwriting the data block of slot (i, k) changes the bytes of that block of file i only. */
  lemma PatchBytes(sup: Super, fs: Fs, i: nat, k: nat, data: Block, j: nat, p: nat)
    requires Inv(sup, fs) && i < sup.ninodes && k < MAXFILE && Slot(sup, fs, i, k) != 0
    requires j < sup.ninodes && p < MAXFILE * BSIZE
    requires Slot(sup, fs, i, k) < sup.size
    requires Shape(sup, fs.(blocks := fs.blocks[Slot(sup, fs, i, k) := data]))
    requires SameSlots(sup, fs, fs.(blocks := fs.blocks[Slot(sup, fs, i, k) := data]))
    ensures ByteAt(sup, fs.(blocks := fs.blocks[Slot(sup, fs, i, k) := data]), j, p)
            == if j == i && p / BSIZE == k then data[p % BSIZE] else ByteAt(sup, fs, j, p)
  {
    assert IsSlot(sup, j, p / BSIZE) && IsSlot(sup, i, k);
    assert Differ(sup, fs, i, k, j, p / BSIZE);
  }

  /** bmap changes no byte of any mapped block. */
  lemma MappedBytes(sup: Super, fs: Fs, fs': Fs, i: nat, k: nat, b: nat, j: nat, p: nat)
    requires SlotsOk(sup, fs) && Mapped(sup, fs, fs', i, k, b)
    requires j < sup.ninodes && p < MAXFILE * BSIZE && Slot(sup, fs, j, p / BSIZE) != 0
    ensures Slot(sup, fs', j, p / BSIZE) == Slot(sup, fs, j, p / BSIZE)
    ensures ByteAt(sup, fs', j, p) == ByteAt(sup, fs, j, p)
  {
    assert IsSlot(sup, j, p / BSIZE) && InRange(sup, fs, j, p / BSIZE);
  }

  /** bmap keeps what has been written. */
  lemma MappedWritten(sup: Super, fs: Fs, fs1: Fs, fs2: Fs, i: nat, off: nat, src: seq<byte>, tot: nat, k: nat, b: nat)
    requires SlotsOk(sup, fs) && SlotsOk(sup, fs1) && Written(sup, fs, fs1, i, off, src, tot) && Mapped(sup, fs1, fs2, i, k, b)
    ensures Written(sup, fs, fs2, i, off, src, tot)
  {
    forall p | 0 <= p < MAXFILE * BSIZE ensures ByteOk(sup, fs, fs2, i, off, src, tot, p) {
      assert ByteOk(sup, fs, fs1, i, off, src, tot, p);
      if Slot(sup, fs1, i, p / BSIZE) != 0 { MappedBytes(sup, fs1, fs2, i, k, b, i, p); }
    }
    forall j, p | 0 <= j < sup.ninodes && j != i && 0 <= p < MAXFILE * BSIZE ensures ByteKept(sup, fs, fs2, j, p) {
      assert ByteKept(sup, fs, fs1, j, p);
      if p < fs.inodes[j].size {
        BelowSize(sup, fs1, j, p);
        MappedBytes(sup, fs1, fs2, i, k, b, j, p);
      }
    }
  }

  /** Copying the next part of the source into its block writes that part. */
  lemma PatchWritten(sup: Super, fs: Fs, fs1: Fs, fs2: Fs, i: nat, off: nat, src: seq<byte>, tot: nat, m: nat)
    requires SlotsOk(sup, fs) && Inv(sup, fs1) && Written(sup, fs, fs1, i, off, src, tot)
    requires off + tot < MAXFILE * BSIZE && tot + m <= |src| && (off + tot) % BSIZE + m <= BSIZE
    requires var b := Slot(sup, fs1, i, (off + tot) / BSIZE);
             && 0 < b < sup.size
             && fs2 == fs1.(blocks := fs1.blocks[b := Patched(fs1.blocks[b], (off + tot) % BSIZE, src[tot..tot + m])])
    ensures Inv(sup, fs2) && Written(sup, fs, fs2, i, off, src, tot + m)
  {
    var k := (off + tot) / BSIZE;
    var b := Slot(sup, fs1, i, k);
    var data := Patched(fs1.blocks[b], (off + tot) % BSIZE, src[tot..tot + m]);
    PatchKeepsInv(sup, fs1, i, k, data);
    var tot' := tot + m;
    forall p | 0 <= p < MAXFILE * BSIZE ensures ByteOk(sup, fs, fs2, i, off, src, tot', p) {
      assert ByteOk(sup, fs, fs1, i, off, src, tot, p);
      PatchBytes(sup, fs1, i, k, data, i, p);
      PatchPlace(off + tot, m, p);
      assert IsSlot(sup, i, p / BSIZE);
    }
    forall j, p | 0 <= j < sup.ninodes && j != i && 0 <= p < MAXFILE * BSIZE ensures ByteKept(sup, fs, fs2, j, p) {
      assert ByteKept(sup, fs, fs1, j, p);
      PatchBytes(sup, fs1, i, k, data, j, p);
    }
  }

  /** Where position p lies relative to a range that stays within one block. */
  lemma PatchPlace(at: nat, m: nat, p: nat)
    requires at % BSIZE + m <= BSIZE
    ensures at <= p < at + m ==> p / BSIZE == at / BSIZE && p % BSIZE - at % BSIZE == p - at
    ensures p / BSIZE == at / BSIZE && at % BSIZE <= p % BSIZE < at % BSIZE + m ==> at <= p < at + m
  {
  }

  /** Setting the size at the end of writei: the file holds the old bytes with the written
      ones spliced in, and every other file is as it was. */
  lemma SizeWritten(sup: Super, fs: Fs, fs1: Fs, fs2: Fs, i: nat, off: nat, src: seq<byte>, tot: nat)
    requires SlotsOk(sup, fs) && Inv(sup, fs1) && Written(sup, fs, fs1, i, off, src, tot)
    requires off <= fs.inodes[i].size && off + tot <= MAXFILE * BSIZE
    requires var size := if off + tot > fs1.inodes[i].size then off + tot else fs1.inodes[i].size;
             fs2 == fs1.(inodes := fs1.inodes[i := fs1.inodes[i].(size := size)])
    ensures Inv(sup, fs2) && Sized(sup, fs, i) && Sized(sup, fs2, i)
    ensures Content(sup, fs2, i) == Splice(Content(sup, fs, i), off, src[..tot])
    ensures forall j | 0 <= j < sup.ninodes && j != i :: SameFile(sup, fs, fs2, j)
  {
    assert Sized(sup, fs, i) && Sized(sup, fs1, i);
    SizeSlots(sup, fs1, fs2, i);
    assert Sized(sup, fs2, i) by {
      forall k | 0 <= k < MAXFILE && k * BSIZE < fs2.inodes[i].size ensures Slot(sup, fs2, i, k) != 0 {
        assert k * BSIZE / BSIZE == k;
        assert ByteOk(sup, fs, fs1, i, off, src, tot, k * BSIZE);
        assert IsSlot(sup, i, k);
      }
    }
    SizeInv(sup, fs1, fs2, i);
    var c, c' := Content(sup, fs, i), Content(sup, fs2, i);
    forall p | 0 <= p < |c'| ensures c'[p] == Splice(c, off, src[..tot])[p] {
      assert ByteOk(sup, fs, fs1, i, off, src, tot, p) && IsSlot(sup, i, p / BSIZE);
    }
    forall j | 0 <= j < sup.ninodes && j != i ensures SameFile(sup, fs, fs2, j) {
      assert Sized(sup, fs, j);
      forall p | 0 <= p < fs.inodes[j].size ensures ByteAt(sup, fs2, j, p) == ByteAt(sup, fs, j, p) {
        assert ByteKept(sup, fs, fs1, j, p) && IsSlot(sup, j, p / BSIZE);
      }
    }
  }

  /** The file j holds the same bytes and has the same type and link count. */
  ghost predicate SameFile(sup: Super, fs: Fs, fs': Fs, j: nat) {
    && Shape(sup, fs) && Shape(sup, fs') && j < sup.ninodes
    && fs'.inodes[j] == fs.inodes[j].(addrs := fs'.inodes[j].addrs)
    && fs.inodes[j].size <= MAXFILE * BSIZE
    && Content(sup, fs', j) == Content(sup, fs, j)
  }

  ghost predicate OnlySize(sup: Super, fs: Fs, fs': Fs, i: nat) {
    && Shape(sup, fs) && i < sup.ninodes && |fs'.inodes| == sup.ninodes
    && fs' == fs.(inodes := fs.inodes[i := fs.inodes[i].(size := fs'.inodes[i].size)])
  }

  lemma SizeSlots(sup: Super, fs: Fs, fs': Fs, i: nat)
    requires OnlySize(sup, fs, fs', i)
    ensures Shape(sup, fs')
    ensures forall j, k | IsSlot(sup, j, k) :: Slot(sup, fs', j, k) == Slot(sup, fs, j, k)
  {
    forall j | 0 <= j < sup.ninodes ensures InodeShape(sup, fs'.inodes[j]) {
      assert InodeShape(sup, fs.inodes[j]);
    }
  }

  lemma SizeInv(sup: Super, fs: Fs, fs': Fs, i: nat)
    requires Inv(sup, fs) && Shape(sup, fs') && OnlySize(sup, fs, fs', i) && Sized(sup, fs', i)
    requires forall j, k | IsSlot(sup, j, k) :: Slot(sup, fs', j, k) == Slot(sup, fs, j, k)
    ensures Inv(sup, fs')
  {
    forall j, k, j', l | IsSlot(sup, j, k) && IsSlot(sup, j', l) ensures Differ(sup, fs', j, k, j', l) {
      assert Differ(sup, fs, j, k, j', l);
    }
    forall j, k | IsSlot(sup, j, k) ensures InRange(sup, fs', j, k) {
      assert InRange(sup, fs, j, k);
    }
    forall j | 0 <= j < sup.ninodes ensures Sized(sup, fs', j) {
      assert Sized(sup, fs, j);
      if j != i {
        forall k | 0 <= k < MAXFILE && k * BSIZE < fs'.inodes[j].size ensures Slot(sup, fs', j, k) != 0 {
          assert IsSlot(sup, j, k);
        }
      }
    }
    forall c | 0 <= c < sup.size ensures BitOk(sup, fs', c) {
      assert BitOk(sup, fs, c);
    }
  }

  /** A stretch of a file that stays within one block, read from that block. */
  lemma BlockSlice(sup: Super, fs: Fs, i: nat, at: nat, m: nat)
    requires SlotsOk(sup, fs) && i < sup.ninodes && at % BSIZE + m <= BSIZE && 0 < m && at + m <= fs.inodes[i].size
    ensures fs.inodes[i].size <= MAXFILE * BSIZE && |Content(sup, fs, i)| == fs.inodes[i].size
    ensures var b := Slot(sup, fs, i, at / BSIZE);
            b < sup.size && fs.blocks[b][at % BSIZE..at % BSIZE + m] == Content(sup, fs, i)[at..at + m]
  {
    assert Sized(sup, fs, i) && IsSlot(sup, i, at / BSIZE);
    BelowSize(sup, fs, i, at);
    assert InRange(sup, fs, i, at / BSIZE);
    forall p | at <= p < at + m
      ensures Content(sup, fs, i)[p] == fs.blocks[Slot(sup, fs, i, at / BSIZE)][p - at + at % BSIZE]
    {
      PatchPlace(at, m, p);
    }
  }

  /** Writing two adjacent stretches is writing them at once. */
  lemma SpliceJoin(c: seq<byte>, off: nat, s: seq<byte>, t: seq<byte>)
    requires off <= |c|
    ensures off + |s| <= |Splice(c, off, s)|
    ensures Splice(Splice(c, off, s), off + |s|, t) == Splice(c, off, s + t)
  {
  }

  // ---------------------------------------------------------------- log budget

  /** How many blocks the byte range [off, off + n) touches. */
  function Spanned(off: nat, n: nat): (t: nat) {
    if n == 0 then 0 else (off + n - 1) / BSIZE - off / BSIZE + 1
  }

  /** How many of `left` bytes a turn of the loops of readi and writei moves at `at`. */
  function TurnLen(at: nat, left: nat): (m: nat) {
    if left < BSIZE - at % BSIZE then left else BSIZE - at % BSIZE
  }

  /** One more turn of the loop of writei touches one more block. */
  lemma SpannedTurn(off: nat, tot: nat, n: nat)
    requires tot < n && (tot == 0 || (off + tot) % BSIZE == 0)
    ensures var m := TurnLen(off + tot, n - tot);
            && 0 < m && tot + m <= n && (off + tot) % BSIZE + m <= BSIZE
            && (tot + m == n || (off + (tot + m)) % BSIZE == 0)
            && Spanned(off, tot + m) == Spanned(off, tot) + 1 <= Spanned(off, n)
  {
  }

  /** The bound on the blocks that writing n bytes at `off` logs: the data blocks; a free-map
      block for each but a first one that is only partly overwritten; the indirect block and
      its free-map block; the inode block. */
  function WriteBudget(off: nat, n: nat): (t: nat) {
    var t := Spanned(off, n);
    t + (if t > 0 && off % BSIZE != 0 then t - 1 else t) + 3
  }

  /** The blocks logged by the turns of writei so far: data, free map, and indirect block;
      `free` counts the turns that found their block mapped. */
  datatype Touched = Touched(data: set<nat>, maps: set<nat>, ind: set<nat>, turns: nat, free: nat) {
    function All(): (s: set<nat>) {
      data + maps + ind
    }
  }

  /** `t` is in bounds if the indirect block was `was` at the start and is `now` now. */
  ghost predicate Tally(was: nat, now: nat, t: Touched) {
    && t.free <= t.turns && |t.data| <= t.turns
    && |t.maps| <= t.turns - t.free + (if was == 0 && now != 0 then 1 else 0)
    && (t.ind == {} || (now != 0 && t.ind == {now}))
    && (was != 0 ==> now != 0)
  }

  ghost predicate TouchedOk(sup: Super, fs: Fs, fs': Fs, i: nat, t: Touched) {
    && Shape(sup, fs) && Shape(sup, fs') && i < sup.ninodes
    && Tally(Slot(sup, fs, i, INDIRECT), Slot(sup, fs', i, INDIRECT), t)
  }

  /** A turn for block k, mapped before or not, that logs one data block, `maps` and maybe the
      indirect block. */
  ghost predicate TallyTurn(mapped: bool, now: nat, now': nat, k: nat, maps: set<nat>) {
    && |maps| <= (if mapped then 0 else 1) + (if k >= NDIRECT && now == 0 then 1 else 0)
    && (k >= NDIRECT ==> now' != 0) && (now != 0 ==> now' == now)
  }

  ghost predicate TouchTurn(sup: Super, fs: Fs, fs': Fs, i: nat, k: nat, maps: set<nat>) {
    && Shape(sup, fs) && Shape(sup, fs') && i < sup.ninodes && k < MAXFILE
    && TallyTurn(Slot(sup, fs, i, k) != 0, Slot(sup, fs, i, INDIRECT), Slot(sup, fs', i, INDIRECT), k, maps)
  }

  ghost function Tallied(mapped: bool, now': nat, k: nat, b: nat, maps: set<nat>, t: Touched): (t': Touched) {
    Touched(t.data + {b}, t.maps + maps, if k < NDIRECT then t.ind else t.ind + {now'},
            t.turns + 1, if mapped then t.free + 1 else t.free)
  }

  ghost function Touch(sup: Super, fs: Fs, fs': Fs, i: nat, k: nat, b: nat, maps: set<nat>, t: Touched): (t': Touched)
    requires TouchTurn(sup, fs, fs', i, k, maps)
  {
    Tallied(Slot(sup, fs, i, k) != 0, Slot(sup, fs', i, INDIRECT), k, b, maps, t)
  }

  lemma TallyNext(was: nat, now: nat, now': nat, mapped: bool, k: nat, b: nat, maps: set<nat>, t: Touched)
    requires Tally(was, now, t) && TallyTurn(mapped, now, now', k, maps)
    ensures Tally(was, now', Tallied(mapped, now', k, b, maps, t))
  {
    assert |t.data + {b}| <= |t.data| + 1;
    assert |t.maps + maps| <= |t.maps| + |maps|;
    if k >= NDIRECT {
      assert t.ind + {now'} == {now'};
    }
  }

  lemma TouchedNext(sup: Super, fs: Fs, fs1: Fs, fs2: Fs, i: nat, k: nat, b: nat, maps: set<nat>, t: Touched)
    requires TouchedOk(sup, fs, fs1, i, t) && TouchTurn(sup, fs1, fs2, i, k, maps)
    ensures TouchedOk(sup, fs, fs2, i, Touch(sup, fs1, fs2, i, k, b, maps, t))
  {
    TallyNext(Slot(sup, fs, i, INDIRECT), Slot(sup, fs1, i, INDIRECT), Slot(sup, fs2, i, INDIRECT),
              Slot(sup, fs1, i, k) != 0, k, b, maps, t);
  }

  lemma TouchedBound(sup: Super, fs: Fs, fs': Fs, i: nat, t: Touched, off: nat, n: nat)
    requires TouchedOk(sup, fs, fs', i, t) && t.turns <= Spanned(off, n)
    requires t.turns > 0 && off % BSIZE != 0 ==> t.free >= 1
    ensures |t.All() + {sup.IBlock(i)}| <= WriteBudget(off, n)
  {
    assert |t.ind| <= 1;
    assert |t.data + t.maps| <= |t.data| + |t.maps|;
    assert |t.All()| <= |t.data + t.maps| + |t.ind|;
  }

  lemma TouchedStart(sup: Super, fs: Fs, i: nat)
    requires Shape(sup, fs) && i < sup.ninodes
    ensures TouchedOk(sup, fs, fs, i, Touched({}, {}, {}, 0, 0))
  {
  }

  /** What the loop of writei keeps: `tot` bytes are written, and `t` accounts for the blocks
      logged since `base`. */
  ghost predicate Going(sup: Super, fs: Fs, base: set<nat>, i: nat, off: nat, src: seq<byte>,
                        fs': Fs, logged: set<nat>, t: Touched, tot: nat) {
    && SlotsOk(sup, fs) && Inv(sup, fs') && Written(sup, fs, fs', i, off, src, tot)
    && off <= fs.inodes[i].size
    && logged <= base + t.All() && TouchedOk(sup, fs, fs', i, t)
    && (t.turns > 0 && off % BSIZE != 0 ==> t.free >= 1)
  }

  /** Going, kept folded. */
  ghost predicate Progress(sup: Super, fs: Fs, base: set<nat>, i: nat, off: nat, src: seq<byte>,
                           fs': Fs, logged: set<nat>, t: Touched, tot: nat) {
    forall k | k == tot :: Going(sup, fs, base, i, off, src, fs', logged, t, k)
  }

  lemma ProgressStart(sup: Super, fs: Fs, base: set<nat>, i: nat, off: nat, src: seq<byte>)
    requires Inv(sup, fs) && i < sup.ninodes && off <= fs.inodes[i].size
    ensures Progress(sup, fs, base, i, off, src, fs, base, Touched({}, {}, {}, 0, 0), 0)
  {
    NothingWritten(sup, fs, i, off, src);
    TouchedStart(sup, fs, i);
  }

  /** What bmap promises its caller about the log. */
  ghost predicate MapLogged(sup: Super, fs: Fs, fs': Fs, i: nat, k: nat, b: nat, maps: set<nat>, logged: set<nat>, logged': set<nat>) {
    && TouchTurn(sup, fs, fs', i, k, maps)
    && logged' <= logged + maps + {b} + (if k < NDIRECT then {} else {Slot(sup, fs', i, INDIRECT)})
  }

  /** A turn's call of bmap. */
  lemma ProgressMapped(sup: Super, fs: Fs, base: set<nat>, i: nat, off: nat, src: seq<byte>, fs1: Fs, logged: set<nat>, t: Touched, tot: nat,
                       fs2: Fs, logged': set<nat>, k: nat, b: nat, maps: set<nat>)
    requires Progress(sup, fs, base, i, off, src, fs1, logged, t, tot)
    requires tot == 0 || t.turns > 0
    requires k == (off + tot) / BSIZE && Inv(sup, fs2) && Mapped(sup, fs1, fs2, i, k, b) && MapLogged(sup, fs1, fs2, i, k, b, maps, logged, logged')
    ensures Progress(sup, fs, base, i, off, src, fs2, logged', Touch(sup, fs1, fs2, i, k, b, maps, t), tot)
  {
    assert Going(sup, fs, base, i, off, src, fs1, logged, t, tot);
    MappedWritten(sup, fs, fs1, fs2, i, off, src, tot, k, b);
    TouchedNext(sup, fs, fs1, fs2, i, k, b, maps, t);
    if t.turns == 0 && off % BSIZE != 0 {
      FirstMapped(sup, fs1, i, off);
    }
  }

  /** A turn's copy into the block that bmap returned. */
  lemma ProgressCopied(sup: Super, fs: Fs, base: set<nat>, i: nat, off: nat, src: seq<byte>, fs1: Fs, logged: set<nat>, t: Touched, tot: nat,
                       fs2: Fs, m: nat, b: nat)
    requires Progress(sup, fs, base, i, off, src, fs1, logged, t, tot) && b in t.data
    requires Shape(sup, fs1) && i < sup.ninodes
    requires off + tot < MAXFILE * BSIZE && tot + m <= |src| && (off + tot) % BSIZE + m <= BSIZE
    requires b == Slot(sup, fs1, i, (off + tot) / BSIZE) && 0 < b < sup.size
    requires fs2 == fs1.(blocks := fs1.blocks[b := Patched(fs1.blocks[b], (off + tot) % BSIZE, src[tot..tot + m])])
    ensures Progress(sup, fs, base, i, off, src, fs2, logged + {b}, t, tot + m)
  {
    assert Going(sup, fs, base, i, off, src, fs1, logged, t, tot);
    PatchWritten(sup, fs, fs1, fs2, i, off, src, tot, m);
    TouchedPatched(sup, fs, fs1, fs2, i, t);
  }

  lemma TouchedPatched(sup: Super, fs: Fs, fs1: Fs, fs2: Fs, i: nat, t: Touched)
    requires TouchedOk(sup, fs, fs1, i, t) && Shape(sup, fs2) && fs2.inodes == fs1.inodes
    ensures TouchedOk(sup, fs, fs2, i, t)
  {
  }

  /** A block that a write only partly overwrites at its start is mapped, since off <= size. */
  lemma FirstMapped(sup: Super, fs: Fs, i: nat, off: nat)
    requires SlotsOk(sup, fs) && i < sup.ninodes && off <= fs.inodes[i].size && off % BSIZE != 0
    ensures off < MAXFILE * BSIZE && Slot(sup, fs, i, off / BSIZE) != 0
  {
    BelowSize(sup, fs, i, off - 1);
    assert (off - 1) / BSIZE == off / BSIZE;
  }

  /** The chunk size of filewrite keeps a write within the log budget of one operation,
      whatever its offset. */
  lemma ChunkBudget(off: nat, n: nat)
    requires n <= CHUNK
    ensures WriteBudget(off, n) <= MAXOPBLOCKS
  {
  }

  // ---------------------------------------------------------------- what must be logged

  ghost predicate KeptUnlogged(a: seq<Block>, b: seq<Block>, logged: set<nat>, c: nat) {
    c < |a| && c < |b| && c !in logged ==> b[c] == a[c]
  }

  /** Every block that differs has been logged; `was` and `now` are the logged blocks before
      and after. */
  ghost predicate Covered(a: seq<Block>, b: seq<Block>, was: set<nat>, now: set<nat>) {
    |b| == |a| && was <= now && forall c: nat :: KeptUnlogged(a, b, now, c)
  }

  /** No block has changed without being logged, and of the inodes only inode i has changed. */
  ghost predicate AllLogged(fs: Fs, fs': Fs, i: nat, was: set<nat>, now: set<nat>) {
    && Covered(fs.blocks, fs'.blocks, was, now)
    && i < |fs.inodes| == |fs'.inodes| && fs'.inodes == fs.inodes[i := fs'.inodes[i]]
  }

  lemma AllLoggedStart(fs: Fs, i: nat, was: set<nat>)
    requires i < |fs.inodes|
    ensures AllLogged(fs, fs, i, was, was)
  {
  }

  lemma CoveredNext(a: seq<Block>, b: seq<Block>, c: seq<Block>, l0: set<nat>, l1: set<nat>, l2: set<nat>)
    requires Covered(a, b, l0, l1) && Covered(b, c, l1, l2)
    ensures Covered(a, c, l0, l2)
  {
    forall x: nat ensures KeptUnlogged(a, c, l2, x) {
      assert KeptUnlogged(a, b, l1, x) && KeptUnlogged(b, c, l2, x);
    }
  }

  lemma AllLoggedNext(fs: Fs, fs1: Fs, fs2: Fs, i: nat, l0: set<nat>, l1: set<nat>, l2: set<nat>)
    requires AllLogged(fs, fs1, i, l0, l1) && AllLogged(fs1, fs2, i, l1, l2)
    ensures AllLogged(fs, fs2, i, l0, l2)
  {
    CoveredNext(fs.blocks, fs1.blocks, fs2.blocks, l0, l1, l2);
  }

  lemma CoveredMore(a: seq<Block>, b: seq<Block>, was: set<nat>, now: set<nat>, x: nat)
    requires Covered(a, b, was, now)
    ensures Covered(a, b, was, now + {x})
  {
    forall c: nat ensures KeptUnlogged(a, b, now + {x}, c) {
      assert KeptUnlogged(a, b, now, c);
    }
  }

  /** iupdate: inode i changes and its block is logged. */
  lemma AllLoggedInode(fs: Fs, fs1: Fs, fs2: Fs, i: nat, was: set<nat>, now: set<nat>, x: nat)
    requires AllLogged(fs, fs1, i, was, now)
    requires fs2.blocks == fs1.blocks && |fs2.inodes| == |fs1.inodes| && fs2.inodes == fs1.inodes[i := fs2.inodes[i]]
    ensures AllLogged(fs, fs2, i, was, now + {x})
  {
    CoveredMore(fs.blocks, fs1.blocks, was, now, x);
  }

  lemma AllocatedCovered(sup: Super, blocks: seq<Block>, b: nat, was: set<nat>)
    requires sup.Valid() && |blocks| == sup.size && b < sup.size
    ensures Covered(blocks, Allocated(sup, blocks, b), was, was + {sup.BBlock(b), b})
  {
  }

  lemma BlockCovered(blocks: seq<Block>, b: nat, x: Block, was: set<nat>)
    requires b < |blocks|
    ensures Covered(blocks, blocks[b := x], was, was + {b})
  {
  }

  // ---------------------------------------------------------------- filewrite

  /** The bytes filewrite passes to writei at a time. */
  const CHUNK := (MAXOPBLOCKS - 1 - 1 - 2) / 2 * BSIZE

  /** One chunk of filewrite as an operation on the log: it changed the volume from fs to fs'
      and logged `op`, which holds every block it changed and is within the budget. */
  ghost predicate ChunkOp(sup: Super, fs: Fs, fs': Fs, i: nat, op: set<nat>) {
    && |op| <= MAXOPBLOCKS && AllLogged(fs, fs', i, {}, op)
    && (fs'.inodes[i] != fs.inodes[i] ==> sup.IBlock(i) in op)
  }

  /** A call of writei within the size of a chunk is such an operation. */
  lemma ChunkLogged(sup: Super, fs: Fs, fs': Fs, i: nat, op: set<nat>, touched: set<nat>, off: nat, n: nat)
    requires AllLogged(fs, fs', i, {}, op) && sup.IBlock(i) in op
    requires op <= {} + touched && |touched| <= WriteBudget(off, n) && n <= CHUNK
    ensures ChunkOp(sup, fs, fs', i, op)
  {
    ChunkBudget(off, n);
    assert touched == op + (touched - op);
  }

  lemma ChunkRefused(sup: Super, fs: Fs, i: nat)
    requires i < |fs.inodes|
    ensures ChunkOp(sup, fs, fs, i, {})
  {
    AllLoggedStart(fs, i, {});
  }

  /** The chunks of a call of filewrite: before chunk k, k * CHUNK bytes have been written. */
  ghost predicate Chunks(sup: Super, states: seq<Fs>, i: nat, off: nat, src: seq<byte>, ops: seq<set<nat>>) {
    |states| == |ops| + 1 && forall ops' | ops' == ops :: ChunksOf(sup, states, i, off, src, ops')
  }

  ghost predicate ChunksOf(sup: Super, states: seq<Fs>, i: nat, off: nat, src: seq<byte>, ops: seq<set<nat>>)
    requires |states| == |ops| + 1
  {
    && (forall k | 0 <= k < |ops| :: ChunkOp(sup, states[k], states[k + 1], i, ops[k]))
    && (forall k | 0 <= k < |ops| :: k * CHUNK < |src| && FilesAfter(sup, states[0], states[k], i, off, src, k * CHUNK))
  }

  lemma ChunksStart(sup: Super, fs: Fs, i: nat, off: nat, src: seq<byte>)
    ensures Chunks(sup, [fs], i, off, src, [])
  {
  }

  lemma ChunksNext(sup: Super, states: seq<Fs>, i: nat, off: nat, src: seq<byte>, ops: seq<set<nat>>, fs: Fs, op: set<nat>, k: nat)
    requires Chunks(sup, states, i, off, src, ops) && ChunkOp(sup, states[|ops|], fs, i, op)
    requires k == |ops| * CHUNK < |src| && FilesAfter(sup, states[0], states[|ops|], i, off, src, k)
    ensures Chunks(sup, states + [fs], i, off, src, ops + [op])
  {
    var states', ops' := states + [fs], ops + [op];
    assert ChunksOf(sup, states, i, off, src, ops);
    forall k | 0 <= k < |ops'|
      ensures ChunkOp(sup, states'[k], states'[k + 1], i, ops'[k])
      ensures k * CHUNK < |src| && FilesAfter(sup, states'[0], states'[k], i, off, src, k * CHUNK)
    {
      if k < |ops| {
        assert ChunkOp(sup, states[k], states[k + 1], i, ops[k]);
      }
    }
  }

  /** Files after the first k bytes of `src` have been written to file i at `off`, where
      nothing is written past the end of the file. */
  ghost predicate FilesAt(sup: Super, fs: Fs, fs': Fs, i: nat, off: nat, src: seq<byte>, k: nat) {
    && Inv(sup, fs) && Inv(sup, fs') && i < sup.ninodes && k <= |src|
    && fs.inodes[i].size <= MAXFILE * BSIZE && fs'.inodes[i].size <= MAXFILE * BSIZE
    && (k > 0 ==> off <= fs.inodes[i].size)
    && Content(sup, fs', i) == (if k == 0 then Content(sup, fs, i) else Splice(Content(sup, fs, i), off, src[..k]))
    && forall j | 0 <= j < sup.ninodes && j != i :: SameFile(sup, fs, fs', j)
  }

  /** FilesAt, kept folded. */
  ghost predicate FilesAfter(sup: Super, fs: Fs, fs': Fs, i: nat, off: nat, src: seq<byte>, k: nat) {
    forall m | m == k :: FilesAt(sup, fs, fs', i, off, src, m)
  }

  lemma FilesStart(sup: Super, fs: Fs, i: nat, off: nat, src: seq<byte>)
    requires Inv(sup, fs) && i < sup.ninodes
    ensures FilesAfter(sup, fs, fs, i, off, src, 0)
  {
    forall j | 0 <= j < sup.ninodes ensures SameFile(sup, fs, fs, j) {
      assert Sized(sup, fs, j);
    }
    assert Sized(sup, fs, i);
  }

  lemma FilesNext(sup: Super, fs: Fs, fs1: Fs, fs2: Fs, i: nat, off: nat, src: seq<byte>, k: nat, n: nat, m: nat)
    requires FilesAfter(sup, fs, fs1, i, off, src, k) && i < sup.ninodes && m <= n && k + n <= |src|
    requires Inv(sup, fs1) && fs1.inodes[i].size <= MAXFILE * BSIZE
    requires Inv(sup, fs2) && fs2.inodes[i].size <= MAXFILE * BSIZE
    requires off + k <= fs1.inodes[i].size
    requires Content(sup, fs2, i) == Splice(Content(sup, fs1, i), off + k, src[k..k + n][..m])
    requires forall j | 0 <= j < sup.ninodes && j != i :: SameFile(sup, fs1, fs2, j)
    ensures FilesAfter(sup, fs, fs2, i, off, src, k + m)
  {
    assert FilesAt(sup, fs, fs1, i, off, src, k);
    assert src[k..k + n][..m] == src[k..k + m];
    SpliceNext(Content(sup, fs, i), Content(sup, fs1, i), off, src, k, m);
    SameFilesJoin(sup, fs, fs1, fs2, i);
  }

  lemma SpliceNext(c: seq<byte>, c1: seq<byte>, off: nat, src: seq<byte>, k: nat, m: nat)
    requires off <= |c| && k + m <= |src|
    requires c1 == if k == 0 then c else Splice(c, off, src[..k])
    ensures off + k <= |c1|
    ensures Splice(c1, off + k, src[k..k + m]) == if k + m == 0 then c else Splice(c, off, src[..k + m])
  {
    assert src[..k] + src[k..k + m] == src[..k + m];
    if k == 0 {
      assert src[0..m] == src[..m];
      assert m == 0 ==> Splice(c, off, src[..m]) == c;
    } else {
      SpliceJoin(c, off, src[..k], src[k..k + m]);
    }
  }

  lemma SameFilesJoin(sup: Super, fs: Fs, fs1: Fs, fs2: Fs, i: nat)
    requires forall j | 0 <= j < sup.ninodes && j != i :: SameFile(sup, fs, fs1, j)
    requires forall j | 0 <= j < sup.ninodes && j != i :: SameFile(sup, fs1, fs2, j)
    ensures forall j | 0 <= j < sup.ninodes && j != i :: SameFile(sup, fs, fs2, j)
  {
    forall j | 0 <= j < sup.ninodes && j != i ensures SameFile(sup, fs, fs2, j) {
      assert SameFile(sup, fs, fs1, j) && SameFile(sup, fs1, fs2, j);
    }
  }
}
