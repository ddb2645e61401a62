/** How many free blocks bmap and writei take, and so exactly when balloc panics. */
module FsSpace {
  import opened Blocks
  import opened FsModel

  /** The blocks whose bit in the free map is clear. */
  ghost function Clear(sup: Super, fs: Fs): (s: set<nat>)
    requires Shape(sup, fs)
  {
    set c | 0 <= c < sup.size && !Bit(sup, fs.blocks, c)
  }

  /** How many of the n blocks of file i from block k on are not mapped. */
  ghost function Unmapped(sup: Super, fs: Fs, i: nat, k: nat, n: nat): (m: nat)
    requires Shape(sup, fs) && i < sup.ninodes && k + n <= MAXFILE
  {
    if n == 0 then 0 else Unmapped(sup, fs, i, k, n - 1) + if Slot(sup, fs, i, k + n - 1) == 0 then 1 else 0
  }

  /** Mapping them may take an indirect block as well. */
  ghost function Extra(sup: Super, fs: Fs, i: nat, k: nat, n: nat): (m: nat)
    requires Shape(sup, fs) && i < sup.ninodes
  {
    if n > 0 && k + n > NDIRECT && Slot(sup, fs, i, INDIRECT) == 0 then 1 else 0
  }

  /** The blocks that mapping them takes. */
  ghost function Needs(sup: Super, fs: Fs, i: nat, k: nat, n: nat): (m: nat)
    requires Shape(sup, fs) && i < sup.ninodes && k + n <= MAXFILE
  {
    Unmapped(sup, fs, i, k, n) + Extra(sup, fs, i, k, n)
  }

  ghost predicate StockedAt(sup: Super, fs: Fs, i: nat, k: nat, n: nat) {
    Shape(sup, fs) && i < sup.ninodes && k + n <= MAXFILE && |Clear(sup, fs)| >= Needs(sup, fs, i, k, n)
  }

  /** There are free blocks enough to map the n blocks of file i from k on. */
  ghost predicate Stocked(sup: Super, fs: Fs, i: nat, k: nat, n: nat) {
    forall m | m == n :: StockedAt(sup, fs, i, k, m)
  }

  /** There are not. */
  ghost predicate Starved(sup: Super, fs: Fs, i: nat, k: nat, n: nat) {
    forall m | m == n :: !StockedAt(sup, fs, i, k, m)
  }

  lemma StarvedOrStocked(sup: Super, fs: Fs, i: nat, k: nat, n: nat)
    ensures Starved(sup, fs, i, k, n) <==> !Stocked(sup, fs, i, k, n)
  {
    assert StockedAt(sup, fs, i, k, n) || !StockedAt(sup, fs, i, k, n);
  }

  /** One block for each and one more are always enough. */
  lemma {:induction false} NeedsBound(sup: Super, fs: Fs, i: nat, k: nat, n: nat)
    requires Shape(sup, fs) && i < sup.ninodes && k + n <= MAXFILE
    ensures Unmapped(sup, fs, i, k, n) <= n && Needs(sup, fs, i, k, n) <= n + 1
  {
    if n > 0 { NeedsBound(sup, fs, i, k, n - 1); }
  }

  // ---------------------------------------------------------------- free blocks and slots

  lemma SameClear(sup: Super, fs: Fs, fs': Fs)
    requires Inv(sup, fs) && Inv(sup, fs') && SameSlots(sup, fs, fs')
    ensures Clear(sup, fs') == Clear(sup, fs)
  {
    SameSlotsKeep(sup, fs, fs');
    forall c | 0 <= c < sup.size ensures Bit(sup, fs'.blocks, c) == Bit(sup, fs.blocks, c) {
      assert BitOk(sup, fs, c) && BitOk(sup, fs', c);
    }
  }

  lemma OneSlotOwns(sup: Super, fs: Fs, fs': Fs, i: nat, k: nat, b: nat, c: nat)
    requires SlotsOk(sup, fs') && OneSlot(sup, fs, fs', i, k, b) && Slot(sup, fs, i, k) == 0 && b != 0 && c != 0
    ensures Owned(sup, fs', c) <==> c == b || Owned(sup, fs, c)
    ensures !Owned(sup, fs, b)
  {
    forall j, l | IsSlot(sup, j, l) ensures Slot(sup, fs, j, l) != b {
      if j != i || l != k {
        assert Differ(sup, fs', i, k, j, l);
        assert Slot(sup, fs', j, l) == Slot(sup, fs, j, l);
      }
    }
    if c != b {
      if Owned(sup, fs', c) {
        var j, l :| IsSlot(sup, j, l) && Slot(sup, fs', j, l) == c;
        assert Slot(sup, fs, j, l) == c;
      }
      if Owned(sup, fs, c) {
        var j, l :| IsSlot(sup, j, l) && Slot(sup, fs, j, l) == c;
        assert Slot(sup, fs', j, l) == c;
      }
    }
  }

  /** Filling an empty slot takes one free block. */
  lemma OneSlotClear(sup: Super, fs: Fs, fs': Fs, i: nat, k: nat, b: nat)
    requires Inv(sup, fs) && Inv(sup, fs') && OneSlot(sup, fs, fs', i, k, b) && Slot(sup, fs, i, k) == 0 && b != 0
    ensures |Clear(sup, fs)| == |Clear(sup, fs')| + 1
  {
    assert InRange(sup, fs', i, k);
    forall c | 0 <= c < sup.size ensures Bit(sup, fs'.blocks, c) <==> c == b || Bit(sup, fs.blocks, c) {
      assert BitOk(sup, fs, c) && BitOk(sup, fs', c);
      if c != 0 { OneSlotOwns(sup, fs, fs', i, k, b, c); }
    }
    assert !Bit(sup, fs.blocks, b) by {
      OneSlotOwns(sup, fs, fs', i, k, b, b);
      assert BitOk(sup, fs, b);
    }
    assert Clear(sup, fs) == Clear(sup, fs') + {b};
  }

  /** No other inode has changed, and neither has the indirect block of this one. */
  lemma MappedOneSlot(sup: Super, fs: Fs, fs': Fs, i: nat, k: nat, b: nat)
    requires Mapped(sup, fs, fs', i, k, b) && fs'.inodes == fs.inodes[i := fs'.inodes[i]]
    requires Slot(sup, fs', i, INDIRECT) == Slot(sup, fs, i, INDIRECT)
    ensures OneSlot(sup, fs, fs', i, k, b)
  {
    forall j: nat, l: nat | IsSlot(sup, j, l) && (j != i || l != k) ensures Slot(sup, fs', j, l) == Slot(sup, fs, j, l) {
      if l == INDIRECT && j != i { assert fs'.inodes[j] == fs.inodes[j]; }
    }
  }

  lemma GrownOneSlot(sup: Super, fs: Fs, fs': Fs, i: nat, b: nat)
    requires Grown(sup, fs, fs', i, b) && fs'.inodes == fs.inodes[i := fs'.inodes[i]]
    ensures OneSlot(sup, fs, fs', i, INDIRECT, b)
  {
    forall j: nat, l: nat | IsSlot(sup, j, l) && (j != i || l != INDIRECT) ensures Slot(sup, fs', j, l) == Slot(sup, fs, j, l) {
      if l == INDIRECT { assert fs'.inodes[j] == fs.inodes[j]; }
    }
  }

  // ---------------------------------------------------------------- accounts

  /** The n blocks of file i from k on have been mapped, with exactly the free blocks that
      takes, and no other slot of the file has changed. */
  ghost predicate ProvidedAt(sup: Super, fs: Fs, fs': Fs, i: nat, k: nat, n: nat) {
    && Shape(sup, fs) && Shape(sup, fs') && i < sup.ninodes && k + n <= MAXFILE
    && |Clear(sup, fs)| == |Clear(sup, fs')| + Needs(sup, fs, i, k, n)
    && SlotsProvided(sup, fs, fs', i, k, n)
  }

  ghost predicate SlotProvided(sup: Super, fs: Fs, fs': Fs, i: nat, k: nat, n: nat, l: nat)
    requires Shape(sup, fs) && Shape(sup, fs') && i < sup.ninodes
  {
    l < MAXFILE ==> if k <= l < k + n then Slot(sup, fs', i, l) != 0 else Slot(sup, fs', i, l) == Slot(sup, fs, i, l)
  }

  ghost predicate SlotsProvided(sup: Super, fs: Fs, fs': Fs, i: nat, k: nat, n: nat)
    requires Shape(sup, fs) && Shape(sup, fs') && i < sup.ninodes
  {
    && (forall l: nat :: SlotProvided(sup, fs, fs', i, k, n, l))
    && (Slot(sup, fs', i, INDIRECT) == 0 <==> Slot(sup, fs, i, INDIRECT) == 0 && Extra(sup, fs, i, k, n) == 0)
  }

  /** ProvidedAt, kept folded. */
  ghost predicate Provided(sup: Super, fs: Fs, fs': Fs, i: nat, k: nat, n: nat) {
    forall m | m == n :: ProvidedAt(sup, fs, fs', i, k, m)
  }

  lemma ProvidedStocked(sup: Super, fs: Fs, fs': Fs, i: nat, k: nat, n: nat)
    requires Provided(sup, fs, fs', i, k, n)
    ensures Stocked(sup, fs, i, k, n)
  {
    assert ProvidedAt(sup, fs, fs', i, k, n);
  }

  lemma ProvidedNone(sup: Super, fs: Fs, i: nat, k: nat)
    requires Shape(sup, fs) && i < sup.ninodes && k <= MAXFILE
    ensures Provided(sup, fs, fs, i, k, 0)
  {
    assert ProvidedAt(sup, fs, fs, i, k, 0);
  }

  lemma UnmappedOne(sup: Super, fs: Fs, i: nat, k: nat)
    requires Shape(sup, fs) && i < sup.ninodes && k < MAXFILE
    ensures Unmapped(sup, fs, i, k, 1) == if Slot(sup, fs, i, k) == 0 then 1 else 0
  {
    assert Unmapped(sup, fs, i, k, 0) == 0;
  }

  /** bmap found the block mapped. */
  lemma FoundProvides(sup: Super, fs: Fs, i: nat, k: nat)
    requires SlotsOk(sup, fs) && i < sup.ninodes && k < MAXFILE && Slot(sup, fs, i, k) != 0
    ensures Provided(sup, fs, fs, i, k, 1)
  {
    UnmappedOne(sup, fs, i, k);
    assert k >= NDIRECT ==> Slot(sup, fs, i, INDIRECT) != 0;
    assert ProvidedAt(sup, fs, fs, i, k, 1);
  }

  /** bmap has filled an empty slot, with the indirect block there if need be. */
  lemma MappedProvides(sup: Super, fs: Fs, fs': Fs, i: nat, k: nat, b: nat)
    requires Inv(sup, fs) && Inv(sup, fs') && Mapped(sup, fs, fs', i, k, b) && fs'.inodes == fs.inodes[i := fs'.inodes[i]]
    requires Slot(sup, fs, i, k) == 0 && Slot(sup, fs', i, INDIRECT) == Slot(sup, fs, i, INDIRECT)
    requires k >= NDIRECT ==> Slot(sup, fs, i, INDIRECT) != 0
    ensures Provided(sup, fs, fs', i, k, 1)
  {
    MappedOneSlot(sup, fs, fs', i, k, b);
    OneSlotClear(sup, fs, fs', i, k, b);
    UnmappedOne(sup, fs, i, k);
    forall l: nat ensures SlotProvided(sup, fs, fs', i, k, 1, l) {
      assert l < MAXFILE ==> IsSlot(sup, i, l);
    }
    assert ProvidedAt(sup, fs, fs', i, k, 1);
  }

  /** The indirect block first. */
  lemma GrownProvides(sup: Super, fs: Fs, fs1: Fs, fs2: Fs, i: nat, k: nat, b: nat)
    requires Inv(sup, fs) && Inv(sup, fs1) && Grown(sup, fs, fs1, i, b) && fs1.inodes == fs.inodes[i := fs1.inodes[i]]
    requires Slot(sup, fs, i, INDIRECT) == 0 && NDIRECT <= k < MAXFILE && Slot(sup, fs, i, k) == 0
    requires Provided(sup, fs1, fs2, i, k, 1)
    ensures Provided(sup, fs, fs2, i, k, 1)
  {
    assert ProvidedAt(sup, fs1, fs2, i, k, 1);
    GrownOneSlot(sup, fs, fs1, i, b);
    OneSlotClear(sup, fs, fs1, i, INDIRECT, b);
    UnmappedOne(sup, fs, i, k);
    UnmappedOne(sup, fs1, i, k);
    assert IsSlot(sup, i, k);
    forall l: nat ensures SlotProvided(sup, fs, fs2, i, k, 1, l) {
      assert SlotProvided(sup, fs1, fs2, i, k, 1, l);
      assert l < MAXFILE ==> IsSlot(sup, i, l);
    }
    assert ProvidedAt(sup, fs, fs2, i, k, 1);
  }

  /** Without any free block, a block that is not mapped cannot be. */
  lemma NoneClear(sup: Super, fs: Fs, i: nat, k: nat)
    requires Shape(sup, fs) && i < sup.ninodes && k < MAXFILE && Slot(sup, fs, i, k) == 0 && Clear(sup, fs) == {}
    ensures Starved(sup, fs, i, k, 1)
  {
    UnmappedOne(sup, fs, i, k);
    assert !StockedAt(sup, fs, i, k, 1);
  }

  /** The last free block has become the indirect block. */
  lemma OneClear(sup: Super, fs: Fs, fs1: Fs, i: nat, k: nat, b: nat)
    requires Inv(sup, fs) && Inv(sup, fs1) && Grown(sup, fs, fs1, i, b) && fs1.inodes == fs.inodes[i := fs1.inodes[i]]
    requires Slot(sup, fs, i, INDIRECT) == 0 && NDIRECT <= k < MAXFILE && Slot(sup, fs, i, k) == 0 && Clear(sup, fs1) == {}
    ensures Starved(sup, fs, i, k, 1)
  {
    GrownOneSlot(sup, fs, fs1, i, b);
    OneSlotClear(sup, fs, fs1, i, INDIRECT, b);
    UnmappedOne(sup, fs, i, k);
    assert !StockedAt(sup, fs, i, k, 1);
  }

  // ---------------------------------------------------------------- block after block

  /** What is mapped later is what was missing beyond. */
  lemma {:induction false} UnmappedJoin(sup: Super, fs: Fs, fs1: Fs, i: nat, k: nat, n: nat, k1: nat, n1: nat)
    requires Shape(sup, fs) && Shape(sup, fs1) && i < sup.ninodes && k <= k1 <= k + n <= k1 + n1 <= MAXFILE
    requires forall l: nat :: SlotProvided(sup, fs, fs1, i, k, n, l)
    ensures Unmapped(sup, fs, i, k, k1 + n1 - k) == Unmapped(sup, fs, i, k, n) + Unmapped(sup, fs1, i, k1, n1)
    decreases n1
  {
    if n1 == 0 {
    } else {
      var last := k1 + n1 - 1;
      assert SlotProvided(sup, fs, fs1, i, k, n, last);
      if k + n == k1 + n1 {
        UnmappedNone(sup, fs1, i, k1, n1, fs, k, n);
      } else {
        UnmappedJoin(sup, fs, fs1, i, k, n, k1, n1 - 1);
        assert k + (k1 + n1 - k) - 1 == last;
      }
    }
  }

  lemma {:induction false} UnmappedNone(sup: Super, fs1: Fs, i: nat, k1: nat, n1: nat, fs: Fs, k: nat, n: nat)
    requires Shape(sup, fs) && Shape(sup, fs1) && i < sup.ninodes && k <= k1 && k1 + n1 <= k + n <= MAXFILE
    requires forall l: nat :: SlotProvided(sup, fs, fs1, i, k, n, l)
    ensures Unmapped(sup, fs1, i, k1, n1) == 0
    decreases n1
  {
    if n1 > 0 {
      assert SlotProvided(sup, fs, fs1, i, k, n, k1 + n1 - 1);
      UnmappedNone(sup, fs1, i, k1, n1 - 1, fs, k, n);
    }
  }

  lemma NeedsJoin(sup: Super, fs: Fs, fs1: Fs, i: nat, k: nat, n: nat, k1: nat, n1: nat, all: nat)
    requires Shape(sup, fs) && Shape(sup, fs1) && i < sup.ninodes && k <= k1 <= k + n <= k1 + n1 <= MAXFILE && all == k1 + n1 - k
    requires SlotsProvided(sup, fs, fs1, i, k, n)
    ensures Needs(sup, fs, i, k, all) == Needs(sup, fs, i, k, n) + Needs(sup, fs1, i, k1, n1)
  {
    UnmappedJoin(sup, fs, fs1, i, k, n, k1, n1);
  }

  /** Blocks from k on, and then from k1 on, where k1 lies in or just behind the first stretch. */
  lemma ProvidedJoin(sup: Super, fs: Fs, fs1: Fs, fs2: Fs, i: nat, k: nat, n: nat, k1: nat, n1: nat, all: nat)
    requires Provided(sup, fs, fs1, i, k, n) && Provided(sup, fs1, fs2, i, k1, n1)
    requires k <= k1 <= k + n <= k1 + n1 && all == k1 + n1 - k
    ensures Provided(sup, fs, fs2, i, k, all)
  {
    assert ProvidedAt(sup, fs, fs1, i, k, n) && ProvidedAt(sup, fs1, fs2, i, k1, n1);
    NeedsJoin(sup, fs, fs1, i, k, n, k1, n1, all);
    forall l: nat ensures SlotProvided(sup, fs, fs2, i, k, all, l) {
      assert SlotProvided(sup, fs, fs1, i, k, n, l) && SlotProvided(sup, fs1, fs2, i, k1, n1, l);
    }
    assert ProvidedAt(sup, fs, fs2, i, k, all);
  }

  /** A stretch that cannot be mapped makes every longer one impossible. */
  lemma StarvedJoin(sup: Super, fs: Fs, fs1: Fs, i: nat, k: nat, n: nat, k1: nat, n1: nat, all: nat)
    requires Provided(sup, fs, fs1, i, k, n) && Starved(sup, fs1, i, k1, n1)
    requires k <= k1 <= k + n <= k1 + n1 <= k + all <= MAXFILE
    ensures Starved(sup, fs, i, k, all)
  {
    assert ProvidedAt(sup, fs, fs1, i, k, n) && !StockedAt(sup, fs1, i, k1, n1);
    NeedsJoin(sup, fs, fs1, i, k, n, k1, n1, k1 + n1 - k);
    NeedsGrow(sup, fs, i, k, k1 + n1 - k, all);
    assert !StockedAt(sup, fs, i, k, all);
  }

  lemma {:induction false} NeedsGrow(sup: Super, fs: Fs, i: nat, k: nat, n: nat, m: nat)
    requires Shape(sup, fs) && i < sup.ninodes && n <= m && k + m <= MAXFILE
    ensures Needs(sup, fs, i, k, n) <= Needs(sup, fs, i, k, m)
    decreases m
  {
    if n < m { NeedsGrow(sup, fs, i, k, n, m - 1); }
  }

  /** Writing into a mapped block takes none. */
  lemma ProvidedPatched(sup: Super, fs: Fs, fs1: Fs, i: nat, k: nat, n: nat, at: nat, data: Block)
    requires Provided(sup, fs, fs1, i, k, n) && Inv(sup, fs1) && i < sup.ninodes && at < MAXFILE && Slot(sup, fs1, i, at) != 0
    ensures Slot(sup, fs1, i, at) < sup.size
    ensures Provided(sup, fs, fs1.(blocks := fs1.blocks[Slot(sup, fs1, i, at) := data]), i, k, n)
  {
    PatchKeepsInv(sup, fs1, i, at, data);
    var fs2 := fs1.(blocks := fs1.blocks[Slot(sup, fs1, i, at) := data]);
    SameClear(sup, fs1, fs2);
    forall l: nat | l < NSLOT ensures Slot(sup, fs2, i, l) == Slot(sup, fs1, i, l) {
      assert IsSlot(sup, i, l);
    }
    ProvidedSame(sup, fs, fs1, fs2, i, k, n);
  }

  /** Neither does setting the size. */
  lemma ProvidedSized(sup: Super, fs: Fs, fs1: Fs, fs2: Fs, i: nat, k: nat, n: nat)
    requires Provided(sup, fs, fs1, i, k, n) && Shape(sup, fs1) && Shape(sup, fs2) && i < sup.ninodes
    requires fs2.blocks == fs1.blocks && fs2.inodes[i].addrs == fs1.inodes[i].addrs
    ensures Provided(sup, fs, fs2, i, k, n)
  {
    ProvidedSame(sup, fs, fs1, fs2, i, k, n);
  }

  lemma ProvidedSame(sup: Super, fs: Fs, fs1: Fs, fs2: Fs, i: nat, k: nat, n: nat)
    requires Provided(sup, fs, fs1, i, k, n) && Shape(sup, fs1) && Shape(sup, fs2) && i < sup.ninodes
    requires Clear(sup, fs2) == Clear(sup, fs1)
    requires forall l | 0 <= l < NSLOT :: Slot(sup, fs2, i, l) == Slot(sup, fs1, i, l)
    ensures Provided(sup, fs, fs2, i, k, n)
  {
    assert ProvidedAt(sup, fs, fs1, i, k, n);
    forall l: nat ensures SlotProvided(sup, fs, fs2, i, k, n, l) {
      assert SlotProvided(sup, fs, fs1, i, k, n, l);
    }
    assert ProvidedAt(sup, fs, fs2, i, k, n);
  }

  // ---------------------------------------------------------------- the turns of writei

  /** The blocks that writei of n bytes at `off` maps when `readable` bytes can be copied in:
      up to the one in which the copy ends or fails. */
  function Turns(off: nat, n: nat, readable: nat): (t: nat) {
    if n == 0 then 0
    else if n <= readable then (off + n - 1) / BSIZE - off / BSIZE + 1
    else (off + readable) / BSIZE - off / BSIZE + 1
  }

  lemma TurnsAt(off: nat, n: nat, readable: nat, tot: nat)
    requires tot < n && tot <= readable && (tot == 0 || (off + tot) % BSIZE == 0)
    ensures (off + tot) / BSIZE == off / BSIZE + Spanned(off, tot) && Spanned(off, tot) < Turns(off, n, readable)
    ensures readable < tot + TurnLen(off + tot, n - tot) ==> Spanned(off, tot) + 1 == Turns(off, n, readable)
  {
  }

  lemma TurnsEnd(off: nat, n: nat, readable: nat)
    requires n <= readable
    ensures Spanned(off, n) == Turns(off, n, readable)
  {
  }

  lemma TurnsFit(off: nat, n: nat, readable: nat)
    requires off + n <= MAXFILE * BSIZE
    ensures off / BSIZE + Turns(off, n, readable) <= MAXFILE
  {
  }

  /** The chunk of m bytes that follows the first k bytes of a write of n: its blocks begin in
      or just behind those of the first k, and end where a write of k + m bytes ends. */
  lemma ChunkTurns(off: nat, k: nat, m: nat, n: nat, readable: nat)
    requires 0 < m && k + m <= n && k <= readable
    ensures var k0, k1, t, t1 := off / BSIZE, (off + k) / BSIZE, Turns(off, k, k), Turns(off + k, m, readable - k);
            && k0 <= k1 <= k0 + t <= k1 + t1 == k0 + Turns(off, k + m, readable) <= k0 + Turns(off, n, readable)
            && (k + m <= readable ==> Turns(off, k + m, readable) == Turns(off, k + m, k + m))
  {
  }

  // ---------------------------------------------------------------- writes

  ghost predicate ServedAt(sup: Super, fs: Fs, fs': Fs, i: nat, off: nat, n: nat, readable: nat) {
    off <= MAXFILE * BSIZE ==> Provided(sup, fs, fs', i, off / BSIZE, Turns(off, n, readable))
  }

  /** A write of n bytes at `off`, of which `readable` can be copied in, has taken exactly the
      free blocks it needs. */
  ghost predicate Served(sup: Super, fs: Fs, fs': Fs, i: nat, off: nat, n: nat, readable: nat) {
    forall m | m == n :: ServedAt(sup, fs, fs', i, off, m, readable)
  }

  ghost predicate HasSpaceAt(sup: Super, fs: Fs, i: nat, off: nat, n: nat, readable: nat) {
    Stocked(sup, fs, i, off / BSIZE, Turns(off, n, readable))
  }

  /** Such a write finds the free blocks it needs. */
  ghost predicate HasSpace(sup: Super, fs: Fs, i: nat, off: nat, n: nat, readable: nat) {
    forall m | m == n :: HasSpaceAt(sup, fs, i, off, m, readable)
  }

  /** It does not. */
  ghost predicate LacksSpace(sup: Super, fs: Fs, i: nat, off: nat, n: nat, readable: nat) {
    forall m | m == n :: !HasSpaceAt(sup, fs, i, off, m, readable)
  }

  lemma SpaceOrNot(sup: Super, fs: Fs, i: nat, off: nat, n: nat, readable: nat)
    ensures LacksSpace(sup, fs, i, off, n, readable) <==> !HasSpace(sup, fs, i, off, n, readable)
  {
    assert HasSpaceAt(sup, fs, i, off, n, readable) || !HasSpaceAt(sup, fs, i, off, n, readable);
  }

  /** One free block for each block of the file that is written to, and one more, are enough. */
  lemma SpaceBound(sup: Super, fs: Fs, i: nat, off: nat, n: nat, readable: nat)
    requires Shape(sup, fs) && i < sup.ninodes && off + n <= MAXFILE * BSIZE && |Clear(sup, fs)| > Spanned(off, n)
    ensures HasSpace(sup, fs, i, off, n, readable)
  {
    TurnsFit(off, n, readable);
    TurnsBound(off, n, readable);
    NeedsBound(sup, fs, i, off / BSIZE, Turns(off, n, readable));
    assert StockedAt(sup, fs, i, off / BSIZE, Turns(off, n, readable));
    assert HasSpaceAt(sup, fs, i, off, n, readable);
  }

  lemma TurnsBound(off: nat, n: nat, readable: nat)
    ensures Turns(off, n, readable) <= Spanned(off, n)
  {
  }

  lemma ServedNothing(sup: Super, fs: Fs, i: nat, off: nat)
    requires Shape(sup, fs) && i < sup.ninodes
    ensures Served(sup, fs, fs, i, off, 0, 0)
  {
    if off <= MAXFILE * BSIZE { ProvidedNone(sup, fs, i, off / BSIZE); }
    assert ServedAt(sup, fs, fs, i, off, 0, 0);
  }

  lemma ServedEnough(sup: Super, fs: Fs, fs': Fs, i: nat, off: nat, n: nat, readable: nat)
    requires Served(sup, fs, fs', i, off, n, readable) && off <= MAXFILE * BSIZE
    ensures HasSpace(sup, fs, i, off, n, readable)
  {
    assert ServedAt(sup, fs, fs', i, off, n, readable);
    ProvidedStocked(sup, fs, fs', i, off / BSIZE, Turns(off, n, readable));
    assert HasSpaceAt(sup, fs, i, off, n, readable);
  }

  /** A chunk of m bytes behind the first k. */
  lemma ServedNext(sup: Super, fs: Fs, fs1: Fs, fs2: Fs, i: nat, off: nat, k: nat, m: nat, readable: nat, at: nat, left: nat, next: nat)
    requires Served(sup, fs, fs1, i, off, k, k) && Served(sup, fs1, fs2, i, at, m, left) && at <= MAXFILE * BSIZE
    requires 0 < m && k <= readable && at == off + k && left == readable - k && next == k + m
    ensures Served(sup, fs, fs2, i, off, next, readable)
    ensures next <= readable ==> Served(sup, fs, fs2, i, off, next, next)
  {
    ChunkTurns(off, k, m, next, readable);
    assert ServedAt(sup, fs, fs1, i, off, k, k) && ServedAt(sup, fs1, fs2, i, at, m, left);
    ProvidedJoin(sup, fs, fs1, fs2, i, off / BSIZE, Turns(off, k, k), at / BSIZE, Turns(at, m, left), Turns(off, next, readable));
    assert ServedAt(sup, fs, fs2, i, off, next, readable);
    assert next <= readable ==> ServedAt(sup, fs, fs2, i, off, next, next);
  }

  /** A chunk that does not find its blocks. */
  lemma LacksNext(sup: Super, fs: Fs, fs1: Fs, i: nat, off: nat, k: nat, m: nat, readable: nat, at: nat, left: nat, n: nat)
    requires Served(sup, fs, fs1, i, off, k, k) && LacksSpace(sup, fs1, i, at, m, left)
    requires 0 < m && k + m <= n && k <= readable && at == off + k && left == readable - k && off + n <= MAXFILE * BSIZE
    ensures LacksSpace(sup, fs, i, off, n, readable)
  {
    ChunkTurns(off, k, m, n, readable);
    TurnsFit(off, n, readable);
    assert ServedAt(sup, fs, fs1, i, off, k, k) && !HasSpaceAt(sup, fs1, i, at, m, left);
    StarvedOrStocked(sup, fs1, i, at / BSIZE, Turns(at, m, left));
    StarvedJoin(sup, fs, fs1, i, off / BSIZE, Turns(off, k, k), at / BSIZE, Turns(at, m, left), Turns(off, n, readable));
    StarvedOrStocked(sup, fs, i, off / BSIZE, Turns(off, n, readable));
    assert !HasSpaceAt(sup, fs, i, off, n, readable);
  }

  lemma WriteServed(sup: Super, fs: Fs, fs': Fs, i: nat, off: nat, n: nat, readable: nat)
    requires Provided(sup, fs, fs', i, off / BSIZE, Turns(off, n, readable)) && off <= MAXFILE * BSIZE
    ensures Served(sup, fs, fs', i, off, n, readable) && HasSpace(sup, fs, i, off, n, readable)
  {
    assert ServedAt(sup, fs, fs', i, off, n, readable);
    ServedEnough(sup, fs, fs', i, off, n, readable);
  }

  lemma WriteLacks(sup: Super, fs: Fs, i: nat, off: nat, n: nat, readable: nat)
    requires Starved(sup, fs, i, off / BSIZE, Turns(off, n, readable))
    ensures LacksSpace(sup, fs, i, off, n, readable)
  {
    StarvedOrStocked(sup, fs, i, off / BSIZE, Turns(off, n, readable));
    assert !HasSpaceAt(sup, fs, i, off, n, readable);
  }

  // ---------------------------------------------------------------- calls

  /** At most d free blocks have been taken. */
  ghost predicate Spends(sup: Super, fs: Fs, fs': Fs, d: nat) {
    Shape(sup, fs) && Shape(sup, fs') && |Clear(sup, fs)| <= |Clear(sup, fs')| + d
  }

  ghost predicate FewerFree(sup: Super, fs: Fs, d: nat) {
    Shape(sup, fs) && |Clear(sup, fs)| < d
  }

  lemma ServedSpends(sup: Super, fs: Fs, fs': Fs, i: nat, off: nat, n: nat, readable: nat)
    requires Served(sup, fs, fs', i, off, n, readable) && off + n <= MAXFILE * BSIZE
    ensures Spends(sup, fs, fs', Spanned(off, n) + 1)
  {
    assert ServedAt(sup, fs, fs', i, off, n, readable);
    assert ProvidedAt(sup, fs, fs', i, off / BSIZE, Turns(off, n, readable));
    NeedsBound(sup, fs, i, off / BSIZE, Turns(off, n, readable));
    TurnsBound(off, n, readable);
  }

  lemma LacksFewer(sup: Super, fs: Fs, i: nat, off: nat, n: nat, readable: nat)
    requires Shape(sup, fs) && i < sup.ninodes && off + n <= MAXFILE * BSIZE && LacksSpace(sup, fs, i, off, n, readable)
    ensures FewerFree(sup, fs, Spanned(off, n) + 1)
  {
    if |Clear(sup, fs)| > Spanned(off, n) {
      SpaceBound(sup, fs, i, off, n, readable);
      SpaceOrNot(sup, fs, i, off, n, readable);
    }
  }

  /** itrunc gives blocks back. */
  lemma TruncatedSpends(sup: Super, fs: Fs, fs': Fs, i: nat)
    requires Truncated(sup, fs, fs', i)
    ensures Spends(sup, fs, fs', 0)
  {
    assert Clear(sup, fs') == Clear(sup, fs) + (Clear(sup, fs') - Clear(sup, fs));
  }
}
