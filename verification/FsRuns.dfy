/** Any sequence of calls of readi, writei and itrunc: the blocks, inodes and free map of the
    volume behave as a row of byte strings. */
module FsRuns {
  import opened Options
  import opened Blocks
  import opened FsModel
  import opened FsSpace
  import opened FsOps

  /** `readable` and `room` say how many bytes can be copied from or to the caller. */
  datatype Call =
    | Write(i: nat, src: seq<byte>, readable: nat, off: nat)
    | Read(i: nat, off: nat, n: nat, room: nat)
    | Truncate(i: nat)

  /** What a call returns: -1, the bytes read, how many were written, or nothing. */
  datatype Reply = Error | Bytes(bytes: seq<byte>) | Count(count: nat) | Nothing

  type Files = seq<seq<byte>>

  /** The call is for one of n files, with 32-bit offsets and lengths. */
  predicate Sane(c: Call, n: nat) {
    && c.i < n
    && (c.Write? ==> c.off < UINT32 && |c.src| < UINT32)
    && (c.Read? ==> c.off < UINT32 && c.n < UINT32)
  }

  // ---------------------------------------------------------------- files as byte strings

  function After(files: Files, c: Call): (files': Files)
    requires Sane(c, |files|)
    ensures |files'| == |files|
  {
    match c
    case Write(i, src, readable, off) =>
      if WriteRefused(|files[i]|, off, |src|) then files
      else files[i := Splice(files[i], off, src[..CopiedBytes(off, |src|, readable)])]
    case Read(_, _, _, _) => files
    case Truncate(i) => files[i := []]
  }

  function Answer(files: Files, c: Call): (r: Reply)
    requires Sane(c, |files|)
  {
    match c
    case Write(i, src, readable, off) =>
      if WriteRefused(|files[i]|, off, |src|) then Error else Count(CopiedBytes(off, |src|, readable))
    case Read(i, off, n, room) =>
      var bytes := ReadSlice(files[i], off, n);
      if |bytes| <= room then Bytes(bytes) else Error
    case Truncate(_) => Nothing
  }

  ghost predicate AllSane(calls: seq<Call>, n: nat) {
    forall k | 0 <= k < |calls| :: Sane(calls[k], n)
  }

  /** The files after the first k calls. */
  ghost function AfterAll(files: Files, calls: seq<Call>, k: nat): (files': Files)
    requires AllSane(calls, |files|) && k <= |calls|
    ensures |files'| == |files|
  {
    if k == 0 then files else After(AfterAll(files, calls, k - 1), calls[k - 1])
  }

  /** What they return. */
  ghost function Answers(files: Files, calls: seq<Call>, k: nat): (rs: seq<Reply>)
    requires AllSane(calls, |files|) && k <= |calls|
    ensures |rs| == k
  {
    if k == 0 then [] else Answers(files, calls, k - 1) + [Answer(AfterAll(files, calls, k - 1), calls[k - 1])]
  }

  /** A write changes the bytes it copies and no others, of this file or of another. */
  lemma WrittenBytes(files: Files, c: Call)
    requires c.Write? && Sane(c, |files|) && !WriteRefused(|files[c.i]|, c.off, |c.src|)
    ensures var was, now, k := files[c.i], After(files, c)[c.i], CopiedBytes(c.off, |c.src|, c.readable);
            && |now| == (if c.off + k > |was| then c.off + k else |was|)
            && forall p | 0 <= p < |now| :: now[p] == if c.off <= p < c.off + k then c.src[p - c.off] else was[p]
    ensures forall j | 0 <= j < |files| && j != c.i :: After(files, c)[j] == files[j]
  {
  }

  /** A read of what has just been written returns it. */
  lemma ReadBack(files: Files, c: Call)
    requires c.Write? && Sane(c, |files|) && !WriteRefused(|files[c.i]|, c.off, |c.src|) && |c.src| <= c.readable
    ensures Answer(After(files, c), Read(c.i, c.off, |c.src|, |c.src|)) == Bytes(c.src)
  {
    var now := After(files, c)[c.i];
    assert c.src[..|c.src|] == c.src;
    assert now[c.off..c.off + |c.src|] == c.src;
    if c.off + |c.src| == |now| { assert now[c.off..] == c.src; }
  }

  // ---------------------------------------------------------------- the volume

  /** The bytes of all files. */
  ghost function FilesOf(sup: Super, fs: Fs): (files: Files)
    requires Inv(sup, fs)
    ensures |files| == sup.ninodes
  {
    seq(sup.ninodes, i requires 0 <= i < sup.ninodes => assert Sized(sup, fs, i); Content(sup, fs, i))
  }

  lemma WriteFiles(sup: Super, fs: Fs, fs': Fs, i: nat, files: Files)
    requires Inv(sup, fs) && Inv(sup, fs') && i < sup.ninodes
    requires forall j | 0 <= j < sup.ninodes && j != i :: SameFile(sup, fs, fs', j)
    requires files == FilesOf(sup, fs)[i := FilesOf(sup, fs')[i]]
    ensures FilesOf(sup, fs') == files
  {
    forall j | 0 <= j < sup.ninodes && j != i ensures FilesOf(sup, fs')[j] == files[j] {
      assert SameFile(sup, fs, fs', j);
    }
  }

  lemma TruncateFiles(sup: Super, fs: Fs, fs': Fs, i: nat)
    requires Inv(sup, fs) && Inv(sup, fs') && Truncated(sup, fs, fs', i)
    ensures FilesOf(sup, fs') == FilesOf(sup, fs)[i := []]
  {
    forall j | 0 <= j < sup.ninodes ensures FilesOf(sup, fs')[j] == FilesOf(sup, fs)[i := []][j] {
      TruncatedFiles(sup, fs, fs', i, j);
    }
  }

  /** The call is a write that needs more blocks than are free. */
  ghost predicate OutOfSpace(sup: Super, fs: Fs, c: Call)
    requires Inv(sup, fs) && Sane(c, sup.ninodes)
  {
    && c.Write? && !WriteRefused(fs.inodes[c.i].size, c.off, |c.src|)
    && LacksSpace(sup, fs, c.i, c.off, |c.src|, c.readable)
  }

  /** The most blocks that a call can take: those it writes to and an indirect block. */
  ghost function Demand(c: Call): (d: nat) {
    if c.Write? then Spanned(c.off, |c.src|) + 1 else 0
  }

  ghost function DemandAll(calls: seq<Call>, k: nat): (d: nat)
    requires k <= |calls|
  {
    if k == 0 then 0 else DemandAll(calls, k - 1) + Demand(calls[k - 1])
  }

  lemma {:induction false} DemandPrefix(calls: seq<Call>, k: nat, n: nat)
    requires k <= n <= |calls|
    ensures DemandAll(calls, k) <= DemandAll(calls, n)
  {
    if k < n { DemandPrefix(calls, k, n - 1); }
  }

  /** One call; None is the panic of balloc. */
  method Perform(v: FileSystem, c: Call) returns (r: Option<Reply>)
    requires v.Valid() && Sane(c, v.sup.ninodes)
    modifies v
    ensures r.Some? ==>
              && v.Valid() && FilesOf(v.sup, v.State()) == After(old(FilesOf(v.sup, v.State())), c)
              && r.value == Answer(old(FilesOf(v.sup, v.State())), c)
    ensures r.None? <==> OutOfSpace(v.sup, old(v.State()), c)
    ensures r.None? ==> v.NoneFree() && FewerFree(v.sup, old(v.State()), Demand(c))
    ensures r.Some? ==> Spends(v.sup, old(v.State()), v.State(), Demand(c))
  {
    ghost var fs := v.State();
    if c.Write? { SpaceOrNot(v.sup, fs, c.i, c.off, |c.src|, c.readable); }
    ghost var files := FilesOf(v.sup, fs);
    match c {
      case Write(i, src, readable, off) =>
        assert |files[i]| == v.inodes[i].size;
        var w, _ := v.Writei(i, src, readable, off);
        if w == NoBlocks {
          LacksFewer(v.sup, fs, i, off, |src|, readable);
          return None;
        }
        if w == Refused {
          return Some(Error);
        }
        ServedSpends(v.sup, fs, v.State(), i, off, |src|, readable);
        WriteFiles(v.sup, fs, v.State(), i, After(files, c));
        return Some(Count(w.count));
      case Read(i, off, n, room) =>
        var got, dst := v.Readi(i, off, n, room);
        return Some(if got.Some? then Bytes(dst) else Error);
      case Truncate(i) =>
        v.Itrunc(i);
        TruncatedSpends(v.sup, fs, v.State(), i);
        TruncateFiles(v.sup, fs, v.State(), i);
        return Some(Nothing);
    }
  }

  /** Any sequence of calls, from any volume in order: as long as blocks do not run out, every
      block stays owned by exactly one slot, the files hold what the byte strings hold, and
      every answer is theirs.  They do not run out if as many are free as the calls can take. */
  method PerformAll(v: FileSystem, calls: seq<Call>) returns (ok: bool, rs: seq<Reply>)
    requires v.Valid() && AllSane(calls, v.sup.ninodes)
    modifies v
    ensures rs <= Answers(old(FilesOf(v.sup, v.State())), calls, |calls|) && (ok <==> |rs| == |calls|)
    ensures !ok ==> v.NoneFree() && FewerFree(v.sup, old(v.State()), DemandAll(calls, |calls|))
    ensures ok ==> v.Valid() && FilesOf(v.sup, v.State()) == AfterAll(old(FilesOf(v.sup, v.State())), calls, |calls|)
  {
    ghost var fs := v.State();
    rs := [];
    var k := 0;
    assert PerformedAt(v.sup, fs, fs, calls, 0, []);
    while k < |calls|
      invariant 0 <= k <= |calls| && v.Valid() && Performed(v.sup, fs, v.State(), calls, k, rs)
    {
      ghost var fs1 := v.State();
      var r := Perform(v, calls[k]);
      if r.None? {
        PerformedNone(v.sup, fs, fs1, calls, k, rs);
        return false, rs;
      }
      PerformedNext(v.sup, fs, fs1, v.State(), calls, k, rs, r.value, k + 1);
      rs := rs + [r.value];
      k := k + 1;
    }
    assert PerformedAt(v.sup, fs, v.State(), calls, k, rs);
    return true, rs;
  }

  ghost predicate PerformedAt(sup: Super, fs: Fs, fs': Fs, calls: seq<Call>, k: nat, rs: seq<Reply>) {
    && Inv(sup, fs) && Inv(sup, fs') && AllSane(calls, sup.ninodes) && k <= |calls|
    && FilesOf(sup, fs') == AfterAll(FilesOf(sup, fs), calls, k) && rs == Answers(FilesOf(sup, fs), calls, k)
    && Spends(sup, fs, fs', DemandAll(calls, k))
  }

  /** The first k calls have been performed. */
  ghost predicate Performed(sup: Super, fs: Fs, fs': Fs, calls: seq<Call>, k: nat, rs: seq<Reply>) {
    forall m | m == k :: PerformedAt(sup, fs, fs', calls, m, rs)
  }

  lemma {:induction false} PerformedNext(sup: Super, fs: Fs, fs1: Fs, fs2: Fs, calls: seq<Call>, k: nat, rs: seq<Reply>, r: Reply, next: nat)
    requires Performed(sup, fs, fs1, calls, k, rs) && next == k + 1 <= |calls|
    requires Inv(sup, fs1) && Inv(sup, fs2) && Sane(calls[k], sup.ninodes)
    requires FilesOf(sup, fs2) == After(FilesOf(sup, fs1), calls[k]) && r == Answer(FilesOf(sup, fs1), calls[k])
    requires Spends(sup, fs1, fs2, Demand(calls[k]))
    ensures Performed(sup, fs, fs2, calls, next, rs + [r])
  {
    assert PerformedAt(sup, fs, fs1, calls, k, rs);
    AnswersNext(FilesOf(sup, fs), FilesOf(sup, fs1), calls, k, rs, r, next);
    assert PerformedAt(sup, fs, fs2, calls, next, rs + [r]);
  }

  lemma {:induction false} AnswersNext(files: Files, files1: Files, calls: seq<Call>, k: nat, rs: seq<Reply>, r: Reply, next: nat)
    requires AllSane(calls, |files|) && next == k + 1 <= |calls| && files1 == AfterAll(files, calls, k)
    requires rs == Answers(files, calls, k) && r == Answer(files1, calls[k])
    ensures AfterAll(files, calls, next) == After(files1, calls[k]) && Answers(files, calls, next) == rs + [r]
    ensures DemandAll(calls, next) == DemandAll(calls, k) + Demand(calls[k])
  {
  }

  lemma PerformedNone(sup: Super, fs: Fs, fs1: Fs, calls: seq<Call>, k: nat, rs: seq<Reply>)
    requires Performed(sup, fs, fs1, calls, k, rs) && k < |calls| && FewerFree(sup, fs1, Demand(calls[k]))
    ensures Inv(sup, fs) && AllSane(calls, sup.ninodes) && rs <= Answers(FilesOf(sup, fs), calls, |calls|) && |rs| == k
    ensures FewerFree(sup, fs, DemandAll(calls, |calls|))
  {
    assert PerformedAt(sup, fs, fs1, calls, k, rs);
    AnswersPrefix(FilesOf(sup, fs), calls, k, |calls|);
    DemandPrefix(calls, k + 1, |calls|);
  }

  lemma {:induction false} AnswersPrefix(files: Files, calls: seq<Call>, k: nat, n: nat)
    requires AllSane(calls, |files|) && k <= n <= |calls|
    ensures Answers(files, calls, k) <= Answers(files, calls, n)
  {
    if k < n { AnswersPrefix(files, calls, k, n - 1); }
  }
}
