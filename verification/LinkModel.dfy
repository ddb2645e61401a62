/** Link counts: the directory tree of kernel/fs.c and kernel/sysfile.c as a table of inodes
    with their directory entries, and the steps of create, link, unlink and iput that the
    inode locks make atomic. */
module LinkModel {
  const ROOTINO := 1
  const MAXENTS := 17152  // directory entries of 16 bytes in a file of the largest size

  datatype Kind = Free | Dir | File | Device

  /** A directory slot; inum 0 is an empty one. */
  datatype Entry = Entry(inum: nat, name: string)

  /** An inode with its in-memory reference count.  `owed` counts the calls of link and
      unlink under way that have counted this inode up before naming it, or have removed its
      name before counting it down. */
  datatype Ino = Ino(kind: Kind, nlink: int, owed: nat, refs: nat, valid: bool, ents: seq<Entry>) {
    predicate Linked() {
      nlink > owed
    }
  }

  type Table = seq<Ino>

  /** Slot k of directory d is an entry that counts as a link to i: not ".", and not the ".."
      of an unlinked directory. */
  ghost predicate Names(s: Table, d: nat, k: nat, i: nat)
    requires d < |s| && k < |s[d].ents|
  {
    s[d].kind == Dir && s[d].ents[k].inum == i && k != 0 && (k == 1 ==> s[d].Linked())
  }

  ghost function Links(s: Table, i: nat): (r: set<(nat, nat)>) {
    set d: nat, k: nat | d < |s| && k < |s[d].ents| && Names(s, d, k, i) :: (d, k)
  }

  // ---------------------------------------------------------------- invariant

  /** The link count is the number of entries that name the inode. */
  ghost predicate CountOk(s: Table, i: nat)
    requires i < |s|
  {
    i != 0 ==> s[i].nlink == |Links(s, i)| + s[i].owed
  }

  ghost predicate InoOk(s: Table, d: nat)
    requires d < |s|
  {
    && (s[d].kind == Free ==> s[d].nlink == 0 && s[d].owed == 0)
    && (s[d].kind != Dir ==> s[d].ents == [])
    && (s[d].kind == Dir ==> DirOk(s, d))
  }

  /** A directory begins with "." and "..", and an unlinked one holds nothing else. */
  ghost predicate DirOk(s: Table, d: nat)
    requires d < |s|
  {
    var e := s[d].ents;
    && d != 0 && |e| >= 2
    && e[0] == Entry(d, ".") && e[1].name == ".." && 0 < e[1].inum < |s|
    && (!s[d].Linked() ==> forall k | 2 <= k < |e| :: e[k].inum == 0)
  }

  /** An entry that is not "." or ".." names an inode in the table; if that is a directory,
      its ".." leads back here. */
  ghost predicate EntryOk(s: Table, d: nat, k: nat)
    requires d < |s|
  {
    s[d].kind == Dir && 2 <= k < |s[d].ents| && s[d].ents[k].inum != 0 ==>
      var i := s[d].ents[k].inum;
      && s[d].ents[k].name != "." && s[d].ents[k].name != ".."
      && i < |s|
      && (s[i].kind == Dir ==> i != ROOTINO && |s[i].ents| >= 2 && s[i].ents[1].inum == d)
  }

  /** No directory has two names. */
  ghost predicate OneName(s: Table, d: nat, k: nat, l: nat)
    requires d < |s|
  {
    s[d].kind == Dir && 2 <= k < |s[d].ents| && 2 <= l < |s[d].ents| && k != l && s[d].ents[k].inum != 0
    && s[d].ents[k].inum < |s| && s[s[d].ents[k].inum].kind == Dir ==>
      s[d].ents[k].inum != s[d].ents[l].inum
  }

  ghost predicate NamedIn(s: Table, p: nat, k: nat, d: nat) {
    p < |s| && s[p].kind == Dir && 2 <= k < |s[p].ents| && s[p].ents[k].inum == d
  }

  /** A linked directory other than the root has an entry in its parent. */
  ghost predicate HomeOk(s: Table, d: nat)
    requires d < |s|
  {
    s[d].kind == Dir && s[d].Linked() && d != ROOTINO && |s[d].ents| >= 2 ==>
      exists k: nat :: NamedIn(s, s[d].ents[1].inum, k, d)
  }

  /** The directories form a tree below the root; directory x may still lack its name. */
  ghost predicate Tree(s: Table, x: nat) {
    && ROOTINO < |s| && s[ROOTINO].kind == Dir && |s[ROOTINO].ents| >= 2 && s[ROOTINO].ents[1].inum == ROOTINO
    && s[ROOTINO].Linked() && s[0].kind == Free
    && (forall i | 0 <= i < |s| :: InoOk(s, i))
    && (forall d, k: nat | 0 <= d < |s| :: EntryOk(s, d, k))
    && (forall d, k: nat, l: nat | 0 <= d < |s| :: OneName(s, d, k, l))
    && (forall d | 0 <= d < |s| && d != x :: HomeOk(s, d))
  }

  ghost predicate Inv(s: Table) {
    Tree(s, 0) && forall i | 0 <= i < |s| :: CountOk(s, i)
  }

  // ---------------------------------------------------------------- directories

  /** The first slot in use that holds `name`, or |e|. */
  function Lookup(e: seq<Entry>, name: string, k: nat): (r: nat)
    requires k <= |e|
    ensures k <= r <= |e|
    ensures r < |e| ==> e[r].inum != 0 && e[r].name == name
    ensures forall l | k <= l < r :: e[l].inum == 0 || e[l].name != name
    decreases |e| - k
  {
    if k == |e| then k
    else if e[k].inum != 0 && e[k].name == name then k
    else Lookup(e, name, k + 1)
  }

  /** The first empty slot, or |e|. */
  function EmptySlot(e: seq<Entry>, k: nat): (r: nat)
    requires k <= |e|
    ensures k <= r <= |e|
    ensures r < |e| ==> e[r].inum == 0
    ensures forall l | k <= l < r :: e[l].inum != 0
    decreases |e| - k
  {
    if k == |e| || e[k].inum == 0 then k else EmptySlot(e, k + 1)
  }

  /** dirlink's effect on the entries. */
  function Put(e: seq<Entry>, x: Entry): (r: seq<Entry>) {
    var k := EmptySlot(e, 0);
    if k < |e| then e[k := x] else e + [x]
  }

  function AddEntry(s: Table, d: nat, x: Entry): (s': Table)
    requires d < |s|
  {
    s[d := s[d].(ents := Put(s[d].ents, x))]
  }

  function Bump(s: Table, i: nat, delta: int): (s': Table)
    requires i < |s|
  {
    s[i := s[i].(nlink := s[i].nlink + delta)]
  }

  // ---------------------------------------------------------------- steps

  function NewIno(was: Ino, kind: Kind, i: nat, dp: nat): (x: Ino) {
    Ino(kind, 1, 0, was.refs + 1, true, if kind == Dir then [Entry(i, "."), Entry(dp, "..")] else [])
  }

  /** create, when the name is new: inode i, which ialloc found free, is entered in dp. */
  function Created(s: Table, dp: nat, name: string, i: nat, kind: Kind): (s': Table)
    requires dp < |s| && i < |s|
  {
    var s1 := s[i := NewIno(s[i], kind, i, dp)];
    var s2 := if kind == Dir then Bump(s1, dp, 1) else s1;
    AddEntry(s2, dp, Entry(i, name))
  }

  ghost predicate CreateStep(s: Table, s': Table, dp: nat, name: string, i: nat, kind: Kind) {
    && dp < |s| && s[dp].kind == Dir && s[dp].refs > 0
    && 0 < i < |s| && s[i].kind == Free && kind != Free
    && Lookup(s[dp].ents, name, 0) == |s[dp].ents|
    && s' == Created(s, dp, name, i, kind)
  }

  /** The first half of sys_link: the count goes up before there is a name. */
  ghost predicate LinkStartStep(s: Table, s': Table, i: nat) {
    && 0 < i < |s| && s[i].kind != Dir && s[i].kind != Free && s[i].refs > 0
    && s' == s[i := s[i].(nlink := s[i].nlink + 1, owed := s[i].owed + 1)]
  }

  /** dirlink succeeds. */
  ghost predicate LinkStep(s: Table, s': Table, dp: nat, name: string, i: nat) {
    && dp < |s| && s[dp].kind == Dir && s[dp].refs > 0
    && 0 < i < |s| && s[i].owed > 0 && s[i].kind != Dir
    && Lookup(s[dp].ents, name, 0) == |s[dp].ents|
    && s' == AddEntry(s[i := s[i].(owed := s[i].owed - 1)], dp, Entry(i, name))
  }

  /** The count goes down: the undo path of sys_link, or the end of sys_unlink. */
  ghost predicate CountDownStep(s: Table, s': Table, i: nat) {
    && 0 < i < |s| && s[i].owed > 0
    && s' == s[i := s[i].(nlink := s[i].nlink - 1, owed := s[i].owed - 1)]
  }

  function Cleared(s: Table, dp: nat, k: nat, i: nat): (s': Table)
    requires dp < |s| && k < |s[dp].ents| && i < |s|
  {
    var s1 := s[dp := s[dp].(ents := s[dp].ents[k := Entry(0, "")])];
    var s2 := if s[i].kind == Dir then Bump(s1, dp, -1) else s1;
    s2[i := s2[i].(owed := s2[i].owed + 1)]
  }

  /** The whole effect of sys_unlink on slot k of dp, which names i. */
  function Removed(s: Table, dp: nat, k: nat, i: nat): (s': Table)
    requires dp < |s| && k < |s[dp].ents| && i < |s|
  {
    var s1 := Cleared(s, dp, k, i);
    s1[i := s1[i].(nlink := s1[i].nlink - 1, owed := s1[i].owed - 1)]
  }

  predicate IsEmptyDir(e: seq<Entry>) {
    forall k | 2 <= k < |e| :: e[k].inum == 0
  }

  /** sys_unlink up to the release of dp: the entry is cleared. */
  ghost predicate UnlinkStep(s: Table, s': Table, dp: nat, name: string) {
    && dp < |s| && s[dp].kind == Dir && s[dp].refs > 0 && name != "." && name != ".."
    && var k := Lookup(s[dp].ents, name, 0);
       k < |s[dp].ents| &&
       var i := s[dp].ents[k].inum;
       && i < |s| && s[i].nlink >= 1
       && (s[i].kind == Dir ==> IsEmptyDir(s[i].ents))
       && s' == Cleared(s, dp, k, i)
  }

  ghost predicate GetStep(s: Table, s': Table, i: nat) {
    0 < i < |s| && s' == s[i := s[i].(refs := s[i].refs + 1, valid := s[i].refs > 0 && s[i].valid)]
  }

  ghost predicate LockStep(s: Table, s': Table, i: nat) {
    0 < i < |s| && s[i].refs > 0 && s' == s[i := s[i].(valid := true)]
  }

  /** iput drops the last reference to an inode without links. */
  predicate Frees(x: Ino) {
    x.refs == 1 && x.valid && x.nlink == 0
  }

  function Dropped(x: Ino): (y: Ino)
    requires x.refs > 0
  {
    if Frees(x) then Ino(Free, x.nlink, x.owed, 0, false, []) else x.(refs := x.refs - 1)
  }

  ghost predicate PutStep(s: Table, s': Table, i: nat) {
    0 < i < |s| && s[i].refs > 0 && s' == s[i := Dropped(s[i])]
  }

  datatype Step =
    | Create(dp: nat, name: string, ip: nat, kind: Kind)
    | LinkStart(ip: nat)
    | Link(dp: nat, name: string, ip: nat)
    | CountDown(ip: nat)
    | Unlink(dp: nat, name: string)
    | Get(ip: nat)
    | Lock(ip: nat)
    | Drop(ip: nat)

  ghost predicate Next(s: Table, s': Table, step: Step) {
    match step
    case Create(dp, name, i, kind) => CreateStep(s, s', dp, name, i, kind)
    case LinkStart(i) => LinkStartStep(s, s', i)
    case Link(dp, name, i) => LinkStep(s, s', dp, name, i)
    case CountDown(i) => CountDownStep(s, s', i)
    case Unlink(dp, name) => UnlinkStep(s, s', dp, name)
    case Get(i) => GetStep(s, s', i)
    case Lock(i) => LockStep(s, s', i)
    case Drop(i) => PutStep(s, s', i)
  }

  /** The step makes no entry inside a directory that is already unlinked. */
  predicate Tidy(s: Table, step: Step) {
    match step
    case Create(dp, _, _, _) => dp < |s| && s[dp].Linked()
    case Link(dp, _, _) => dp < |s| && s[dp].Linked()
    case _ => true
  }
}
