/** Applying and verifying the filesystem metadata record (internal/fsmeta/apply.go). */
module Metadata {
  import opened Common

  /** A file name; `Temp(n)` is n after the prefix ".dbr2-link-", which no plain name has. */
  datatype Name = Plain(text: string) | Temp(of: Name)

  datatype Path = Root | Child(dir: Path, name: Name)

  function Depth(p: Path): nat {
    if p == Root then 0 else Depth(p.dir) + 1
  }

  type Bytes = seq<bv8>

  type Names = map<Path, nat>

  function NodeAt(names: Names, p: Path): Option<nat> {
    if p in names then Some(names[p]) else None
  }

  datatype Inode = Inode(isDir: bool, xattrs: map<string, Bytes>, mtime: int)

  /** Directory entries name inodes; every change of a directory takes the next time. */
  datatype Fs = Fs(node: Names, inodes: map<nat, Inode>, clock: int) {
    ghost predicate Valid() {
      forall p :: p in node ==> node[p] in inodes
    }
  }

  /** One record: `path` is None when it would escape the root, `group` numbers the
      hardlink group the record belongs to, if any. */
  datatype Entry = Entry(path: Option<Path>, group: Option<nat>, xattrs: map<string, Bytes>, dirTime: Option<int>)

  function PathOf(e: Entry): Path {
    if e.path.Some? then e.path.value else Root
  }

  /** The first record of a record's hardlink group, or the record itself. */
  function Leader(es: seq<Entry>, i: nat): (k: nat)
    requires i < |es|
    ensures k <= i && (k == i || es[k].group == es[i].group != None)
  {
    if es[i].group == None then i else FirstFrom(es, i, 0)
  }

  function FirstFrom(es: seq<Entry>, i: nat, from: nat): (k: nat)
    requires from <= i < |es|
    ensures k <= i && es[k].group == es[i].group
    decreases i - from
  {
    if es[from].group == es[i].group then from else FirstFrom(es, i, from + 1)
  }

  lemma {:induction false} FirstIs(es: seq<Entry>, i: nat, from: nat, k: nat)
    requires from <= k <= i < |es| && es[k].group == es[i].group
    requires forall j :: from <= j < k ==> es[j].group != es[i].group
    ensures FirstFrom(es, i, from) == k
    decreases i - from
  {
    if from == k {
    } else {
      FirstIs(es, i, from + 1, k);
    }
  }

  lemma {:induction false} FirstIsFirst(es: seq<Entry>, i: nat, from: nat, j: nat)
    requires from <= i < |es| && from <= j < FirstFrom(es, i, from)
    ensures es[j].group != es[i].group
    decreases i - from
  {
    if from == j {
    } else {
      FirstIsFirst(es, i, from + 1, j);
    }
  }

  lemma LeaderOfLeader(es: seq<Entry>, i: nat)
    requires i < |es|
    ensures Leader(es, Leader(es, i)) == Leader(es, i)
  {
    if es[i].group != None {
      var k := FirstFrom(es, i, 0);
      forall j | 0 <= j < k ensures es[j].group != es[k].group {
        FirstIsFirst(es, i, 0, j);
      }
      FirstIs(es, k, 0, k);
    }
  }

  // ---- Changes --------------------------------------------------------------

  /** The name relink links to before it renames over the path. That of the root lies
      outside the tree. */
  function TempName(p: Path): Path {
    if p == Root then Child(Child(Root, Plain("..")), Temp(Plain(""))) else Child(p.dir, Temp(p.name))
  }

  /** The names after relink: nothing happens to a path that is linked already. */
  function RelinkedNames(names: Names, first: Path, p: Path): Names {
    if first !in names || NodeAt(names, p) == NodeAt(names, first) then names
    else (names - {TempName(p)})[p := names[first]]
  }

  function WithInode(fs: Fs, p: Path, i: Inode): Fs
    requires p in fs.node
  {
    fs.(inodes := fs.inodes[fs.node[p] := i])
  }

  /** relink without an error. */
  function Relinked(fs: Fs, first: Path, p: Path): (r: Fs)
    requires fs.Valid()
    ensures r.Valid()
  {
    if first !in fs.node || NodeAt(fs.node, p) == NodeAt(fs.node, first) then fs
    else Touched(fs.(node := RelinkedNames(fs.node, first, p)), p)
  }

  /** A change of a directory entry: the directory takes the next time. */
  function Touched(fs: Fs, p: Path): (r: Fs)
    requires fs.Valid()
    ensures r.Valid() && r.node == fs.node
  {
    var parent := if p == Root then Root else p.dir;
    var later := fs.(clock := fs.clock + 1);
    if parent in fs.node then TimeSet(later, parent, fs.clock) else later
  }

  function XattrsSet(fs: Fs, p: Path, x: map<string, Bytes>): (r: Fs)
    requires fs.Valid()
    ensures r.Valid()
  {
    if p in fs.node
    then WithInode(fs, p, fs.inodes[fs.node[p]].(xattrs := fs.inodes[fs.node[p]].xattrs + x))
    else fs
  }

  function TimeSet(fs: Fs, p: Path, t: int): Fs
    requires fs.Valid()
  {
    if p in fs.node then WithInode(fs, p, fs.inodes[fs.node[p]].(mtime := t)) else fs
  }

  /** The tree after the first n records, directory times still to come. */
  function Linked(fs: Fs, es: seq<Entry>, n: nat): (r: Fs)
    requires n <= |es| && fs.Valid()
    ensures r.Valid()
  {
    if n == 0 then fs else Step(Linked(fs, es, n - 1), es, n - 1)
  }

  /** One record: join the group's first path, then set the xattrs. */
  function Step(fs: Fs, es: seq<Entry>, m: nat): (r: Fs)
    requires m < |es| && fs.Valid()
    ensures r.Valid()
  {
    XattrsSet(Joined(fs, es, m), PathOf(es[m]), es[m].xattrs)
  }

  function Joined(fs: Fs, es: seq<Entry>, m: nat): (r: Fs)
    requires m < |es| && fs.Valid()
    ensures r.Valid()
  {
    Relinked(fs, PathOf(es[Leader(es, m)]), PathOf(es[m]))
  }

  /** The names after the first n records. */
  function NamesAfter(names: Names, es: seq<Entry>, n: nat): Names
    requires n <= |es|
  {
    if n == 0 then names
    else RelinkedNames(NamesAfter(names, es, n - 1), PathOf(es[Leader(es, n - 1)]), PathOf(es[n - 1]))
  }

  datatype DirTime = DirTime(path: Path, time: int)

  function DirTimes(es: seq<Entry>): seq<DirTime> {
    if es == [] then []
    else
      var e := es[|es| - 1];
      DirTimes(es[..|es| - 1]) + if e.dirTime.Some? then [DirTime(PathOf(e), e.dirTime.value)] else []
  }

  /** Deepest first, stable. */
  function Insert(d: DirTime, ds: seq<DirTime>): seq<DirTime> {
    if ds == [] || Depth(ds[|ds| - 1].path) >= Depth(d.path) then ds + [d]
    else Insert(d, ds[..|ds| - 1]) + [ds[|ds| - 1]]
  }

  function DeepestFirst(ds: seq<DirTime>): seq<DirTime> {
    if ds == [] then [] else Insert(ds[|ds| - 1], DeepestFirst(ds[..|ds| - 1]))
  }

  function Timed(fs: Fs, ds: seq<DirTime>): (r: Fs)
    requires fs.Valid()
    ensures r.Valid() && r.node == fs.node
  {
    if ds == [] then fs
    else TimeSet(Timed(fs, ds[..|ds| - 1]), ds[|ds| - 1].path, ds[|ds| - 1].time)
  }

  /** What an Apply that counts no error leaves. */
  function Applied(fs: Fs, es: seq<Entry>): (r: Fs)
    requires fs.Valid()
    ensures r.Valid()
  {
    Timed(Linked(fs, es, |es|), DeepestFirst(DirTimes(es)))
  }

  // ---- Verification ---------------------------------------------------------

  /** The trailing NULs of an SELinux label do not count. */
  function TrimNul(name: string, v: Bytes): Bytes {
    if name == "security.selinux" then TrimRight(v) else v
  }

  function TrimRight(v: Bytes): Bytes {
    if v != [] && v[|v| - 1] == 0 then TrimRight(v[..|v| - 1]) else v
  }

  ghost predicate XattrsMatch(have: map<string, Bytes>, want: map<string, Bytes>) {
    forall n :: n in want ==> n in have && TrimNul(n, have[n]) == TrimNul(n, want[n])
  }

  /** Record i finds everything it recorded. */
  ghost predicate Matches(fs: Fs, es: seq<Entry>, i: nat)
    requires i < |es| && fs.Valid()
  {
    var e, lead := es[i], PathOf(es[Leader(es, i)]);
    && e.path.Some? && PathOf(e) in fs.node
    && lead in fs.node && fs.node[PathOf(e)] == fs.node[lead]
    && XattrsMatch(fs.inodes[fs.node[PathOf(e)]].xattrs, e.xattrs)
    && (e.dirTime.Some? ==> fs.inodes[fs.node[PathOf(e)]].mtime == e.dirTime.value)
  }

  ghost predicate AllMatch(fs: Fs, es: seq<Entry>)
    requires fs.Valid()
  {
    forall i :: 0 <= i < |es| ==> Matches(fs, es, i)
  }

  // ---- Apply then Verify ----------------------------------------------------

  ghost predicate Existing(names: Names, es: seq<Entry>) {
    forall i :: 0 <= i < |es| ==> es[i].path.Some? && PathOf(es[i]) in names
  }

  ghost predicate Distinct(es: seq<Entry>) {
    forall i, j :: 0 <= i < |es| && 0 <= j < |es| && i != j ==> PathOf(es[i]) != PathOf(es[j])
  }

  /** The file record i has to name in the end: that of its group's first path. */
  ghost function FileOf(names: Names, es: seq<Entry>, i: nat): Option<nat>
    requires i < |es|
  {
    NodeAt(names, PathOf(es[Leader(es, i)]))
  }

  /** The temporary name relink uses for record k is the path of record j. */
  ghost predicate Clobbers(es: seq<Entry>, k: nat, j: nat)
    requires k < |es| && j < |es|
  {
    TempName(PathOf(es[k])) == PathOf(es[j])
  }

  /** Record k is really relinked: it is not the first of its group, and its path is
      another file or was cleared for an earlier relink. */
  ghost predicate Moves(names: Names, es: seq<Entry>, k: nat)
    requires k < |es|
    decreases k, 1
  {
    Leader(es, k) < k && (NodeAt(names, PathOf(es[k])) != FileOf(names, es, k) || Cleared(names, es, k, k))
  }

  ghost predicate Cleared(names: Names, es: seq<Entry>, n: nat, i: nat)
    requires n <= |es| && i < |es|
    decreases n, 0
  {
    exists k :: 0 <= k < n && Moves(names, es, k) && Clobbers(es, k, i)
  }

  /** A path that loses its file to a temporary name is relinked later. */
  ghost predicate Spares(names: Names, es: seq<Entry>, n: nat)
    requires n <= |es|
  {
    forall k, j :: 0 <= k < n && 0 <= j < |es| && Moves(names, es, k) && Clobbers(es, k, j) ==> k < j && Leader(es, j) < j
  }

  ghost predicate Agrees(a: Entry, b: Entry) {
    && (forall n :: n in a.xattrs && n in b.xattrs ==> TrimNul(n, a.xattrs[n]) == TrimNul(n, b.xattrs[n]))
    && (a.dirTime.Some? && b.dirTime.Some? ==> a.dirTime == b.dirTime)
  }

  /** Records of the same file do not contradict each other. */
  ghost predicate Agree(names: Names, es: seq<Entry>) {
    forall i, j {:trigger FileOf(names, es, i), FileOf(names, es, j)} ::
      0 <= i < |es| && 0 <= j < |es| && FileOf(names, es, i) == FileOf(names, es, j) ==> Agrees(es[i], es[j])
  }

  /** The inode record i names once n records are applied. */
  ghost function Due(names: Names, es: seq<Entry>, n: nat, i: nat): Option<nat>
    requires i < |es| && n <= |es|
  {
    if i < n then FileOf(names, es, i)
    else if Cleared(names, es, n, i) then None
    else NodeAt(names, PathOf(es[i]))
  }

  lemma ClearedNext(names: Names, es: seq<Entry>, n: nat, i: nat)
    requires n < |es| && i < |es|
    ensures Cleared(names, es, n + 1, i) <==> Cleared(names, es, n, i) || (Moves(names, es, n) && Clobbers(es, n, i))
  {
  }

  /** The first path of a group keeps its file. */
  lemma LeaderStays(names: Names, es: seq<Entry>, n: nat, i: nat)
    requires n <= |es| && i < |es| && Spares(names, es, n)
    ensures Due(names, es, n, Leader(es, i)) == FileOf(names, es, i)
  {
    LeaderOfLeader(es, i);
  }

  lemma DueNext(names: Names, es: seq<Entry>, n: nat, i: nat)
    requires n < |es| && i < |es| && Spares(names, es, n + 1) && Distinct(es)
    ensures Due(names, es, n + 1, i) ==
            if i == n then FileOf(names, es, n)
            else if Moves(names, es, n) && Clobbers(es, n, i) then None
            else Due(names, es, n, i)
  {
    ClearedNext(names, es, n, i);
  }

  lemma RelinkedDue(now: Names, names: Names, es: seq<Entry>, m: nat, i: nat)
    requires m < |es| && i < |es| && Spares(names, es, m + 1) && Distinct(es)
    requires NodeAt(now, PathOf(es[i])) == Due(names, es, m, i) && NodeAt(now, PathOf(es[m])) == Due(names, es, m, m)
    requires FileOf(now, es, m) == FileOf(names, es, m) != None
    ensures NodeAt(RelinkedNames(now, PathOf(es[Leader(es, m)]), PathOf(es[m])), PathOf(es[i])) == Due(names, es, m + 1, i)
  {
    DueNext(names, es, m, i);
  }

  /** Every record applied so far names the file its group's first path had. */
  lemma {:induction false} LinkedNodes(names: Names, es: seq<Entry>, n: nat, i: nat)
    requires Existing(names, es) && Distinct(es) && n <= |es| && i < |es|
    requires Spares(names, es, n)
    ensures NodeAt(NamesAfter(names, es, n), PathOf(es[i])) == Due(names, es, n, i)
  {
    if n == 0 {
    } else {
      var m := n - 1;
      LinkedNodes(names, es, m, i);
      LinkedNodes(names, es, m, Leader(es, m));
      LinkedNodes(names, es, m, m);
      LeaderStays(names, es, m, m);
      RelinkedDue(NamesAfter(names, es, m), names, es, m, i);
    }
  }

  /** After n records the first path of record i's group still names its file, and so
      does the path of record i once it is applied. */
  lemma AllNamed(names: Names, es: seq<Entry>, n: nat, i: nat)
    requires Existing(names, es) && Distinct(es) && n <= |es| && i < |es|
    requires Spares(names, es, n)
    ensures FileOf(names, es, i).Some?
    ensures FileOf(NamesAfter(names, es, n), es, i) == FileOf(names, es, i)
    ensures i < n ==> NodeAt(NamesAfter(names, es, n), PathOf(es[i])) == FileOf(names, es, i)
  {
    LinkedNodes(names, es, n, i);
    LinkedNodes(names, es, n, Leader(es, i));
    LeaderStays(names, es, n, i);
  }

  lemma TempNameDiffers(p: Path)
    ensures TempName(p) != p
  {
    assert p != Root ==> p.name < TempName(p).name;
  }

  /** A path that is gone and not relinked any more stays gone. */
  lemma {:induction false} StaysGone(names: Names, es: seq<Entry>, n: nat, last: nat, j: nat)
    requires Distinct(es) && n <= last <= |es| && j < |es|
    requires j < n || Leader(es, j) == j
    requires PathOf(es[j]) !in NamesAfter(names, es, n)
    ensures PathOf(es[j]) !in NamesAfter(names, es, last)
  {
    if n == last {
    } else {
      StaysGone(names, es, n, last - 1, j);
    }
  }

  /** A record that moves finds its path unlinked and clears its temporary name. */
  lemma MovesClears(names: Names, es: seq<Entry>, k: nat)
    requires Existing(names, es) && Distinct(es) && k < |es| && Spares(names, es, k) && Moves(names, es, k)
    ensures TempName(PathOf(es[k])) !in NamesAfter(names, es, k + 1)
  {
    LinkedNodes(names, es, k, k);
    AllNamed(names, es, k, k);
    TempNameDiffers(PathOf(es[k]));
  }

  lemma {:induction false} SomethingLost(names: Names, es: seq<Entry>, n: nat) returns (j: nat)
    requires Existing(names, es) && Distinct(es) && n <= |es| && !Spares(names, es, n)
    ensures j < |es| && PathOf(es[j]) !in NamesAfter(names, es, |es|)
  {
    if !Spares(names, es, n - 1) {
      j := SomethingLost(names, es, n - 1);
    } else {
      j :| 0 <= j < |es| && Moves(names, es, n - 1) && Clobbers(es, n - 1, j) && !(n - 1 < j && Leader(es, j) < j);
      MovesClears(names, es, n - 1);
      StaysGone(names, es, n, |es|, j);
    }
  }

  // ---- Attributes -----------------------------------------------------------

  function XattrsOf(fs: Fs, ino: nat): map<string, Bytes> {
    if ino in fs.inodes then fs.inodes[ino].xattrs else map[]
  }

  lemma {:induction false} LinkedNames(fs: Fs, es: seq<Entry>, n: nat)
    requires fs.Valid() && n <= |es|
    ensures Linked(fs, es, n).node == NamesAfter(fs.node, es, n)
  {
    if n == 0 {
    } else {
      LinkedNames(fs, es, n - 1);
    }
  }

  /** One record adds its xattrs to its group's file, and to no other. */
  lemma StepXattrs(fs: Fs, es: seq<Entry>, m: nat, ino: nat)
    requires fs.Valid() && m < |es| && FileOf(fs.node, es, m).Some?
    ensures XattrsOf(Step(fs, es, m), ino) ==
            if FileOf(fs.node, es, m) == Some(ino) then XattrsOf(fs, ino) + es[m].xattrs else XattrsOf(fs, ino)
  {
  }

  lemma StepMatches(fs: Fs, es: seq<Entry>, m: nat, i: nat, ino: nat)
    requires fs.Valid() && m < |es| && i < |es| && FileOf(fs.node, es, m).Some?
    requires if i == m then FileOf(fs.node, es, m) == Some(ino) else XattrsMatch(XattrsOf(fs, ino), es[i].xattrs)
    requires FileOf(fs.node, es, m) == Some(ino) ==> Agrees(es[i], es[m])
    ensures XattrsMatch(XattrsOf(Step(fs, es, m), ino), es[i].xattrs)
  {
    StepXattrs(fs, es, m, ino);
  }

  /** The xattrs of every record applied so far are on its file. */
  lemma {:induction false} LinkedXattrs(fs: Fs, es: seq<Entry>, n: nat, i: nat)
    requires fs.Valid() && Existing(fs.node, es) && Distinct(es) && i < n <= |es| && Agree(fs.node, es)
    requires Spares(fs.node, es, n)
    ensures FileOf(fs.node, es, i).Some?
    ensures XattrsMatch(XattrsOf(Linked(fs, es, n), FileOf(fs.node, es, i).value), es[i].xattrs)
  {
    var m := n - 1;
    AllNamed(fs.node, es, m, m);
    AllNamed(fs.node, es, m, i);
    LinkedNames(fs, es, m);
    if i == m {
    } else {
      LinkedXattrs(fs, es, m, i);
    }
    StepMatches(Linked(fs, es, m), es, m, i, FileOf(fs.node, es, i).value);
  }

  /** No directory time touches an xattr. */
  lemma {:induction false} TimedKeeps(fs: Fs, ds: seq<DirTime>, ino: nat)
    requires fs.Valid()
    ensures XattrsOf(Timed(fs, ds), ino) == XattrsOf(fs, ino)
  {
    if ds == [] {
    } else {
      TimedKeeps(fs, ds[..|ds| - 1], ino);
    }
  }

  /** A file all of whose times agree has that time in the end. */
  lemma {:induction false} TimedAt(fs: Fs, ds: seq<DirTime>, ino: nat, t: int)
    requires fs.Valid() && ino in fs.inodes
    requires exists d :: d in ds && NodeAt(fs.node, d.path) == Some(ino)
    requires forall d :: d in ds && NodeAt(fs.node, d.path) == Some(ino) ==> d.time == t
    ensures ino in Timed(fs, ds).inodes && Timed(fs, ds).inodes[ino].mtime == t
  {
    var m := |ds| - 1;
    if NodeAt(fs.node, ds[m].path) == Some(ino) {
    } else {
      assert forall d :: d in ds ==> d in ds[..m] || d == ds[m];
      TimedAt(fs, ds[..m], ino, t);
    }
  }

  lemma {:induction false} InDirTimes(es: seq<Entry>, d: DirTime)
    ensures d in DirTimes(es) <==> exists i :: 0 <= i < |es| && es[i].dirTime == Some(d.time) && PathOf(es[i]) == d.path
  {
    if es == [] {
    } else {
      InDirTimes(es[..|es| - 1], d);
    }
  }

  lemma {:induction false} InInsert(d: DirTime, ds: seq<DirTime>, x: DirTime)
    ensures x in Insert(d, ds) <==> x == d || x in ds
  {
    if ds == [] {
    } else {
      InInsert(d, ds[..|ds| - 1], x);
    }
  }

  lemma {:induction false} InDeepestFirst(ds: seq<DirTime>, x: DirTime)
    ensures x in DeepestFirst(ds) <==> x in ds
  {
    if ds == [] {
    } else {
      InDeepestFirst(ds[..|ds| - 1], x);
      InInsert(ds[|ds| - 1], DeepestFirst(ds[..|ds| - 1]), x);
    }
  }

  // ---- When Apply is enough -------------------------------------------------

  /** Any recorded time of a file is the one its record i has. */
  lemma TimeOfFile(names: Names, es: seq<Entry>, i: nat, d: DirTime)
    requires Existing(names, es) && Distinct(es) && i < |es| && Spares(names, es, |es|) && Agree(names, es)
    requires es[i].dirTime.Some? && d in DeepestFirst(DirTimes(es))
    requires NodeAt(NamesAfter(names, es, |es|), d.path) == FileOf(names, es, i)
    ensures d.time == es[i].dirTime.value
  {
    InDeepestFirst(DirTimes(es), d);
    InDirTimes(es, d);
    var j :| 0 <= j < |es| && es[j].dirTime == Some(d.time) && PathOf(es[j]) == d.path;
    AllNamed(names, es, |es|, j);
    assert Agrees(es[i], es[j]);
  }

  lemma AppliedTime(fs: Fs, es: seq<Entry>, i: nat)
    requires fs.Valid() && Existing(fs.node, es) && Distinct(es) && i < |es|
    requires Spares(fs.node, es, |es|) && Agree(fs.node, es) && es[i].dirTime.Some?
    ensures FileOf(fs.node, es, i).Some? && FileOf(fs.node, es, i).value in Applied(fs, es).inodes
    ensures Applied(fs, es).inodes[FileOf(fs.node, es, i).value].mtime == es[i].dirTime.value
  {
    var now, ds, mine := Linked(fs, es, |es|), DeepestFirst(DirTimes(es)), DirTime(PathOf(es[i]), es[i].dirTime.value);
    LinkedNames(fs, es, |es|);
    AllNamed(fs.node, es, |es|, i);
    InDirTimes(es, mine);
    InDeepestFirst(DirTimes(es), mine);
    forall d | d in ds && NodeAt(now.node, d.path) == FileOf(fs.node, es, i) ensures d.time == mine.time {
      TimeOfFile(fs.node, es, i, d);
    }
    TimedAt(now, ds, FileOf(fs.node, es, i).value, mine.time);
  }

  lemma AppliedMatches(fs: Fs, es: seq<Entry>, i: nat)
    requires fs.Valid() && Existing(fs.node, es) && Distinct(es) && i < |es|
    requires Spares(fs.node, es, |es|) && Agree(fs.node, es)
    ensures Matches(Applied(fs, es), es, i)
  {
    LinkedNames(fs, es, |es|);
    AllNamed(fs.node, es, |es|, i);
    LinkedXattrs(fs, es, |es|, i);
    TimedKeeps(Linked(fs, es, |es|), DeepestFirst(DirTimes(es)), FileOf(fs.node, es, i).value);
    if es[i].dirTime.Some? {
      AppliedTime(fs, es, i);
    }
  }

  lemma MatchingAgree(fs: Fs, es: seq<Entry>, i: nat, j: nat)
    requires fs.Valid() && i < |es| && j < |es| && Matches(fs, es, i) && Matches(fs, es, j)
    requires NodeAt(fs.node, PathOf(es[i])) == NodeAt(fs.node, PathOf(es[j]))
    ensures Agrees(es[i], es[j])
  {
  }

  /** An Apply without errors is one that Verify accepts, exactly when no relink clears
      the path of another record for good and no two records of one file disagree. */
  lemma ApplyThenVerify(fs: Fs, es: seq<Entry>)
    requires fs.Valid() && Existing(fs.node, es) && Distinct(es)
    ensures AllMatch(Applied(fs, es), es) <==> Spares(fs.node, es, |es|) && Agree(fs.node, es)
  {
    var done := Applied(fs, es);
    LinkedNames(fs, es, |es|);
    if !Spares(fs.node, es, |es|) {
      var j := SomethingLost(fs.node, es, |es|);
      assert !Matches(done, es, j);
    } else if AllMatch(done, es) {
      forall i, j | 0 <= i < |es| && 0 <= j < |es| && FileOf(fs.node, es, i) == FileOf(fs.node, es, j)
        ensures Agrees(es[i], es[j])
      {
        AllNamed(fs.node, es, |es|, i);
        AllNamed(fs.node, es, |es|, j);
        MatchingAgree(done, es, i, j);
      }
    } else if Agree(fs.node, es) {
      forall i | 0 <= i < |es| ensures Matches(done, es, i) {
        AppliedMatches(fs, es, i);
      }
    }
  }

  /** A file with b's temporary name, and a and b as one hardlink group. */
  function ClashingRecords(a: Path, b: Path): seq<Entry> {
    [Entry(Some(TempName(b)), None, map[], None),
     Entry(Some(a), Some(0), map[], None),
     Entry(Some(b), Some(0), map[], None)]
  }

  lemma ClashingLeaders(a: Path, b: Path)
    ensures Leader(ClashingRecords(a, b), 0) == 0 && Leader(ClashingRecords(a, b), 2) == 1
  {
    FirstIs(ClashingRecords(a, b), 2, 0, 1);
  }

  /** Distinct existing paths and equal xattrs are not enough: relinking a path deletes
      a file that has its temporary name, and no error is counted. */
  lemma TempNameLosesFile(fs: Fs, a: Path, b: Path)
    requires fs.Valid() && a in fs.node && b in fs.node && TempName(b) in fs.node
    requires a != b && a != TempName(b) && fs.node[a] != fs.node[b]
    ensures var es := ClashingRecords(a, b);
            Existing(fs.node, es) && Distinct(es) && Agree(fs.node, es) && !AllMatch(Applied(fs, es), es)
  {
    var es := ClashingRecords(a, b);
    TempNameDiffers(b);
    ClashingLeaders(a, b);
    assert Moves(fs.node, es, 2) && Clobbers(es, 2, 0);
    ApplyThenVerify(fs, es);
  }

  // ---- Apply and Verify -----------------------------------------------------

  /** Record j's group is filed under its first path. */
  ghost predicate Filed(es: seq<Entry>, groups: map<nat, Path>, j: nat)
    requires j < |es|
  {
    es[j].group.Some? ==> es[j].group.value in groups && groups[es[j].group.value] == PathOf(es[Leader(es, j)])
  }

  /** The first paths of the groups seen so far. */
  ghost predicate GroupsOk(es: seq<Entry>, n: nat, groups: map<nat, Path>)
    requires n <= |es|
  {
    && (forall j :: 0 <= j < n ==> Filed(es, groups, j))
    && (forall g :: g in groups ==> exists j :: 0 <= j < n && es[j].group == Some(g))
  }

  lemma GroupSeen(es: seq<Entry>, n: nat, groups: map<nat, Path>)
    requires n < |es| && GroupsOk(es, n, groups) && es[n].group.Some? && es[n].group.value in groups
    ensures groups[es[n].group.value] == PathOf(es[Leader(es, n)]) && GroupsOk(es, n + 1, groups)
  {
    var j :| 0 <= j < n && es[j].group == es[n].group;
    assert Filed(es, groups, j);
    SameLeader(es, j, n);
  }

  lemma GroupNew(fs: Fs, es: seq<Entry>, n: nat, groups: map<nat, Path>)
    requires fs.Valid() && n < |es| && GroupsOk(es, n, groups)
    requires es[n].group.Some? ==> es[n].group.value !in groups
    ensures Leader(es, n) == n && Joined(fs, es, n) == fs
    ensures GroupsOk(es, n + 1, if es[n].group.Some? then groups[es[n].group.value := PathOf(es[n])] else groups)
  {
    if es[n].group.Some? {
      forall j | 0 <= j < n ensures es[j].group != es[n].group {
        assert Filed(es, groups, j);
      }
      FirstIs(es, n, 0, n);
      var filed := groups[es[n].group.value := PathOf(es[n])];
      forall j | 0 <= j < n ensures Filed(es, filed, j) {
        assert Filed(es, groups, j);
      }
    }
    assert Leader(es, n) == n;
  }

  lemma SameLeader(es: seq<Entry>, j: nat, i: nat)
    requires j < i < |es| && es[j].group == es[i].group != None
    ensures Leader(es, j) == Leader(es, i)
  {
    var k := FirstFrom(es, j, 0);
    forall x | 0 <= x < k ensures es[x].group != es[i].group {
      FirstIsFirst(es, j, 0, x);
    }
    FirstIs(es, i, 0, k);
  }

  function Only(x: map<string, Bytes>, names: set<string>): map<string, Bytes> {
    map n | n in x && n in names :: x[n]
  }

  lemma XattrsSetTwice(fs: Fs, p: Path, x: map<string, Bytes>, y: map<string, Bytes>)
    requires fs.Valid()
    ensures XattrsSet(XattrsSet(fs, p, x), p, y) == XattrsSet(fs, p, x + y)
  {
    if p in fs.node {
      var had := fs.inodes[fs.node[p]].xattrs;
      assert (had + x) + y == had + (x + y);
    }
  }

  lemma OnlyMore(x: map<string, Bytes>, names: set<string>, n: string)
    requires n in x
    ensures Only(x, names) + map[n := x[n]] == Only(x, names + {n})
  {
  }

  lemma XattrsSetNone(fs: Fs, p: Path)
    requires fs.Valid()
    ensures XattrsSet(fs, p, map[]) == fs
  {
    if p in fs.node {
      assert XattrsOf(fs, fs.node[p]) + map[] == XattrsOf(fs, fs.node[p]);
      assert XattrsSet(fs, p, map[]).inodes == fs.inodes;
    }
  }

  /** Link to the temporary name and rename: the names that relink leaves. */
  lemma RenamedLink(names: Names, cleared: Names, first: Path, p: Path)
    requires cleared == names || cleared == names - {TempName(p)}
    requires first in cleared && TempName(p) !in cleared && NodeAt(names, p) != NodeAt(names, first)
    ensures (cleared[TempName(p) := cleared[first]] - {TempName(p)})[p := cleared[first]] == RelinkedNames(names, first, p)
  {
    TempNameDiffers(p);
  }

  /** A directory tree on disk. Any call may fail; Lstat fails only on a missing path. */
  class Disk {
    var fs: Fs

    constructor (tree: Fs)
      ensures fs == tree
    {
      fs := tree;
    }

    method Remove(p: Path)
      requires fs.Valid()
      modifies this
      ensures fs.Valid() && (fs == old(fs) || fs == old(fs).(node := old(fs).node - {p}))
    {
      var ok: bool := *;
      if ok {
        fs := fs.(node := fs.node - {p});
      }
    }

    method Link(first: Path, p: Path) returns (ok: bool)
      requires fs.Valid()
      modifies this
      ensures fs.Valid()
      ensures ok ==> first in old(fs).node && p !in old(fs).node
      ensures fs == if ok then old(fs).(node := old(fs).node[p := old(fs).node[first]]) else old(fs)
    {
      ok := *;
      ok := ok && first in fs.node && p !in fs.node;
      if ok {
        fs := fs.(node := fs.node[p := fs.node[first]]);
      }
    }

    method Rename(from: Path, to: Path) returns (ok: bool)
      requires fs.Valid() && from in fs.node
      modifies this
      ensures fs.Valid()
      ensures fs == if ok then Touched(old(fs).(node := (old(fs).node - {from})[to := old(fs).node[from]]), to)
                    else old(fs)
    {
      ok := *;
      if ok {
        fs := Touched(fs.(node := (fs.node - {from})[to := fs.node[from]]), to);
      }
    }

    method Relink(first: Path, path: Path) returns (ok: bool)
      requires fs.Valid()
      modifies this
      ensures fs.Valid()
      ensures ok ==> first in old(fs).node && fs == Relinked(old(fs), first, path)
    {
      if first !in fs.node {
        return false;
      }
      if path in fs.node && fs.node[path] == fs.node[first] {
        return true;
      }
      if fs.inodes[fs.node[first]].isDir {
        return false;
      }
      var temp := TempName(path);
      Remove(temp);
      ghost var before := fs.node;
      ok := Link(first, temp);
      if !ok {
        return false;
      }
      ok := Rename(temp, path);
      if !ok {
        Remove(temp);
        return false;
      }
      RenamedLink(old(fs).node, before, first, path);
    }

    method SetXattr(p: Path, n: string, v: Bytes) returns (ok: bool)
      requires fs.Valid()
      modifies this
      ensures fs.Valid()
      ensures ok ==> p in old(fs).node
      ensures fs == if ok then XattrsSet(old(fs), p, map[n := v]) else old(fs)
    {
      ok := *;
      ok := ok && p in fs.node;
      if ok {
        fs := XattrsSet(fs, p, map[n := v]);
      }
    }

    method SetXattrs(p: Path, x: map<string, Bytes>) returns (errors: nat)
      requires fs.Valid()
      modifies this
      ensures fs.Valid()
      ensures errors == 0 ==> fs == XattrsSet(old(fs), p, x)
    {
      errors := 0;
      var todo, done := x.Keys, {};
      assert Only(x, done) == map[];
      XattrsSetNone(fs, p);
      while todo != {}
        invariant fs.Valid() && todo + done == x.Keys && todo !! done
        invariant errors == 0 ==> fs == XattrsSet(old(fs), p, Only(x, done))
        decreases todo
      {
        var n :| n in todo;
        todo := todo - {n};
        var ok := SetXattr(p, n, x[n]);
        if !ok {
          errors := errors + 1;
        } else if errors == 0 {
          XattrsSetTwice(old(fs), p, Only(x, done), map[n := x[n]]);
          OnlyMore(x, done, n);
        }
        done := done + {n};
      }
      assert Only(x, done) == x;
    }

    method SetTime(p: Path, t: int) returns (ok: bool)
      requires fs.Valid()
      modifies this
      ensures fs.Valid()
      ensures ok ==> p in old(fs).node
      ensures fs == if ok then TimeSet(old(fs), p, t) else old(fs)
    {
      ok := *;
      ok := ok && p in fs.node;
      if ok {
        fs := TimeSet(fs, p, t);
      }
    }

    method SetTimes(dirs: seq<DirTime>) returns (errors: nat)
      requires fs.Valid()
      modifies this
      ensures fs.Valid()
      ensures errors == 0 ==> fs == Timed(old(fs), dirs)
    {
      errors := 0;
      for i := 0 to |dirs|
        invariant fs.Valid()
        invariant errors == 0 ==> fs == Timed(old(fs), dirs[..i])
      {
        assert dirs[..i + 1][..i] == dirs[..i];
        var ok := SetTime(dirs[i].path, dirs[i].time);
        if !ok {
          errors := errors + 1;
        }
      }
      assert dirs[..|dirs|] == dirs;
    }

    /** The hardlink of one record whose path is local. */
    method JoinGroup(ghost es: seq<Entry>, ghost n: nat, e: Entry, groups: map<nat, Path>)
      returns (ok: bool, seen: map<nat, Path>)
      requires fs.Valid() && n < |es| && e == es[n]
      modifies this
      ensures fs.Valid()
      ensures GroupsOk(es, n, groups) ==> GroupsOk(es, n + 1, seen) && (ok ==> fs == Joined(old(fs), es, n))
    {
      if e.group.Some? && e.group.value in groups {
        if GroupsOk(es, n, groups) {
          GroupSeen(es, n, groups);
        }
        ok := Relink(groups[e.group.value], PathOf(e));
        seen := groups;
      } else {
        if GroupsOk(es, n, groups) {
          GroupNew(fs, es, n, groups);
        }
        ok, seen := true, if e.group.Some? then groups[e.group.value := PathOf(e)] else groups;
      }
    }

    method ApplyOne(ghost es: seq<Entry>, ghost n: nat, e: Entry, groups: map<nat, Path>)
      returns (errors: nat, seen: map<nat, Path>)
      requires fs.Valid() && n < |es| && e == es[n]
      modifies this
      ensures fs.Valid()
      ensures GroupsOk(es, n, groups) ==> GroupsOk(es, n + 1, seen) && (errors == 0 ==> fs == Step(old(fs), es, n))
    {
      var ok;
      ok, seen := JoinGroup(es, n, e, groups);
      errors := SetXattrs(PathOf(e), e.xattrs);
      if !ok {
        errors := errors + 1;
      }
    }

    /** An Apply that counts no errors found every path inside the root and leaves
        `Applied`. */
    method Apply(es: seq<Entry>) returns (errors: nat)
      requires fs.Valid()
      modifies this
      ensures fs.Valid()
      ensures errors == 0 ==> fs == Applied(old(fs), es) && forall i :: 0 <= i < |es| ==> es[i].path.Some?
    {
      errors := 0;
      var groups: map<nat, Path>, dirs: seq<DirTime> := map[], [];
      for i := 0 to |es|
        invariant fs.Valid()
        invariant errors == 0 ==> fs == Linked(old(fs), es, i) && dirs == DirTimes(es[..i]) && GroupsOk(es, i, groups)
        invariant errors == 0 ==> forall j :: 0 <= j < i ==> es[j].path.Some?
      {
        assert es[..i + 1][..i] == es[..i];
        if es[i].path == None {
          errors := errors + 1;
          continue;
        }
        var failed, seen := ApplyOne(es, i, es[i], groups);
        errors, groups := errors + failed, seen;
        if es[i].dirTime.Some? {
          dirs := dirs + [DirTime(PathOf(es[i]), es[i].dirTime.value)];
        }
      }
      assert es[..|es|] == es;
      var failed := SetTimes(DeepestFirst(dirs));
      errors := errors + failed;
    }

    method CheckXattrs(have: map<string, Bytes>, want: map<string, Bytes>) returns (mismatches: nat)
      ensures mismatches == 0 <==> XattrsMatch(have, want)
    {
      mismatches := 0;
      var todo := want.Keys;
      while todo != {}
        invariant todo <= want.Keys
        invariant mismatches == 0 <==>
                  forall n :: n in want && n !in todo ==> n in have && TrimNul(n, have[n]) == TrimNul(n, want[n])
        decreases todo
      {
        var n :| n in todo;
        todo := todo - {n};
        if n !in have || TrimNul(n, have[n]) != TrimNul(n, want[n]) {
          mismatches := mismatches + 1;
        }
      }
    }

    /** One record of Verify; `groups` holds the inode of each group's first path. */
    method VerifyOne(es: seq<Entry>, n: nat, groups: map<nat, nat>, ghost firsts: map<nat, Path>)
      returns (mismatches: nat, seen: map<nat, nat>, ghost seenFirsts: map<nat, Path>)
      requires fs.Valid() && n < |es|
      ensures Tracks(es, n, groups, firsts) ==> (mismatches == 0 <==> Matches(fs, es, n))
      ensures Tracks(es, n, groups, firsts) && mismatches == 0 ==> Tracks(es, n + 1, seen, seenFirsts)
    {
      var e := es[n];
      mismatches, seen, seenFirsts := 0, groups, firsts;
      if e.path == None || PathOf(e) !in fs.node {
        return 1, seen, seenFirsts;
      }
      var ino := fs.node[PathOf(e)];
      if e.group.Some? && e.group.value in groups {
        if Tracks(es, n, groups, firsts) {
          GroupSeen(es, n, firsts);
        }
        if groups[e.group.value] != ino {
          mismatches := 1;
        }
      } else {
        if Tracks(es, n, groups, firsts) {
          GroupNew(fs, es, n, firsts);
        }
        if e.group.Some? {
          seen, seenFirsts := groups[e.group.value := ino], firsts[e.group.value := PathOf(e)];
        }
      }
      var wrong := CheckXattrs(fs.inodes[ino].xattrs, e.xattrs);
      mismatches := mismatches + wrong;
      if e.dirTime.Some? && fs.inodes[ino].mtime != e.dirTime.value {
        mismatches := mismatches + 1;
      }
    }

    ghost predicate Tracks(es: seq<Entry>, n: nat, groups: map<nat, nat>, firsts: map<nat, Path>)
      requires n <= |es|
      reads this
    {
      && GroupsOk(es, n, firsts)
      && firsts.Keys == groups.Keys && forall g :: g in groups ==> NodeAt(fs.node, firsts[g]) == Some(groups[g])
    }

    /** Verify counts no mismatch exactly when every record matches. */
    method Verify(es: seq<Entry>) returns (mismatches: nat)
      requires fs.Valid()
      ensures mismatches == 0 <==> AllMatch(fs, es)
    {
      mismatches := 0;
      var groups: map<nat, nat> := map[];
      ghost var firsts: map<nat, Path> := map[];
      for i := 0 to |es|
        invariant mismatches == 0 <==> forall j :: 0 <= j < i ==> Matches(fs, es, j)
        invariant mismatches == 0 ==> Tracks(es, i, groups, firsts)
      {
        var wrong;
        wrong, groups, firsts := VerifyOne(es, i, groups, firsts);
        mismatches := mismatches + wrong;
      }
    }
  }

  /** What the two of them promise together. */
  method Restore(disk: Disk, es: seq<Entry>) returns (errors: nat, mismatches: nat)
    requires disk.fs.Valid()
    modifies disk
    ensures disk.fs.Valid()
    ensures errors == 0 && Existing(old(disk.fs).node, es) && Distinct(es) ==>
            (mismatches == 0 <==> Spares(old(disk.fs).node, es, |es|) && Agree(old(disk.fs).node, es))
  {
    errors := disk.Apply(es);
    mismatches := disk.Verify(es);
    if errors == 0 && Existing(old(disk.fs).node, es) && Distinct(es) {
      ApplyThenVerify(old(disk.fs), es);
    }
  }
}
