/** Swaps whose targets lie inside one another, over a directory tree
    (internal/agent/restore.go, restorejournal.go, finalize.go). */
module NestedSwap {

  /** Path components from the root down; a prefix of a path is an ancestor. */
  type Path = seq<string>

  datatype Entry = Missing | Dir | File(content: nat)

  /** What Lstat finds at each path. */
  type Tree = Path -> Entry

  ghost predicate Same(f: Tree, g: Tree) {
    forall q :: f(q) == g(q)
  }

  /** Path q, at or below `from`, moved to the same place below `to`. */
  function Rebase(q: Path, from: Path, to: Path): (r: Path)
    requires from <= q
    ensures to <= r && r[|to|..] == q[|from|..]
  {
    to + q[|from|..]
  }

  lemma RebaseBack(q: Path, from: Path, to: Path)
    requires from <= q
    ensures Rebase(Rebase(q, from, to), to, from) == q
  {
    assert from + q[|from|..] == q;
  }

  predicate Apart(a: Path, b: Path) {
    !(a <= b) && !(b <= a)
  }

  /** os.RemoveAll. */
  function Remove(fs: Tree, p: Path): Tree {
    (q: Path) => if p <= q then Missing else fs(q)
  }

  /** os.Rename of a whole subtree. */
  function Move(fs: Tree, a: Path, b: Path): Tree {
    (q: Path) => if a <= q then Missing else if b <= q then fs(Rebase(q, b, a)) else fs(q)
  }

  /** Writes a snapshot's content below p. */
  function Write(fs: Tree, p: Path, content: Tree): Tree {
    (q: Path) => if p <= q then content(q[|p|..]) else fs(q)
  }

  /** ensureParents: missing ancestors become directories. */
  function WithParents(fs: Tree, p: Path): Tree {
    (q: Path) => if q < p && fs(q).Missing? then Dir else fs(q)
  }

  // ---- One swap and its undo ------------------------------------------------

  /** A path to restore, named by its directory and base name. */
  datatype Spec = Spec(dir: Path, base: string, content: Tree) {
    function Target(): Path { dir + [base] }
    function Staging(): Path { dir + [".dbr2-staging-id-" + base] }
    function Previous(): Path { dir + [".dbr2-old-id-" + base] }
    function Discard(): Path { dir + [".dbr2-discard-id-" + base] }
  }

  /** A finished swap, as journaled. */
  datatype Record = Record(spec: Spec, hadPrevious: bool)

  /** The siblings of a target and the target itself are four separate subtrees. */
  lemma SiblingsApart(s: Spec)
    ensures Apart(s.Target(), s.Staging()) && Apart(s.Target(), s.Previous()) && Apart(s.Target(), s.Discard())
    ensures Apart(s.Staging(), s.Previous()) && Apart(s.Staging(), s.Discard()) && Apart(s.Previous(), s.Discard())
  {
    var n := |s.dir|;
    var staging, previous, discard := ".dbr2-staging-id-" + s.base, ".dbr2-old-id-" + s.base, ".dbr2-discard-id-" + s.base;
    assert |staging| == |s.base| + 17 && |previous| == |s.base| + 13 && |discard| == |s.base| + 17;
    assert staging[6] == 's' && discard[6] == 'd';
    assert s.Target()[n] == s.base && s.Staging()[n] == staging;
    assert s.Previous()[n] == previous && s.Discard()[n] == discard;
  }

  /** Nothing lies at or below the siblings a swap is about to use. */
  ghost predicate Fresh(fs: Tree, s: Spec) {
    forall q :: s.Staging() <= q || s.Previous() <= q || s.Discard() <= q ==> fs(q).Missing?
  }

  function RecordOf(fs: Tree, s: Spec): Record {
    Record(s, !WithParents(fs, s.Target())(s.Target()).Missing?)
  }

  /** Restores one path without interruption: parents, staging, the two renames. */
  function Swap(fs: Tree, s: Spec): Tree {
    var staged := Write(WithParents(fs, s.Target()), s.Staging(), s.content);
    var aside := if staged(s.Target()).Missing? then staged else Move(staged, s.Target(), s.Previous());
    Move(aside, s.Staging(), s.Target())
  }

  /** undoSwap of a finished swap without interruption. */
  function Undo(fs: Tree, r: Record): Tree {
    var t, p := r.spec.Target(), r.spec.Previous();
    var cleared := Remove(fs, r.spec.Staging());
    var back :=
      if !r.hadPrevious then Remove(cleared, t)
      else if cleared(p).Missing? then cleared
      else Move(Remove(cleared, t), p, t);
    Remove(back, r.spec.Discard())
  }

  /** A directory's absence means nothing lies below it. */
  ghost predicate Closed(fs: Tree) {
    forall a: Path, q: Path :: a <= q && fs(a).Missing? ==> fs(q).Missing?
  }

  lemma UndoInvertsSwap(fs: Tree, s: Spec)
    requires Fresh(fs, s) && Closed(fs)
    ensures Same(Undo(Swap(fs, s), RecordOf(fs, s)), WithParents(fs, s.Target()))
  {
    var t, p := s.Target(), s.Previous();
    var parents := WithParents(fs, t);
    SiblingsApart(s);
    forall q
      ensures Undo(Swap(fs, s), RecordOf(fs, s))(q) == parents(q)
    {
      NotBelowBoth(s, q);
      if t <= q {
        NotBelowBoth(s, Rebase(q, t, p));
        RebaseBack(q, t, p);
      }
      assert Rebase(p, p, t) == t;
    }
  }

  /** Nothing lies below two of the four subtrees. */
  lemma NotBelowBoth(s: Spec, q: Path)
    ensures s.Target() <= q ==> !(s.Staging() <= q) && !(s.Previous() <= q) && !(s.Discard() <= q)
    ensures s.Staging() <= q ==> !(s.Previous() <= q) && !(s.Discard() <= q)
    ensures s.Previous() <= q ==> !(s.Discard() <= q)
  {
    SiblingsApart(s);
    var n := |s.dir| + 1;
    if |q| >= n {
      assert s.Target() <= q ==> q[..n] == s.Target();
      assert s.Staging() <= q ==> q[..n] == s.Staging();
      assert s.Previous() <= q ==> q[..n] == s.Previous();
      assert s.Discard() <= q ==> q[..n] == s.Discard();
    }
  }

  // ---- A whole restore ------------------------------------------------------

  ghost predicate ValidSpec(s: Spec) {
    Closed(s.content) && !s.content([]).Missing?
  }

  /** Every swap of the restore starts with its siblings free. */
  ghost predicate Runs(fs: Tree, specs: seq<Spec>) {
    specs != [] ==>
      ValidSpec(specs[0]) && Fresh(fs, specs[0]) && Runs(Swap(fs, specs[0]), specs[1..])
  }

  function Final(fs: Tree, specs: seq<Spec>): Tree {
    if specs == [] then fs else Final(Swap(fs, specs[0]), specs[1..])
  }

  function Records(fs: Tree, specs: seq<Spec>): seq<Record> {
    if specs == [] then [] else [RecordOf(fs, specs[0])] + Records(Swap(fs, specs[0]), specs[1..])
  }

  /** Undoes the records newest first. */
  function Rollback(fs: Tree, rs: seq<Record>): Tree {
    if rs == [] then fs else Undo(Rollback(fs, rs[1..]), rs[0])
  }

  /** The loop of rollbackRestore. */
  method RollbackLoop(fs: Tree, rs: seq<Record>) returns (out: Tree)
    ensures out == Rollback(fs, rs)
  {
    out := fs;
    var i := |rs|;
    while i > 0
      invariant 0 <= i <= |rs| && out == Rollback(fs, rs[i..])
    {
      i := i - 1;
      out := Undo(out, rs[i]);
      assert rs[i..][1..] == rs[i + 1..];
    }
    assert rs[0..] == rs;
  }

  /** What a swap leaves at each path. */
  lemma SwapAt(fs: Tree, s: Spec, q: Path)
    requires Closed(fs) && Fresh(fs, s)
    ensures
      var t, p, parents := s.Target(), s.Previous(), WithParents(fs, s.Target());
      Swap(fs, s)(q) ==
      if t <= q then s.content(q[|t|..])
      else if p <= q then parents(Rebase(q, p, t))
      else if s.Staging() <= q then Missing
      else parents(q)
  {
    var t, p := s.Target(), s.Previous();
    SiblingsApart(s);
    NotBelowBoth(s, q);
    if t <= q { NotBelowBoth(s, Rebase(q, t, s.Staging())); }
    if p <= q {
      NotBelowBoth(s, Rebase(q, p, t));
      RebaseBack(q, p, t);
    }
  }

  lemma SwapClosed(fs: Tree, s: Spec)
    requires Closed(fs) && ValidSpec(s) && Fresh(fs, s)
    ensures Closed(Swap(fs, s))
  {
    var t, p, after := s.Target(), s.Previous(), Swap(fs, s);
    assert Closed(WithParents(fs, t));
    forall a: Path, q: Path | a <= q && after(a).Missing?
      ensures after(q).Missing?
    {
      SwapAt(fs, s, a);
      SwapAt(fs, s, q);
      NotBelowBoth(s, q);
      if t <= q {
        assert if t <= a then a[|t|..] <= q[|t|..] else a < t;
      } else if p <= q {
        if p <= a {
          assert Rebase(a, p, t) <= Rebase(q, p, t);
        }
      }
    }
  }

  /** g is f plus directories. */
  ghost predicate Extends(f: Tree, g: Tree) {
    forall q :: g(q) == f(q) || (f(q).Missing? && g(q).Dir?)
  }

  // ---- What a rollback leaves -----------------------------------------------

  /** Undoing record r does not reach q: it deletes nothing there and moves nothing away. */
  predicate Spared(r: Record, q: Path) {
    && !(r.spec.Target() <= q) && !(r.spec.Staging() <= q) && !(r.spec.Discard() <= q)
    && (r.hadPrevious ==> !(r.spec.Previous() <= q))
  }

  /** A directory that a swap made on the way to its target is still there after the
      rollback, at the place where the undos put it: a directory made inside content that
      was kept aside comes back with that content. */
  ghost predicate Left(fs: Tree, specs: seq<Spec>, q: Path)
    decreases |specs|
  {
    specs != [] &&
    var s, after, r := specs[0], Swap(fs, specs[0]), RecordOf(fs, specs[0]);
    || (q < s.Target() && fs(q).Missing?)
    || (s.Target() <= q && r.hadPrevious && Left(after, specs[1..], Rebase(q, s.Target(), s.Previous())))
    || (Spared(r, q) && Left(after, specs[1..], q))
  }

  /** What undoing s gives at q, from what the later records left. */
  lemma UndoLeaves(fs: Tree, s: Spec, rest: seq<Spec>, most: Tree, q: Path)
    requires Closed(fs) && ValidSpec(s) && Fresh(fs, s)
    requires forall x: Path :: most(x) ==
               if Swap(fs, s)(x).Missing? && Left(Swap(fs, s), rest, x) then Dir else Swap(fs, s)(x)
    ensures Undo(most, RecordOf(fs, s))(q) ==
            if fs(q).Missing? && Left(fs, [s] + rest, q) then Dir else fs(q)
  {
    var t, p := s.Target(), s.Previous();
    assert ([s] + rest)[1..] == rest;
    SiblingsApart(s);
    NotBelowBoth(s, q);
    SwapAt(fs, s, q);
    SwapAt(fs, s, p);
    assert Rebase(p, p, t) == t;
    if t <= q {
      var kept := Rebase(q, t, p);
      NotBelowBoth(s, kept);
      RebaseBack(q, t, p);
      SwapAt(fs, s, kept);
    }
  }

  /** A newest-first rollback of any sequence of swaps, nested in any way, gives the
      original tree plus exactly the directories that are `Left`. */
  lemma {:induction false} RollbackLeaves(fs: Tree, specs: seq<Spec>, q: Path)
    requires Closed(fs) && Runs(fs, specs)
    ensures Rollback(Final(fs, specs), Records(fs, specs))(q) ==
            if fs(q).Missing? && Left(fs, specs, q) then Dir else fs(q)
  {
    if specs == [] {
    } else {
      var s, rest := specs[0], specs[1..];
      var after := Swap(fs, s);
      SwapClosed(fs, s);
      var most := Rollback(Final(after, rest), Records(after, rest));
      forall x: Path ensures most(x) == if after(x).Missing? && Left(after, rest, x) then Dir else after(x) {
        RollbackLeaves(after, rest, x);
      }
      assert Records(fs, specs)[1..] == Records(after, rest);
      assert [s] + rest == specs;
      UndoLeaves(fs, s, rest, most, q);
    }
  }

  /** No target lies in the content an earlier swap put aside. */
  ghost predicate KeepsAside(specs: seq<Spec>) {
    forall i, k :: 0 <= i < k < |specs| ==> !(specs[i].Previous() <= specs[k].Target())
  }

  ghost predicate ParentOfTarget(specs: seq<Spec>, q: Path) {
    exists k :: 0 <= k < |specs| && q < specs[k].Target()
  }

  lemma NoParentInKept(specs: seq<Spec>, q: Path)
    requires specs != [] && KeepsAside(specs) && specs[0].Previous() <= q
    ensures !ParentOfTarget(specs[1..], q)
  {
    forall k | 0 <= k < |specs[1..]| ensures !(q < specs[1..][k].Target()) {
      assert !(specs[0].Previous() <= specs[k + 1].Target());
    }
  }

  lemma {:induction false} LeftIsParent(fs: Tree, specs: seq<Spec>, q: Path)
    requires KeepsAside(specs) && Left(fs, specs, q)
    ensures ParentOfTarget(specs, q)
    decreases |specs|
  {
    var s, rest, after := specs[0], specs[1..], Swap(fs, specs[0]);
    assert forall k :: 0 <= k < |rest| ==> rest[k] == specs[k + 1];
    if q < s.Target() {
    } else if s.Target() <= q && RecordOf(fs, s).hadPrevious && Left(after, rest, Rebase(q, s.Target(), s.Previous())) {
      NoParentInKept(specs, Rebase(q, s.Target(), s.Previous()));
      LeftIsParent(after, rest, Rebase(q, s.Target(), s.Previous()));
      assert false;
    } else {
      LeftIsParent(after, rest, q);
      var k :| 0 <= k < |rest| && q < rest[k].Target();
      assert q < specs[k + 1].Target();
    }
  }

  /** The rollback inverts the restore up to directories. They are all parents of targets
      if and only if every one that is `Left` is, and always if no target lies in content
      put aside. */
  lemma RollbackInverts(fs: Tree, specs: seq<Spec>)
    requires Closed(fs) && Runs(fs, specs)
    ensures var back := Rollback(Final(fs, specs), Records(fs, specs));
            && Extends(fs, back)
            && ((forall q :: back(q) != fs(q) ==> ParentOfTarget(specs, q)) <==>
                (forall q :: fs(q).Missing? && Left(fs, specs, q) ==> ParentOfTarget(specs, q)))
            && (KeepsAside(specs) ==> forall q :: back(q) != fs(q) ==> ParentOfTarget(specs, q))
  {
    var back := Rollback(Final(fs, specs), Records(fs, specs));
    forall q ensures back(q) == if fs(q).Missing? && Left(fs, specs, q) then Dir else fs(q) {
      RollbackLeaves(fs, specs, q);
    }
    if KeepsAside(specs) {
      forall q | back(q) != fs(q) ensures ParentOfTarget(specs, q) {
        LeftIsParent(fs, specs, q);
      }
    }
  }

  const FOLDER: Tree := (q: Path) => if q == [] || q == ["a"] then Dir else Missing
  const INTO_KEPT: Spec := Spec([".dbr2-old-id-a", "x"], "y", (q: Path) => if q == [] then File(2) else Missing)
  const ONTO_FOLDER: Spec := Spec([], "a", (q: Path) => if q == [] then Dir else Missing)

  lemma IntoKeptRuns()
    ensures Closed(FOLDER) && Runs(FOLDER, [ONTO_FOLDER, INTO_KEPT]) && RecordOf(FOLDER, ONTO_FOLDER).hadPrevious
    ensures ONTO_FOLDER.Target() == ["a"] && ONTO_FOLDER.Previous() == [".dbr2-old-id-a"]
    ensures Swap(FOLDER, ONTO_FOLDER)([".dbr2-old-id-a", "x"]).Missing?
  {
    var s, after := ONTO_FOLDER, Swap(FOLDER, ONTO_FOLDER);
    assert s.Target() == ["a"] && s.Previous() == [".dbr2-old-id-a"] by {
      assert ".dbr2-old-id-" + "a" == ".dbr2-old-id-a";
    }
    forall q | s.Staging() <= q || s.Previous() <= q || s.Discard() <= q ensures FOLDER(q).Missing? {
      assert q[0] == s.Staging()[0] || q[0] == s.Previous()[0] || q[0] == s.Discard()[0];
      assert |q[0]| > 1;
    }
    forall q: Path | [".dbr2-old-id-a", "x"] <= q ensures after(q).Missing? {
      assert s.Previous() <= q && |q| >= 2;
      SwapAt(FOLDER, s, q);
      SiblingsApart(s);
      NotBelowBoth(s, q);
      assert |Rebase(q, s.Previous(), s.Target())| >= 2;
    }
    assert Fresh(after, INTO_KEPT) by {
      forall q | INTO_KEPT.Staging() <= q || INTO_KEPT.Previous() <= q || INTO_KEPT.Discard() <= q ensures after(q).Missing? {
        assert INTO_KEPT.dir <= q;
      }
    }
    assert [s, INTO_KEPT][1..] == [INTO_KEPT] && [INTO_KEPT][1..] == [];
    assert Runs(Swap(after, INTO_KEPT), []) && Runs(after, [INTO_KEPT]);
  }

  /** Without the condition of RollbackInverts the rollback can leave a directory that is no
      parent of any target: one made inside kept content comes back with it. */
  lemma DirectoryComesBack()
    ensures var specs := [ONTO_FOLDER, INTO_KEPT];
            && Closed(FOLDER) && Runs(FOLDER, specs) && !KeepsAside(specs)
            && FOLDER(["a", "x"]).Missing? && !ParentOfTarget(specs, ["a", "x"])
            && Rollback(Final(FOLDER, specs), Records(FOLDER, specs))(["a", "x"]).Dir?
  {
    var specs, q, kept: Path := [ONTO_FOLDER, INTO_KEPT], ["a", "x"], [".dbr2-old-id-a", "x"];
    IntoKeptRuns();
    assert INTO_KEPT.Target() == kept + ["y"] && Rebase(q, ["a"], [".dbr2-old-id-a"]) == kept;
    assert specs[1..] == [INTO_KEPT];
    assert Left(Swap(FOLDER, ONTO_FOLDER), [INTO_KEPT], kept);
    RollbackLeaves(FOLDER, specs, q);
    assert specs[0].Previous() <= specs[1].Target();
    assert |"a"| != |".dbr2-old-id-a"|;
    assert q[0] != INTO_KEPT.Target()[0];
  }

  // ---- A rollback repeated after its save was lost --------------------------

  /** The paths that records without previous content delete on a tree without them. */
  ghost function NewTargets(rs: seq<Record>): set<Path> {
    set k | 0 <= k < |rs| && !rs[k].hadPrevious :: rs[k].spec.Target()
  }

  ghost predicate Clean(fs: Tree, rs: seq<Record>) {
    forall k :: 0 <= k < |rs| ==> Fresh(fs, rs[k].spec)
  }

  /** Path q lies at or below one of the given paths. */
  ghost predicate Under(ts: set<Path>, q: Path) {
    exists t :: t in ts && t <= q
  }

  /** Without siblings, an undo only deletes a target that had no previous content. */
  lemma UndoClean(fs: Tree, r: Record, q: Path)
    requires Fresh(fs, r.spec)
    ensures Undo(fs, r)(q) == if !r.hadPrevious && r.spec.Target() <= q then Missing else fs(q)
  {
    SiblingsApart(r.spec);
  }

  lemma UnderFirst(rs: seq<Record>, q: Path)
    requires rs != []
    ensures Under(NewTargets(rs), q) <==> (!rs[0].hadPrevious && rs[0].spec.Target() <= q) || Under(NewTargets(rs[1..]), q)
  {
    var rest := rs[1..];
    assert forall k :: 0 <= k < |rest| ==> rest[k] == rs[k + 1];
    if Under(NewTargets(rs), q) {
      var t :| t in NewTargets(rs) && t <= q;
      var k :| 0 <= k < |rs| && !rs[k].hadPrevious && rs[k].spec.Target() == t;
      if k > 0 {
        assert rest[k - 1] == rs[k];
        assert t in NewTargets(rest);
      }
    }
    if Under(NewTargets(rest), q) {
      var t :| t in NewTargets(rest) && t <= q;
      var k :| 0 <= k < |rest| && !rest[k].hadPrevious && rest[k].spec.Target() == t;
      assert rs[k + 1].spec.Target() in NewTargets(rs);
    }
    if !rs[0].hadPrevious {
      assert rs[0].spec.Target() in NewTargets(rs);
    }
  }

  /** On a tree that is already rolled back, repeating the rollback deletes exactly
      the targets whose record says there was no previous content. */
  lemma {:induction false} RollbackAgain(fs: Tree, rs: seq<Record>, q: Path)
    requires Clean(fs, rs)
    ensures Rollback(fs, rs)(q) == if Under(NewTargets(rs), q) then Missing else fs(q)
  {
    if rs == [] {
    } else {
      var rest, r := rs[1..], rs[0];
      assert forall k :: 0 <= k < |rest| ==> rest[k] == rs[k + 1];
      assert Clean(fs, rest) && Fresh(fs, r.spec);
      forall x ensures Rollback(fs, rest)(x) == if Under(NewTargets(rest), x) then Missing else fs(x) {
        RollbackAgain(fs, rest, x);
      }
      UndoClean(Rollback(fs, rest), r, q);
      UnderFirst(rs, q);
    }
  }

  /** Undoing record r deletes whatever lies at t. */
  predicate Clears(r: Record, t: Path) {
    r.spec.Target() <= t || r.spec.Staging() <= t || r.spec.Discard() <= t
  }

  /** f and g differ at most at and below the given paths. */
  ghost predicate AgreeBut(f: Tree, g: Tree, ts: set<Path>) {
    forall q :: f(q) == g(q) || Under(ts, q)
  }

  ghost function Uncleared(rs: seq<Record>, ts: set<Path>): set<Path> {
    set t | t in ts && forall k :: 0 <= k < |rs| ==> !Clears(rs[k], t)
  }

  /** An undo forgets the differences it deletes, and spreads none. */
  lemma UndoAgrees(f: Tree, g: Tree, r: Record, ts: set<Path>, q: Path)
    requires AgreeBut(f, g, ts) && (r.hadPrevious ==> !f(r.spec.Previous()).Missing?)
    requires forall t :: t in ts ==> !(r.spec.Previous() <= t)
    ensures Undo(f, r)(q) == Undo(g, r)(q) || Under(Uncleared([r], ts), q)
  {
    var s := r.spec;
    var n := |s.dir|;
    SiblingsApart(s);
    NotBelowBoth(s, q);
    if above :| above in ts && above <= s.dir {
      assert !Clears(r, above);
      assert above in Uncleared([r], ts);
      if !(above <= q) {
        assert !(s.Target() <= q) && !(s.Staging() <= q) && !(s.Previous() <= q) && !(s.Discard() <= q);
        if f(q) != g(q) {
          var t :| t in ts && t <= q;
          assert !Clears(r, t);
          assert t in Uncleared([r], ts);
        }
      }
    } else {
      assert forall t :: t in ts ==> !(t <= s.Previous()) by {
        forall t | t in ts ensures !(t <= s.Previous()) {
          assert t <= s.Previous() && |t| <= n ==> t <= s.dir;
        }
      }
      assert f(s.Previous()) == g(s.Previous());
      if s.Target() <= q {
        var kept := Rebase(q, s.Target(), s.Previous());
        forall t | t in ts ensures !(t <= kept) {
          assert t <= kept && |t| <= n ==> t <= s.dir;
          assert t <= kept && |t| > n ==> s.Previous() <= t;
        }
        assert f(kept) == g(kept);
      } else if !(s.Staging() <= q) && !(s.Discard() <= q) && f(q) != g(q) {
        var t :| t in ts && t <= q;
        assert !Clears(r, t);
        assert t in Uncleared([r], ts);
      }
    }
  }

  lemma UnclearedFirst(rs: seq<Record>, ts: set<Path>)
    requires rs != []
    ensures Uncleared(rs, ts) == Uncleared([rs[0]], Uncleared(rs[1..], ts))
  {
    var rest := rs[1..];
    forall t | t in ts
      ensures (forall k :: 0 <= k < |rs| ==> !Clears(rs[k], t)) <==>
              (forall k :: 0 <= k < |rest| ==> !Clears(rest[k], t)) && !Clears(rs[0], t)
    {
      assert forall k :: 0 <= k < |rest| ==> rest[k] == rs[k + 1];
      assert forall k :: 0 < k < |rs| ==> rs[k] == rest[k - 1];
    }
    assert forall t :: t in ts ==> (t in Uncleared([rs[0]], ts) <==> !Clears([rs[0]][0], t));
  }

  /** Content put aside is there when its record is undone. */
  lemma KeptAtUndo(fs: Tree, s: Spec, most: Tree)
    requires Closed(fs) && Fresh(fs, s) && Extends(Swap(fs, s), most)
    ensures RecordOf(fs, s).hadPrevious ==> !most(s.Previous()).Missing?
  {
    SwapAt(fs, s, s.Previous());
    SiblingsApart(s);
    assert Rebase(s.Previous(), s.Previous(), s.Target()) == s.Target();
  }

  lemma {:induction false} RollbackSplit(fs: Tree, rs: seq<Record>, m: nat)
    requires m <= |rs|
    ensures Rollback(fs, rs) == Rollback(Rollback(fs, rs[m..]), rs[..m])
  {
    if m == 0 {
      assert rs[0..] == rs;
    } else {
      RollbackSplit(fs, rs[1..], m - 1);
      assert rs[1..][m - 1..] == rs[m..] && rs[1..][..m - 1] == rs[..m][1..];
    }
  }

  /** Undoing the first m records of a restore on two trees that differ below some paths. */
  lemma {:induction false} AgreeBack(fs: Tree, specs: seq<Spec>, m: nat, g: Tree, ts: set<Path>)
    requires Closed(fs) && Runs(fs, specs) && m <= |specs| == |Records(fs, specs)|
    requires AgreeBut(Rollback(Final(fs, specs), Records(fs, specs)[m..]), g, ts)
    requires forall j, t :: 0 <= j < m && t in ts ==> !(specs[j].Previous() <= t)
    ensures var rs := Records(fs, specs);
            AgreeBut(Rollback(Final(fs, specs), rs), Rollback(g, rs[..m]), Uncleared(rs[..m], ts))
  {
    var rs, last := Records(fs, specs), Final(fs, specs);
    if m == 0 {
      assert rs[0..] == rs && rs[..0] == [];
      assert Uncleared(rs[..0], ts) == ts;
    } else {
      var s, rest, after := specs[0], specs[1..], Swap(fs, specs[0]);
      var rs', ts' := Records(after, rest), Uncleared(Records(after, rest)[..m - 1], ts);
      SwapClosed(fs, s);
      assert rs == [RecordOf(fs, s)] + rs' && rs[m..] == rs'[m - 1..] && rs[..m][1..] == rs'[..m - 1];
      assert forall j :: 0 <= j < m - 1 ==> rest[j] == specs[j + 1];
      AgreeBack(after, rest, m - 1, g, ts);
      var f', g' := Rollback(last, rs'), Rollback(g, rs'[..m - 1]);
      RollbackInverts(after, rest);
      KeptAtUndo(fs, s, f');
      forall q ensures Undo(f', rs[0])(q) == Undo(g', rs[0])(q) || Under(Uncleared([rs[0]], ts'), q) {
        UndoAgrees(f', g', rs[0], ts', q);
      }
      UnclearedFirst(rs[..m], ts);
    }
  }

  /** A path that no undo clears or moves keeps what it holds. */
  lemma {:induction false} UnclearedStays(f: Tree, rs: seq<Record>, t: Path)
    requires forall k :: 0 <= k < |rs| ==> !Clears(rs[k], t) && !(rs[k].spec.Previous() <= t)
    ensures Rollback(f, rs)(t) == f(t)
  {
    if rs == [] {
    } else {
      assert forall k :: 0 <= k < |rs[1..]| ==> rs[1..][k] == rs[k + 1];
      UnclearedStays(f, rs[1..], t);
    }
  }

  lemma {:induction false} RecordsAre(fs: Tree, specs: seq<Spec>)
    ensures |Records(fs, specs)| == |specs|
    ensures forall k :: 0 <= k < |specs| ==> Records(fs, specs)[k].spec == specs[k]
  {
    if specs == [] {
    } else {
      RecordsAre(Swap(fs, specs[0]), specs[1..]);
    }
  }

  lemma UndoClosed(fs: Tree, r: Record)
    requires Closed(fs)
    ensures Closed(Undo(fs, r))
  {
    var s, after := r.spec, Undo(fs, r);
    SiblingsApart(s);
    forall a: Path, q: Path | a <= q && after(a).Missing?
      ensures after(q).Missing?
    {
      NotBelowBoth(s, q);
      NotBelowBoth(s, a);
      if s.Target() <= q && !(s.Target() <= a) {
        assert a <= s.dir && a <= s.Previous();
        assert a <= Rebase(q, s.Target(), s.Previous());
      } else if s.Target() <= a {
        assert Rebase(a, s.Target(), s.Previous()) <= Rebase(q, s.Target(), s.Previous());
      }
    }
  }

  lemma {:induction false} RollbackClosed(fs: Tree, rs: seq<Record>)
    requires Closed(fs)
    ensures Closed(Rollback(fs, rs))
  {
    if rs == [] {
    } else {
      RollbackClosed(fs, rs[1..]);
      UndoClosed(Rollback(fs, rs[1..]), rs[0]);
    }
  }

  lemma {:induction false} FinalClosed(fs: Tree, specs: seq<Spec>)
    requires Closed(fs) && Runs(fs, specs)
    ensures Closed(Final(fs, specs))
  {
    if specs == [] {
    } else {
      SwapClosed(fs, specs[0]);
      FinalClosed(Swap(fs, specs[0]), specs[1..]);
    }
  }

  /** Where the trees after a rollback that undid records m and up, crashed and was repeated
      in full can differ from the uninterrupted one. */
  lemma RepeatedTree(fs: Tree, specs: seq<Spec>, m: nat, mid: Tree, rs: seq<Record>, left: set<Path>)
    requires Closed(fs) && Runs(fs, specs) && m <= |specs| && rs == Records(fs, specs) && |rs| == |specs|
    requires mid == Rollback(Final(fs, specs), rs[m..]) && Clean(mid, rs[m..])
    requires left == set t | t in NewTargets(rs[m..]) && !mid(t).Missing?
    requires forall j, t :: 0 <= j < m && t in left ==> !(specs[j].Previous() <= t)
    ensures AgreeBut(Rollback(Final(fs, specs), rs), Rollback(mid, rs), Uncleared(rs[..m], left))
  {
    var again := Rollback(mid, rs[m..]);
    FinalClosed(fs, specs);
    RollbackClosed(Final(fs, specs), rs[m..]);
    forall q ensures mid(q) == again(q) || Under(left, q) {
      RollbackAgain(mid, rs[m..], q);
      if mid(q) != again(q) {
        var t :| t in NewTargets(rs[m..]) && t <= q;
        assert t in left;
      }
    }
    AgreeBack(fs, specs, m, again, left);
    RollbackSplit(mid, rs, m);
  }

  /** The undo of some record clears t. */
  ghost predicate ClearedBy(rs: seq<Record>, t: Path) {
    exists j :: 0 <= j < |rs| && Clears(rs[j], t)
  }

  /** A target that had no previous content, is there in the tree the interrupted rollback
      left, and that no older record's undo clears, is lost by the repetition. */
  lemma RepeatLoses(mid: Tree, older: seq<Record>, newer: seq<Record>, t: Path)
    requires Clean(mid, newer) && t in NewTargets(newer) && !mid(t).Missing? && !ClearedBy(older, t)
    requires forall j :: 0 <= j < |older| ==> !(older[j].spec.Previous() <= t)
    ensures Rollback(Rollback(mid, newer), older)(t) != Rollback(mid, older)(t)
  {
    RollbackAgain(mid, newer, t);
    UnclearedStays(mid, older, t);
    UnclearedStays(Rollback(mid, newer), older, t);
  }

  lemma {:induction false} NewTargetsAre(rs: seq<Record>, t: Path) returns (k: nat)
    requires t in NewTargets(rs)
    ensures k < |rs| && !rs[k].hadPrevious && rs[k].spec.Target() == t
  {
    k :| 0 <= k < |rs| && !rs[k].hadPrevious && rs[k].spec.Target() == t;
  }

  /** A rollback that undid records m and up and crashed before its save may be repeated in
      full if and only if every target without previous content that exists in the tree it
      left is cleared by the undo of an older record. */
  lemma ReplaySafeIff(fs: Tree, specs: seq<Spec>, m: nat)
    requires Closed(fs) && Runs(fs, specs) && m <= |specs| == |Records(fs, specs)|
    requires Clean(Rollback(Final(fs, specs), Records(fs, specs)[m..]), Records(fs, specs)[m..])
    requires forall j, k :: 0 <= j < m <= k < |specs| ==> !(specs[j].Previous() <= specs[k].Target())
    ensures var rs := Records(fs, specs);
            var mid := Rollback(Final(fs, specs), rs[m..]);
            Same(Rollback(mid, rs), Rollback(Final(fs, specs), rs)) <==>
            forall t :: t in NewTargets(rs[m..]) && !mid(t).Missing? ==> ClearedBy(rs[..m], t)
  {
    var rs := Records(fs, specs);
    var mid := Rollback(Final(fs, specs), rs[m..]);
    RecordsAre(fs, specs);
    forall j, t | 0 <= j < m && t in NewTargets(rs[m..]) ensures !(specs[j].Previous() <= t) {
      var k := NewTargetsAre(rs[m..], t);
      assert rs[m..][k] == rs[m + k] && specs[m + k].Target() == t;
    }
    if t :| t in NewTargets(rs[m..]) && !mid(t).Missing? && !ClearedBy(rs[..m], t) {
      RepeatUnsafe(Final(fs, specs), rs, m, t);
    } else {
      RepeatSafe(fs, specs, m, mid, rs);
    }
  }

  lemma RepeatUnsafe(last: Tree, rs: seq<Record>, m: nat, t: Path)
    requires m <= |rs| && Clean(Rollback(last, rs[m..]), rs[m..])
    requires t in NewTargets(rs[m..]) && !Rollback(last, rs[m..])(t).Missing? && !ClearedBy(rs[..m], t)
    requires forall j :: 0 <= j < m ==> !(rs[j].spec.Previous() <= t)
    ensures !Same(Rollback(Rollback(last, rs[m..]), rs), Rollback(last, rs))
  {
    var mid := Rollback(last, rs[m..]);
    RollbackSplit(last, rs, m);
    RollbackSplit(mid, rs, m);
    RepeatLoses(mid, rs[..m], rs[m..], t);
  }

  lemma RepeatSafe(fs: Tree, specs: seq<Spec>, m: nat, mid: Tree, rs: seq<Record>)
    requires Closed(fs) && Runs(fs, specs) && m <= |specs| && rs == Records(fs, specs) && |rs| == |specs|
    requires mid == Rollback(Final(fs, specs), rs[m..]) && Clean(mid, rs[m..])
    requires forall j, t :: 0 <= j < m && t in NewTargets(rs[m..]) ==> !(specs[j].Previous() <= t)
    requires forall t :: t in NewTargets(rs[m..]) && !mid(t).Missing? ==> ClearedBy(rs[..m], t)
    ensures Same(Rollback(mid, rs), Rollback(Final(fs, specs), rs))
  {
    var left := set t | t in NewTargets(rs[m..]) && !mid(t).Missing?;
    RepeatedTree(fs, specs, m, mid, rs, left);
    forall t | t in left ensures t !in Uncleared(rs[..m], left) {
      assert ClearedBy(rs[..m], t);
    }
    assert Uncleared(rs[..m], left) == {};
  }

  const BELOW: Path := ["a", "b"]

  /** A directory a holding a file b. */
  const ORIGINAL: Tree :=
    (q: Path) => if q == [] || q == ["a"] then Dir else if q == BELOW then File(1) else Missing

  /** Restores a without b, then b. */
  const INNER_AFTER_OUTER: seq<Spec> :=
    [Spec([], "a", (q: Path) => if q == [] then Dir else Missing),
     Spec(["a"], "b", (q: Path) => if q == [] then File(2) else Missing)]

  const OUTER := INNER_AFTER_OUTER[0]
  const INNER := INNER_AFTER_OUTER[1]

  lemma ExampleRuns()
    ensures Closed(ORIGINAL) && Runs(ORIGINAL, INNER_AFTER_OUTER)
    ensures !RecordOf(Swap(ORIGINAL, OUTER), INNER).hadPrevious
  {
    var mid := Swap(ORIGINAL, OUTER);
    assert Fresh(ORIGINAL, OUTER) by {
      SiblingsApart(OUTER);
      forall q | OUTER.Staging() <= q || OUTER.Previous() <= q || OUTER.Discard() <= q
        ensures ORIGINAL(q).Missing?
      {
        assert q[0] == OUTER.Staging()[0] || q[0] == OUTER.Previous()[0] || q[0] == OUTER.Discard()[0];
        assert |q[0]| > 1;
      }
    }
    assert ValidSpec(OUTER);
    SwapAt(ORIGINAL, OUTER, BELOW);
    assert OUTER.Target() == ["a"] && BELOW[1..] == ["b"] && INNER.Target() == BELOW;
    assert Fresh(mid, INNER) by {
      forall q | INNER.Staging() <= q || INNER.Previous() <= q || INNER.Discard() <= q
        ensures mid(q).Missing?
      {
        assert q[0] == "a" && ["a"] <= q && |q| >= 2;
        SwapAt(ORIGINAL, OUTER, q);
      }
    }
    assert ValidSpec(INNER) && Runs(Swap(mid, INNER), []);
    assert INNER_AFTER_OUTER[1..] == [INNER] && [INNER][1..] == [];
  }

  lemma ExampleRecords()
    ensures Records(ORIGINAL, INNER_AFTER_OUTER) == [RecordOf(ORIGINAL, OUTER), RecordOf(Swap(ORIGINAL, OUTER), INNER)]
  {
    assert INNER_AFTER_OUTER[1..] == [INNER] && [INNER][1..] == [];
    assert Records(Swap(ORIGINAL, OUTER), [INNER]) == [RecordOf(Swap(ORIGINAL, OUTER), INNER)];
  }

  /** Undoing an inner record without previous content and then the outer one leaves no
      file below, whatever extra directories there are. */
  lemma InnerUndoDeletes(fs: Tree, outer: Record, inner: Record)
    requires outer.spec == OUTER && inner == Record(INNER, false) && Extends(ORIGINAL, fs)
    ensures !Undo(Undo(fs, inner), outer)(BELOW).File?
  {
    SiblingsApart(OUTER);
    NotBelowBoth(OUTER, BELOW);
    assert OUTER.Target() == ["a"] && INNER.Target() == BELOW;
    var kept := Rebase(BELOW, OUTER.Target(), OUTER.Previous());
    assert kept != BELOW && kept != [] && kept != ["a"];
    assert ORIGINAL(kept).Missing? && !fs(kept).File?;
  }

  /** The condition of ReplaySafeIff can fail: the inner target had no previous content
      in the restored outer tree, but exists in the original one. One rollback brings
      the original file back, a repetition from the same journal deletes it. */
  lemma RepeatedRollbackLosesContent()
    ensures Closed(ORIGINAL) && Runs(ORIGINAL, INNER_AFTER_OUTER)
    ensures
      var rs := Records(ORIGINAL, INNER_AFTER_OUTER);
      var once := Rollback(Final(ORIGINAL, INNER_AFTER_OUTER), rs);
      once(BELOW) == File(1) && Rollback(once, rs)(BELOW) != File(1)
  {
    ExampleRuns();
    ExampleRecords();
    RollbackInverts(ORIGINAL, INNER_AFTER_OUTER);
    var rs := Records(ORIGINAL, INNER_AFTER_OUTER);
    var once := Rollback(Final(ORIGINAL, INNER_AFTER_OUTER), rs);
    TwoRecords(once, rs[0], rs[1]);
    InnerUndoDeletes(once, rs[0], rs[1]);
    assert once(BELOW) == ORIGINAL(BELOW);
  }

  lemma TwoRecords(fs: Tree, r1: Record, r2: Record)
    ensures Rollback(fs, [r1, r2]) == Undo(Undo(fs, r2), r1)
  {
    assert [r1, r2][1..] == [r2] && [r2][1..] == [];
    assert Rollback(fs, [r2]) == Undo(fs, r2);
  }
}
