/** Rollbacks of nested swaps that crash inside an undo, and restores whose reserved names are
    used by nobody else (internal/agent/restorejournal.go, restore.go). */
module NestedReplay {
  import opened NestedSwap

  // ---- Reserved names ---------------------------------------------------------

  /** A name that only this restore's siblings have. */
  predicate Reserved(name: string) {
    ".dbr2-staging-id-" <= name || ".dbr2-old-id-" <= name || ".dbr2-discard-id-" <= name
  }

  predicate Plain(q: Path) {
    forall i :: 0 <= i < |q| ==> !Reserved(q[i])
  }

  ghost predicate PlainTree(fs: Tree) {
    forall q :: !fs(q).Missing? ==> Plain(q)
  }

  ghost predicate PlainSpec(s: Spec) {
    ValidSpec(s) && PlainTree(s.content) && Plain(s.Target())
  }

  /** A restore as the source makes it: the reserved names occur neither in the tree nor in
      what is restored, and no target is restored twice. */
  ghost predicate Ordinary(fs: Tree, specs: seq<Spec>) {
    && Closed(fs) && PlainTree(fs)
    && (forall k :: 0 <= k < |specs| ==> PlainSpec(specs[k]))
    && (forall j, k :: 0 <= j < k < |specs| ==> specs[j].Target() != specs[k].Target())
  }

  /** Every path is plain or in content that a finished swap put aside. */
  ghost predicate Tidy(fs: Tree, done: seq<Spec>) {
    forall q :: !fs(q).Missing? ==> TidyAt(done, q)
  }

  ghost predicate TidyAt(done: seq<Spec>, q: Path) {
    Plain(q) || exists j :: 0 <= j < |done| && done[j].Previous() <= q
  }

  lemma SiblingsReserved(base: string)
    ensures Reserved(".dbr2-staging-id-" + base) && Reserved(".dbr2-old-id-" + base) && Reserved(".dbr2-discard-id-" + base)
  {
  }

  /** The siblings of a target that is not done are free in a tidy tree. */
  lemma TidyFresh(fs: Tree, done: seq<Spec>, s: Spec)
    requires Tidy(fs, done) && Plain(s.Target())
    requires forall j :: 0 <= j < |done| ==> Plain(done[j].Target()) && done[j].Target() != s.Target()
    ensures Fresh(fs, s)
  {
    forall q | InSibling(s, q) ensures fs(q).Missing? {
      SiblingAt(s, q);
      assert !Plain(q);
      forall j | 0 <= j < |done| ensures !(done[j].Previous() <= q) {
        if done[j].Previous() <= q {
          SiblingOfOther(done[j], s, q);
        }
      }
      assert !TidyAt(done, q);
    }
  }

  /** Path q is at or below a sibling of the target of s. */
  predicate InSibling(s: Spec, q: Path) {
    s.Staging() <= q || s.Previous() <= q || s.Discard() <= q
  }

  lemma SiblingAt(s: Spec, q: Path)
    requires InSibling(s, q)
    ensures |q| > |s.dir| && q[..|s.dir|] == s.dir && Reserved(q[|s.dir|])
    ensures var name := q[|s.dir|];
            if s.Previous() <= q then name == ".dbr2-old-id-" + s.base && name[6] == 'o' && name[13..] == s.base
            else |name| > 6 && name[6] == (if s.Staging() <= q then 's' else 'd') && name[17..] == s.base
  {
    SiblingsReserved(s.base);
  }

  lemma PlainAbove(s: Spec, q: Path)
    requires Plain(s.Target()) && |q| > |s.dir| && q[..|s.dir|] == s.dir
    ensures forall i :: 0 <= i < |s.dir| ==> !Reserved(q[i])
  {
    assert forall i :: 0 <= i < |s.dir| ==> s.Target()[i] == s.dir[i] == q[..|s.dir|][i];
  }

  /** Two plain targets with siblings above one path are the same target. */
  lemma SiblingOfOther(a: Spec, b: Spec, q: Path)
    requires Plain(a.Target()) && Plain(b.Target()) && InSibling(a, q) && InSibling(b, q)
    ensures a.Target() == b.Target()
  {
    SiblingAt(a, q);
    SiblingAt(b, q);
    PlainAbove(a, q);
    PlainAbove(b, q);
    assert |a.dir| == |b.dir|;
  }

  lemma SwapTidy(fs: Tree, done: seq<Spec>, s: Spec)
    requires Closed(fs) && Tidy(fs, done) && PlainSpec(s) && Fresh(fs, s)
    ensures Tidy(Swap(fs, s), done + [s])
  {
    var t, p, more := s.Target(), s.Previous(), done + [s];
    forall q | !Swap(fs, s)(q).Missing? ensures TidyAt(more, q) {
      SwapAt(fs, s, q);
      if t <= q {
        assert Plain(q[|t|..]);
        forall i | 0 <= i < |q| ensures !Reserved(q[i]) {
          assert q[i] == if i < |t| then t[i] else q[|t|..][i - |t|];
        }
      } else if p <= q {
        assert more[|done|].Previous() <= q;
      } else if !fs(q).Missing? && !Plain(q) {
        var j :| 0 <= j < |done| && done[j].Previous() <= q;
        assert more[j].Previous() <= q;
      } else {
        assert q < t ==> forall i :: 0 <= i < |q| ==> q[i] == t[i];
      }
    }
  }

  /** The tree after the first m swaps, from which the others run. */
  lemma {:induction false} FinalSplit(fs: Tree, specs: seq<Spec>, m: nat)
    requires m <= |specs|
    ensures Final(fs, specs) == Final(Final(fs, specs[..m]), specs[m..])
    ensures |Records(fs, specs)| == |specs|
    ensures Records(fs, specs)[m..] == Records(Final(fs, specs[..m]), specs[m..])
    decreases m
  {
    RecordsAre(fs, specs);
    if m == 0 {
      assert specs[m..] == specs && Records(fs, specs)[m..] == Records(fs, specs);
    } else {
      var rest, after := specs[1..], Swap(fs, specs[0]);
      FinalSplit(after, rest, m - 1);
      assert specs[..m][1..] == rest[..m - 1] && specs[m..] == rest[m - 1..];
      assert Records(fs, specs)[m..] == Records(after, rest)[m - 1..];
    }
  }

  /** An ordinary restore finds all its siblings free. */
  lemma {:induction false} OrdinaryRuns(fs: Tree, done: seq<Spec>, specs: seq<Spec>)
    requires Closed(fs) && Tidy(fs, done) && forall k :: 0 <= k < |done + specs| ==> PlainSpec((done + specs)[k])
    requires forall j, k :: 0 <= j < k < |done + specs| ==> (done + specs)[j].Target() != (done + specs)[k].Target()
    ensures Runs(fs, specs)
    ensures Tidy(Final(fs, specs), done + specs)
    decreases specs
  {
    if specs == [] {
      assert done + specs == done;
    } else {
      var s, rest, all := specs[0], specs[1..], done + specs;
      assert all[|done|] == s && forall j :: 0 <= j < |done| ==> all[j] == done[j];
      TidyFresh(fs, done, s);
      SwapTidy(fs, done, s);
      SwapClosed(fs, s);
      assert (done + [s]) + rest == all;
      OrdinaryRuns(Swap(fs, s), done + [s], rest);
    }
  }

  /** No target of an ordinary restore lies in content put aside, or in a sibling at all. */
  lemma NoTargetInSibling(fs: Tree, specs: seq<Spec>, j: nat, q: Path)
    requires Ordinary(fs, specs) && j < |specs| && Plain(q)
    ensures !(specs[j].Previous() <= q) && !(specs[j].Staging() <= q) && !(specs[j].Discard() <= q)
  {
    var n := |specs[j].dir|;
    SiblingsReserved(specs[j].base);
    assert |q| > n ==> !Reserved(q[n]);
  }

  lemma OrdinaryKeepsAside(fs: Tree, specs: seq<Spec>)
    requires Ordinary(fs, specs)
    ensures KeepsAside(specs)
  {
    forall i, k | 0 <= i < k < |specs| ensures !(specs[i].Previous() <= specs[k].Target()) {
      NoTargetInSibling(fs, specs, i, specs[k].Target());
    }
  }

  /** The tree that a rollback leaves after it undid records m and up. */
  ghost function Mid(fs: Tree, specs: seq<Spec>, m: nat): Tree
    requires m <= |specs| == |Records(fs, specs)|
  {
    Rollback(Final(fs, specs), Records(fs, specs)[m..])
  }

  /** The tree after the first m swaps is tidy, and the other swaps run from it. */
  lemma FirstSwaps(fs: Tree, specs: seq<Spec>, m: nat)
    requires Ordinary(fs, specs) && m <= |specs|
    ensures var first := Final(fs, specs[..m]); Closed(first) && Tidy(first, specs[..m]) && Runs(first, specs[m..])
  {
    var done := specs[..m];
    assert [] + done == done && done + specs[m..] == specs;
    OrdinaryRuns(fs, [], done);
    FinalClosed(fs, done);
    OrdinaryRuns(Final(fs, done), done, specs[m..]);
  }

  lemma KeepsAsideLater(specs: seq<Spec>, m: nat)
    requires KeepsAside(specs) && m <= |specs|
    ensures KeepsAside(specs[m..])
  {
    var later := specs[m..];
    forall i, k | 0 <= i < k < |later| ensures !(later[i].Previous() <= later[k].Target()) {
      assert later[i] == specs[m + i] && later[k] == specs[m + k];
    }
  }

  lemma ParentPlain(specs: seq<Spec>, q: Path)
    requires ParentOfTarget(specs, q) && forall k :: 0 <= k < |specs| ==> PlainSpec(specs[k])
    ensures Plain(q)
  {
    var k :| 0 <= k < |specs| && q < specs[k].Target();
    assert forall i :: 0 <= i < |q| ==> q[i] == specs[k].Target()[i];
  }

  lemma MidTidy(fs: Tree, specs: seq<Spec>, m: nat)
    requires Ordinary(fs, specs) && m <= |specs| == |Records(fs, specs)|
    ensures Tidy(Mid(fs, specs, m), specs[..m])
  {
    var mid, first, later := Mid(fs, specs, m), Final(fs, specs[..m]), specs[m..];
    FirstSwaps(fs, specs, m);
    FinalSplit(fs, specs, m);
    OrdinaryKeepsAside(fs, specs);
    KeepsAsideLater(specs, m);
    assert forall k :: 0 <= k < |later| ==> later[k] == specs[m + k];
    forall q | !mid(q).Missing? ensures TidyAt(specs[..m], q) {
      RollbackLeaves(first, later, q);
      if first(q).Missing? {
        LeftIsParent(first, later, q);
        ParentPlain(later, q);
      }
    }
  }

  lemma MidClean(mid: Tree, specs: seq<Spec>, m: nat, rs: seq<Record>, fs: Tree)
    requires Ordinary(fs, specs) && m <= |specs| && rs == Records(fs, specs) && |rs| == |specs| && Tidy(mid, specs[..m])
    ensures Clean(mid, rs[m..])
  {
    RecordsAre(fs, specs);
    forall k | 0 <= k < |rs[m..]| ensures Fresh(mid, rs[m..][k].spec) {
      assert PlainSpec(specs[m + k]);
      forall j | 0 <= j < |specs[..m]| ensures Plain(specs[..m][j].Target()) && specs[..m][j].Target() != specs[m + k].Target() {
        assert PlainSpec(specs[j]);
      }
      TidyFresh(mid, specs[..m], specs[m + k]);
    }
  }

  // ---- A crash inside an undo -------------------------------------------------

  /** An undo of r that was cut short: the target is in place or gone, what there is of
      Staging and Discard is of no matter, and nothing else was touched. */
  ghost predicate CutShort(f: Tree, g: Tree, r: Record) {
    && (forall q :: !Clears(r, q) ==> g(q) == f(q))
    && ((forall q :: r.spec.Target() <= q ==> g(q) == f(q)) || (forall q :: r.spec.Target() <= q ==> g(q).Missing?))
  }

  /** os.RemoveAll that leaves some of the paths. */
  method RemoveSome(fs: Tree, p: Path) returns (out: Tree)
    ensures forall q :: !(p <= q) ==> out(q) == fs(q)
  {
    var left: Path -> bool := *;
    out := (q: Path) => if p <= q && !left(q) then Missing else fs(q);
  }

  /** discard, which may stop between its calls and inside the delete. */
  method DiscardSteps(fs: Tree, r: Record) returns (out: Tree, done: bool)
    requires Closed(fs) && forall q :: r.spec.Discard() <= q ==> fs(q).Missing?
    ensures if done then Same(out, Remove(fs, r.spec.Target())) else CutShort(fs, out, r)
  {
    var t, d := r.spec.Target(), r.spec.Discard();
    SiblingsApart(r.spec);
    out, done := fs, false;
    if fs(t).Missing? {
      done := true;
      return;
    }
    var stop: bool := *;
    if stop { return; }
    var aside := Move(fs, t, d);
    out := RemoveSome(aside, d);
    stop := *;
    if stop { return; }
    done := true;
    out := Remove(aside, d);
  }

  /** undoSwap, which may stop between any two calls and inside a delete. */
  method UndoSteps(fs: Tree, r: Record) returns (out: Tree, done: bool)
    requires Closed(fs) && forall q :: r.spec.Discard() <= q ==> fs(q).Missing?
    ensures if done then Same(out, Undo(fs, r)) else CutShort(fs, out, r)
  {
    var s := r.spec;
    SiblingsApart(s);
    done := false;
    var stop: bool := *;
    if stop {
      out := RemoveSome(fs, s.Staging());
      StagingOnly(fs, out, r);
      return;
    }
    var cleared := Remove(fs, s.Staging());
    StagingOnly(fs, cleared, r);
    if r.hadPrevious && cleared(s.Previous()).Missing? {
      return cleared, true;
    }
    out, done := DiscardSteps(cleared, r);
    stop := *;
    if !done || stop {
      done := false;
      StillCutShort(fs, cleared, out, r);
      return;
    }
    UndoDone(fs, out, r);
    if r.hadPrevious {
      out := Move(out, s.Previous(), s.Target());
    }
  }

  lemma StagingOnly(fs: Tree, out: Tree, r: Record)
    requires forall q :: !(r.spec.Staging() <= q) ==> out(q) == fs(q)
    ensures CutShort(fs, out, r)
  {
    forall q | r.spec.Target() <= q ensures out(q) == fs(q) {
      NotBelowBoth(r.spec, q);
    }
  }

  lemma StillCutShort(fs: Tree, cleared: Tree, out: Tree, r: Record)
    requires forall q :: !(r.spec.Staging() <= q) ==> cleared(q) == fs(q)
    requires CutShort(cleared, out, r) || Same(out, Remove(cleared, r.spec.Target()))
    ensures CutShort(fs, out, r)
  {
    if forall q :: r.spec.Target() <= q ==> out(q) == cleared(q) {
      forall q | r.spec.Target() <= q ensures out(q) == fs(q) {
        NotBelowBoth(r.spec, q);
      }
    }
  }

  lemma UndoDone(fs: Tree, kept: Tree, r: Record)
    requires forall q :: r.spec.Discard() <= q ==> fs(q).Missing?
    requires var cleared := Remove(fs, r.spec.Staging());
             && Same(kept, Remove(cleared, r.spec.Target()))
             && (r.hadPrevious ==> !cleared(r.spec.Previous()).Missing?)
    ensures Same(if r.hadPrevious then Move(kept, r.spec.Previous(), r.spec.Target()) else kept, Undo(fs, r))
  {
    var s, cleared := r.spec, Remove(fs, r.spec.Staging());
    var gone := Remove(cleared, s.Target());
    SiblingsApart(s);
    forall q ensures (if r.hadPrevious then Move(kept, s.Previous(), s.Target())(q) else kept(q)) == Undo(fs, r)(q) {
      NotBelowBoth(s, q);
      assert kept(q) == gone(q);
      if s.Target() <= q {
        assert kept(Rebase(q, s.Target(), s.Previous())) == gone(Rebase(q, s.Target(), s.Previous()));
      }
    }
  }

  /** An undo forgets what it clears, unless the content it would put back is missing. */
  lemma UndoForgets(f: Tree, g: Tree, r: Record)
    requires forall q :: !Clears(r, q) ==> f(q) == g(q)
    requires r.hadPrevious && f(r.spec.Previous()).Missing? ==> forall q :: r.spec.Target() <= q ==> f(q) == g(q)
    ensures Same(Undo(f, r), Undo(g, r))
  {
    var s := r.spec;
    SiblingsApart(s);
    assert !Clears(r, s.Previous());
    forall q ensures Undo(f, r)(q) == Undo(g, r)(q) {
      NotBelowBoth(s, q);
      if s.Target() <= q {
        NotBelowBoth(s, Rebase(q, s.Target(), s.Previous()));
      }
    }
  }

  /** What an undo cut short leaves in siblings is in no sibling of a newer record. */
  lemma CutShortClean(f: Tree, g: Tree, r: Record, newer: seq<Record>)
    requires CutShort(f, g, r) && Clean(f, newer) && Plain(r.spec.Target())
    requires forall k :: 0 <= k < |newer| ==> Plain(newer[k].spec.Target()) && newer[k].spec.Target() != r.spec.Target()
    ensures Clean(g, newer)
  {
    forall k | 0 <= k < |newer| ensures Fresh(g, newer[k].spec) {
      var s := newer[k].spec;
      forall q | InSibling(s, q) ensures g(q).Missing? {
        assert f(q).Missing?;
        if InSibling(r.spec, q) {
          SiblingOfOther(r.spec, s, q);
        }
      }
    }
  }

  /** A plain path above a sibling is above the target too. */
  lemma PlainIsAbove(s: Spec, t: Path)
    requires Plain(t) && t <= s.Previous()
    ensures t <= s.dir
  {
    SiblingAt(s, s.Previous());
    assert forall i :: 0 <= i < |t| ==> t[i] == s.Previous()[i];
  }

  ghost predicate Lacks(f: Tree, g: Tree, ts: set<Path>) {
    forall q :: g(q) == if Under(ts, q) then Missing else f(q)
  }

  /** A repeated undo of newer records on two trees of which one had an undo cut short. */
  lemma LacksForget(f: Tree, g: Tree, f': Tree, g': Tree, r: Record, ts: set<Path>)
    requires CutShort(f, g, r) && Lacks(f, f', ts) && Lacks(g, g', ts) && Plain(r.spec.Target())
    requires r.hadPrevious ==> !f(r.spec.Previous()).Missing?
    requires forall t :: t in ts ==> Plain(t)
    ensures Same(Undo(f', r), Undo(g', r))
  {
    var s := r.spec;
    if r.hadPrevious && f'(s.Previous()).Missing? {
      var t :| t in ts && t <= s.Previous();
      PlainIsAbove(s, t);
      forall q | s.Target() <= q ensures f'(q) == g'(q) {
        assert t <= q;
      }
    }
    UndoForgets(f', g', r);
  }

  /** Going on from an undo cut short is as good as going on from before it. */
  lemma CutShortRepeats(f: Tree, g: Tree, r: Record, newer: seq<Record>)
    requires CutShort(f, g, r) && Clean(f, newer) && Plain(r.spec.Target())
    requires r.hadPrevious ==> !f(r.spec.Previous()).Missing?
    requires forall k :: 0 <= k < |newer| ==> Plain(newer[k].spec.Target()) && newer[k].spec.Target() != r.spec.Target()
    ensures Same(Rollback(f, [r] + newer), Rollback(g, [r] + newer))
  {
    var ts := NewTargets(newer);
    CutShortClean(f, g, r, newer);
    forall q ensures Rollback(f, newer)(q) == if Under(ts, q) then Missing else f(q) {
      RollbackAgain(f, newer, q);
    }
    forall q ensures Rollback(g, newer)(q) == if Under(ts, q) then Missing else g(q) {
      RollbackAgain(g, newer, q);
    }
    forall t | t in ts ensures Plain(t) {
      var k := NewTargetsAre(newer, t);
    }
    LacksForget(f, g, Rollback(f, newer), Rollback(g, newer), r, ts);
    assert ([r] + newer)[1..] == newer;
  }

  // ---- The repeated rollback ----------------------------------------------------

  /** What record m - 1 put aside is there when its turn comes. */
  lemma KeptInMid(fs: Tree, specs: seq<Spec>, m: nat)
    requires Ordinary(fs, specs) && 0 < m <= |specs| == |Records(fs, specs)|
    ensures var r := Records(fs, specs)[m - 1];
            r.spec == specs[m - 1] && (r.hadPrevious ==> !Mid(fs, specs, m)(r.spec.Previous()).Missing?)
  {
    var s, before, first := specs[m - 1], Final(fs, specs[..m - 1]), Final(fs, specs[..m]);
    FirstSwaps(fs, specs, m);
    FirstSwaps(fs, specs, m - 1);
    FinalSplit(fs, specs, m);
    FinalSplit(fs, specs, m - 1);
    FinalSplit(fs, specs[..m], m - 1);
    assert specs[..m][..m - 1] == specs[..m - 1] && specs[..m][m - 1..] == [s] && specs[m - 1..][0] == s;
    assert first == Final(before, [s]) && [s][1..] == [] && Final(before, [s]) == Swap(before, s);
    assert Records(fs, specs)[m - 1] == Records(fs, specs)[m - 1..][0] == RecordOf(before, s);
    RollbackInverts(first, specs[m..]);
    KeptAtUndo(before, s, Mid(fs, specs, m));
  }

  lemma {:induction false} RollbackSame(f: Tree, g: Tree, rs: seq<Record>)
    requires Same(f, g)
    ensures Same(Rollback(f, rs), Rollback(g, rs))
  {
    if rs == [] {
    } else {
      RollbackSame(f, g, rs[1..]);
      UndoForgets(Rollback(f, rs[1..]), Rollback(g, rs[1..]), rs[0]);
    }
  }

  /** A rollback that crashed inside the undo of record m - 1, and is repeated in full, gives
      what one that crashed right before that undo gives. */
  lemma CrashInsideUndo(fs: Tree, specs: seq<Spec>, m: nat, g: Tree)
    requires Ordinary(fs, specs) && 0 < m <= |specs| == |Records(fs, specs)|
    requires CutShort(Mid(fs, specs, m), g, Records(fs, specs)[m - 1])
    ensures Same(Rollback(Mid(fs, specs, m), Records(fs, specs)), Rollback(g, Records(fs, specs)))
  {
    var rs, mid := Records(fs, specs), Mid(fs, specs, m);
    RecordsAre(fs, specs);
    MidTidy(fs, specs, m);
    MidClean(mid, specs, m, rs, fs);
    KeptInMid(fs, specs, m);
    forall k | 0 <= k < |rs[m..]|
      ensures Plain(rs[m..][k].spec.Target()) && rs[m..][k].spec.Target() != rs[m - 1].spec.Target()
    {
      assert PlainSpec(specs[m + k]) && rs[m..][k] == rs[m + k];
    }
    assert PlainSpec(specs[m - 1]);
    CutShortRepeats(mid, g, rs[m - 1], rs[m..]);
    assert [rs[m - 1]] + rs[m..] == rs[m - 1..];
    RollbackSplit(mid, rs, m - 1);
    RollbackSplit(g, rs, m - 1);
    RollbackSame(Rollback(mid, rs[m - 1..]), Rollback(g, rs[m - 1..]), rs[..m - 1]);
  }

  /** Tree g is where a rollback may stop after it undid records m and up. */
  ghost predicate StopsAt(fs: Tree, specs: seq<Spec>, m: nat, g: Tree)
    requires m <= |specs| == |Records(fs, specs)|
  {
    Same(g, Mid(fs, specs, m)) || (0 < m && CutShort(Mid(fs, specs, m), g, Records(fs, specs)[m - 1]))
  }

  lemma DiscardFree(fs: Tree, specs: seq<Spec>, m: nat)
    requires Ordinary(fs, specs) && 0 < m <= |specs| == |Records(fs, specs)|
    ensures Closed(Mid(fs, specs, m))
    ensures forall q :: Records(fs, specs)[m - 1].spec.Discard() <= q ==> Mid(fs, specs, m)(q).Missing?
  {
    var mid, s := Mid(fs, specs, m), specs[m - 1];
    RecordsAre(fs, specs);
    FirstSwaps(fs, specs, 0);
    assert specs[0..] == specs && Final(fs, specs[..0]) == fs;
    FinalClosed(fs, specs);
    RollbackClosed(Final(fs, specs), Records(fs, specs)[m..]);
    MidTidy(fs, specs, m);
    forall q | s.Discard() <= q ensures mid(q).Missing? {
      SiblingAt(s, q);
      assert PlainSpec(s) && !Plain(q);
      forall j | 0 <= j < m ensures !(specs[..m][j].Previous() <= q) {
        if specs[j].Previous() <= q {
          assert PlainSpec(specs[j]);
          SiblingOfOther(specs[j], s, q);
          NotBelowBoth(s, q);
        }
      }
      assert !TidyAt(specs[..m], q);
    }
  }

  lemma CutShortSame(f: Tree, f': Tree, g: Tree, r: Record)
    requires Same(f, f') && CutShort(f', g, r)
    ensures CutShort(f, g, r)
  {
  }

  /** The loop of rollbackRestore on the tree, which may stop anywhere. */
  method RollbackSteps(fs: Tree, specs: seq<Spec>) returns (g: Tree, ghost m: nat, done: bool)
    requires Ordinary(fs, specs)
    ensures m <= |specs| == |Records(fs, specs)| && StopsAt(fs, specs, m, g)
    ensures done ==> Same(g, Rollback(Final(fs, specs), Records(fs, specs)))
  {
    var rs := Records(fs, specs);
    RecordsAre(fs, specs);
    g, m, done := Final(fs, specs), |specs|, false;
    var i := |specs|;
    assert rs[i..] == [];
    while i > 0
      invariant 0 <= i <= |specs| && m == i && Same(g, Mid(fs, specs, i))
    {
      DiscardFree(fs, specs, i);
      var f := g;
      assert Closed(f);
      var finished;
      g, finished := UndoSteps(f, rs[i - 1]);
      if !finished {
        CutShortSame(Mid(fs, specs, i), f, g, rs[i - 1]);
        return;
      }
      UndoForgets(Mid(fs, specs, i), f, rs[i - 1]);
      assert rs[i - 1..][1..] == rs[i..];
      i := i - 1;
      m := i;
    }
    assert rs[0..] == rs;
    done := true;
  }

  /** A rollback of an ordinary restore that stopped anywhere, inside an undo or between two,
      may be repeated in full if and only if every target without previous content that
      exists in the tree before that undo is cleared by the undo of an older record. */
  lemma CrashSafeIff(fs: Tree, specs: seq<Spec>, m: nat, g: Tree)
    requires Ordinary(fs, specs) && m <= |specs| == |Records(fs, specs)| && StopsAt(fs, specs, m, g)
    ensures var rs := Records(fs, specs);
            Same(Rollback(g, rs), Rollback(Final(fs, specs), rs)) <==>
            forall t :: t in NewTargets(rs[m..]) && !Mid(fs, specs, m)(t).Missing? ==> ClearedBy(rs[..m], t)
  {
    var rs, mid := Records(fs, specs), Mid(fs, specs, m);
    FirstSwaps(fs, specs, 0);
    assert specs[0..] == specs && Final(fs, specs[..0]) == fs;
    MidTidy(fs, specs, m);
    MidClean(mid, specs, m, rs, fs);
    OrdinaryKeepsAside(fs, specs);
    ReplaySafeIff(fs, specs, m);
    if Same(g, mid) {
      RollbackSame(g, mid, rs);
    } else {
      CrashInsideUndo(fs, specs, m, g);
    }
  }

  /** The rollback of an ordinary restore leaves the tree as it was, but for parents of
      targets that the restore made. */
  lemma OrdinaryRollback(fs: Tree, specs: seq<Spec>)
    requires Ordinary(fs, specs)
    ensures Runs(fs, specs)
    ensures var back := Rollback(Final(fs, specs), Records(fs, specs));
            forall q :: back(q) == fs(q) || (fs(q).Missing? && back(q).Dir? && ParentOfTarget(specs, q))
  {
    FirstSwaps(fs, specs, 0);
    assert specs[0..] == specs && Final(fs, specs[..0]) == fs;
    OrdinaryKeepsAside(fs, specs);
    RollbackInverts(fs, specs);
  }
}
