/** The agent's restore commands over a filesystem and a container engine that may
    fail or lose power at any call (internal/agent/restore.go, recreate.go,
    finalize.go). Each outside call ends in Ok, Err or Crash; `Crash` covers both
    sides of the effect, so the exits of these methods are all the crash points. */
module RestoreAgent {
  import opened RestoreModel
  import opened Common

  /** One path to restore; a volume component may have to create its volume first. */
  datatype Spec = Spec(volume: Option<string>, target: string, content: nat)

  datatype NetworkSpec = NetworkSpec(name: string, external: bool)

  datatype Found = Found(name: string) | NotFound | Unknown | Died

  datatype FinalizeAction = Commit | Rollback

  datatype Command =
    | RestoreCommand(specs: seq<Spec>)
    | RecreateCommand(nets: seq<NetworkSpec>, names: seq<string>)
    | FinalizeCommand(action: FinalizeAction, restart: seq<Ref>)
    | StartUp(expired: bool)
  {
    predicate IsCommit() {
      FinalizeCommand? && action.Commit?
    }
  }

  ghost predicate NoCommit(script: seq<Command>) {
    forall k :: 0 <= k < |script| ==> !script[k].IsCommit()
  }

  function Wanted(action: FinalizeAction): RestoreState {
    match action
    case Commit => Committed
    case Rollback => RolledBack
  }

  datatype FinalizeResult = Finalized | AlreadyFinalized | Refused | Failed | Dead

  /** The first n paths hold their snapshot content. */
  ghost predicate RestoredUpTo(specs: seq<Spec>, n: nat, fs: FileSystem)
    requires n <= |specs|
  {
    forall k :: 0 <= k < n ==> At(fs, Target(specs[k].target)) == Some(Whole(specs[k].content))
  }

  lemma RestoredNext(specs: seq<Spec>, n: nat, before: FileSystem, fs: FileSystem)
    requires n < |specs| && RestoredUpTo(specs, n, before) && OnlyTarget(before, fs, specs[n].target)
    requires forall k :: 0 <= k < n ==> specs[k].target != specs[n].target
    requires At(fs, Target(specs[n].target)) == Some(Whole(specs[n].content))
    ensures RestoredUpTo(specs, n + 1, fs)
  {
    forall k | 0 <= k < n ensures At(fs, Target(specs[k].target)) == Some(Whole(specs[k].content)) {
      assert At(fs, Target(specs[k].target)) == At(before, Target(specs[k].target));
    }
  }

  /** Docker's own networks are never created. */
  predicate SkipsNetwork(name: string) {
    name == "" || name == "bridge" || name == "host" || name == "none" || name == "default"
  }

  ghost predicate IsSwapped(swaps: seq<SwapRecord>, t: string) {
    exists k :: 0 <= k < |swaps| && swaps[k].target == t && swaps[k].state == Swapped
  }

  lemma SwappedStays(before: seq<SwapRecord>, after: seq<SwapRecord>, t: string)
    requires |before| <= |after| && after[..|before|] == before && IsSwapped(before, t)
    ensures IsSwapped(after, t)
  {
    var k :| 0 <= k < |before| && before[k].target == t && before[k].state == Swapped;
    assert after[..|before|][k] == after[k];
  }

  /** No container `ref` denotes may write to the restored data. */
  ghost predicate HaltedIn(e: Engine, ref: Ref) {
    forall n :: Denotes(e, ref, n) ==> e.containers[n].run == Stopped
  }

  ghost predicate AllHalted(e: Engine, stop: seq<Ref>) {
    forall k :: 0 <= k < |stop| ==> HaltedIn(e, stop[k])
  }

  /** Nothing but run states differs. */
  ghost predicate SameContainers(before: Engine, after: Engine) {
    && after.containers.Keys == before.containers.Keys
    && forall n :: n in after.containers ==> after.containers[n].id == before.containers[n].id
  }

  /** What a rollback has to stop: the containers the restore created and those to restart. */
  function StopList(cs: seq<CreatedContainer>, restart: seq<Ref>): seq<Ref> {
    seq(|cs|, k requires 0 <= k < |cs| => RefOf(cs[k])) + restart
  }

  /** No record is live any more. */
  ghost predicate Done(swaps: seq<SwapRecord>) {
    forall k :: 0 <= k < |swaps| ==> !swaps[k].Live()
  }

  // ---- Histories --------------------------------------------------------------

  /** The host between two commands; `others` are the objects that are not the restore's. */
  datatype Moment = Moment(fs: FileSystem, due: FileSystem, lost: set<string>, journal: Journal, others: Others)

  /** Command c, complete or cut short, leads from moment a to moment b. */
  ghost predicate Leads(a: Moment, c: Command, b: Moment) {
    && Safe(b.journal.swaps, b.fs, b.due, {})
    && (if c.IsCommit() then forall t :: BookedFrom(a, b, t) else b.due == a.due && b.lost == a.lost)
    && (a.journal.state != Committed ==> b.others == a.others && (b.journal.state == Committed ==> c.IsCommit()))
  }

  ghost predicate BookedFrom(a: Moment, b: Moment, t: string) {
    CommitBooked(a.fs, b.fs, a.due, b.due, a.lost, b.lost, a.journal.swaps, b.journal.swaps, t)
  }

  ghost predicate History(hs: seq<Moment>, script: seq<Command>) {
    |hs| == |script| + 1 && forall k :: 0 <= k < |script| ==> Leads(hs[k], script[k], hs[k + 1])
  }

  /** Command k is a commit attempt that gave target t up: it touched the kept content, or
      there was none and the commit is in the file. */
  ghost predicate GivesUp(hs: seq<Moment>, script: seq<Command>, k: nat, t: string)
    requires k < |script| && |hs| == |script| + 1
  {
    script[k].IsCommit() && Touched(hs[k].fs, hs[k + 1].fs, hs[k].journal.swaps, hs[k + 1].journal.swaps, t)
  }

  ghost predicate GivenUp(hs: seq<Moment>, script: seq<Command>, n: nat, t: string)
    requires n <= |script| && |hs| == |script| + 1
  {
    exists k :: 0 <= k < n && GivesUp(hs, script, k, t)
  }

  /** What the last commit attempt that gave t up left of it, or its content at first. */
  ghost function LeftOf(hs: seq<Moment>, script: seq<Command>, n: nat, t: string): Option<Tree>
    requires n <= |script| && |hs| == |script| + 1
  {
    if n == 0 then At(hs[0].fs, Target(t))
    else if GivesUp(hs, script, n - 1, t) then Kept(hs[n].fs, t)
    else LeftOf(hs, script, n - 1, t)
  }

  /** No commit attempt that gave t up found content in place like the one at first. */
  ghost predicate Differs(hs: seq<Moment>, script: seq<Command>, n: nat, t: string)
    requires n <= |script| && |hs| == |script| + 1
  {
    && At(hs[0].fs, Target(t)) != Some(Partial)
    && forall k :: 0 <= k < n && GivesUp(hs, script, k, t) ==> At(hs[k].fs, Target(t)) != At(hs[0].fs, Target(t))
  }

  /** What is due at the end of a history, and which targets are lost, from what the commit
      attempts in it did to the paths and to the file. */
  lemma {:induction false} DueIsLeft(hs: seq<Moment>, script: seq<Command>, n: nat, t: string)
    requires History(hs, script) && n <= |script| && At(hs[0].due, Target(t)) == At(hs[0].fs, Target(t)) && hs[0].lost == {}
    ensures At(hs[n].due, Target(t)) == LeftOf(hs, script, n, t)
    ensures t in hs[n].lost <==> GivenUp(hs, script, n, t)
  {
    if n == 0 {
    } else {
      DueIsLeft(hs, script, n - 1, t);
      assert Leads(hs[n - 1], script[n - 1], hs[n]);
      if script[n - 1].IsCommit() {
        assert BookedFrom(hs[n - 1], hs[n], t);
      }
      assert GivenUp(hs, script, n, t) <==> GivenUp(hs, script, n - 1, t) || GivesUp(hs, script, n - 1, t);
    }
  }

  /** Exactly the targets that no commit attempt gave up have their first content left. */
  lemma {:induction false} LeftIff(hs: seq<Moment>, script: seq<Command>, n: nat, t: string)
    requires History(hs, script) && n <= |script|
    ensures !GivenUp(hs, script, n, t) ==> LeftOf(hs, script, n, t) == At(hs[0].fs, Target(t))
    ensures Differs(hs, script, n, t) && GivenUp(hs, script, n, t) ==> LeftOf(hs, script, n, t) != At(hs[0].fs, Target(t))
  {
    if n == 0 {
    } else {
      LeftIff(hs, script, n - 1, t);
      assert Leads(hs[n - 1], script[n - 1], hs[n]);
      if GivesUp(hs, script, n - 1, t) {
        assert BookedFrom(hs[n - 1], hs[n], t);
      }
      assert GivenUp(hs, script, n, t) <==> GivenUp(hs, script, n - 1, t) || GivesUp(hs, script, n - 1, t);
    }
  }

  ghost predicate Reckoned(hs: seq<Moment>, script: seq<Command>, t: string)
    requires |hs| == |script| + 1
  {
    var n, first := |script|, At(hs[0].fs, Target(t));
    && At(hs[n].due, Target(t)) == LeftOf(hs, script, n, t)
    && (t in hs[n].lost <==> GivenUp(hs, script, n, t))
    && (!GivenUp(hs, script, n, t) ==> LeftOf(hs, script, n, t) == first)
    && (Differs(hs, script, n, t) && GivenUp(hs, script, n, t) ==> LeftOf(hs, script, n, t) != first)
  }

  /** Nothing of the restore of t is left in fs but what commit attempts left of t, and so,
      unless the restored content is the same, t is as at first exactly if none gave it up. */
  ghost predicate GivenBack(hs: seq<Moment>, script: seq<Command>, fs: FileSystem, t: string)
    requires |hs| == |script| + 1
  {
    var n, first := |script|, At(hs[0].fs, Target(t));
    && Previous(t) !in fs && (Staging(t) in fs ==> Staging(t) in hs[0].fs)
    && At(fs, Target(t)) == LeftOf(hs, script, n, t)
    && (!GivenUp(hs, script, n, t) ==> At(fs, Target(t)) == first)
    && (Differs(hs, script, n, t) ==> (At(fs, Target(t)) == first <==> !GivenUp(hs, script, n, t)))
  }

  /** Until a commit is in the file, the objects of others stay. */
  lemma {:induction false} OthersStay(hs: seq<Moment>, script: seq<Command>, n: nat)
    requires History(hs, script) && n <= |script| && forall k :: 0 <= k < n ==> hs[k].journal.state != Committed
    ensures hs[n].others == hs[0].others
  {
    if n == 0 {
    } else {
      OthersStay(hs, script, n - 1);
      assert Leads(hs[n - 1], script[n - 1], hs[n]);
    }
  }

  lemma {:induction false} NeverCommitted(hs: seq<Moment>, script: seq<Command>, n: nat)
    requires History(hs, script) && n <= |script| && NoCommit(script) && hs[0].journal.state != Committed
    ensures hs[n].journal.state != Committed
  {
    if n == 0 {
    } else {
      NeverCommitted(hs, script, n - 1);
      assert Leads(hs[n - 1], script[n - 1], hs[n]);
    }
  }

  lemma HistoryMore(hs: seq<Moment>, script: seq<Command>, c: Command, m: Moment)
    requires History(hs, script) && Leads(hs[|script|], c, m)
    ensures History(hs + [m], script + [c])
  {
  }

  class Host {
    var fs: FileSystem
    var engine: Engine
    var disk: Option<Journal>
    var mem: Journal

    /** Content of every path when the restore began. */
    ghost const orig: FileSystem
    /** What a rollback gives back: `orig`, but for the targets a commit attempt gave up. */
    ghost var due: FileSystem
    ghost var lost: set<string>
    ghost var made: Made

    constructor (fs0: FileSystem, engine0: Engine)
      requires engine0.UniqueIds()
      requires forall t :: Previous(t) !in fs0
      ensures fs == fs0 && orig == fs0 && engine == engine0 && disk == None
      ensures due == fs0 && lost == {} && made == NOTHING_MADE && DiskOk() && LedgerOk()
    {
      fs, engine, disk, mem := fs0, engine0, None, EMPTY_JOURNAL;
      orig, due, lost, made := fs0, fs0, {}, NOTHING_MADE;
    }

    /** Holds at every crash point: the journal file alone suffices to undo. */
    ghost predicate DiskOk()
      reads this
    {
      DiskFsOk() && DiskObjectsOk()
    }

    /** Only targets a commit attempt gave up have something else due than at first. */
    ghost predicate LedgerOk()
      reads this`due, this`lost
    {
      forall t :: Booked(orig, due, lost, t)
    }

    ghost predicate DiskFsOk()
      reads this`fs, this`disk, this`due
    {
      && Safe(Loaded(disk).swaps, fs, due, {})
      && (Loaded(disk).state != Active ==> Done(Loaded(disk).swaps))
    }

    ghost predicate DiskObjectsOk()
      reads this`engine, this`disk, this`made
    {
      && engine.UniqueIds()
      && (Loaded(disk).state != Committed ==> WriteAhead(Loaded(disk).created, engine, made))
      && (Loaded(disk).state == RolledBack ==> made == NOTHING_MADE)
    }

    /** Holds inside a command. */
    ghost predicate MemOk()
      reads this
    {
      MemFsOk() && MemObjectsOk()
    }

    ghost predicate MemFsOk()
      reads this`fs, this`disk, this`mem, this`due
    {
      && Safe(mem.swaps, fs, due, {})
      && Lags(mem.swaps, Loaded(disk).swaps)
    }

    ghost predicate MemObjectsOk()
      reads this`engine, this`disk, this`mem, this`made
    {
      && mem.state == Active == Loaded(disk).state
      && WriteAhead(mem.created, engine, made)
    }

    // ---- Outside calls --------------------------------------------------------

    method RemoveAll(p: Path) returns (o: Outcome)
      modifies this`fs
      ensures o.Ok? ==> fs == old(fs) - {p}
      ensures RemoveEffect(old(fs), fs, p)
    {
      o := *;
      if p in fs && !o.Ok? {
        var half: bool := *;
        if half { fs := fs[p := Partial]; }
        var gone: bool := *;
        if gone { fs := fs - {p}; }
      } else if o.Ok? {
        fs := fs - {p};
      }
    }

    method Rename(a: Path, b: Path) returns (o: Outcome)
      requires a != b
      modifies this`fs
      ensures o.Ok? ==> a in old(fs) && fs == (old(fs) - {a})[b := old(fs)[a]]
      ensures o.Err? ==> fs == old(fs)
      ensures fs == old(fs) || (a in old(fs) && fs == (old(fs) - {a})[b := old(fs)[a]])
    {
      o := *;
      if a !in fs {
        if o.Ok? { o := Err; }
      } else {
        var moved: bool := *;
        if o.Ok? || (o.Crash? && moved) {
          fs := (fs - {a})[b := fs[a]];
        }
      }
    }

    /** Atomic: the file holds the old or the new journal. */
    method Save() returns (o: Outcome)
      modifies this`disk
      ensures o.Ok? ==> disk == Some(mem)
      ensures o.Err? ==> disk == old(disk)
      ensures disk == old(disk) || disk == Some(mem)
    {
      o := *;
      var reached: bool := *;
      if o.Ok? || (o.Crash? && reached) {
        disk := Some(mem);
      }
    }

    /** Saving a sound journal keeps the file sound. */
    method SaveSound() returns (o: Outcome)
      requires DiskOk() && MemOk()
      modifies this`disk
      ensures DiskOk() && MemOk()
      ensures o.Ok? ==> disk == Some(mem)
      ensures o.Err? ==> disk == old(disk)
      ensures disk == old(disk) || disk == Some(mem)
    {
      o := Save();
    }

    // ---- Undo -----------------------------------------------------------------

    /** Moves a target aside and deletes it. */
    method DiscardTarget(t: string) returns (o: Outcome)
      modifies this`fs
      ensures OnlyTarget(old(fs), fs, t)
      ensures At(fs, Previous(t)) == At(old(fs), Previous(t))
      ensures At(fs, Staging(t)) == At(old(fs), Staging(t))
      ensures o.Ok? ==> Target(t) !in fs
      ensures Target(t) !in old(fs) ==> Target(t) !in fs
    {
      if Target(t) !in fs { return Ok; }
      o := RemoveAll(Discard(t));
      if !o.Ok? { return; }
      o := Rename(Target(t), Discard(t));
      if !o.Ok? { return; }
      o := RemoveAll(Discard(t));
    }

    /** Replaces a target by the content kept as Previous, if it was moved aside at all. */
    method PutBack(t: string) returns (o: Outcome)
      modifies this`fs
      ensures OnlyTarget(old(fs), fs, t)
      ensures At(fs, Staging(t)) == At(old(fs), Staging(t))
      ensures Previous(t) in old(fs) && o.Ok? ==> At(fs, Target(t)) == At(old(fs), Previous(t)) && Previous(t) !in fs
      ensures Previous(t) in fs ==> At(fs, Previous(t)) == At(old(fs), Previous(t))
      ensures Previous(t) !in fs && Previous(t) in old(fs) ==> At(fs, Target(t)) == At(old(fs), Previous(t))
      ensures Previous(t) !in old(fs) ==> o.Ok? && fs == old(fs)
    {
      if Previous(t) !in fs { return Ok; }
      o := DiscardTarget(t);
      if !o.Ok? { return; }
      o := Rename(Previous(t), Target(t));
    }

    /** The moves of undoSwap for one live record. */
    method UndoMoves(r: SwapRecord, ghost base: Option<Tree>) returns (o: Outcome)
      requires r.Live()
      modifies this`fs
      ensures OnlyTarget(old(fs), fs, r.target)
      ensures o.Ok? ==> forall p: Path :: !p.Discard? ==> At(fs, p) == At(UndoFs(old(fs), r), p)
      ensures SlotOk(Some(r), r.target, old(fs), base) ==> SlotOk(Some(r), r.target, fs, base)
      ensures SlotOk(Some(r), r.target, old(fs), base) && Untouched(r.target, old(fs), base) ==>
                Untouched(r.target, fs, base)
      ensures Staging(r.target) !in old(fs) ==> Staging(r.target) !in fs
      ensures Previous(r.target) !in old(fs) ==> Previous(r.target) !in fs
    {
      var t := r.target;
      o := RemoveAll(Staging(t));
      if !o.Ok? { return; }
      if r.state == InStaging {
      } else if r.hadPrevious {
        o := PutBack(t);
        if !o.Ok? { return; }
      } else {
        o := DiscardTarget(t);
        if !o.Ok? { return; }
      }
      var cleaned := RemoveAll(Discard(t));
      o := if cleaned.Crash? then Crash else Ok;
    }

    /** undoSwap on record i of the journal in memory. */
    method UndoSwap(i: nat) returns (o: Outcome)
      requires i < |mem.swaps| && DiskOk() && MemOk()
      modifies this`fs, this`mem
      ensures DiskOk() && MemOk()
      ensures mem == old(mem) ||
              mem == old(mem).(swaps := old(mem.swaps)[i := old(mem.swaps[i]).(state := SwapRolledBack)])
      ensures o.Ok? ==> !mem.swaps[i].Live()
    {
      var r := mem.swaps[i];
      if !r.Live() { return Ok; }
      LiveIsLatest(mem.swaps, i);
      ghost var before := fs;
      ghost var base := At(due, Target(r.target));
      o := UndoMoves(r, base);
      SafeElsewhere(mem.swaps, before, fs, due, due, {}, r.target);
      UndoKeepsDiskSlot(before, fs, r, base);
      SafeElsewhere(Loaded(disk).swaps, before, fs, due, due, {}, r.target);
      if o.Ok? {
        UndoGivesBack(before, r, base);
        UndoneSlot(UndoFs(before, r), fs, r.target, base);
        RollBackRecord(i);
      }
    }

    /** The journal file's record of the target, however far behind, still holds. */
    lemma UndoKeepsDiskSlot(before: FileSystem, after: FileSystem, r: SwapRecord, base: Option<Tree>)
      requires var t := r.target;
        && Latest(mem.swaps, t) == Some(r) && r.Live()
        && Lags(mem.swaps, Loaded(disk).swaps)
        && SlotOk(Latest(Loaded(disk).swaps, t), t, before, base)
        && SlotOk(Some(r), t, before, base) && SlotOk(Some(r), t, after, base)
        && (Untouched(t, before, base) ==> Untouched(t, after, base))
        && (Staging(t) !in before ==> Staging(t) !in after)
        && (Previous(t) !in before ==> Previous(t) !in after)
        && SiblingsOk(Latest(Loaded(disk).swaps, t), t, before, due)
      ensures SlotOk(Latest(Loaded(disk).swaps, r.target), r.target, after, base)
      ensures SiblingsOk(Latest(Loaded(disk).swaps, r.target), r.target, after, due)
    {
      assert Lag(Latest(mem.swaps, r.target), Latest(Loaded(disk).swaps, r.target));
    }

    /** A record's promise does not look at the Discard sibling. */
    lemma UndoneSlot(undone: FileSystem, after: FileSystem, t: string, base: Option<Tree>)
      requires forall p: Path :: !p.Discard? ==> At(after, p) == At(undone, p)
      ensures Untouched(t, undone, base) ==> Untouched(t, after, base)
      ensures Staging(t) !in undone ==> Staging(t) !in after
    {
      assert At(after, Target(t)) == At(undone, Target(t));
      assert At(after, Previous(t)) == At(undone, Previous(t));
      assert At(after, Staging(t)) == At(undone, Staging(t));
    }

    /** Marks a live record whose content is back. */
    method RollBackRecord(i: nat)
      requires i < |mem.swaps| && mem.swaps[i].Live() && MemOk()
      requires Untouched(mem.swaps[i].target, fs, At(due, Target(mem.swaps[i].target)))
      requires Staging(mem.swaps[i].target) !in fs
      modifies this`mem
      ensures mem == old(mem).(swaps := old(mem.swaps)[i := old(mem.swaps[i]).(state := SwapRolledBack)])
      ensures MemOk()
    {
      var r := mem.swaps[i].(state := SwapRolledBack);
      SafeUpdate(mem.swaps, i, r, fs, due, {});
      mem := mem.(swaps := mem.swaps[i := r]);
    }

    /** Undoes records lo and up, newest first, going on after errors, and saves. */
    method UndoFrom(lo: nat) returns (o: Outcome)
      requires lo <= |mem.swaps| && DiskOk() && MemOk()
      modifies this`fs, this`mem, this`disk
      ensures DiskOk() && (!o.Crash? ==> MemOk())
      ensures |mem.swaps| == |old(mem.swaps)| && mem == old(mem).(swaps := mem.swaps)
      ensures Loaded(disk).state == old(Loaded(disk)).state || Loaded(disk).state == mem.state
      ensures o.Ok? ==> disk == Some(mem) && forall k :: lo <= k < |mem.swaps| ==> !mem.swaps[k].Live()
      ensures forall k :: 0 <= k < lo ==> mem.swaps[k] == old(mem.swaps)[k]
    {
      var i := |mem.swaps|;
      var failed := false;
      while i > lo
        invariant lo <= i <= |mem.swaps| == |old(mem.swaps)|
        invariant DiskOk() && MemOk() && disk == old(disk)
        invariant mem == old(mem).(swaps := mem.swaps)
        invariant !failed ==> forall k :: i <= k < |mem.swaps| ==> !mem.swaps[k].Live()
        invariant forall k :: 0 <= k < i ==> mem.swaps[k] == old(mem.swaps)[k]
      {
        i := i - 1;
        o := UndoSwap(i);
        if o.Crash? { return; }
        if o.Err? { failed := true; }
      }
      o := SaveSound();
      if o.Ok? && failed { o := Err; }
    }

    // ---- RestoreComponents ----------------------------------------------------

    /** Journal and file agree, and no record is half-done: between two components. */
    ghost predicate Between()
      reads this
    {
      && DiskOk() && MemOk() && disk == Some(mem)
      && forall k :: 0 <= k < |mem.swaps| ==> !mem.swaps[k].Interrupted()
    }

    /** The newest record is being staged, all others are done. */
    ghost predicate Staged(t: string)
      reads this
    {
      && DiskOk() && MemOk() && disk == Some(mem)
      && |mem.swaps| > 0 && mem.swaps[|mem.swaps| - 1] == SwapRecord(t, false, InStaging)
      && forall k :: 0 <= k < |mem.swaps| - 1 ==> !mem.swaps[k].Interrupted()
    }

    method CreateVolume(v: string) returns (o: Outcome)
      requires v !in engine.volumes && DiskObjectsOk() && MemObjectsOk()
      requires v in mem.created.volumes && v in Loaded(disk).created.volumes
      modifies this`engine, this`made
      ensures DiskObjectsOk() && MemObjectsOk()
      ensures o.Ok? ==> v in engine.volumes
      ensures OthersOf(engine, made) == OthersOf(old(engine), old(made))
    {
      o := *;
      var done: bool := *;
      if o.Ok? || (o.Crash? && done) {
        VolumeMade(Loaded(disk).created, engine, made, v);
        VolumeMade(mem.created, engine, made, v);
        engine := engine.(volumes := engine.volumes + {v});
        made := made.(volumes := made.volumes + {v});
      }
    }

    /** Resolves a volume, journaling it before it is created. */
    method EnsureVolume(v: string) returns (o: Outcome)
      requires Between()
      modifies this`mem, this`disk, this`engine, this`made
      ensures DiskOk() && MemOk() && (o.Ok? ==> Between())
      ensures mem == old(mem).(created := mem.created)
      ensures Loaded(disk).state == old(mem.state)
      ensures OthersOf(engine, made) == OthersOf(old(engine), old(made))
    {
      o := *; // InspectVolume
      if !o.Ok? || v in engine.volumes { return; }
      mem := mem.(created := mem.created.(volumes := mem.created.volumes + [v]));
      o := SaveSound();
      if !o.Ok? { return; }
      o := CreateVolume(v);
    }

    /** Appends and journals a staging record. */
    method JournalBegin(t: string) returns (o: Outcome)
      requires Between() && !IsSwapped(mem.swaps, t)
      modifies this`mem, this`disk
      ensures DiskOk() && MemOk() && (o.Ok? ==> Staged(t))
      ensures mem == old(mem).(swaps := old(mem.swaps) + [SwapRecord(t, false, InStaging)])
    {
      SafeAppend(mem.swaps, t, fs, due);
      mem := mem.(swaps := mem.swaps + [SwapRecord(t, false, InStaging)]);
      o := SaveSound();
    }

    /** Journals a new swap before anything is written. */
    method Begin(t: string) returns (o: Outcome)
      requires Between()
      modifies this`fs, this`mem, this`disk
      ensures DiskOk() && MemOk() && OnlyTarget(old(fs), fs, t)
      ensures mem == old(mem) || mem == old(mem).(swaps := old(mem.swaps) + [SwapRecord(t, false, InStaging)])
      ensures o.Ok? ==> Staged(t) && |mem.swaps| == |old(mem.swaps)| + 1 && !IsSwapped(old(mem.swaps), t)
    {
      if exists k :: 0 <= k < |mem.swaps| && mem.swaps[k].target == t && mem.swaps[k].state == Swapped {
        return Err;
      }
      o := JournalBegin(t);
      if !o.Ok? { return; }
      o := RemoveAll(Staging(t));
      LiveIsLatest(mem.swaps, |mem.swaps| - 1);
      SafeElsewhere(mem.swaps, old(fs), fs, due, due, {}, t);
    }

    /** Writes the snapshot's content next to the target; an error leaves part of it. */
    method WriteStaging(t: string, content: nat) returns (o: Outcome)
      requires Staged(t)
      modifies this`fs
      ensures Staged(t) && OnlyTarget(old(fs), fs, t)
      ensures o.Ok? ==> At(fs, Staging(t)) == Some(Whole(content))
    {
      o := *;
      ghost var before := fs;
      LiveIsLatest(mem.swaps, |mem.swaps| - 1);
      var begun: bool := *;
      var complete: bool := *;
      if o.Ok? || begun {
        fs := fs[Staging(t) := if o.Ok? || complete then Whole(content) else Partial];
        SafeElsewhere(mem.swaps, before, fs, due, due, {}, t);
      }
    }

    /** Journals a new state of the newest record. */
    method JournalLast(r: SwapRecord) returns (o: Outcome)
      requires |mem.swaps| > 0 && DiskOk() && MemOk() && disk == Some(mem)
      requires mem.swaps[|mem.swaps| - 1].target == r.target
      requires mem.swaps[|mem.swaps| - 1].Live() && r.Live() && r.state != InStaging
      requires mem.swaps[|mem.swaps| - 1].state == InStaging || mem.swaps[|mem.swaps| - 1].hadPrevious == r.hadPrevious
      requires SlotOk(Some(r), r.target, fs, At(due, Target(r.target))) && SiblingsOk(Some(r), r.target, fs, due)
      modifies this`mem, this`disk
      ensures mem == old(mem).(swaps := old(mem.swaps)[|old(mem.swaps)| - 1 := r])
      ensures DiskOk() && MemOk() && (o.Ok? ==> disk == Some(mem))
      ensures Loaded(disk).state == mem.state
      ensures Latest(mem.swaps, r.target) == Some(r)
    {
      var i := |mem.swaps| - 1;
      LiveIsLatest(mem.swaps, i);
      SafeUpdate(mem.swaps, i, r, fs, due, {});
      mem := mem.(swaps := mem.swaps[i := r]);
      o := SaveSound();
    }

    /** The two renames of a swap whose intent is journaled. */
    method MoveIn(t: string, had: bool) returns (o: Outcome)
      requires DiskOk() && MemOk() && disk == Some(mem)
      requires Latest(mem.swaps, t) == Some(SwapRecord(t, had, Swapping)) && had == (Target(t) in fs)
      requires Untouched(t, fs, At(due, Target(t)))
      modifies this`fs
      ensures DiskOk() && MemOk() && OnlyTarget(old(fs), fs, t)
      ensures o.Ok? ==> At(fs, Target(t)) == At(old(fs), Staging(t)) && Staging(t) !in fs
      ensures o.Ok? && had ==> At(fs, Previous(t)) == At(old(fs), Target(t))
    {
      if had {
        o := Rename(Target(t), Previous(t));
        SafeElsewhere(mem.swaps, old(fs), fs, due, due, {}, t);
        if !o.Ok? { return; }
      }
      ghost var before := fs;
      o := Rename(Staging(t), Target(t));
      SafeElsewhere(mem.swaps, before, fs, due, due, {}, t);
    }

    method JournalSwapped(t: string, had: bool) returns (o: Outcome)
      requires DiskOk() && MemOk() && disk == Some(mem)
      requires |mem.swaps| > 0 && mem.swaps[|mem.swaps| - 1] == SwapRecord(t, had, Swapping)
      requires forall k :: 0 <= k < |mem.swaps| - 1 ==> !mem.swaps[k].Interrupted()
      requires Staging(t) !in fs
      modifies this`mem, this`disk
      ensures DiskOk() && MemOk() && (o.Ok? ==> Between())
      ensures mem == old(mem).(swaps := old(mem.swaps)[|old(mem.swaps)| - 1 := SwapRecord(t, had, Swapped)])
    {
      LiveIsLatest(mem.swaps, |mem.swaps| - 1);
      o := JournalLast(SwapRecord(t, had, Swapped));
    }

    /** A swap whose intent is journaled: the renames, then the new state. */
    method MoveAndJournal(t: string, had: bool) returns (o: Outcome)
      requires DiskOk() && MemOk() && disk == Some(mem)
      requires |mem.swaps| > 0 && mem.swaps[|mem.swaps| - 1] == SwapRecord(t, had, Swapping) && had == (Target(t) in fs)
      requires forall k :: 0 <= k < |mem.swaps| - 1 ==> !mem.swaps[k].Interrupted()
      requires Untouched(t, fs, At(due, Target(t)))
      modifies this`fs, this`mem, this`disk
      ensures DiskOk() && MemOk() && (o.Ok? ==> Between()) && OnlyTarget(old(fs), fs, t)
      ensures mem == old(mem) || mem == old(mem).(swaps := old(mem.swaps)[|old(mem.swaps)| - 1 := SwapRecord(t, had, Swapped)])
      ensures o.Ok? ==> mem.swaps[|mem.swaps| - 1] == SwapRecord(t, had, Swapped)
      ensures o.Ok? ==> At(fs, Target(t)) == At(old(fs), Staging(t))
      ensures o.Ok? && had ==> At(fs, Previous(t)) == At(old(fs), Target(t))
    {
      LiveIsLatest(mem.swaps, |mem.swaps| - 1);
      o := MoveIn(t, had);
      if !o.Ok? { return; }
      o := JournalSwapped(t, had);
    }

    /** Moves the target aside and the staging content in, journaling first. */
    method Swap(t: string, leaseExpired: bool) returns (o: Outcome)
      requires Staged(t)
      modifies this`fs, this`mem, this`disk
      ensures DiskOk() && MemOk() && (o.Ok? ==> Between()) && OnlyTarget(old(fs), fs, t)
      ensures leaseExpired ==> o.Err? && fs == old(fs)
      ensures |mem.swaps| == |old(mem.swaps)|
      ensures mem == old(mem).(swaps := old(mem.swaps)[|mem.swaps| - 1 := mem.swaps[|mem.swaps| - 1]])
      ensures o.Ok? ==> mem.swaps[|mem.swaps| - 1] == SwapRecord(t, Target(t) in old(fs), Swapped)
      ensures o.Ok? ==> At(fs, Target(t)) == At(old(fs), Staging(t))
      ensures o.Ok? && Target(t) in old(fs) ==> At(fs, Previous(t)) == At(old(fs), Target(t))
      ensures Loaded(disk).state == old(mem.state)
    {
      if leaseExpired { return Err; }
      var had := Target(t) in fs;
      LiveIsLatest(mem.swaps, |mem.swaps| - 1);
      o := JournalLast(SwapRecord(t, had, Swapping));
      if !o.Ok? { return; }
      o := MoveAndJournal(t, had);
    }

    /** Stages and swaps one path. */
    method RestorePath(t: string, content: nat) returns (o: Outcome)
      requires Between()
      modifies this`fs, this`mem, this`disk
      ensures DiskOk() && MemOk() && (o.Ok? ==> Between()) && OnlyTarget(old(fs), fs, t)
      ensures |old(mem.swaps)| <= |mem.swaps| && mem.swaps[..|old(mem.swaps)|] == old(mem.swaps)
      ensures o.Ok? ==> At(fs, Target(t)) == Some(Whole(content))
      ensures o.Ok? ==> IsSwapped(mem.swaps, t) && !IsSwapped(old(mem.swaps), t)
    {
      o := Begin(t);
      if !o.Ok? { return; }
      o := WriteStaging(t, content);
      if !o.Ok? { return; }
      var leaseExpired: bool := *;
      o := Swap(t, leaseExpired);
    }

    method RestoreOne(s: Spec) returns (o: Outcome)
      requires Between()
      modifies this`fs, this`mem, this`disk, this`engine, this`made
      ensures DiskOk() && MemOk() && (o.Ok? ==> Between())
      ensures |old(mem.swaps)| <= |mem.swaps| && mem.swaps[..|old(mem.swaps)|] == old(mem.swaps)
      ensures mem.state == Loaded(disk).state == old(mem.state)
      ensures OthersOf(engine, made) == OthersOf(old(engine), old(made))
      ensures OnlyTarget(old(fs), fs, s.target)
      ensures o.Ok? ==> At(fs, Target(s.target)) == Some(Whole(s.content)) && IsSwapped(mem.swaps, s.target)
      ensures o.Ok? ==> !IsSwapped(old(mem.swaps), s.target)
      ensures forall t :: IsSwapped(old(mem.swaps), t) ==> IsSwapped(mem.swaps, t)
    {
      if s.volume.Some? {
        o := EnsureVolume(s.volume.value);
        if !o.Ok? { return; }
      }
      o := RestorePath(s.target, s.content);
      forall t | IsSwapped(old(mem.swaps), t) ensures IsSwapped(mem.swaps, t) {
        SwappedStays(old(mem.swaps), mem.swaps, t);
      }
    }

    /** Undoes what an interrupted attempt left half-done, oldest first. */
    method UndoInterrupted() returns (o: Outcome)
      requires DiskOk() && MemOk() && Loaded(disk).state == mem.state
      modifies this`fs, this`mem, this`disk
      ensures DiskOk() && (!o.Crash? ==> MemOk()) && (o.Ok? ==> Between())
      ensures mem.state == Loaded(disk).state == old(mem.state)
    {
      var i := 0;
      while i < |mem.swaps|
        invariant i <= |mem.swaps| && DiskOk() && MemOk() && disk == old(disk) && mem.state == old(mem.state)
        invariant forall k :: 0 <= k < i ==> !mem.swaps[k].Interrupted()
      {
        if mem.swaps[i].Interrupted() {
          o := UndoSwap(i);
          if !o.Ok? { return; }
        }
        i := i + 1;
      }
      o := SaveSound();
    }

    /** The first n paths are restored and their swaps finished. */
    ghost predicate RestoredSoFar(specs: seq<Spec>, n: nat)
      requires n <= |specs|
      reads this`fs, this`mem
    {
      RestoredUpTo(specs, n, fs) && forall k :: 0 <= k < n ==> IsSwapped(mem.swaps, specs[k].target)
    }

    method RestoreNext(specs: seq<Spec>, i: nat) returns (o: Outcome)
      requires Between() && i < |specs| && RestoredSoFar(specs, i)
      modifies this`fs, this`mem, this`disk, this`engine, this`made
      ensures DiskOk() && MemOk() && |old(mem.swaps)| <= |mem.swaps|
      ensures mem.state == Loaded(disk).state == Active
      ensures OthersOf(engine, made) == OthersOf(old(engine), old(made))
      ensures o.Ok? ==> Between() && RestoredSoFar(specs, i + 1)
    {
      o := RestoreOne(specs[i]);
      if o.Ok? {
        RestoredNext(specs, i, old(fs), fs);
      }
    }

    /** Restores the paths in turn until one fails. */
    method RestoreEach(specs: seq<Spec>) returns (o: Outcome)
      requires Between()
      modifies this`fs, this`mem, this`disk, this`engine, this`made
      ensures DiskOk() && (!o.Crash? ==> MemOk()) && |old(mem.swaps)| <= |mem.swaps|
      ensures mem.state == Loaded(disk).state == Active
      ensures OthersOf(engine, made) == OthersOf(old(engine), old(made))
      ensures o.Ok? ==> RestoredUpTo(specs, |specs|, fs)
    {
      o := Ok;
      var i := 0;
      while i < |specs|
        invariant i <= |specs| && Between() && |old(mem.swaps)| <= |mem.swaps| && o.Ok?
        invariant OthersOf(engine, made) == OthersOf(old(engine), old(made)) && RestoredSoFar(specs, i)
      {
        o := RestoreNext(specs, i);
        if !o.Ok? { return; }
        i := i + 1;
      }
    }

    /** Restores every path in turn; a failure undoes the swaps of this command. */
    method RestoreComponents(specs: seq<Spec>) returns (o: Outcome)
      requires DiskOk()
      modifies this`fs, this`mem, this`disk, this`engine, this`made
      ensures DiskOk() && Loaded(disk).state == old(Loaded(disk)).state
      ensures old(Loaded(disk)).state != Active ==>
                o.Err? && fs == old(fs) && disk == old(disk) && engine == old(engine) && made == old(made)
      ensures OthersOf(engine, made) == OthersOf(old(engine), old(made))
      ensures o.Ok? ==> RestoredUpTo(specs, |specs|, fs)
    {
      mem := Loaded(disk);
      if mem.state != Active { return Err; }
      o := UndoInterrupted();
      if !o.Ok? { return; }
      var start := |mem.swaps|;
      o := RestoreEach(specs);
      if o.Err? {
        o := UndoFrom(start);
        if o.Ok? { o := Err; }
      }
    }

    // ---- RecreateContainers ---------------------------------------------------

    method CreateNetwork(n: string) returns (o: Outcome)
      requires n !in engine.networks && DiskObjectsOk() && MemObjectsOk()
      requires n in mem.created.networks && n in Loaded(disk).created.networks
      modifies this`engine, this`made
      ensures DiskObjectsOk() && MemObjectsOk()
      ensures o.Ok? ==> n in engine.networks
      ensures old(engine).networks <= engine.networks
      ensures o.Err? ==> engine == old(engine) && made == old(made)
      ensures OthersOf(engine, made) == OthersOf(old(engine), old(made))
    {
      o := *;
      var done: bool := *;
      if o.Ok? || (o.Crash? && done) {
        NetworkMade(Loaded(disk).created, engine, made, n);
        NetworkMade(mem.created, engine, made, n);
        engine := engine.(networks := engine.networks + {n});
        made := made.(networks := made.networks + {n});
      }
    }

    /** Creates the missing networks, journaling each first. */
    method EnsureNetworks(nets: seq<NetworkSpec>) returns (o: Outcome)
      requires DiskOk() && MemOk()
      modifies this`mem, this`disk, this`engine, this`made
      ensures DiskOk() && MemOk()
      ensures OthersOf(engine, made) == OthersOf(old(engine), old(made))
      ensures o.Ok? ==> forall k :: 0 <= k < |nets| && !SkipsNetwork(nets[k].name) ==> nets[k].name in engine.networks
    {
      var i := 0;
      o := Ok;
      while i < |nets|
        invariant i <= |nets| && DiskOk() && MemOk() && o.Ok?
        invariant OthersOf(engine, made) == OthersOf(old(engine), old(made))
        invariant forall k :: 0 <= k < i && !SkipsNetwork(nets[k].name) ==> nets[k].name in engine.networks
        invariant old(engine).networks <= engine.networks
      {
        if !SkipsNetwork(nets[i].name) {
          o := EnsureNetwork(nets[i]);
          if !o.Ok? { return; }
        }
        i := i + 1;
      }
    }

    method EnsureNetwork(n: NetworkSpec) returns (o: Outcome)
      requires DiskOk() && MemOk()
      modifies this`mem, this`disk, this`engine, this`made
      ensures DiskOk() && MemOk()
      ensures o.Ok? ==> n.name in engine.networks
      ensures old(engine).networks <= engine.networks
      ensures OthersOf(engine, made) == OthersOf(old(engine), old(made))
    {
      o := *; // NetworkExists
      if !o.Ok? || n.name in engine.networks { return; }
      if n.external { return Err; }
      mem := mem.(created := mem.created.(networks := mem.created.networks + [n.name]));
      o := SaveSound();
      if !o.Ok? { return; }
      o := CreateNetwork(n.name);
      if o.Err? {
        mem := mem.(created := mem.created.(networks := mem.created.networks[..|mem.created.networks| - 1]));
        var saved := SaveSound();
        if saved.Crash? { o := Crash; }
      }
    }

    /** Creates a container under a new ID. */
    method CreateContainer(name: string) returns (o: Outcome)
      requires DiskObjectsOk() && MemObjectsOk() && name !in engine.containers
      requires CreatedContainer(name, None) in mem.created.containers && CreatedContainer(name, None) in Loaded(disk).created.containers
      modifies this`engine, this`made
      ensures DiskObjectsOk() && MemObjectsOk()
      ensures o.Ok? ==> name in engine.containers
      ensures o.Err? ==> engine == old(engine) && made == old(made)
      ensures old(engine).containers.Keys <= engine.containers.Keys
      ensures OthersOf(engine, made) == OthersOf(old(engine), old(made))
    {
      o := *;
      var done: bool := *;
      if o.Ok? || (o.Crash? && done) {
        var c := Container(engine.nextId, Stopped);
        ContainerMade(Loaded(disk).created, engine, made, name, c, engine.nextId + 1);
        ContainerMade(mem.created, engine, made, name, c, engine.nextId + 1);
        engine := engine.(containers := engine.containers[name := c], nextId := engine.nextId + 1);
        made := made.(containers := made.containers + {name});
      }
    }

    /** Creates one missing container, journaling its name first and its ID after. */
    method RecreateOne(name: string) returns (o: Outcome, failed: bool)
      requires DiskOk() && MemOk()
      modifies this`mem, this`disk, this`engine, this`made
      ensures DiskOk() && MemOk()
      ensures o.Ok? && !failed ==> name in engine.containers
      ensures old(engine).containers.Keys <= engine.containers.Keys
      ensures OthersOf(engine, made) == OthersOf(old(engine), old(made))
    {
      failed := false;
      o := *; // InspectDetails
      if !o.Ok? || name in engine.containers { return; }
      ghost var listed := mem.created.containers;
      ListIntent(listed, engine, made.containers, name);
      mem := mem.(created := mem.created.(containers := mem.created.containers + [CreatedContainer(name, None)]));
      o := SaveSound();
      if !o.Ok? { return; }
      o := CreateContainer(name);
      if o.Crash? { return; }
      if o.Err? {
        failed, o := true, Ok;
        ListIntent(listed, engine, made.containers, name);
        mem := mem.(created := mem.created.(containers := mem.created.containers[..|mem.created.containers| - 1]));
        assert mem.created.containers == listed;
      } else {
        ListId(mem.created.containers, engine, made.containers, name);
        mem := mem.(created := mem.created.(containers := mem.created.containers[|mem.created.containers| - 1 :=
                                    CreatedContainer(name, Some(engine.containers[name].id))]));
      }
    }

    /** Creates the missing networks, then the missing containers. */
    method RecreateContainers(nets: seq<NetworkSpec>, names: seq<string>) returns (o: Outcome)
      requires DiskOk()
      modifies this`mem, this`disk, this`engine, this`made
      ensures DiskOk() && Loaded(disk).state == old(Loaded(disk)).state
      ensures OthersOf(engine, made) == OthersOf(old(engine), old(made))
      ensures o.Ok? ==> forall k :: 0 <= k < |names| ==> names[k] in engine.containers
    {
      mem := Loaded(disk);
      if mem.state != Active { return Err; }
      o := EnsureNetworks(nets);
      if !o.Ok? { return; }
      var anyFailed;
      o, anyFailed := RecreateEach(names);
      if !o.Ok? { return; }
      o := SaveSound();
      if o.Ok? && anyFailed { o := Err; }
    }

    method RecreateEach(names: seq<string>) returns (o: Outcome, anyFailed: bool)
      requires DiskOk() && MemOk()
      modifies this`mem, this`disk, this`engine, this`made
      ensures DiskOk() && Loaded(disk).state == Active && (o.Ok? ==> MemOk())
      ensures OthersOf(engine, made) == OthersOf(old(engine), old(made))
      ensures o.Ok? && !anyFailed ==> forall k :: 0 <= k < |names| ==> names[k] in engine.containers
    {
      o, anyFailed := Ok, false;
      var i := 0;
      while i < |names|
        invariant i <= |names| && DiskOk() && MemOk() && o.Ok?
        invariant OthersOf(engine, made) == OthersOf(old(engine), old(made))
        invariant !anyFailed ==> forall k :: 0 <= k < i ==> names[k] in engine.containers
      {
        var failed;
        o, failed := RecreateOne(names[i]);
        if !o.Ok? { return; }
        anyFailed := anyFailed || failed;
        i := i + 1;
      }
    }

    // ---- Start-up -------------------------------------------------------------

    /** cleanupRestores: drops staging content that never reached its swap. A
        finalized journal older than seven days is dropped. */
    method CleanUp(expired: bool) returns (o: Outcome)
      requires DiskOk()
      modifies this`fs, this`mem, this`disk, this`made
      ensures DiskOk() && fs.Keys <= old(fs.Keys)
      ensures forall t :: At(fs, Target(t)) == At(old(fs), Target(t)) && At(fs, Previous(t)) == At(old(fs), Previous(t))
      ensures Loaded(disk).state == old(Loaded(disk)).state || (expired && disk == None && old(Loaded(disk)).state != Active)
      ensures old(Loaded(disk)).state != Committed ==> made == old(made)
    {
      mem := Loaded(disk);
      if mem.state != Active {
        if expired {
          AllDone(mem.swaps, fs, due, {});
          disk := None;
          made := NOTHING_MADE;
        }
        return Ok;
      }
      o := CleanEach();
      if o.Crash? { return; }
      o := SaveSound();
    }

    method CleanEach() returns (o: Outcome)
      requires DiskOk() && MemOk()
      modifies this`fs, this`mem
      ensures DiskOk() && MemOk() && fs.Keys <= old(fs.Keys)
      ensures forall t :: At(fs, Target(t)) == At(old(fs), Target(t)) && At(fs, Previous(t)) == At(old(fs), Previous(t))
    {
      o := Ok;
      var i := 0;
      while i < |mem.swaps|
        invariant i <= |mem.swaps| && DiskOk() && MemOk() && fs.Keys <= old(fs.Keys)
        invariant forall t :: At(fs, Target(t)) == At(old(fs), Target(t)) && At(fs, Previous(t)) == At(old(fs), Previous(t))
      {
        if mem.swaps[i].state == InStaging {
          o := CleanRecord(i);
          if o.Crash? { return; }
        }
        i := i + 1;
      }
    }

    method CleanRecord(i: nat) returns (o: Outcome)
      requires i < |mem.swaps| && mem.swaps[i].state == InStaging && DiskOk() && MemOk()
      modifies this`fs, this`mem
      ensures DiskOk() && MemOk() && |mem.swaps| == |old(mem.swaps)| && fs.Keys <= old(fs.Keys)
      ensures forall t :: At(fs, Target(t)) == At(old(fs), Target(t)) && At(fs, Previous(t)) == At(old(fs), Previous(t))
    {
      var r := mem.swaps[i];
      LiveIsLatest(mem.swaps, i);
      o := RemoveAll(Staging(r.target));
      assert Lag(Latest(mem.swaps, r.target), Latest(Loaded(disk).swaps, r.target));
      SafeElsewhere(mem.swaps, old(fs), fs, due, due, {}, r.target);
      SafeElsewhere(Loaded(disk).swaps, old(fs), fs, due, due, {}, r.target);
      if o.Ok? {
        RollBackRecord(i);
      }
    }

    // ---- Commit ---------------------------------------------------------------

    /** Memory inside a commit: `ahead` are the targets without previous content whose
        commit is not in the file yet. */
    ghost predicate Committing(ahead: set<string>)
      reads this`fs, this`disk, this`mem, this`due
    {
      && Safe(mem.swaps, fs, due, ahead)
      && |mem.swaps| == |Loaded(disk).swaps|
      && (forall t :: t in ahead <==> NewlyCommitted(Loaded(disk).swaps, mem.swaps, t))
    }

    /** The delete of Previous: a target that had one is given up as soon as it is touched. */
    method DropKept(i: nat, ghost ahead: set<string>) returns (o: Outcome)
      requires i < |mem.swaps| && mem.swaps[i].state == Swapped && DiskFsOk() && Committing(ahead)
      requires Loaded(disk).swaps[i] == mem.swaps[i]
      modifies this`fs, this`due, this`lost
      ensures DiskFsOk() && Committing(ahead) && RemoveEffect(old(fs), fs, Previous(mem.swaps[i].target))
      ensures o.Ok? ==> Previous(mem.swaps[i].target) !in fs
      ensures if fs == old(fs) then due == old(due) && lost == old(lost)
              else
                && due == WithTarget(old(due), mem.swaps[i].target, Kept(fs, mem.swaps[i].target))
                && lost == old(lost) + {mem.swaps[i].target}
    {
      var r := mem.swaps[i];
      o := RemoveAll(Previous(r.target));
      SafeGivenUp(mem.swaps, i, old(fs), fs, due, ahead);
      SafeGivenUp(Loaded(disk).swaps, i, old(fs), fs, due, {});
      if fs != old(fs) {
        due := WithTarget(due, r.target, Kept(fs, r.target));
        lost := lost + {r.target};
      }
    }

    /** Best effort: errors are ignored. A finished swap has no Staging. */
    method DropSiblings(t: string, ghost ahead: set<string>) returns (o: Outcome)
      requires DiskFsOk() && Committing(ahead) && Staging(t) !in fs
      modifies this`fs
      ensures DiskFsOk() && Committing(ahead) && !o.Err?
      ensures forall p: Path :: !p.Discard? ==> At(fs, p) == At(old(fs), p)
    {
      o := RemoveAll(Staging(t));
      assert fs == old(fs);
      if o.Crash? { return; }
      o := RemoveAll(Discard(t));
      SafeDiscard(mem.swaps, old(fs), fs, due, ahead);
      SafeDiscard(Loaded(disk).swaps, old(fs), fs, due, {});
      if o.Err? { o := Ok; }
    }

    /** Marks record i, whose kept content is gone, in memory. */
    method MarkCommitted(i: nat, ghost ahead: set<string>) returns (ghost ahead': set<string>)
      requires i < |mem.swaps| && mem.swaps[i].state == Swapped && DiskFsOk() && Committing(ahead)
      requires Loaded(disk).swaps[i] == mem.swaps[i] && Previous(mem.swaps[i].target) !in fs
      modifies this`mem
      ensures DiskFsOk() && Committing(ahead')
      ensures mem == old(mem).(swaps := old(mem.swaps)[i := old(mem.swaps[i]).(state := SwapCommitted)])
    {
      var r := mem.swaps[i].(state := SwapCommitted);
      LiveIsLatest(mem.swaps, i);
      LiveIsLatest(Loaded(disk).swaps, i);
      ahead' := if r.hadPrevious then ahead else ahead + {r.target};
      SafeExempt(mem.swaps, fs, due, ahead, ahead');
      SafeUpdate(mem.swaps, i, r, fs, due, ahead');
      mem := mem.(swaps := mem.swaps[i := r]);
    }

    /** The deletes of one commit, whose kept content nothing has touched since fs0. */
    method GiveUp(i: nat, ghost ahead: set<string>, ghost fs0: FileSystem, ghost due0: FileSystem, ghost lost0: set<string>)
      returns (o: Outcome)
      requires i < |mem.swaps| && mem.swaps[i].state == Swapped && DiskFsOk() && Committing(ahead)
      requires Loaded(disk).swaps[i] == mem.swaps[i] && Staging(mem.swaps[i].target) !in fs
      requires At(fs, Previous(mem.swaps[i].target)) == At(fs0, Previous(mem.swaps[i].target))
      requires forall u :: GaveUp(fs0, fs, due0, due, lost0, lost, u)
      modifies this`fs, this`due, this`lost
      ensures DiskFsOk() && Committing(ahead) && forall u :: GaveUp(fs0, fs, due0, due, lost0, lost, u)
      ensures o.Ok? ==> Previous(mem.swaps[i].target) !in fs
      ensures forall t :: t != mem.swaps[i].target ==> At(fs, Previous(t)) == At(old(fs), Previous(t))
    {
      var t := mem.swaps[i].target;
      o := DropKept(i, ahead);
      ghost var dropped := fs;
      forall u ensures GaveUp(fs0, dropped, due0, due, lost0, lost, u) {
        GaveUpMore(fs0, old(fs), fs, due0, old(due), lost0, old(lost), t, u);
      }
      if !o.Ok? { return; }
      o := DropSiblings(t, ahead);
      forall u ensures GaveUp(fs0, fs, due0, due, lost0, lost, u) {
        assert GaveUp(fs0, dropped, due0, due, lost0, lost, u);
        assert At(fs, Previous(u)) == At(dropped, Previous(u)) && At(fs, Target(u)) == At(dropped, Target(u));
      }
      assert At(fs, Previous(t)) == At(dropped, Previous(t));
    }

    /** Commits one swap. */
    method CommitRecord(i: nat, ghost ahead: set<string>, ghost fs0: FileSystem, ghost due0: FileSystem, ghost lost0: set<string>)
      returns (o: Outcome, ghost ahead': set<string>)
      requires i < |mem.swaps| && mem.swaps[i].state == Swapped && DiskFsOk() && Committing(ahead)
      requires Loaded(disk).swaps[i] == mem.swaps[i]
      requires At(fs, Previous(mem.swaps[i].target)) == At(fs0, Previous(mem.swaps[i].target))
      requires forall u :: GaveUp(fs0, fs, due0, due, lost0, lost, u)
      modifies this`fs, this`mem, this`due, this`lost
      ensures DiskFsOk() && Committing(ahead') && forall u :: GaveUp(fs0, fs, due0, due, lost0, lost, u)
      ensures mem == old(mem) || mem == old(mem).(swaps := old(mem.swaps)[i := old(mem.swaps[i]).(state := SwapCommitted)])
      ensures o.Ok? ==> mem.swaps[i].state == SwapCommitted
      ensures forall t :: t != old(mem.swaps[i]).target ==> At(fs, Previous(t)) == At(old(fs), Previous(t))
    {
      ahead' := ahead;
      LiveIsLatest(mem.swaps, i);
      assert SiblingsOk(Latest(mem.swaps, mem.swaps[i].target), mem.swaps[i].target, fs, due);
      o := GiveUp(i, ahead, fs0, due0, lost0);
      if o.Ok? {
        ahead' := MarkCommitted(i, ahead);
      }
    }

    /** Commits every finished swap in memory, going on after errors. */
    method CommitEach() returns (o: Outcome, failed: bool, ghost ahead: set<string>)
      requires DiskFsOk() && Safe(mem.swaps, fs, due, {}) && mem == Loaded(disk)
      requires forall k :: 0 <= k < |mem.swaps| ==> !mem.swaps[k].Interrupted()
      modifies this`fs, this`mem, this`due, this`lost
      ensures DiskFsOk() && Committing(ahead) && mem == old(mem).(swaps := mem.swaps) && !o.Err?
      ensures forall u :: GaveUp(old(fs), fs, old(due), due, old(lost), lost, u)
      ensures forall k :: 0 <= k < |mem.swaps| ==> !mem.swaps[k].Interrupted()
      ensures o.Ok? && !failed ==> Done(mem.swaps)
    {
      o, failed, ahead := Ok, false, {};
      var i := 0;
      while i < |mem.swaps|
        invariant i <= |mem.swaps| == |old(mem.swaps)| && DiskFsOk() && Committing(ahead) && o.Ok?
        invariant mem == old(mem).(swaps := mem.swaps)
        invariant forall k :: i <= k < |mem.swaps| ==> mem.swaps[k] == old(mem.swaps)[k]
        invariant forall k :: i <= k < |mem.swaps| && mem.swaps[k].state == Swapped ==>
                    At(fs, Previous(mem.swaps[k].target)) == At(old(fs), Previous(mem.swaps[k].target))
        invariant forall k :: 0 <= k < |mem.swaps| ==> !mem.swaps[k].Interrupted()
        invariant !failed ==> forall k :: 0 <= k < i ==> !mem.swaps[k].Live()
        invariant forall u :: GaveUp(old(fs), fs, old(due), due, old(lost), lost, u)
      {
        if mem.swaps[i].state == Swapped {
          var c;
          c, ahead := CommitRecord(i, ahead, old(fs), old(due), old(lost));
          if c.Crash? { return Crash, failed, ahead; }
          if c.Err? { failed := true; }
        }
        i := i + 1;
      }
    }

    /** A commit's save: the commits that reach the file settle what is due. */
    method SaveCommit(ghost ahead: set<string>, ghost fs0: FileSystem, ghost due0: FileSystem, ghost lost0: set<string>)
      returns (o: Outcome)
      requires DiskFsOk() && Committing(ahead) && (mem.state != Active ==> Done(mem.swaps))
      requires forall u :: GaveUp(fs0, fs, due0, due, lost0, lost, u) && Booked(orig, due0, lost0, u)
      modifies this`disk, this`due, this`lost
      ensures DiskFsOk() && LedgerOk() && (o.Ok? ==> disk == Some(mem)) && (disk == old(disk) || disk == Some(mem))
      ensures forall t :: CommitBooked(fs0, fs, due0, due, lost0, lost, old(Loaded(disk)).swaps, Loaded(disk).swaps, t)
    {
      o := Save();
      ghost var was := old(Loaded(disk)).swaps;
      if disk == old(disk) {
        forall t ensures CommitBooked(fs0, fs, due0, due, lost0, lost, was, was, t) && Booked(orig, due, lost, t) {
          CommitBooksUnsaved(fs0, fs, due0, due, lost0, lost, was, orig, t);
        }
      } else {
        ghost var due1, lost1 := due, lost;
        SafeSettled(mem.swaps, fs, due, ahead);
        due, lost := Settle(due, fs, ahead), lost + ahead;
        forall t ensures CommitBooked(fs0, fs, due0, due, lost0, lost, was, mem.swaps, t) && Booked(orig, due, lost, t) {
          assert SiblingsOk(Latest(mem.swaps, t), t, fs, due);
          CommitBooks(fs0, fs, due0, due1, lost0, lost1, was, mem.swaps, ahead, orig, t);
        }
      }
    }

    /** Deletes the previous content kept by the swaps; refuses a half-done restore. */
    method CommitRestore() returns (o: Outcome)
      requires DiskOk() && MemOk() && mem == Loaded(disk) && LedgerOk()
      modifies this`fs, this`mem, this`disk, this`due, this`lost
      ensures DiskOk() && LedgerOk()
      ensures forall t :: CommitBooked(old(fs), fs, old(due), due, old(lost), lost, old(Loaded(disk)).swaps, Loaded(disk).swaps, t)
      ensures (exists k :: 0 <= k < |old(mem.swaps)| && old(mem.swaps)[k].Interrupted()) ==>
                o.Err? && fs == old(fs) && disk == old(disk) && lost == old(lost)
      ensures o.Ok? ==> Loaded(disk).state == Committed && forall t :: Previous(t) !in fs
      ensures Loaded(disk).state == Active || Loaded(disk).state == Committed
    {
      if exists k :: 0 <= k < |mem.swaps| && mem.swaps[k].Interrupted() {
        ghost var was := Loaded(disk).swaps;
        assert forall t :: CommitBooked(fs, fs, due, due, lost, lost, was, was, t);
        return Err;
      }
      var failed;
      ghost var ahead;
      o, failed, ahead := CommitEach();
      if !o.Ok? {
        ghost var was := Loaded(disk).swaps;
        forall t ensures CommitBooked(old(fs), fs, old(due), due, old(lost), lost, was, was, t) && Booked(orig, due, lost, t) {
          CommitBooksUnsaved(old(fs), fs, old(due), due, old(lost), lost, was, orig, t);
        }
        return;
      }
      if !failed {
        AllDone(mem.swaps, fs, due, ahead);
        mem := mem.(state := Committed);
      }
      o := SaveCommit(ahead, old(fs), old(due), old(lost));
      if o.Ok? && failed { o := Err; }
    }

    // ---- Rollback -------------------------------------------------------------

    ghost predicate Halted(ref: Ref)
      reads this`engine
    {
      HaltedIn(engine, ref)
    }

    ghost predicate Up(ref: Ref)
      reads this`engine
    {
      exists n :: Denotes(engine, ref, n) && engine.containers[n].run != Stopped
    }

    /** Unpause, Stop or Start: on an error the container may be in any state. */
    method SetRun(n: string, run: RunState) returns (o: Outcome)
      requires n in engine.containers && DiskObjectsOk() && MemObjectsOk()
      modifies this`engine
      ensures DiskObjectsOk() && MemObjectsOk()
      ensures engine.containers.Keys == old(engine).containers.Keys
      ensures forall m :: m in engine.containers ==> engine.containers[m].id == old(engine).containers[m].id
      ensures forall m :: m in engine.containers && m != n ==> engine.containers[m] == old(engine).containers[m]
      ensures o.Ok? ==> engine.containers[n].run == run
      ensures OthersOf(engine, made) == OthersOf(old(engine), made)
    {
      o := *;
      var now: RunState := *;
      if o.Ok? { now := run; }
      RunChanged(Loaded(disk).created, engine, made, n, now);
      RunChanged(mem.created, engine, made, n, now);
      engine := engine.(containers := engine.containers[n := engine.containers[n].(run := now)]);
    }

    method Inspect(ref: Ref) returns (f: Found)
      ensures f.Found? ==> Denotes(engine, ref, f.name)
      ensures f.NotFound? ==> forall n :: !Denotes(engine, ref, n)
    {
      var reached: bool := *;
      var died: bool := *;
      if !reached { return if died then Died else Unknown; }
      if n :| n in engine.containers && Denotes(engine, ref, n) {
        f := Found(n);
      } else {
        f := NotFound;
      }
    }

    method StopOne(ref: Ref) returns (o: Outcome)
      requires DiskObjectsOk() && MemObjectsOk()
      modifies this`engine
      ensures DiskObjectsOk() && MemObjectsOk()
      ensures engine.containers.Keys == old(engine).containers.Keys
      ensures forall m :: m in engine.containers ==> engine.containers[m].id == old(engine).containers[m].id
      ensures o.Ok? ==> Halted(ref) && forall other :: old(Halted(other)) ==> Halted(other)
      ensures OthersOf(engine, made) == OthersOf(old(engine), made)
    {
      var f := Inspect(ref);
      if f.Died? { return Crash; }
      if f.Unknown? { return Err; }
      if f.NotFound? { return Ok; }
      var n := f.name;
      o := Ok;
      if engine.containers[n].run == Paused {
        o := SetRun(n, Running);
        if !o.Ok? { return; }
      }
      if engine.containers[n].run != Stopped {
        o := SetRun(n, Stopped);
      }
    }

    /** Stops everything that could hold the restored data open. */
    method StopAll(stop: seq<Ref>) returns (o: Outcome)
      requires DiskObjectsOk() && MemObjectsOk()
      modifies this`engine
      ensures DiskObjectsOk() && MemObjectsOk() && SameContainers(old(engine), engine)
      ensures o.Ok? ==> AllHalted(engine, stop)
      ensures OthersOf(engine, made) == OthersOf(old(engine), made)
    {
      var i := 0;
      var failed := false;
      while i < |stop|
        invariant i <= |stop| && DiskObjectsOk() && MemObjectsOk() && SameContainers(old(engine), engine)
        invariant !failed ==> forall k :: 0 <= k < i ==> Halted(stop[k])
        invariant OthersOf(engine, made) == OthersOf(old(engine), made)
      {
        o := StopOne(stop[i]);
        if o.Crash? { return; }
        if o.Err? { failed := true; }
        i := i + 1;
      }
      o := if failed then Err else Ok;
    }

    method RemoveContainer(c: CreatedContainer, ghost rest: seq<CreatedContainer>) returns (o: Outcome)
      requires DiskObjectsOk() && MemObjectsOk() && c in mem.created.containers
      requires ListsContainers(rest, engine, made.containers)
      modifies this`engine, this`made
      ensures DiskObjectsOk() && MemObjectsOk() && ListsContainers(rest, engine, made.containers)
      ensures made == old(made).(containers := made.containers) && made.containers <= old(made.containers)
      ensures o.Ok? ==> forall n :: !Denotes(engine, RefOf(c), n)
      ensures OthersOf(engine, made) == OthersOf(old(engine), old(made))
    {
      o := *;
      var done: bool := *;
      if o.Err? || (o.Crash? && !done) { return; }
      if n :| n in engine.containers && Denotes(engine, RefOf(c), n) {
        var i :| 0 <= i < |mem.created.containers| && mem.created.containers[i] == c;
        ContainerRemoved(Loaded(disk).created, engine, made, n);
        ContainerRemoved(mem.created, engine, made, n);
        ContainerRemoved(mem.created.(containers := rest), engine, made, n);
        engine := engine.(containers := engine.containers - {n});
        made := made.(containers := made.containers - {n});
      }
    }

    /** Removes container c; it stays on the list if that failed. */
    method RemoveOrKeep(keep: seq<CreatedContainer>, c: CreatedContainer, ghost rest: seq<CreatedContainer>)
      returns (o: Outcome, kept: seq<CreatedContainer>)
      requires DiskObjectsOk() && MemObjectsOk() && c in mem.created.containers
      requires ListsContainers(keep + [c] + rest, engine, made.containers)
      modifies this`engine, this`made
      ensures DiskObjectsOk() && MemObjectsOk()
      ensures !o.Crash? ==> ListsContainers(kept + rest, engine, made.containers)
      ensures made == old(made).(containers := made.containers)
      ensures OthersOf(engine, made) == OthersOf(old(engine), old(made))
    {
      kept := keep;
      o := RemoveContainer(c, keep + [c] + rest);
      if o.Err? {
        kept := keep + [c];
      } else if o.Ok? {
        ListForget(keep, c, rest, engine, made.containers);
      }
    }

    /** Removes the listed containers; `keep` are those that could not be removed. */
    method RemoveEach() returns (o: Outcome, keep: seq<CreatedContainer>)
      requires DiskObjectsOk() && MemObjectsOk()
      modifies this`engine, this`made
      ensures DiskObjectsOk() && MemObjectsOk() && !o.Err?
      ensures o.Ok? ==> ListsContainers(keep, engine, made.containers)
      ensures made == old(made).(containers := made.containers)
      ensures OthersOf(engine, made) == OthersOf(old(engine), old(made))
    {
      var cs := mem.created.containers;
      var i := 0;
      keep := [];
      assert keep + cs[i..] == cs;
      while i < |cs|
        invariant i <= |cs| && DiskObjectsOk() && MemObjectsOk()
        invariant ListsContainers(keep + cs[i..], engine, made.containers)
        invariant made == old(made).(containers := made.containers)
        invariant OthersOf(engine, made) == OthersOf(old(engine), old(made))
      {
        assert keep + cs[i..] == keep + [cs[i]] + cs[i + 1..];
        o, keep := RemoveOrKeep(keep, cs[i], cs[i + 1..]);
        if o.Crash? { return; }
        i := i + 1;
      }
      assert keep + cs[i..] == keep;
      o := Ok;
    }

    /** Removes the containers the restore created; the journal keeps the failed ones. */
    method RemoveContainers() returns (o: Outcome)
      requires DiskObjectsOk() && MemObjectsOk()
      modifies this`engine, this`made, this`mem
      ensures DiskObjectsOk() && MemObjectsOk()
      ensures mem == old(mem).(created := old(mem).created.(containers := mem.created.containers))
      ensures made == old(made).(containers := made.containers)
      ensures o.Ok? ==> made.containers == {}
      ensures OthersOf(engine, made) == OthersOf(old(engine), old(made))
    {
      var keep;
      o, keep := RemoveEach();
      if o.Crash? { return; }
      mem := mem.(created := mem.created.(containers := keep));
      o := if keep == [] then Ok else Err;
      assert forall n :: !Listed([], engine, n);
    }

    method RemoveNetwork(n: string) returns (o: Outcome)
      requires DiskObjectsOk() && MemObjectsOk() && n in mem.created.networks
      modifies this`engine, this`made
      ensures DiskObjectsOk() && MemObjectsOk()
      ensures made == old(made).(networks := made.networks) && made.networks <= old(made.networks)
      ensures o.Ok? ==> n !in made.networks
      ensures OthersOf(engine, made) == OthersOf(old(engine), old(made))
    {
      o := *;
      var done: bool := *;
      if o.Err? || (o.Crash? && !done) || n !in engine.networks { return; }
      NetworkRemoved(Loaded(disk).created, engine, made, n);
      NetworkRemoved(mem.created, engine, made, n);
      engine := engine.(networks := engine.networks - {n});
      made := made.(networks := made.networks - {n});
    }

    /** Removes the networks the restore created, newest first. */
    method RemoveNetworks() returns (o: Outcome)
      requires DiskObjectsOk() && MemObjectsOk()
      modifies this`engine, this`made, this`mem
      ensures DiskObjectsOk() && MemObjectsOk()
      ensures mem == old(mem).(created := old(mem).created.(networks := mem.created.networks))
      ensures made == old(made).(networks := made.networks)
      ensures o.Ok? ==> made.networks == {}
      ensures OthersOf(engine, made) == OthersOf(old(engine), old(made))
    {
      var ns := mem.created.networks;
      var keep: seq<string> := [];
      var i := |ns|;
      while i > 0
        invariant 0 <= i <= |ns| && DiskObjectsOk() && MemObjectsOk() && mem == old(mem)
        invariant forall n :: n in keep ==> n in ns
        invariant forall n :: n in made.networks ==> n in keep || n in ns[..i]
        invariant made == old(made).(networks := made.networks)
        invariant OthersOf(engine, made) == OthersOf(old(engine), old(made))
      {
        i := i - 1;
        assert ns[..i + 1] == ns[..i] + [ns[i]];
        o := RemoveNetwork(ns[i]);
        if o.Crash? { return; }
        if o.Err? { keep := keep + [ns[i]]; }
      }
      mem := mem.(created := mem.created.(networks := keep));
      o := if keep == [] then Ok else Err;
    }

    method RemoveVolume(v: string) returns (o: Outcome)
      requires DiskObjectsOk() && MemObjectsOk() && v in mem.created.volumes
      modifies this`engine, this`made
      ensures DiskObjectsOk() && MemObjectsOk()
      ensures made == old(made).(volumes := made.volumes) && made.volumes <= old(made.volumes)
      ensures o.Ok? ==> v !in made.volumes
      ensures OthersOf(engine, made) == OthersOf(old(engine), old(made))
    {
      o := *;
      var done: bool := *;
      if o.Err? || (o.Crash? && !done) || v !in engine.volumes { return; }
      VolumeRemoved(Loaded(disk).created, engine, made, v);
      VolumeRemoved(mem.created, engine, made, v);
      engine := engine.(volumes := engine.volumes - {v});
      made := made.(volumes := made.volumes - {v});
    }

    /** Removes the volumes the restore created. */
    method RemoveVolumes() returns (o: Outcome)
      requires DiskObjectsOk() && MemObjectsOk()
      modifies this`engine, this`made, this`mem
      ensures DiskObjectsOk() && MemObjectsOk()
      ensures mem == old(mem).(created := old(mem).created.(volumes := mem.created.volumes))
      ensures made == old(made).(volumes := made.volumes)
      ensures o.Ok? ==> made.volumes == {}
      ensures OthersOf(engine, made) == OthersOf(old(engine), old(made))
    {
      var vs := mem.created.volumes;
      var keep: seq<string> := [];
      var i := 0;
      while i < |vs|
        invariant i <= |vs| && DiskObjectsOk() && MemObjectsOk() && mem == old(mem)
        invariant forall v :: v in keep ==> v in vs
        invariant forall v :: v in made.volumes ==> v in keep || v in vs[i..]
        invariant made == old(made).(volumes := made.volumes)
        invariant OthersOf(engine, made) == OthersOf(old(engine), old(made))
      {
        assert vs[i..] == [vs[i]] + vs[i + 1..];
        o := RemoveVolume(vs[i]);
        if o.Crash? { return; }
        if o.Err? { keep := keep + [vs[i]]; }
        i := i + 1;
      }
      mem := mem.(created := mem.created.(volumes := keep));
      o := if keep == [] then Ok else Err;
    }

    /** Removes what the restore created and saves the journal; goes on after errors. */
    method RemoveCreated() returns (o: Outcome)
      requires DiskOk() && MemOk()
      modifies this`engine, this`made, this`mem, this`disk
      ensures DiskOk() && (!o.Crash? ==> MemOk())
      ensures mem == old(mem).(created := mem.created)
      ensures Loaded(disk).state == Active
      ensures o.Ok? ==> made == NOTHING_MADE && disk == Some(mem)
      ensures OthersOf(engine, made) == OthersOf(old(engine), old(made))
    {
      var cs := RemoveContainers();
      if cs.Crash? { return Crash; }
      var ns := RemoveNetworks();
      if ns.Crash? { return Crash; }
      var vs := RemoveVolumes();
      if vs.Crash? { return Crash; }
      o := SaveSound();
      if o.Ok? && (cs.Err? || ns.Err? || vs.Err?) { o := Err; }
    }

    method StartOne(ref: Ref) returns (o: Outcome)
      requires DiskObjectsOk() && MemObjectsOk()
      modifies this`engine
      ensures DiskObjectsOk() && MemObjectsOk()
      ensures o.Ok? ==> Up(ref) && forall other :: old(Up(other)) ==> Up(other)
      ensures OthersOf(engine, made) == OthersOf(old(engine), made)
    {
      var f := Inspect(ref);
      if f.Died? { return Crash; }
      if f.Unknown? || f.NotFound? { return Err; }
      o := Ok;
      if engine.containers[f.name].run == Stopped {
        o := SetRun(f.name, Running);
      }
      if o.Ok? {
        assert Denotes(engine, ref, f.name) && engine.containers[f.name].run != Stopped;
        forall other | old(Up(other)) ensures Up(other) {
          var n :| Denotes(old(engine), other, n) && old(engine).containers[n].run != Stopped;
          assert Denotes(engine, other, n) && engine.containers[n].run != Stopped;
        }
      }
    }

    /** Brings the containers that ran before back. */
    method StartAll(restart: seq<Ref>) returns (o: Outcome)
      requires DiskObjectsOk() && MemObjectsOk()
      modifies this`engine
      ensures DiskObjectsOk() && MemObjectsOk()
      ensures o.Ok? ==> forall k :: 0 <= k < |restart| ==> Up(restart[k])
      ensures OthersOf(engine, made) == OthersOf(old(engine), made)
    {
      var i := 0;
      var failed := false;
      while i < |restart|
        invariant i <= |restart| && DiskObjectsOk() && MemObjectsOk()
        invariant !failed ==> forall k :: 0 <= k < i ==> Up(restart[k])
        invariant OthersOf(engine, made) == OthersOf(old(engine), made)
      {
        o := StartOne(restart[i]);
        if o.Crash? { return; }
        if o.Err? { failed := true; }
        i := i + 1;
      }
      o := if failed then Err else Ok;
    }

    /** Everything the restore moved or created is undone; what a commit attempt
        gave up is as the commit left it. */
    ghost predicate RestoreUndone()
      reads this
    {
      && made == NOTHING_MADE
      && (forall t :: At(fs, Target(t)) == At(due, Target(t)) && Previous(t) !in fs)
      && (forall t :: Staging(t) in fs ==> Staging(t) in due)
    }

    /** Undoes the swaps under an engine in which every container of the stop list is halted. */
    method UndoHalted(stop: seq<Ref>) returns (o: Outcome)
      requires DiskOk() && MemOk() && AllHalted(engine, stop)
      modifies this`fs, this`mem, this`disk
      ensures DiskOk() && (!o.Crash? ==> MemOk())
      ensures mem == old(mem).(swaps := mem.swaps)
      ensures Loaded(disk).state == Active
      ensures o.Ok? ==> Done(mem.swaps)
    {
      o := UndoFrom(0);
    }

    /** Stops the application, swaps the previous content back, removes what the
        restore created and starts what ran before. `halt` is the engine under which the
        swaps are undone; there is none if some container could not be stopped. */
    method RollbackRestore(restart: seq<Ref>) returns (o: Outcome, ghost halt: Option<Engine>)
      requires DiskOk() && MemOk()
      modifies this`fs, this`engine, this`made, this`mem, this`disk
      ensures DiskOk()
      // no swap is undone while a container of the stop list may run
      ensures halt.None? ==> !o.Ok? && fs == old(fs) && disk == old(disk) && mem == old(mem)
      ensures halt.Some? ==>
                && AllHalted(halt.value, StopList(old(mem.created.containers), restart))
                && SameContainers(old(engine), halt.value)
      ensures o.Ok? ==> Loaded(disk).state == RolledBack && RestoreUndone() && forall k :: 0 <= k < |restart| ==> Up(restart[k])
      ensures Loaded(disk).state == Active || (Loaded(disk).state == RolledBack && RestoreUndone())
      ensures OthersOf(engine, made) == OthersOf(old(engine), old(made))
    {
      var stop := StopList(mem.created.containers, restart);
      halt := None;
      o := *; // restoreControl
      if !o.Ok? { return; }
      o := StopAll(stop);
      if !o.Ok? { return; }
      halt := Some(engine);
      var undone := UndoHalted(stop);
      if undone.Crash? { return Crash, halt; }
      o := RemoveCreated();
      if o.Ok? && undone.Err? { o := Err; }
      if !o.Ok? { return; }
      o := StartAll(restart);
      if !o.Ok? { return; }
      o := SaveRolledBack();
    }

    /** The last save of a rollback. */
    method SaveRolledBack() returns (o: Outcome)
      requires DiskOk() && MemOk() && Done(mem.swaps) && made == NOTHING_MADE && disk == Some(mem)
      modifies this`mem, this`disk
      ensures DiskOk() && (o.Ok? ==> Loaded(disk).state == RolledBack)
      ensures Loaded(disk).state == Active || (Loaded(disk).state == RolledBack && RestoreUndone())
    {
      AllDone(mem.swaps, fs, due, {});
      mem := mem.(state := RolledBack);
      o := Save();
    }

    // ---- FinalizeRestore ------------------------------------------------------

    method FinalizeRestore(action: FinalizeAction, restart: seq<Ref>) returns (r: FinalizeResult, ghost halt: Option<Engine>)
      requires DiskOk() && LedgerOk()
      modifies this`fs, this`engine, this`made, this`mem, this`disk, this`due, this`lost
      ensures DiskOk() && LedgerOk() && (action.Rollback? ==> due == old(due) && lost == old(lost))
      ensures OthersOf(engine, made) == OthersOf(old(engine), old(made))
      // one-way: a finalized restore keeps its state and content, and repeats say so
      ensures old(Loaded(disk)).state != Active ==>
                && fs == old(fs) && disk == old(disk) && engine == old(engine) && made == old(made)
                && due == old(due) && lost == old(lost)
                && r == if old(Loaded(disk)).state == Wanted(action) then AlreadyFinalized else Refused
      ensures r.AlreadyFinalized? ==> fs == old(fs) && disk == old(disk) && Loaded(disk).state == Wanted(action)
      ensures r.Refused? ==> fs == old(fs) && disk == old(disk)
      ensures old(Loaded(disk)).state == Active ==>
                Loaded(disk).state == Active || Loaded(disk).state == Wanted(action)
      ensures r.Finalized? ==> old(Loaded(disk)).state == Active && Loaded(disk).state == Wanted(action)
      // a commit keeps nothing and refuses a half-done swap
      ensures action.Commit? && r.Finalized? ==>
                && (forall t :: Previous(t) !in fs)
                && (forall q :: q in old(Loaded(disk)).swaps ==> !q.Interrupted())
      // wherever it stopped, what a commit gave up is known exactly
      ensures action.Commit? ==>
                forall t :: CommitBooked(old(fs), fs, old(due), due, old(lost), lost, old(Loaded(disk)).swaps, Loaded(disk).swaps, t)
      // a rollback undoes the whole restore
      ensures action.Rollback? && r.Finalized? ==> RestoreUndone() && forall k :: 0 <= k < |restart| ==> Up(restart[k])
      // and touches no path unless everything it has to stop is stopped
      ensures action.Rollback? && halt.None? ==> !r.Finalized? && fs == old(fs) && disk == old(disk)
      ensures halt.Some? ==>
                && AllHalted(halt.value, StopList(old(Loaded(disk)).created.containers, restart))
                && SameContainers(old(engine), halt.value)
    {
      mem := Loaded(disk);
      halt := None;
      if mem.state != Active {
        ghost var was := Loaded(disk).swaps;
        assert forall t :: CommitBooked(fs, fs, due, due, lost, lost, was, was, t);
        return if mem.state == Wanted(action) then AlreadyFinalized else Refused, halt;
      }
      var o;
      if action.Commit? {
        o := CommitRestore();
      } else {
        o, halt := RollbackRestore(restart);
      }
      r := match o case Ok => Finalized case Err => Failed case Crash => Dead;
    }

    /** A file that says rolled back means the restore is undone. */
    lemma RolledBackIsUndone()
      requires DiskOk() && Loaded(disk).state == RolledBack
      ensures RestoreUndone()
    {
      AllDone(Loaded(disk).swaps, fs, due, {});
    }

    ghost function Now(): Moment
      reads this
    {
      Moment(fs, due, lost, Loaded(disk), OthersOf(engine, made))
    }

    /** One command, or the start of the agent. */
    method Execute(c: Command)
      requires DiskOk() && LedgerOk()
      modifies this
      ensures DiskOk() && LedgerOk() && Leads(old(Now()), c, Now())
    {
      match c {
        case RestoreCommand(specs) => var o := RestoreComponents(specs);
        case RecreateCommand(nets, names) => var o := RecreateContainers(nets, names);
        case FinalizeCommand(action, restart) => ExecuteFinalize(action, restart);
        case StartUp(expired) => var o := CleanUp(expired);
      }
    }

    method ExecuteFinalize(action: FinalizeAction, restart: seq<Ref>)
      requires DiskOk() && LedgerOk()
      modifies this
      ensures DiskOk() && LedgerOk() && Leads(old(Now()), FinalizeCommand(action, restart), Now())
    {
      ghost var before := Now();
      var r;
      ghost var halt;
      r, halt := FinalizeRestore(action, restart);
      if action.Commit? {
        assert forall t :: BookedFrom(before, Now(), t);
      }
    }

    /** Any commands, each of which may fail or crash anywhere. */
    method AnyRun(script: seq<Command>) returns (ghost hs: seq<Moment>)
      requires DiskOk() && LedgerOk()
      modifies this
      ensures DiskOk() && LedgerOk()
      ensures History(hs, script) && hs[0] == old(Now()) && hs[|script|] == Now()
    {
      var i := 0;
      hs := [Now()];
      while i < |script|
        invariant i <= |script| && DiskOk() && LedgerOk()
        invariant History(hs, script[..i]) && hs[0] == old(Now()) && hs[i] == Now()
      {
        Execute(script[i]);
        HistoryMore(hs, script[..i], script[i], Now());
        assert script[..i] + [script[i]] == script[..i + 1];
        hs := hs + [Now()];
        i := i + 1;
      }
      assert script[..i] == script;
    }
  }

  /** After any run of restore commands with crashes anywhere in between, a rollback that
      reports success leaves no kept and no new staged content of any target, and gives every
      target what the last commit attempt that gave it up left of it, or its content from
      before the restore if there was none. So, unless the restored content is the same, it
      restores exactly the targets that no commit attempt gave up. Until a commit is in the
      file, exactly the volumes, networks and containers that existed before are there. */
  method RollbackUndoesAnyRun(fs0: FileSystem, engine0: Engine, script: seq<Command>, restart: seq<Ref>)
    returns (h: Host, r: FinalizeResult, ghost hs: seq<Moment>)
    requires engine0.UniqueIds()
    requires forall t :: Previous(t) !in fs0
    ensures History(hs, script) && hs[0] == Moment(fs0, fs0, {}, EMPTY_JOURNAL, OthersOf(engine0, NOTHING_MADE))
    ensures forall t :: t in h.lost <==> GivenUp(hs, script, |script|, t)
    ensures r.Finalized? || r.AlreadyFinalized? ==> forall t :: GivenBack(hs, script, h.fs, t)
    ensures (r.Finalized? || r.AlreadyFinalized?) && (forall k :: 0 <= k < |hs| ==> hs[k].journal.state != Committed) ==>
              OthersOf(h.engine, NOTHING_MADE) == OthersOf(engine0, NOTHING_MADE)
    ensures NoCommit(script) ==> forall k :: 0 <= k < |hs| ==> hs[k].journal.state != Committed
  {
    h := new Host(fs0, engine0);
    hs := h.AnyRun(script);
    ghost var halt;
    r, halt := h.FinalizeRestore(Rollback, restart);
    if r.AlreadyFinalized? {
      h.RolledBackIsUndone();
    }
    Reckon(hs, script);
    forall t ensures t in h.lost <==> GivenUp(hs, script, |script|, t) {
      assert Reckoned(hs, script, t);
    }
    if r.Finalized? || r.AlreadyFinalized? {
      forall t ensures GivenBack(hs, script, h.fs, t) {
        assert Reckoned(hs, script, t) && Booked(fs0, h.due, h.lost, t);
      }
    }
  }

  /** The exact account of a history from its start. */
  lemma Reckon(hs: seq<Moment>, script: seq<Command>)
    requires History(hs, script) && hs[0].due == hs[0].fs && hs[0].lost == {} && hs[0].journal.state != Committed
    ensures forall t :: Reckoned(hs, script, t)
    ensures (forall k :: 0 <= k < |hs| ==> hs[k].journal.state != Committed) ==> hs[|script|].others == hs[0].others
    ensures NoCommit(script) ==> forall k :: 0 <= k < |hs| ==> hs[k].journal.state != Committed
  {
    forall t ensures Reckoned(hs, script, t) {
      DueIsLeft(hs, script, |script|, t);
      LeftIff(hs, script, |script|, t);
    }
    if forall k :: 0 <= k < |hs| ==> hs[k].journal.state != Committed {
      OthersStay(hs, script, |script|);
    }
    if NoCommit(script) {
      forall k | 0 <= k < |hs| ensures hs[k].journal.state != Committed {
        NeverCommitted(hs, script, k);
      }
    }
  }
}
