/** The on-disk restore journal, the paths a staged restore moves around, and the
    predicates that say when a journal is good enough to roll the restore back
    from (internal/agent/restorejournal.go). */
module RestoreModel {
  import opened Common

  /** Content of a path. `Partial` is what an interrupted delete or write leaves. */
  datatype Tree = Whole(content: nat) | Partial

  /** A target and the three siblings a swap of it uses. */
  datatype Path =
    | Target(name: string)
    | Staging(name: string)
    | Previous(name: string)
    | Discard(name: string)

  type FileSystem = map<Path, Tree>

  function At(fs: FileSystem, p: Path): Option<Tree> {
    if p in fs then Some(fs[p]) else None
  }

  datatype SwapState = InStaging | Swapping | Swapped | SwapRolledBack | SwapCommitted

  datatype SwapRecord = SwapRecord(target: string, hadPrevious: bool, state: SwapState) {
    predicate Live() {
      state == InStaging || state == Swapping || state == Swapped
    }

    predicate Interrupted() {
      state == InStaging || state == Swapping
    }
  }

  datatype RestoreState = Active | Committed | RolledBack

  /** A container the restore created; the ID is unknown until the engine returned it. */
  datatype CreatedContainer = CreatedContainer(name: string, id: Option<nat>)

  datatype CreatedObjects = CreatedObjects(volumes: seq<string>, networks: seq<string>,
                                           containers: seq<CreatedContainer>)

  datatype Journal = Journal(state: RestoreState, swaps: seq<SwapRecord>, created: CreatedObjects)

  const EMPTY_JOURNAL := Journal(Active, [], CreatedObjects([], [], []))

  /** What `load` hands to a command: the file, or a new active journal. */
  function Loaded(disk: Option<Journal>): Journal {
    if disk.Some? then disk.value else EMPTY_JOURNAL
  }

  // ---- Swap records ---------------------------------------------------------

  /** The newest record of a target: the only one that can still be live. */
  ghost function Latest(swaps: seq<SwapRecord>, t: string): Option<SwapRecord> {
    if swaps == [] then None
    else
      var n := |swaps| - 1;
      if swaps[n].target == t then Some(swaps[n]) else Latest(swaps[..n], t)
  }

  /** A target is never swapped again while an older record of it is live. */
  ghost predicate OneLive(swaps: seq<SwapRecord>) {
    forall i, k :: 0 <= i < k < |swaps| && swaps[i].target == swaps[k].target ==> !swaps[i].Live()
  }

  /** Nothing was moved: the target holds its pre-restore content. */
  ghost predicate Untouched(t: string, fs: FileSystem, base: Option<Tree>) {
    At(fs, Target(t)) == base && Previous(t) !in fs
  }

  /** The pre-restore content of a target whose renames may have begun is either
      kept whole as Previous or back in place. */
  ghost predicate Recoverable(hadPrevious: bool, t: string, fs: FileSystem, base: Option<Tree>) {
    if hadPrevious then
      if Previous(t) in fs then base == Some(fs[Previous(t)]) else At(fs, Target(t)) == base
    else
      base.None? && Previous(t) !in fs
  }

  /** What the newest record of t promises about the filesystem; `base` is the content a
      rollback gives back. */
  ghost predicate SlotOk(slot: Option<SwapRecord>, t: string, fs: FileSystem, base: Option<Tree>) {
    if slot.Some? && (slot.value.state == Swapping || slot.value.state == Swapped)
    then Recoverable(slot.value.hadPrevious, t, fs, base)
    else Untouched(t, fs, base)
  }

  /** Only a record that moved content aside may still have a Previous. A Staging is there
      only before a swap is finished, or if it was there before the restore. */
  ghost predicate SiblingsOk(slot: Option<SwapRecord>, t: string, fs: FileSystem, due: FileSystem) {
    && (|| (slot.Some? && slot.value.Live() && slot.value.state != InStaging && slot.value.hadPrevious)
        || Previous(t) !in fs)
    && (slot.None? && Staging(t) in fs ==> Staging(t) in due)
    && (slot.Some? && !slot.value.Interrupted() ==> Staging(t) !in fs)
  }

  /** From journal records `swaps`, a rollback puts every target but the exempt ones back
      to its content in `due`. A target without a record is untouched. */
  ghost predicate Safe(swaps: seq<SwapRecord>, fs: FileSystem, due: FileSystem, exempt: set<string>) {
    && OneLive(swaps)
    && (forall t :: SiblingsOk(Latest(swaps, t), t, fs, due))
    && (forall t :: t !in exempt ==> SlotOk(Latest(swaps, t), t, fs, At(due, Target(t))))
  }

  /** How far the journal file may lag behind the journal in memory for the same
      target while the memory record is live. */
  ghost predicate Lag(m: Option<SwapRecord>, d: Option<SwapRecord>) {
    m.Some? && m.value.Live() ==>
      || d.None?
      || d.value.state == InStaging
      || d.value.state == SwapRolledBack
      || d.value.state == SwapCommitted
      || (&& m.value.state != InStaging && d.value.Live()
          && d.value.hadPrevious == m.value.hadPrevious)
  }

  ghost predicate Lags(mem: seq<SwapRecord>, disk: seq<SwapRecord>) {
    forall t :: Lag(Latest(mem, t), Latest(disk, t))
  }

  /** Only paths of target t differ. */
  ghost predicate OnlyTarget(before: FileSystem, after: FileSystem, t: string) {
    forall p: Path :: p.name != t ==> At(after, p) == At(before, p)
  }

  lemma {:induction false} LatestIs(swaps: seq<SwapRecord>, i: nat)
    requires i < |swaps|
    requires forall k :: i < k < |swaps| ==> swaps[k].target != swaps[i].target
    ensures Latest(swaps, swaps[i].target) == Some(swaps[i])
  {
    var n := |swaps| - 1;
    if i == n {
    } else {
      LatestIs(swaps[..n], i);
    }
  }

  /** A live record is the newest of its target. */
  lemma LiveIsLatest(swaps: seq<SwapRecord>, i: nat)
    requires i < |swaps| && OneLive(swaps) && swaps[i].Live()
    ensures Latest(swaps, swaps[i].target) == Some(swaps[i])
  {
    LatestIs(swaps, i);
  }

  /** Changing the state of record i changes no other target's newest record. */
  lemma {:induction false} LatestUpdate(swaps: seq<SwapRecord>, i: nat, r: SwapRecord, t: string)
    requires i < |swaps| && r.target == swaps[i].target
    ensures t != r.target ==> Latest(swaps[i := r], t) == Latest(swaps, t)
    ensures OneLive(swaps) && swaps[i].Live() && t == r.target ==> Latest(swaps[i := r], t) == Some(r)
    ensures OneLive(swaps) && swaps[i].Live() ==> OneLive(swaps[i := r])
  {
    var after := swaps[i := r];
    if OneLive(swaps) && swaps[i].Live() {
      LatestIs(after, i);
    }
    if t != r.target {
      LatestUpdateOther(swaps, i, r, t);
    }
  }

  lemma {:induction false} LatestUpdateOther(swaps: seq<SwapRecord>, i: nat, r: SwapRecord, t: string)
    requires i < |swaps| && r.target == swaps[i].target && t != r.target
    ensures Latest(swaps[i := r], t) == Latest(swaps, t)
  {
    var n := |swaps| - 1;
    if i == n {
      assert swaps[i := r][..n] == swaps[..n];
    } else if swaps[n].target != t {
      assert swaps[i := r][..n] == swaps[..n][i := r];
      LatestUpdateOther(swaps[..n], i, r, t);
    }
  }

  /** A newest record is one of the records, and every record of a target implies one. */
  lemma {:induction false} LatestExists(swaps: seq<SwapRecord>, t: string)
    ensures Latest(swaps, t).Some? <==> exists i :: 0 <= i < |swaps| && swaps[i].target == t
    ensures Latest(swaps, t).Some? ==> Latest(swaps, t).value in swaps && Latest(swaps, t).value.target == t
  {
    if swaps == [] {
    } else {
      var n := |swaps| - 1;
      if swaps[n].target != t {
        LatestExists(swaps[..n], t);
      }
    }
  }

  lemma LatestAppend(swaps: seq<SwapRecord>, r: SwapRecord, t: string)
    ensures Latest(swaps + [r], t) == if r.target == t then Some(r) else Latest(swaps, t)
  {
    assert (swaps + [r])[..|swaps|] == swaps;
  }

  /** Changes confined to target t keep every other target's promise. */
  lemma SafeElsewhere(swaps: seq<SwapRecord>, before: FileSystem, after: FileSystem, due: FileSystem,
                      due': FileSystem, exempt: set<string>, t: string)
    requires Safe(swaps, before, due, exempt) && OnlyTarget(before, after, t) && OnlyTarget(due, due', t)
    requires t in exempt || SlotOk(Latest(swaps, t), t, after, At(due', Target(t)))
    requires SiblingsOk(Latest(swaps, t), t, after, due')
    ensures Safe(swaps, after, due', exempt)
  {
    forall u | u != t
      ensures SiblingsOk(Latest(swaps, u), u, after, due')
      ensures u !in exempt ==> SlotOk(Latest(swaps, u), u, after, At(due', Target(u)))
    {
      assert At(after, Target(u)) == At(before, Target(u)) && At(due', Target(u)) == At(due, Target(u));
      assert At(after, Previous(u)) == At(before, Previous(u));
      assert At(after, Staging(u)) == At(before, Staging(u)) && At(due', Staging(u)) == At(due, Staging(u));
    }
  }

  lemma SafeExempt(swaps: seq<SwapRecord>, fs: FileSystem, due: FileSystem, exempt: set<string>, more: set<string>)
    requires Safe(swaps, fs, due, exempt) && exempt <= more
    ensures Safe(swaps, fs, due, more)
  {
  }

  /** No promise looks at a Discard. */
  lemma SafeDiscard(swaps: seq<SwapRecord>, before: FileSystem, after: FileSystem, due: FileSystem, exempt: set<string>)
    requires Safe(swaps, before, due, exempt)
    requires forall p: Path :: !p.Discard? ==> At(after, p) == At(before, p)
    ensures Safe(swaps, after, due, exempt)
  {
    forall t
      ensures SiblingsOk(Latest(swaps, t), t, after, due)
      ensures t !in exempt ==> SlotOk(Latest(swaps, t), t, after, At(due, Target(t)))
    {
      assert At(after, Target(t)) == At(before, Target(t)) && At(after, Previous(t)) == At(before, Previous(t));
      assert At(after, Staging(t)) == At(before, Staging(t));
      assert SiblingsOk(Latest(swaps, t), t, before, due);
    }
  }

  /** A live record may take any new state whose promise holds. */
  lemma SafeUpdate(swaps: seq<SwapRecord>, i: nat, r: SwapRecord, fs: FileSystem, due: FileSystem, exempt: set<string>)
    requires Safe(swaps, fs, due, exempt) && i < |swaps| && swaps[i].Live() && r.target == swaps[i].target
    requires SiblingsOk(Some(r), r.target, fs, due)
    requires r.target in exempt || SlotOk(Some(r), r.target, fs, At(due, Target(r.target)))
    ensures Safe(swaps[i := r], fs, due, exempt)
    ensures Latest(swaps[i := r], r.target) == Some(r)
    ensures forall t :: t != r.target ==> Latest(swaps[i := r], t) == Latest(swaps, t)
  {
    var after := swaps[i := r];
    LatestUpdate(swaps, i, r, r.target);
    forall t
      ensures Latest(after, t) == if t == r.target then Some(r) else Latest(swaps, t)
      ensures SiblingsOk(Latest(after, t), t, fs, due)
      ensures t !in exempt ==> SlotOk(Latest(after, t), t, fs, At(due, Target(t)))
    {
      LatestUpdate(swaps, i, r, t);
      assert SiblingsOk(Latest(swaps, t), t, fs, due);
      assert t !in exempt ==> SlotOk(Latest(swaps, t), t, fs, At(due, Target(t)));
    }
  }

  /** A new record may start once no record of its target is live. */
  lemma SafeAppend(swaps: seq<SwapRecord>, t: string, fs: FileSystem, due: FileSystem)
    requires Safe(swaps, fs, due, {})
    requires forall k :: 0 <= k < |swaps| && swaps[k].target == t ==> !swaps[k].Live()
    ensures
      var r := SwapRecord(t, false, InStaging);
      && Safe(swaps + [r], fs, due, {})
      && Latest(swaps + [r], t) == Some(r)
      && (forall u :: u != t ==> Latest(swaps + [r], u) == Latest(swaps, u))
      && (Latest(swaps, t).Some? ==> !Latest(swaps, t).value.Live())
  {
    var r := SwapRecord(t, false, InStaging);
    LatestExists(swaps, t);
    forall u
      ensures Latest(swaps + [r], u) == if u == t then Some(r) else Latest(swaps, u)
      ensures SiblingsOk(Latest(swaps + [r], u), u, fs, due)
      ensures SlotOk(Latest(swaps + [r], u), u, fs, At(due, Target(u)))
    {
      LatestAppend(swaps, r, u);
      assert SiblingsOk(Latest(swaps, u), u, fs, due);
      assert SlotOk(Latest(swaps, u), u, fs, At(due, Target(u)));
    }
  }

  /** With no live record left, every target has the content that is due, and no sibling is
      left but a Staging that was there before. */
  lemma AllDone(swaps: seq<SwapRecord>, fs: FileSystem, due: FileSystem, exempt: set<string>)
    requires Safe(swaps, fs, due, exempt) && forall k :: 0 <= k < |swaps| ==> !swaps[k].Live()
    ensures forall t :: Previous(t) !in fs && (Staging(t) in fs ==> Staging(t) in due)
    ensures forall t :: t !in exempt ==> Untouched(t, fs, At(due, Target(t)))
  {
    forall t
      ensures Latest(swaps, t).Some? ==> !Latest(swaps, t).value.Live()
      ensures Previous(t) !in fs && (Staging(t) in fs ==> Staging(t) in due)
    {
      LatestExists(swaps, t);
      assert SiblingsOk(Latest(swaps, t), t, fs, due);
    }
  }

  // ---- Undo as a function ---------------------------------------------------

  /** What an undo that meets no error leaves behind. */
  function UndoFs(fs: FileSystem, r: SwapRecord): FileSystem {
    if !r.Live() then fs
    else
      var cleared := fs - {Staging(r.target)};
      var moved :=
        if r.state == InStaging then cleared
        else if r.hadPrevious then
          if Previous(r.target) in cleared
          then (cleared - {Previous(r.target)})[Target(r.target) := cleared[Previous(r.target)]]
          else cleared
        else cleared - {Target(r.target)};
      moved - {Discard(r.target)}
  }

  /** The undo of a record whose promise holds gives the content that is due. */
  lemma UndoGivesBack(fs: FileSystem, r: SwapRecord, base: Option<Tree>)
    requires r.Live() && SlotOk(Some(r), r.target, fs, base)
    ensures Untouched(r.target, UndoFs(fs, r), base) && Staging(r.target) !in UndoFs(fs, r)
  {
  }

  /** Undoing twice is undoing once: a rollback whose journal save was lost can be
      repeated from the old record. */
  lemma UndoIdempotent(fs: FileSystem, r: SwapRecord)
    ensures UndoFs(UndoFs(fs, r), r) == UndoFs(fs, r)
  {
  }

  // ---- Undo after a commit was cut short ------------------------------------

  /** os.RemoveAll, complete, cut short or not begun. */
  ghost predicate RemoveEffect(before: FileSystem, after: FileSystem, p: Path) {
    after == before || after == before - {p} || (p in before && after == before[p := Partial])
  }

  /** Commit deletes Previous before it saves. After a crash in between, the record
      still says swapped, and the undo leaves the restored content in place. */
  lemma CommitThenUndoLosesContent(t: string, previous: nat, restored: nat)
    requires previous != restored
    ensures
      var r := SwapRecord(t, true, Swapped);
      var fs := map[Target(t) := Whole(restored), Previous(t) := Whole(previous)];
      && At(UndoFs(fs, r), Target(t)) == Some(Whole(previous))
      && At(UndoFs(fs - {Previous(t)}, r), Target(t)) == Some(Whole(restored))
      && At(UndoFs(fs[Previous(t) := Partial], r), Target(t)) == Some(Partial)
  {
  }

  /** After any outcome of the commit's delete, the undo gives the kept content back if and
      only if it is still there and whole, as long as it differs from the restored one. A
      target that had none is not affected. */
  lemma UndoAfterCommit(before: FileSystem, after: FileSystem, r: SwapRecord, kept: Tree)
    requires r.state == Swapped && r.hadPrevious && kept.Whole?
    requires At(before, Previous(r.target)) == Some(kept) && At(before, Target(r.target)) != Some(kept)
    requires RemoveEffect(before, after, Previous(r.target))
    ensures At(UndoFs(after, r), Target(r.target)) == Some(kept) <==>
            Previous(r.target) in after && after[Previous(r.target)].Whole?
  {
  }

  /** The content a rollback finds for a target: the kept one, or what is in place. */
  function Kept(fs: FileSystem, t: string): Option<Tree> {
    if Previous(t) in fs then Some(fs[Previous(t)]) else At(fs, Target(t))
  }

  function WithTarget(due: FileSystem, t: string, content: Option<Tree>): FileSystem {
    if content.Some? then due[Target(t) := content.value] else due - {Target(t)}
  }

  /** The commit's delete on a swap that kept content: what is due now is what is left. */
  lemma SafeGivenUp(swaps: seq<SwapRecord>, i: nat, before: FileSystem, after: FileSystem, due: FileSystem,
                    exempt: set<string>)
    requires Safe(swaps, before, due, exempt) && i < |swaps| && swaps[i].state == Swapped
    requires RemoveEffect(before, after, Previous(swaps[i].target))
    ensures var t := swaps[i].target;
            if swaps[i].hadPrevious then Safe(swaps, after, WithTarget(due, t, Kept(after, t)), exempt)
            else after == before
  {
    var t := swaps[i].target;
    LiveIsLatest(swaps, i);
    assert SiblingsOk(Latest(swaps, t), t, before, due);
    if swaps[i].hadPrevious {
      SafeElsewhere(swaps, before, after, due, WithTarget(due, t, Kept(after, t)), exempt, t);
    }
  }

  /** A commit of a target that had no previous content is in the journal. */
  ghost predicate NewlyCommitted(was: seq<SwapRecord>, now: seq<SwapRecord>, t: string) {
    && Latest(was, t).Some? && Latest(was, t).value.state == Swapped && !Latest(was, t).value.hadPrevious
    && Latest(now, t).Some? && Latest(now, t).value.state == SwapCommitted
  }

  /** Only a target that a commit attempt gave up has something else due than at first. */
  ghost predicate Booked(orig: FileSystem, due: FileSystem, lost: set<string>, t: string) {
    At(due, Staging(t)) == At(orig, Staging(t)) && (t !in lost ==> At(due, Target(t)) == At(orig, Target(t)))
  }

  /** A delete touched the kept content of t. */
  ghost predicate KeptTouched(fs0: FileSystem, fs: FileSystem, t: string) {
    At(fs, Previous(t)) != At(fs0, Previous(t))
  }

  /** What the deletes of a commit did to target t: it is given up exactly when its kept
      content was touched, and then what is due is what is left. */
  ghost predicate GaveUp(fs0: FileSystem, fs: FileSystem, due0: FileSystem, due: FileSystem, lost0: set<string>,
                         lost: set<string>, t: string) {
    && (t in lost <==> t in lost0 || KeptTouched(fs0, fs, t))
    && At(fs, Target(t)) == At(fs0, Target(t)) && At(due, Staging(t)) == At(due0, Staging(t))
    && At(due, Target(t)) == (if KeptTouched(fs0, fs, t) then Kept(fs, t) else At(due0, Target(t)))
    && (KeptTouched(fs0, fs, t) ==> At(fs, Previous(t)) in {None, Some(Partial)})
  }

  /** One more delete, of a target untouched so far. */
  lemma GaveUpMore(fs0: FileSystem, fs: FileSystem, fs': FileSystem, due0: FileSystem, due: FileSystem,
                   lost0: set<string>, lost: set<string>, t: string, u: string)
    requires GaveUp(fs0, fs, due0, due, lost0, lost, u)
    requires RemoveEffect(fs, fs', Previous(t)) && At(fs, Previous(t)) == At(fs0, Previous(t))
    ensures if fs' == fs then GaveUp(fs0, fs', due0, due, lost0, lost, u)
            else GaveUp(fs0, fs', due0, WithTarget(due, t, Kept(fs', t)), lost0, lost + {t}, u)
  {
    if fs' != fs {
      assert u == t ==> KeptTouched(fs0, fs', u);
    }
  }

  /** The content that is due once the commits of targets `ahead` are in the file. */
  function Settle(due: FileSystem, fs: FileSystem, ahead: set<string>): FileSystem {
    (map p | p in due && !(p.Target? && p.name in ahead) :: due[p]) + (map p | p in fs && p.Target? && p.name in ahead :: fs[p])
  }

  lemma SettleAt(due: FileSystem, fs: FileSystem, ahead: set<string>, p: Path)
    ensures At(Settle(due, fs, ahead), p) == At(if p.Target? && p.name in ahead then fs else due, p)
  {
  }

  /** A commit attempt gave target t up: it touched the kept content, or there was none and
      the commit is in the file. */
  ghost predicate Touched(fs0: FileSystem, fs: FileSystem, was: seq<SwapRecord>, now: seq<SwapRecord>, t: string) {
    KeptTouched(fs0, fs, t) || NewlyCommitted(was, now, t)
  }

  /** What a commit attempt did to target t, wherever it stopped: t is given up exactly when
      it was touched; then what is due is what is left, a part of the kept content or what
      the restore put in place. */
  ghost predicate CommitBooked(fs0: FileSystem, fs: FileSystem, due0: FileSystem, due: FileSystem, lost0: set<string>,
                               lost: set<string>, was: seq<SwapRecord>, now: seq<SwapRecord>, t: string) {
    var touched := Touched(fs0, fs, was, now, t);
    && (t in lost <==> t in lost0 || touched)
    && At(due, Target(t)) == (if touched then Kept(fs, t) else At(due0, Target(t)))
    && (touched ==> Kept(fs, t) in {Some(Partial), At(fs0, Target(t))})
  }

  /** The deletes of a commit, and then the save: `saved` are the commits it settled. */
  lemma CommitBooks(fs0: FileSystem, fs: FileSystem, due0: FileSystem, due: FileSystem, lost0: set<string>, lost: set<string>,
                    was: seq<SwapRecord>, now: seq<SwapRecord>, saved: set<string>, orig: FileSystem, t: string)
    requires GaveUp(fs0, fs, due0, due, lost0, lost, t) && Booked(orig, due0, lost0, t)
    requires (t in saved <==> NewlyCommitted(was, now, t)) && (t in saved ==> Previous(t) !in fs)
    ensures CommitBooked(fs0, fs, due0, Settle(due, fs, saved), lost0, lost + saved, was, now, t)
    ensures Booked(orig, Settle(due, fs, saved), lost + saved, t)
  {
    SettleAt(due, fs, saved, Target(t));
    SettleAt(due, fs, saved, Staging(t));
  }

  lemma SettleNone(due: FileSystem, fs: FileSystem)
    ensures Settle(due, fs, {}) == due
  {
  }

  lemma CommitBooksUnsaved(fs0: FileSystem, fs: FileSystem, due0: FileSystem, due: FileSystem, lost0: set<string>,
                           lost: set<string>, was: seq<SwapRecord>, orig: FileSystem, t: string)
    requires GaveUp(fs0, fs, due0, due, lost0, lost, t) && Booked(orig, due0, lost0, t)
    ensures CommitBooked(fs0, fs, due0, due, lost0, lost, was, was, t) && Booked(orig, due, lost, t)
  {
    CommitBooks(fs0, fs, due0, due, lost0, lost, was, was, {}, orig, t);
    SettleNone(due, fs);
    assert lost + {} == lost;
  }

  lemma SafeSettled(swaps: seq<SwapRecord>, fs: FileSystem, due: FileSystem, ahead: set<string>)
    requires Safe(swaps, fs, due, ahead)
    requires forall t :: t in ahead ==> Latest(swaps, t).Some? && Latest(swaps, t).value.state == SwapCommitted
    ensures Safe(swaps, fs, Settle(due, fs, ahead), {})
  {
    var due' := Settle(due, fs, ahead);
    forall t
      ensures SiblingsOk(Latest(swaps, t), t, fs, due')
      ensures SlotOk(Latest(swaps, t), t, fs, At(due', Target(t)))
    {
      SettleAt(due, fs, ahead, Target(t));
      SettleAt(due, fs, ahead, Staging(t));
      assert SiblingsOk(Latest(swaps, t), t, fs, due);
    }
  }

  // ---- Created objects ------------------------------------------------------

  datatype RunState = Running | Paused | Stopped

  datatype Container = Container(id: nat, run: RunState)

  /** The container engine's objects; containers by name. IDs are given out once. */
  datatype Engine = Engine(volumes: set<string>, networks: set<string>, containers: map<string, Container>,
                           nextId: nat) {
    ghost predicate UniqueIds() {
      && (forall m, n :: m in containers && n in containers && containers[m].id == containers[n].id ==> m == n)
      && (forall n :: n in containers ==> containers[n].id < nextId)
    }
  }

  datatype Ref = ByName(name: string) | ById(id: nat)

  function RefOf(c: CreatedContainer): Ref {
    if c.id.Some? then ById(c.id.value) else ByName(c.name)
  }

  /** Container n is the one `ref` denotes. */
  predicate Denotes(e: Engine, ref: Ref, n: string) {
    && n in e.containers
    && match ref
       case ByName(m) => m == n
       case ById(i) => e.containers[n].id == i
  }

  /** What the restore created and has not removed again. */
  datatype Made = Made(volumes: set<string>, networks: set<string>, containers: set<string>)

  const NOTHING_MADE := Made({}, {}, {})

  /** The journal lists every volume, network and container the restore created,
      and everything it lists that exists was created by the restore. */
  ghost predicate WriteAhead(j: CreatedObjects, e: Engine, made: Made) {
    && made.volumes <= e.volumes
    && made.networks <= e.networks
    && made.containers <= e.containers.Keys
    && (forall v :: v in made.volumes <==> v in j.volumes && v in e.volumes)
    && (forall n :: n in made.networks <==> n in j.networks && n in e.networks)
    && ListsContainers(j.containers, e, made.containers)
  }

  /** Some entry of the list denotes the container. */
  ghost predicate Listed(cs: seq<CreatedContainer>, e: Engine, n: string) {
    exists i :: 0 <= i < |cs| && Denotes(e, RefOf(cs[i]), n)
  }

  ghost predicate ListsContainers(cs: seq<CreatedContainer>, e: Engine, made: set<string>) {
    forall n :: n in made <==> Listed(cs, e, n)
  }

  /** An entry among others. */
  lemma ListedAmong(a: seq<CreatedContainer>, c: CreatedContainer, b: seq<CreatedContainer>, e: Engine, n: string)
    ensures Listed(a + [c] + b, e, n) <==> Listed(a + b, e, n) || Denotes(e, RefOf(c), n)
  {
    var cs, ds := a + [c] + b, a + b;
    assert cs[|a|] == c;
    if Listed(cs, e, n) && !Denotes(e, RefOf(c), n) {
      var k :| 0 <= k < |cs| && Denotes(e, RefOf(cs[k]), n);
      assert ds[if k < |a| then k else k - 1] == cs[k];
    }
    if Listed(ds, e, n) {
      var k :| 0 <= k < |ds| && Denotes(e, RefOf(ds[k]), n);
      assert cs[if k < |a| then k else k + 1] == ds[k];
    }
  }

  /** An entry that denotes nothing may be added or dropped. */
  lemma ListForget(a: seq<CreatedContainer>, c: CreatedContainer, b: seq<CreatedContainer>, e: Engine, made: set<string>)
    requires forall n :: !Denotes(e, RefOf(c), n)
    ensures ListsContainers(a + [c] + b, e, made) <==> ListsContainers(a + b, e, made)
  {
    forall n ensures Listed(a + [c] + b, e, n) <==> Listed(a + b, e, n) {
      ListedAmong(a, c, b, e, n);
    }
  }

  /** Journaling the name of a container that does not exist is harmless. */
  lemma ListIntent(cs: seq<CreatedContainer>, e: Engine, made: set<string>, name: string)
    requires name !in e.containers
    ensures ListsContainers(cs + [CreatedContainer(name, None)], e, made) <==> ListsContainers(cs, e, made)
  {
    var c := CreatedContainer(name, None);
    assert cs + [c] + [] == cs + [c] && cs + [] == cs;
    ListForget(cs, c, [], e, made);
  }

  /** A list naming a container before it is created lists it afterwards. */
  lemma ListCreated(cs: seq<CreatedContainer>, e: Engine, after: Engine, made: set<string>, name: string, c: Container)
    requires ListsContainers(cs, e, made) && name !in e.containers && CreatedContainer(name, None) in cs
    requires after.containers == e.containers[name := c]
    ensures ListsContainers(cs, after, made + {name})
  {
    var i :| 0 <= i < |cs| && cs[i] == CreatedContainer(name, None);
    assert Denotes(after, RefOf(cs[i]), name);
    forall n | n != name ensures Listed(cs, after, n) <==> Listed(cs, e, n) {
      assert forall k :: 0 <= k < |cs| ==> (Denotes(after, RefOf(cs[k]), n) <==> Denotes(e, RefOf(cs[k]), n));
    }
  }

  /** The last entry may get the container's ID once the engine returned it. */
  lemma ListId(cs: seq<CreatedContainer>, e: Engine, made: set<string>, name: string)
    requires cs != [] && cs[|cs| - 1] == CreatedContainer(name, None)
    requires ListsContainers(cs, e, made) && name in e.containers && e.UniqueIds()
    ensures ListsContainers(cs[|cs| - 1 := CreatedContainer(name, Some(e.containers[name].id))], e, made)
  {
    var ds := cs[|cs| - 1 := CreatedContainer(name, Some(e.containers[name].id))];
    forall n ensures Listed(ds, e, n) <==> Listed(cs, e, n) {
      assert forall k :: 0 <= k < |cs| ==> (Denotes(e, RefOf(ds[k]), n) <==> Denotes(e, RefOf(cs[k]), n));
    }
  }

  /** Creating a journaled volume, network or container keeps the journal complete. */
  lemma VolumeMade(j: CreatedObjects, e: Engine, made: Made, v: string)
    requires WriteAhead(j, e, made) && v !in e.volumes && v in j.volumes
    ensures WriteAhead(j, e.(volumes := e.volumes + {v}), made.(volumes := made.volumes + {v}))
  {
    ListSame(j.containers, e, e.(volumes := e.volumes + {v}), made.containers);
  }

  lemma NetworkMade(j: CreatedObjects, e: Engine, made: Made, n: string)
    requires WriteAhead(j, e, made) && n !in e.networks && n in j.networks
    ensures WriteAhead(j, e.(networks := e.networks + {n}), made.(networks := made.networks + {n}))
  {
    ListSame(j.containers, e, e.(networks := e.networks + {n}), made.containers);
  }

  lemma ContainerMade(j: CreatedObjects, e: Engine, made: Made, name: string, c: Container, next: nat)
    requires WriteAhead(j, e, made) && name !in e.containers && CreatedContainer(name, None) in j.containers
    ensures WriteAhead(j, e.(containers := e.containers[name := c], nextId := next),
                       made.(containers := made.containers + {name}))
    ensures OthersOf(e.(containers := e.containers[name := c], nextId := next),
                     made.(containers := made.containers + {name})) == OthersOf(e, made)
    ensures e.UniqueIds() && c.id == e.nextId && next == e.nextId + 1 ==>
              e.(containers := e.containers[name := c], nextId := next).UniqueIds()
  {
    ListCreated(j.containers, e, e.(containers := e.containers[name := c], nextId := next), made.containers, name, c);
  }

  /** Removing an object the restore made. */
  lemma VolumeRemoved(j: CreatedObjects, e: Engine, made: Made, v: string)
    requires WriteAhead(j, e, made) && v in j.volumes
    ensures WriteAhead(j, e.(volumes := e.volumes - {v}), made.(volumes := made.volumes - {v}))
    ensures OthersOf(e.(volumes := e.volumes - {v}), made.(volumes := made.volumes - {v})) == OthersOf(e, made)
  {
    ListSame(j.containers, e, e.(volumes := e.volumes - {v}), made.containers);
  }

  lemma NetworkRemoved(j: CreatedObjects, e: Engine, made: Made, n: string)
    requires WriteAhead(j, e, made) && n in j.networks
    ensures WriteAhead(j, e.(networks := e.networks - {n}), made.(networks := made.networks - {n}))
    ensures OthersOf(e.(networks := e.networks - {n}), made.(networks := made.networks - {n})) == OthersOf(e, made)
  {
    ListSame(j.containers, e, e.(networks := e.networks - {n}), made.containers);
  }

  lemma ContainerRemoved(j: CreatedObjects, e: Engine, made: Made, name: string)
    requires WriteAhead(j, e, made) && e.UniqueIds() && name in made.containers
    ensures WriteAhead(j, e.(containers := e.containers - {name}), made.(containers := made.containers - {name}))
    ensures OthersOf(e.(containers := e.containers - {name}), made.(containers := made.containers - {name})) ==
            OthersOf(e, made)
    ensures e.(containers := e.containers - {name}).UniqueIds()
  {
    var cs, after := j.containers, e.(containers := e.containers - {name});
    forall n ensures Listed(cs, after, n) <==> Listed(cs, e, n) && n != name {
      assert forall k :: 0 <= k < |cs| && n != name ==> (Denotes(after, RefOf(cs[k]), n) <==> Denotes(e, RefOf(cs[k]), n));
    }
  }

  /** Starting and stopping containers changes no list. */
  lemma RunChanged(j: CreatedObjects, e: Engine, made: Made, name: string, run: RunState)
    requires WriteAhead(j, e, made) && e.UniqueIds() && name in e.containers
    ensures
      var after := e.(containers := e.containers[name := e.containers[name].(run := run)]);
      WriteAhead(j, after, made) && OthersOf(after, made) == OthersOf(e, made) && after.UniqueIds()
  {
    ListSame(j.containers, e, e.(containers := e.containers[name := e.containers[name].(run := run)]), made.containers);
  }

  /** A container list depends on the containers' names and IDs alone. */
  lemma ListSame(cs: seq<CreatedContainer>, e: Engine, after: Engine, made: set<string>)
    requires ListsContainers(cs, e, made) && after.containers.Keys == e.containers.Keys
    requires forall n :: n in e.containers ==> after.containers[n].id == e.containers[n].id
    ensures ListsContainers(cs, after, made)
  {
    forall n ensures Listed(cs, after, n) <==> Listed(cs, e, n) {
      assert forall k :: 0 <= k < |cs| ==> (Denotes(after, RefOf(cs[k]), n) <==> Denotes(e, RefOf(cs[k]), n));
    }
  }

  /** The objects of others: what a restore may not touch (containers with their IDs). */
  datatype Others = Others(volumes: set<string>, networks: set<string>, containers: map<string, nat>)

  ghost function OthersOf(e: Engine, made: Made): Others {
    Others(e.volumes - made.volumes, e.networks - made.networks,
           map n | n in e.containers && n !in made.containers :: e.containers[n].id)
  }
}
