/** Quiesce leases and the dead-man switch (internal/agent/quiesce.go). */
module Leases {
  import opened Common

  datatype RunState = Running | Restarting | Paused | Exited | Created | Removing | Dead {
    predicate Up() {
      Running? || Restarting?
    }
  }

  datatype Mode = PauseMode | StopMode

  datatype ContainerState = ContainerState(id: string, state: RunState)

  datatype Lease = Lease(id: string, app: string, mode: Mode, pre: seq<ContainerState>, expiresAt: nat,
                         warned: bool, autoResumedAt: Option<nat>, resumed: seq<string>) {
    predicate Active() {
      autoResumedAt.None?
    }

    /** Container c was running when the lease began. */
    predicate Holds(c: string) {
      ContainerState(c, Running) in pre
    }
  }

  type Table = map<string, Lease>

  const AUTO_RESUMED_KEEP: nat := 7 * 24 * 3600

  /** Each lease is filed under its own ID. */
  ghost predicate Keyed(t: Table) {
    forall i :: i in t ==> t[i].id == i
  }

  ghost predicate OneLeasePerApp(t: Table) {
    forall i, k :: i in t && k in t && t[i].Active() && t[k].Active() && t[i].app == t[k].app ==> i == k
  }

  /** Every container the agent took down is held by an active lease. */
  ghost predicate Covers(t: Table, down: set<string>) {
    forall c :: c in down ==> exists i :: i in t && t[i].Active() && t[i].Holds(c)
  }

  ghost predicate Sound(t: Table, down: set<string>) {
    Keyed(t) && OneLeasePerApp(t) && Covers(t, down)
  }

  /** Dropping, or deactivating, a lease whose containers are up keeps the rest covered. */
  lemma Release(t: Table, after: Table, down: set<string>, id: string)
    requires Sound(t, down) && id in t && Keyed(after) && after.Keys <= t.Keys
    requires forall i :: i in after && i != id ==> after[i] == t[i]
    requires forall i :: i in t && i != id ==> i in after
    requires id in after ==> !after[id].Active()
    requires forall c :: t[id].Holds(c) ==> c !in down
    ensures Sound(after, down)
  {
    forall c | c in down
      ensures exists i :: i in after && after[i].Active() && after[i].Holds(c)
    {
      var i :| i in t && t[i].Active() && t[i].Holds(c);
      assert i in after && after[i] == t[i];
    }
  }

  lemma CoversFewer(t: Table, down: set<string>, fewer: set<string>)
    requires Sound(t, down) && fewer <= down
    ensures Sound(t, fewer)
  {
  }

  /** A new active lease of an application without one. */
  lemma AddLease(t: Table, down: set<string>, l: Lease)
    requires Sound(t, down) && l.id !in t
    requires forall i :: i in t && t[i].Active() ==> t[i].app != l.app
    ensures Sound(t[l.id := l], down)
  {
    var after := t[l.id := l];
    forall c | c in down
      ensures exists i :: i in after && after[i].Active() && after[i].Holds(c)
    {
      var i :| i in t && t[i].Active() && t[i].Holds(c);
      assert i in after && after[i] == t[i];
    }
  }

  type Containers = map<string, RunState>

  predicate UpIn(cs: Containers, c: string) {
    c in cs && cs[c].Up()
  }

  /** Table t came from t0 by resuming: the same pre-states, and a lease that is no
      longer active has every container that was running up again. */
  ghost predicate Resumes(cs: Containers, t0: Table, t: Table) {
    && t.Keys <= t0.Keys
    && (forall i :: i in t ==> t[i].pre == t0[i].pre)
    && (forall i, c :: i in t0 && t0[i].Active() && !(i in t && t[i].Active()) && t0[i].Holds(c) ==> UpIn(cs, c))
  }

  /** Nothing but containers held by a lease of t changed, and those only to running. */
  ghost predicate OnlyResumed(before: Containers, after: Containers, t: Table) {
    && after.Keys == before.Keys
    && forall c :: c in after ==>
         after[c] == before[c] || (after[c] == Running && exists i :: i in t && t[i].Holds(c))
  }

  lemma ResumeMore(cs0: Containers, cs1: Containers, cs2: Containers, t0: Table, t1: Table, t2: Table)
    requires OnlyResumed(cs0, cs1, t0) && Resumes(cs1, t0, t1)
    requires OnlyResumed(cs1, cs2, t1) && Resumes(cs2, t1, t2)
    ensures OnlyResumed(cs0, cs2, t0) && Resumes(cs2, t0, t2)
  {
    forall c | c in cs2 && cs2[c] != cs0[c]
      ensures cs2[c] == Running && exists i :: i in t0 && t0[i].Holds(c)
    {
      if cs2[c] != cs1[c] {
        var i :| i in t1 && t1[i].Holds(c);
        assert i in t0 && t0[i].Holds(c);
      }
    }
    forall i, c | i in t0 && t0[i].Active() && !(i in t2 && t2[i].Active()) && t0[i].Holds(c)
      ensures UpIn(cs2, c)
    {
      if !(i in t1 && t1[i].Active()) {
        assert UpIn(cs1, c);
      } else {
        assert t1[i].Holds(c);
      }
    }
  }

  /** A table stays resumed while containers only come up. */
  lemma StillResumed(cs1: Containers, cs2: Containers, t0: Table, t: Table, u: Table)
    requires Resumes(cs1, t0, t) && OnlyResumed(cs1, cs2, u)
    ensures Resumes(cs2, t0, t)
  {
    forall i, c | i in t0 && t0[i].Active() && !(i in t && t[i].Active()) && t0[i].Holds(c)
      ensures UpIn(cs2, c)
    {
      assert UpIn(cs1, c);
    }
  }

  /** Table t knows lease l by its pre-states, and if it ended, all its containers are up. */
  ghost predicate Tracks(l: Lease, t: Table, cs: Containers) {
    && (l.id in t ==> t[l.id].pre == l.pre)
    && (!(l.id in t && t[l.id].Active()) ==> forall c :: l.Holds(c) ==> UpIn(cs, c))
  }

  /** Every lease of the table holds containers of the given set only. */
  ghost predicate HeldWithin(t: Table, may: iset<string>) {
    forall i, c :: i in t && t[i].Holds(c) ==> c in may
  }

  /** From one state to another no container held by l goes down, and none outside the set
      `may` changes, comes or goes. */
  ghost predicate Progress(l: Lease, may: iset<string>, before: Containers, after: Containers) {
    && (forall c :: l.Holds(c) && UpIn(before, c) ==> UpIn(after, c))
    && (forall c :: c !in may ==> StateOf(after, c) == StateOf(before, c))
  }

  function StateOf(cs: Containers, c: string): Option<RunState> {
    if c in cs then Some(cs[c]) else None
  }

  lemma ProgressMore(l: Lease, may: iset<string>, cs0: Containers, cs1: Containers, cs2: Containers)
    requires Progress(l, may, cs0, cs1) && Progress(l, may, cs1, cs2)
    ensures Progress(l, may, cs0, cs2)
  {
  }

  /** A resuming step keeps lease l tracked, held sets within `may`, and makes progress. */
  lemma TracksOn(l: Lease, t: Table, t2: Table, may: iset<string>, cs: Containers, cs2: Containers)
    requires Tracks(l, t, cs) && HeldWithin(t, may)
    requires OnlyResumed(cs, cs2, t) && Resumes(cs2, t, t2)
    ensures Tracks(l, t2, cs2) && HeldWithin(t2, may) && Progress(l, may, cs, cs2)
  {
    if !(l.id in t2 && t2[l.id].Active()) {
      forall c | l.Holds(c)
        ensures UpIn(cs2, c)
      {
        if l.id in t && t[l.id].Active() {
          assert t[l.id].Holds(c);
        } else {
          assert UpIn(cs, c);
        }
      }
    }
    forall i, c | i in t2 && t2[i].Holds(c)
      ensures c in may
    {
      assert t[i].Holds(c);
    }
  }

  /** A table that did not change is still tracked while no held container goes down. */
  lemma TracksStill(l: Lease, t: Table, may: iset<string>, cs: Containers, cs2: Containers)
    requires Tracks(l, t, cs) && Progress(l, may, cs, cs2)
    ensures Tracks(l, t, cs2)
  {
  }

  /** Tables that agree on l.id track it alike. */
  lemma TracksSame(l: Lease, t: Table, t2: Table, cs: Containers)
    requires Tracks(l, t, cs) && (l.id in t2 <==> l.id in t) && (l.id in t ==> t2[l.id] == t[l.id])
    ensures Tracks(l, t2, cs)
  {
  }

  datatype TimerKind = Warning | Expiry

  datatype Timer = Timer(lease: string, kind: TimerKind)

  datatype ResumeResult = Resumed(ids: seq<string>) | AlreadyResumed | AutoResumed(ids: seq<string>) | ResumeFailed | ResumeDied

  datatype QuiesceResult = Quiesced(lease: Lease) | QuiesceRefused | QuiesceFailed | QuiesceDied

  datatype Request = Request(lease: string, app: string, mode: Mode, seconds: nat, ids: seq<string>)

  const DEFAULT_LEASE_SECONDS: nat := 65 * 60

  datatype Event =
    | QuiesceEvent(q: Request)
    | ResumeEvent(id: string)
    | FireEvent(t: nat)
    | ExpireEvent(id: string)
    | WarnEvent(id: string)
    | OutsideEvent(c: string, state: Option<RunState>)
    | ShutdownEvent
    | RestartEvent
    | TickEvent(d: nat)

  /** Table t2 is t with the lease that request q asked for in state cs. */
  ghost predicate Adds(t: Table, t2: Table, q: Request, cs: Containers) {
    q.lease in t2 && t2 == t[q.lease := t2[q.lease]] && forall c :: t2[q.lease].Holds(c) ==> WillHold(q, cs, c)
  }

  /** The event is no new quiesce of lease l and does not touch its containers. */
  ghost predicate Spares(e: Event, l: Lease) {
    match e
    case QuiesceEvent(q) => q.lease != l.id && forall c :: c in q.ids ==> !l.Holds(c)
    case OutsideEvent(c, _) => !l.Holds(c)
    case _ => true
  }

  /** The event is no other use of the lease ID and names no container that runs and that
      request q is about to take down. */
  ghost predicate Apart(e: Event, q: Request, cs: Containers) {
    match e
    case QuiesceEvent(other) => other.lease != q.lease && forall c :: c in other.ids ==> !WillHold(q, cs, c)
    case OutsideEvent(c, _) => !WillHold(q, cs, c)
    case _ => true
  }

  /** What a quiesce takes down: the requested containers that run. */
  predicate WillHold(q: Request, cs: Containers, c: string) {
    c in q.ids && c in cs && cs[c] == Running
  }

  /** The event is about container c, as far as a quiesce in state cs is. */
  predicate Names(e: Event, cs: Containers, c: string) {
    match e
    case QuiesceEvent(q) => WillHold(q, cs, c)
    case OutsideEvent(d, _) => c == d
    case _ => false
  }

  /** The event is about containers of the given set only. */
  ghost predicate Within(e: Event, may: iset<string>, cs: Containers) {
    forall c :: Names(e, cs, c) ==> c in may
  }

  /** The containers that a quiesce and a run after it may change at all: those that a lease
      holds, or that run and are asked for, or that change from outside. */
  ghost predicate Concerned(t: Table, q: Request, events: seq<Event>, cs: Containers, c: string) {
    || (exists i :: i in t && t[i].Holds(c))
    || WillHold(q, cs, c)
    || (exists k :: 0 <= k < |events| && Names(events[k], cs, c))
  }

  /** Outside the set nothing changed, so an event is still about its containers only. */
  lemma WithinLater(e: Event, may: iset<string>, cs: Containers, cs2: Containers)
    requires Within(e, may, cs) && forall c :: c !in may ==> StateOf(cs2, c) == StateOf(cs, c)
    ensures Within(e, may, cs2)
  {
    forall c | Names(e, cs2, c) ensures c in may {
      assert c !in may ==> StateOf(cs2, c) == StateOf(cs, c) && Names(e, cs, c);
    }
  }

  class Manager {
    var leases: Table
    var file: Table
    var containers: map<string, RunState>
    /** Timer objects filed per lease; a fired or stopped one is no longer pending. */
    var timers: map<string, set<nat>>
    var pending: map<nat, Timer>
    var nextTimer: nat
    /** Expiry calls that wait for the lock, one element per call. */
    var calls: multiset<string>
    var now: nat
    var live: bool
    /** Containers the agent paused or stopped that have not been up since. */
    ghost var down: set<string>

    constructor (containers0: map<string, RunState>)
      ensures Inv() && Switched() && leases == map[] && file == map[] && containers == containers0 && down == {} && !live
    {
      leases, file, containers := map[], map[], containers0;
      timers, pending, nextTimer, calls := map[], map[], 0, multiset{};
      now, live, down := 0, false, {};
    }

    /** Holds at every crash point. */
    ghost predicate FileOk()
      reads this`file, this`down, this`containers
    {
      && Sound(file, down)
      && forall c :: c in down && c in containers ==> !containers[c].Up()
    }

    ghost predicate Inv()
      reads this`file, this`down, this`containers, this`leases
    {
      FileOk() && Sound(leases, down)
    }

    /** Lease id has a pending expiry or retry timer, or an expiry call under way. */
    ghost predicate Armed(id: string)
      reads this`timers, this`pending, this`calls
    {
      || id in calls
      || (id in timers && exists t :: t in timers[id] && t in pending && pending[t] == Timer(id, Expiry))
    }

    ghost predicate TimersOk()
      reads this`timers, this`pending, this`nextTimer
    {
      && (forall t :: t in pending ==> t < nextTimer)
      && (forall i, t :: i in timers && t in timers[i] ==> t < nextTimer)
      && (forall i, t :: i in timers && t in timers[i] && t in pending ==> pending[t].lease == i)
    }

    /** Every active lease but the given ones is armed while the agent is up. */
    ghost predicate SwitchedExcept(ids: set<string>)
      reads this`timers, this`pending, this`calls, this`leases, this`live, this`nextTimer
    {
      && TimersOk()
      && (live ==> forall i :: i in leases && leases[i].Active() && i !in ids ==> Armed(i))
    }

    /** The dead-man switch: every active lease is armed while the agent is up. */
    ghost predicate Switched()
      reads this`timers, this`pending, this`calls, this`leases, this`live, this`nextTimer
    {
      SwitchedExcept({})
    }

    // ---- Outside calls --------------------------------------------------------

    /** writeFileAtomic of leases.json. */
    method Save() returns (o: Outcome)
      requires Inv()
      modifies this`file
      ensures Inv()
      ensures o.Ok? ==> file == leases
      ensures o.Err? ==> file == old(file)
      ensures file == old(file) || file == leases
    {
      o := *;
      var reached: bool := *;
      if o.Ok? || (o.Crash? && reached) {
        file := leases;
      }
    }

    /** Pause or Stop; on an error it may have taken effect or not. */
    method TakeDown(c: string, mode: Mode) returns (o: Outcome)
      requires Inv()
      requires exists i :: i in leases && leases[i].Active() && leases[i].Holds(c)
      requires exists i :: i in file && file[i].Active() && file[i].Holds(c)
      modifies this`containers, this`down
      ensures Inv()
      ensures o.Ok? ==> c in containers && !containers[c].Up()
      ensures forall d :: d != c ==> (d in containers <==> d in old(containers)) && (d in containers ==> containers[d] == old(containers)[d])
      ensures containers.Keys == old(containers).Keys && down - {c} == old(down) - {c}
    {
      o := *;
      if c !in containers {
        if o.Ok? { o := Err; }
        return;
      }
      var effect: bool := *;
      if o.Ok? || effect {
        containers := containers[c := if mode.PauseMode? then Paused else Exited];
        down := down + {c};
      }
    }

    /** Unpause or Start; on an error it may have taken effect or not. */
    method BringUp(c: string) returns (o: Outcome)
      requires Inv() && c in containers
      modifies this`containers, this`down
      ensures Inv()
      ensures containers == old(containers) || containers == old(containers)[c := Running]
      ensures o.Ok? ==> containers == old(containers)[c := Running]
      ensures down <= old(down) && (o.Ok? ==> c !in down)
    {
      o := *;
      var effect: bool := *;
      if o.Ok? || effect {
        containers := containers[c := Running];
        CoversFewer(file, down, down - {c});
        CoversFewer(leases, down, down - {c});
        down := down - {c};
      }
    }

    // ---- Timers ---------------------------------------------------------------

    method Disarm(id: string, ghost ids: set<string>)
      requires SwitchedExcept(ids) && id in ids
      modifies this`timers, this`pending
      ensures SwitchedExcept(ids) && id !in timers
    {
      if id in timers {
        var ts := timers[id];
        pending := map t | t in pending && t !in ts :: pending[t];
        timers := timers - {id};
        forall i | live && i in leases && leases[i].Active() && i !in ids ensures Armed(i) {
          assert old(Armed(i));
          if i !in calls {
            var t :| t in timers[i] && t in old(pending) && old(pending)[t] == Timer(i, Expiry);
            assert t !in ts;
          }
        }
      }
    }

    method NewTimer(id: string, kind: TimerKind, ghost ids: set<string>) returns (t: nat)
      requires SwitchedExcept(ids) && id !in timers
      modifies this`pending, this`nextTimer
      ensures SwitchedExcept(ids)
      ensures t == old(nextTimer) < nextTimer && pending == old(pending)[t := Timer(id, kind)]
    {
      t := nextTimer;
      pending := pending[t := Timer(id, kind)];
      nextTimer := nextTimer + 1;
    }

    /** Files the timers of a lease; one of them is an expiry. */
    method FileTimers(id: string, ts: set<nat>, expiry: nat, ghost ids: set<string>)
      requires SwitchedExcept(ids) && id !in timers && expiry in ts && expiry in pending && pending[expiry] == Timer(id, Expiry)
      requires forall t :: t in ts ==> t in pending && pending[t].lease == id
      modifies this`timers
      ensures SwitchedExcept(ids - {id}) && Armed(id)
    {
      timers := timers[id := ts];
      assert expiry in timers[id];
    }

    /** Schedules the warning and the expiry. */
    method Arm(l: Lease, ghost ids: set<string>)
      requires SwitchedExcept(ids) && l.id in ids
      modifies this`timers, this`pending, this`nextTimer
      ensures SwitchedExcept(ids - {l.id}) && Armed(l.id)
    {
      Disarm(l.id, ids);
      var ts: set<nat> := {};
      if !l.warned {
        var w := NewTimer(l.id, Warning, ids);
        ts := {w};
      }
      var x := NewTimer(l.id, Expiry, ids);
      FileTimers(l.id, ts + {x}, x, ids);
    }

    /** Schedules another try of a failed automatic resume. */
    method ArmRetry(id: string, ghost ids: set<string>)
      requires SwitchedExcept(ids) && id in ids
      modifies this`timers, this`pending, this`nextTimer
      ensures SwitchedExcept(ids - {id}) && Armed(id)
    {
      Disarm(id, ids);
      var x := NewTimer(id, Expiry, ids);
      FileTimers(id, {x}, x, ids);
    }

    // ---- Restore --------------------------------------------------------------

    /** Container c, held by a lease, is up again or was not taken down. */
    ghost predicate IsUp(c: string)
      reads this`containers
    {
      UpIn(containers, c)
    }

    /** Nothing but held containers of l changed since `before`, and those only to running. */
    ghost predicate OnlyBroughtUp(before: map<string, RunState>, l: Lease)
      reads this`containers
    {
      && containers.Keys == before.Keys
      && forall c :: c in containers ==> containers[c] == before[c] || (containers[c] == Running && l.Holds(c))
    }

    /** restore for one container that was running. */
    method RestoreOne(c: string) returns (o: Outcome, resumed: bool)
      requires Inv()
      modifies this`containers, this`down
      ensures Inv() && down <= old(down)
      ensures containers == old(containers) || (c in old(containers) && containers == old(containers)[c := Running])
      ensures o.Ok? ==> IsUp(c)
    {
      o, resumed := *, false; // InspectState
      if !o.Ok? { return; }
      if c !in containers { return Err, false; }
      match containers[c] {
        case Running => return Ok, false;
        case Restarting => return Ok, false;
        case Removing => return Err, false;
        case Dead => return Err, false;
        case _ =>
          o := BringUp(c);
          resumed := o.Ok?;
      }
    }

    /** Brings every container that was running before back; goes on after errors. */
    method Restore(l: Lease) returns (o: Outcome, resumed: seq<string>)
      requires Inv()
      modifies this`containers, this`down
      ensures Inv() && down <= old(down) && OnlyBroughtUp(old(containers), l)
      ensures o.Ok? ==> forall c :: l.Holds(c) ==> IsUp(c)
    {
      resumed := [];
      o := *; // m.ctl()
      if !o.Ok? { return; }
      var i := 0;
      var failed := false;
      while i < |l.pre|
        invariant i <= |l.pre| && Inv() && down <= old(down) && OnlyBroughtUp(old(containers), l)
        invariant !failed ==> forall k :: 0 <= k < i && l.pre[k].state == Running ==> IsUp(l.pre[k].id)
      {
        if l.pre[i].state == Running {
          var r;
          o, r := RestoreOne(l.pre[i].id);
          if o.Crash? { return; }
          if o.Err? { failed := true; }
          if r { resumed := resumed + [l.pre[i].id]; }
        }
        i := i + 1;
      }
      o := if failed then Err else Ok;
    }

    /** The containers of lease id are up, so the lease may stop being active. */
    lemma ReleaseIds(after: Table, id: string)
      requires Inv() && id in leases && Keyed(after) && after.Keys <= leases.Keys
      requires forall i :: i in after && i != id ==> after[i] == leases[i]
      requires forall i :: i in leases && i != id ==> i in after
      requires id in after ==> !after[id].Active()
      requires forall c :: leases[id].Holds(c) ==> IsUp(c)
      ensures Sound(after, down)
    {
      Release(leases, after, down, id);
    }

    // ---- Dead-man switch ------------------------------------------------------

    /** Ends a lease whose containers are all up, in memory. */
    method EndLease(id: string, after: Table, ghost ids: set<string>)
      requires Inv() && id in leases && Keyed(after) && after.Keys <= leases.Keys && SwitchedExcept(ids) && id in ids
      requires forall i :: i in after && i != id ==> after[i] == leases[i]
      requires forall i :: i in leases && i != id ==> i in after
      requires id in after ==> !after[id].Active()
      requires forall c :: leases[id].Holds(c) ==> IsUp(c)
      modifies this`leases
      ensures Inv() && leases == after && SwitchedExcept(ids - {id})
    {
      ReleaseIds(after, id);
      leases := after;
    }

    /** Marks a lease whose containers are all up as resumed by the switch. */
    method FinishAutoResume(id: string, resumed: seq<string>, ghost ids: set<string>) returns (o: Outcome)
      requires Inv() && id in leases && leases[id].Active() && SwitchedExcept(ids) && id in ids
      requires forall c :: leases[id].Holds(c) ==> IsUp(c)
      modifies this`leases, this`file, this`timers, this`pending
      ensures Inv() && SwitchedExcept(ids - {id}) && !o.Err?
      ensures leases == old(leases)[id := old(leases)[id].(autoResumedAt := Some(now), resumed := resumed)]
      ensures file == old(file) || file == leases
    {
      Disarm(id, ids);
      EndLease(id, leases[id := leases[id].(autoResumedAt := Some(now), resumed := resumed)], ids);
      o := Save();
      if o.Err? { o := Ok; }
    }

    /** The switch fires for an active lease. A failure is retried. */
    method AutoResume(id: string, ghost ids: set<string>) returns (o: Outcome)
      requires Inv() && id in leases && leases[id].Active() && SwitchedExcept(ids) && id in ids
      modifies this`containers, this`down, this`leases, this`file, this`timers, this`pending, this`nextTimer, this`live
      ensures Inv() && OnlyBroughtUp(old(containers), old(leases)[id]) && (live ==> old(live))
      ensures !o.Crash? ==> SwitchedExcept(ids - {id})
      ensures leases.Keys == old(leases).Keys
      ensures o.Ok? && live ==> !leases[id].Active()
      ensures o.Err? && live ==> Armed(id)
      // the lease ends only with every container that was running up again
      ensures leases == old(leases) || (
                && leases == old(leases)[id := old(leases)[id].(autoResumedAt := Some(now), resumed := leases[id].resumed)]
                && forall c :: old(leases)[id].Holds(c) ==> IsUp(c))
      ensures file == old(file) || file == leases
    {
      var resumed;
      o, resumed := Restore(leases[id]);
      if o.Crash? { return; }
      var stopping: bool := *;
      if stopping {
        live := false;
        return;
      }
      if o.Err? {
        ArmRetry(id, ids);
        return;
      }
      o := FinishAutoResume(id, resumed, ids);
    }

    /** A timer fires: its callback starts and waits for the lock. */
    method Fire(t: nat)
      requires Inv() && Switched()
      modifies this`pending, this`calls
      ensures Inv() && Switched()
    {
      if t in pending {
        if pending[t].kind.Expiry? {
          calls := calls + multiset{pending[t].lease};
        }
        pending := map k | k in pending && k != t :: pending[k];
        forall i | live && i in leases && leases[i].Active() ensures Armed(i) {
          assert old(Armed(i));
          if i !in calls {
            var k :| k in timers[i] && k in old(pending) && old(pending)[k] == Timer(i, Expiry);
            assert k != t;
          }
        }
      }
    }

    /** The expiry callback gets the lock. */
    method Expire(id: string) returns (o: Outcome)
      requires Inv() && Switched()
      modifies this`containers, this`down, this`leases, this`file, this`timers, this`pending, this`nextTimer, this`live, this`calls
      ensures Inv() && (!o.Crash? ==> Switched()) && leases.Keys == old(leases).Keys
      ensures id in old(calls) && o.Ok? && live && id in leases ==> !leases[id].Active()
      ensures OnlyResumed(old(containers), containers, old(leases)) && Resumes(containers, old(leases), leases)
      ensures file == old(file) || file == leases
    {
      o := Ok;
      if id !in calls { return; }
      calls := calls - multiset{id};
      assert forall i :: i != id && old(Armed(i)) ==> Armed(i);
      if id in leases && leases[id].Active() && live {
        o := AutoResume(id, {id});
        assert {id} - {id} == {};
      }
    }

    // ---- Resume ---------------------------------------------------------------

    method ResumeLease(id: string) returns (r: ResumeResult)
      requires Inv() && Switched()
      modifies this`containers, this`down, this`leases, this`file, this`timers, this`pending
      ensures Inv() && (!r.ResumeDied? ==> Switched())
      ensures id !in old(leases) ==> r == AlreadyResumed && leases == old(leases) && file == old(file) && containers == old(containers)
      ensures id in old(leases) ==> OnlyBroughtUp(old(containers), old(leases)[id])
      ensures leases == old(leases) || leases == old(leases) - {id}
      ensures r.Resumed? || r.AutoResumed? ==> leases == old(leases) - {id}
      ensures r.Resumed? ==> id in old(leases) && old(leases)[id].Active() && forall c :: old(leases)[id].Holds(c) ==> IsUp(c)
      ensures r.AutoResumed? ==> id in old(leases) && !old(leases)[id].Active()
      ensures OnlyResumed(old(containers), containers, old(leases)) && Resumes(containers, old(leases), leases)
      ensures file == old(file) || file == leases
      ensures r.ResumeFailed? ==> id in leases && leases[id].Active()
    {
      if id !in leases { return AlreadyResumed; }
      if !leases[id].Active() {
        r := ForgetLease(id);
        return;
      }
      var o, resumed := Restore(leases[id]);
      if o.Crash? { return ResumeDied; }
      if o.Err? { return ResumeFailed; }
      o := CloseLease(id);
      r := if o.Crash? then ResumeDied else Resumed(resumed);
    }

    /** The switch was faster: reports it and drops the record. */
    method ForgetLease(id: string) returns (r: ResumeResult)
      requires Inv() && Switched() && id in leases && !leases[id].Active()
      modifies this`leases, this`file
      ensures Inv() && Switched() && leases == old(leases) - {id} && (file == old(file) || file == leases)
      ensures r == ResumeDied || r == AutoResumed(old(leases)[id].resumed)
    {
      var l := leases[id];
      DropInactive(leases, id);
      leases := leases - {id};
      var o := Save();
      r := if o.Crash? then ResumeDied else AutoResumed(l.resumed);
    }

    /** Removes a lease whose containers are all up. */
    method CloseLease(id: string) returns (o: Outcome)
      requires Inv() && Switched() && id in leases && forall c :: leases[id].Holds(c) ==> IsUp(c)
      modifies this`leases, this`file, this`timers, this`pending
      ensures Inv() && Switched() && leases == old(leases) - {id} && (file == old(file) || file == leases)
    {
      Disarm(id, {id});
      EndLease(id, leases - {id}, {id});
      assert {id} - {id} == {};
      o := Save();
    }

    lemma AddedAndRemoved(t: Table, l: Lease)
      requires l.id !in t
      ensures t[l.id := l] - {l.id} == t
    {
    }

    lemma DropInactive(before: Table, id: string)
      requires Sound(before, down) && id in before && !before[id].Active()
      ensures Sound(before - {id}, down)
    {
      forall c | c in down
        ensures exists i :: i in before - {id} && (before - {id})[i].Active() && (before - {id})[i].Holds(c)
      {
        var i :| i in before && before[i].Active() && before[i].Holds(c);
        assert i in before - {id};
      }
    }

    // ---- Quiesce --------------------------------------------------------------

    /** Nothing but held containers of l changed since `before`. */
    ghost predicate OnlyHeldChanged(before: map<string, RunState>, l: Lease)
      reads this`containers
    {
      && containers.Keys == before.Keys
      && forall c :: c in containers ==> containers[c] == before[c] || l.Holds(c)
    }

    method Observe(ids: seq<string>) returns (o: Outcome, pre: seq<ContainerState>)
      ensures o.Ok? ==> |pre| == |ids|
      ensures o.Ok? ==> forall k :: 0 <= k < |ids| ==>
                ids[k] in containers && pre[k] == ContainerState(ids[k], containers[ids[k]])
    {
      pre := [];
      o := Ok;
      var i := 0;
      while i < |ids|
        invariant i == |pre| <= |ids| && o.Ok?
        invariant forall k :: 0 <= k < i ==> ids[k] in containers && pre[k] == ContainerState(ids[k], containers[ids[k]])
      {
        o := *;
        if o.Ok? && ids[i] !in containers { o := Err; }
        if !o.Ok? { return; }
        pre := pre + [ContainerState(ids[i], containers[ids[i]])];
        i := i + 1;
      }
    }

    /** Pauses or stops every container of a journaled lease that was running. */
    method TakeAllDown(l: Lease) returns (o: Outcome)
      requires Inv() && l.id in leases && leases[l.id] == l && l.id in file && file[l.id] == l && l.Active()
      modifies this`containers, this`down
      ensures Inv() && OnlyHeldChanged(old(containers), l)
      ensures o.Ok? ==> forall c :: l.Holds(c) ==> c in containers && !containers[c].Up()
    {
      o := Ok;
      var i := 0;
      while i < |l.pre|
        invariant i <= |l.pre| && Inv() && OnlyHeldChanged(old(containers), l) && o.Ok?
        invariant forall k :: 0 <= k < i && l.pre[k].state == Running ==>
                    l.pre[k].id in containers && !containers[l.pre[k].id].Up()
      {
        if l.pre[i].state == Running {
          assert l.Holds(l.pre[i].id);
          o := TakeDown(l.pre[i].id, l.mode);
          if !o.Ok? { return; }
        }
        i := i + 1;
      }
    }

    /** Journals a new lease, then takes its containers down; undoes it on an error. */
    method Grant(l: Lease) returns (r: QuiesceResult)
      requires Inv() && Switched() && l.Active() && l.id !in leases
      requires forall i :: i in leases && leases[i].Active() ==> leases[i].app != l.app
      modifies this`containers, this`down, this`leases, this`file, this`timers, this`pending, this`nextTimer
      ensures Inv() && (!r.QuiesceDied? ==> Switched()) && OnlyHeldChanged(old(containers), l) && !r.QuiesceRefused?
      ensures leases == old(leases) || leases == old(leases)[l.id := l]
      ensures r.Quiesced? ==> r.lease == l && leases == file == old(leases)[l.id := l]
      ensures r.Quiesced? ==> forall c :: l.Holds(c) ==> c in containers && !containers[c].Up()
      ensures r.QuiesceFailed? && leases == old(leases) ==>
                containers == old(containers) || forall c :: l.Holds(c) ==> IsUp(c)
      ensures file == old(file) || file == old(leases) || file == old(leases)[l.id := l]
    {
      AddedAndRemoved(leases, l);
      var o := JournalLease(l);
      if o.Crash? { return QuiesceDied; }
      if o.Err? { return QuiesceFailed; }
      r := TakeDownOrWithdraw(l);
    }

    method TakeDownOrWithdraw(l: Lease) returns (r: QuiesceResult)
      requires Inv() && SwitchedExcept({l.id}) && l.Active()
      requires l.id in leases && leases[l.id] == l && l.id in file && file[l.id] == l
      modifies this`containers, this`down, this`leases, this`file, this`timers, this`pending, this`nextTimer
      ensures Inv() && (!r.QuiesceDied? ==> Switched()) && OnlyHeldChanged(old(containers), l) && !r.QuiesceRefused?
      ensures r.Quiesced? ==> r.lease == l && leases == old(leases) && file == old(file)
      ensures r.Quiesced? ==> forall c :: l.Holds(c) ==> c in containers && !containers[c].Up()
      ensures leases == old(leases) || (leases == old(leases) - {l.id} && forall c :: l.Holds(c) ==> IsUp(c))
      ensures file == old(file) || file == old(leases) - {l.id}
    {
      var o := TakeAllDown(l);
      if o.Crash? { return QuiesceDied; }
      if o.Err? {
        r := Withdraw(l);
        return;
      }
      Arm(l, {l.id});
      assert {l.id} - {l.id} == {};
      r := Quiesced(l);
    }

    method FileLease(l: Lease) returns (o: Outcome)
      requires Inv() && l.Active() && l.id !in leases
      requires forall i :: i in leases && leases[i].Active() ==> leases[i].app != l.app
      modifies this`leases, this`file
      ensures Inv() && leases == old(leases)[l.id := l]
      ensures o.Ok? ==> file == leases
      ensures o.Err? ==> file == old(file)
      ensures file == old(file) || file == leases
    {
      AddLease(leases, down, l);
      leases := leases[l.id := l];
      o := Save();
    }

    /** The lease is in the file before anything is touched. */
    method JournalLease(l: Lease) returns (o: Outcome)
      requires Inv() && Switched() && l.Active() && l.id !in leases
      requires forall i :: i in leases && leases[i].Active() ==> leases[i].app != l.app
      modifies this`leases, this`file
      ensures Inv()
      ensures o.Ok? ==> SwitchedExcept({l.id}) && leases == file == old(leases)[l.id := l]
      ensures o.Err? ==> Switched() && leases == old(leases) && file == old(file)
      ensures leases == old(leases) || leases == old(leases)[l.id := l]
      ensures file == old(file) || file == old(leases)[l.id := l]
    {
      o := FileLease(l);
      if o.Err? {
        AddedAndRemoved(old(leases), l);
        leases := leases - {l.id};
      }
    }

    /** A quiesce failed half-way: brings the containers back, or leaves the lease to
        the dead-man switch. */
    method Withdraw(l: Lease) returns (r: QuiesceResult)
      requires Inv() && SwitchedExcept({l.id}) && l.id in leases && leases[l.id] == l && l.Active()
      modifies this`containers, this`down, this`leases, this`file, this`timers, this`pending, this`nextTimer
      ensures Inv() && (!r.QuiesceDied? ==> Switched()) && OnlyBroughtUp(old(containers), l)
      ensures r.QuiesceFailed? || r.QuiesceDied?
      ensures leases == old(leases) || (leases == old(leases) - {l.id} && forall c :: l.Holds(c) ==> IsUp(c))
      ensures file == old(file) || file == old(leases) - {l.id}
    {
      var o, resumed := Restore(l);
      if o.Crash? { return QuiesceDied; }
      assert {l.id} - {l.id} == {};
      if o.Err? {
        Arm(l, {l.id});
        return QuiesceFailed;
      }
      EndLease(l.id, leases - {l.id}, {l.id});
      o := Save();
      r := if o.Crash? then QuiesceDied else QuiesceFailed;
    }

    method Quiesce(q: Request) returns (r: QuiesceResult)
      requires Inv() && Switched()
      modifies this`containers, this`down, this`leases, this`file, this`timers, this`pending, this`nextTimer
      ensures Inv() && (!r.QuiesceDied? ==> Switched())
      ensures containers.Keys == old(containers).Keys
      ensures forall c :: c in containers && (c !in q.ids || old(containers)[c] != Running) ==> containers[c] == old(containers)[c]
      // on every exit the tables differ from the old ones at most by the new lease
      ensures leases == old(leases) || Adds(old(leases), leases, q, old(containers))
      ensures file == old(file) || file == old(leases) || Adds(old(leases), file, q, old(containers))
      ensures r.Quiesced? ==> q.lease in leases && leases[q.lease] == r.lease && r.lease.Active() && r.lease.app == q.app
      // a new lease: every container that ran is down, and the file says so
      ensures r.Quiesced? && q.lease !in old(leases) ==>
                && leases == file == old(leases)[q.lease := r.lease]
                && (forall c :: r.lease.Holds(c) <==> c in q.ids && c in old(containers) && old(containers)[c] == Running)
                && (forall c :: r.lease.Holds(c) ==> c in containers && !containers[c].Up())
      // a repeat changes nothing
      ensures q.lease in old(leases) ==> containers == old(containers) && leases == old(leases) && file == old(file)
      ensures r.QuiesceRefused? ==> containers == old(containers) && leases == old(leases) && file == old(file)
    {
      if q.lease == "" || q.app == "" { return QuiesceRefused; }
      if q.lease in leases {
        var l := leases[q.lease];
        if l.app != q.app || !l.Active() { return QuiesceRefused; }
        return Quiesced(l);
      }
      if exists i :: i in leases && leases[i].app == q.app && leases[i].Active() {
        return QuiesceRefused;
      }
      var o, pre := Observe(q.ids);
      if !o.Ok? { return if o.Crash? then QuiesceDied else QuiesceFailed; }
      var seconds := if q.seconds == 0 then DEFAULT_LEASE_SECONDS else q.seconds;
      var l := Lease(q.lease, q.app, q.mode, pre, now + seconds, false, None, []);
      HeldAreRequested(l, q.ids, containers);
      r := Grant(l);
    }

    lemma HeldAreRequested(l: Lease, ids: seq<string>, before: map<string, RunState>)
      requires |l.pre| == |ids|
      requires forall k :: 0 <= k < |ids| ==> ids[k] in before && l.pre[k] == ContainerState(ids[k], before[ids[k]])
      ensures forall c :: l.Holds(c) <==> c in ids && c in before && before[c] == Running
    {
      forall c
        ensures l.Holds(c) <==> c in ids && c in before && before[c] == Running
      {
        if l.Holds(c) {
          var k :| 0 <= k < |l.pre| && l.pre[k] == ContainerState(c, Running);
          assert ids[k] == c;
        }
        if c in ids && c in before && before[c] == Running {
          var k :| 0 <= k < |ids| && ids[k] == c;
          assert l.pre[k] == ContainerState(c, Running);
        }
      }
    }

    // ---- Start, stop and the world --------------------------------------------

    /** The 80 % warning: only its mark changes. */
    method Warn(id: string) returns (o: Outcome)
      requires Inv() && Switched()
      modifies this`leases, this`file
      ensures Inv() && Switched()
      ensures id !in old(leases) ==> leases == old(leases) && file == old(file)
      ensures id in old(leases) ==> leases == old(leases) || leases == old(leases)[id := old(leases)[id].(warned := true)]
      ensures file == old(file) || file == leases
    {
      o := Ok;
      if id in leases && leases[id].Active() && !leases[id].warned && live {
        SameLease(leases, id, leases[id].(warned := true));
        leases := leases[id := leases[id].(warned := true)];
        o := Save();
      }
    }

    lemma SameLease(t: Table, id: string, l: Lease)
      requires Sound(t, down) && id in t && l.id == id && l.app == t[id].app && l.pre == t[id].pre && l.Active() == t[id].Active()
      ensures Sound(t[id := l], down)
    {
      var after := t[id := l];
      forall c | c in down
        ensures exists i :: i in after && after[i].Active() && after[i].Holds(c)
      {
        var i :| i in t && t[i].Active() && t[i].Holds(c);
        assert i in after && after[i].Active() && after[i].Holds(c);
      }
    }

    /** The process dies and comes back: memory is what the file says, without records
        resumed more than seven days ago. */
    method Restart()
      requires FileOk()
      modifies this`leases, this`timers, this`pending, this`calls, this`live
      ensures Inv() && Switched() && !live
      ensures leases.Keys <= file.Keys && forall i :: i in leases ==> leases[i] == file[i]
      ensures forall i :: i in file && i !in leases ==> !file[i].Active()
    {
      leases := map i | i in file && (file[i].Active() || now <= file[i].autoResumedAt.value + AUTO_RESUMED_KEEP) :: file[i];
      timers, pending, calls, live := map[], map[], multiset{}, false;
      forall c | c in down
        ensures exists i :: i in leases && leases[i].Active() && leases[i].Holds(c)
      {
        var i :| i in file && file[i].Active() && file[i].Holds(c);
        assert i in leases;
      }
    }

    /** Arms one lease, or resumes it if it expired while the agent was down. */
    method StartOne(id: string, ghost ids: set<string>) returns (o: Outcome)
      requires Inv() && id in leases && leases[id].Active() && SwitchedExcept(ids) && id in ids
      modifies this`containers, this`down, this`leases, this`file, this`timers, this`pending, this`nextTimer, this`live
      ensures Inv() && (!o.Crash? ==> SwitchedExcept(ids - {id}))
      ensures leases.Keys == old(leases).Keys && forall i :: i in leases && i != id ==> leases[i] == old(leases)[i]
      ensures OnlyResumed(old(containers), containers, old(leases)) && Resumes(containers, old(leases), leases)
      ensures file == old(file) || file == leases
    {
      o := Ok;
      if now < leases[id].expiresAt {
        Arm(leases[id], ids);
      } else {
        o := AutoResume(id, ids);
      }
    }

    /** Resumes expired leases now and arms the others. */
    method Start() returns (o: Outcome)
      requires Inv() && Switched()
      modifies this`containers, this`down, this`leases, this`file, this`timers, this`pending, this`nextTimer, this`live
      ensures Inv() && (!o.Crash? ==> Switched())
      ensures OnlyResumed(old(containers), containers, old(leases)) && Resumes(containers, old(leases), leases)
      ensures file == old(file) || Resumes(containers, old(leases), file)
    {
      var todo := set i | i in leases && leases[i].Active();
      live := true;
      o := Ok;
      while todo != {}
        invariant Inv() && SwitchedExcept(todo) && !o.Crash?
        invariant OnlyResumed(old(containers), containers, old(leases)) && Resumes(containers, old(leases), leases)
        invariant file == old(file) || Resumes(containers, old(leases), file)
        invariant forall i :: i in todo ==> i in leases && leases[i].Active()
        decreases todo
      {
        var id :| id in todo;
        ghost var cs, t, f := containers, leases, file;
        o := StartOne(id, todo);
        ResumeMore(old(containers), cs, containers, old(leases), t, leases);
        if f != old(file) {
          StillResumed(cs, containers, old(leases), f, t);
        }
        if o.Crash? { return; }
        todo := todo - {id};
      }
    }

    method Shutdown()
      requires Inv() && Switched()
      modifies this`timers, this`pending, this`live
      ensures Inv() && Switched() && !live
    {
      timers, pending, live := map[], map[], false;
    }

    /** Somebody else changes, creates or removes a container. */
    method Outside(c: string, state: Option<RunState>)
      requires Inv()
      modifies this`containers, this`down
      ensures Inv() && down <= old(down) && StateOf(containers, c) == state
      ensures forall d :: d != c ==> StateOf(containers, d) == StateOf(old(containers), d)
    {
      if state.Some? {
        containers := containers[c := state.value];
        if state.value.Up() {
          CoversFewer(file, down, down - {c});
          CoversFewer(leases, down, down - {c});
          down := down - {c};
        }
      } else {
        containers := map d | d in containers && d != c :: containers[d];
      }
    }

    // ---- Whole runs -----------------------------------------------------------

    method Step(e: Event)
      requires Inv() && Switched()
      modifies this
      ensures Inv() && Switched()
    {
      var o := Ok;
      match e {
        case QuiesceEvent(q) =>
          var r := Quiesce(q);
          if r.QuiesceDied? { o := Crash; }
        case ResumeEvent(id) =>
          var r := ResumeLease(id);
          if r.ResumeDied? { o := Crash; }
        case FireEvent(t) => Fire(t);
        case ExpireEvent(id) => o := Expire(id);
        case WarnEvent(id) => o := Warn(id);
        case OutsideEvent(c, state) => Outside(c, state);
        case ShutdownEvent => Shutdown();
        case RestartEvent =>
          Restart();
          o := Start();
        case TickEvent(d) => now := now + d;
      }
      if o.Crash? { Restart(); }
    }

    /** Over any run of commands, timers, crashes, restarts and outside changes, every
        container the agent took down is in an active lease in the file, no application
        has two active leases, and while the agent is up every active lease is armed. */
    method AnyRun(events: seq<Event>)
      requires Inv() && Switched()
      modifies this
      ensures Inv() && Switched()
    {
      var i := 0;
      while i < |events|
        invariant i <= |events| && Inv() && Switched()
      {
        Step(events[i]);
        i := i + 1;
      }
    }

    /** Memory and file track lease l, and hold containers of the set `may` only. */
    ghost predicate Follows(l: Lease, may: iset<string>)
      reads this`leases, this`file, this`containers
    {
      && Tracks(l, leases, containers) && Tracks(l, file, containers)
      && HeldWithin(leases, may) && HeldWithin(file, may)
    }

    /** One call that only resumes keeps following lease l. */
    lemma FollowsOn(l: Lease, may: iset<string>, leases0: Table, file0: Table, cs0: Containers)
      requires Tracks(l, leases0, cs0) && Tracks(l, file0, cs0) && HeldWithin(leases0, may) && HeldWithin(file0, may)
      requires OnlyResumed(cs0, containers, leases0) && Resumes(containers, leases0, leases)
      requires file == file0 || Resumes(containers, leases0, file)
      ensures Follows(l, may) && Progress(l, may, cs0, containers)
    {
      TracksOn(l, leases0, leases, may, cs0, containers);
      if file == file0 {
        TracksStill(l, file, may, cs0, containers);
      } else {
        TracksOn(l, leases0, file, may, cs0, containers);
      }
    }

    method RestartAndFollow(ghost l: Lease, ghost may: iset<string>)
      requires FileOk() && Follows(l, may)
      modifies this`leases, this`timers, this`pending, this`calls, this`live
      ensures Inv() && Switched() && Follows(l, may)
    {
      Restart();
    }

    method RestartAndStart(ghost l: Lease, ghost may: iset<string>) returns (o: Outcome)
      requires Inv() && Follows(l, may)
      modifies this
      ensures Inv() && (!o.Crash? ==> Switched()) && Follows(l, may) && Progress(l, may, old(containers), containers)
    {
      RestartAndFollow(l, may);
      ghost var leases0, file0 := leases, file;
      o := Start();
      FollowsOn(l, may, leases0, file0, old(containers));
    }

    method ResumeAndFollow(id: string, ghost l: Lease, ghost may: iset<string>) returns (o: Outcome)
      requires Inv() && Switched() && Follows(l, may)
      modifies this
      ensures Inv() && (!o.Crash? ==> Switched()) && Follows(l, may) && Progress(l, may, old(containers), containers)
    {
      var r := ResumeLease(id);
      FollowsOn(l, may, old(leases), old(file), old(containers));
      o := if r.ResumeDied? then Crash else Ok;
    }

    method ExpireAndFollow(id: string, ghost l: Lease, ghost may: iset<string>) returns (o: Outcome)
      requires Inv() && Switched() && Follows(l, may)
      modifies this
      ensures Inv() && (!o.Crash? ==> Switched()) && Follows(l, may) && Progress(l, may, old(containers), containers)
    {
      o := Expire(id);
      FollowsOn(l, may, old(leases), old(file), old(containers));
    }

    /** A quiesce of another lease: what it adds to the tables is not l. */
    lemma AddsKeepsTrack(l: Lease, may: iset<string>, t: Table, t2: Table, q: Request, cs0: Containers,
                         cs: Containers)
      requires Tracks(l, t, cs) && HeldWithin(t, may) && q.lease != l.id && Within(QuiesceEvent(q), may, cs0)
      requires t2 == t || Adds(t, t2, q, cs0)
      ensures Tracks(l, t2, cs) && HeldWithin(t2, may)
    {
      TracksSame(l, t, t2, cs);
      forall i, c | i in t2 && t2[i].Holds(c) ensures c in may {
        assert i == q.lease && t2 != t ==> Names(QuiesceEvent(q), cs0, c);
      }
    }

    lemma QuiesceProgress(q: Request, l: Lease, may: iset<string>, cs: Containers, cs2: Containers)
      requires Spares(QuiesceEvent(q), l) && Within(QuiesceEvent(q), may, cs) && cs2.Keys == cs.Keys
      requires forall c :: c in cs && !WillHold(q, cs, c) ==> cs2[c] == cs[c]
      ensures Progress(l, may, cs, cs2)
    {
      forall c | c !in may ensures StateOf(cs2, c) == StateOf(cs, c) {
        assert !Names(QuiesceEvent(q), cs, c);
      }
    }

    method QuiesceAndFollow(q: Request, ghost l: Lease, ghost may: iset<string>) returns (o: Outcome)
      requires Inv() && Switched() && Follows(l, may) && Spares(QuiesceEvent(q), l) && Within(QuiesceEvent(q), may, containers)
      modifies this
      ensures Inv() && (!o.Crash? ==> Switched()) && Follows(l, may) && Progress(l, may, old(containers), containers)
    {
      var r := Quiesce(q);
      o := if r.QuiesceDied? then Crash else Ok;
      QuiesceProgress(q, l, may, old(containers), containers);
      TracksStill(l, old(leases), may, old(containers), containers);
      TracksStill(l, old(file), may, old(containers), containers);
      AddsKeepsTrack(l, may, old(leases), leases, q, old(containers), containers);
      if file != old(file) {
        AddsKeepsTrack(l, may, old(leases), file, q, old(containers), containers);
      }
    }

    method OutsideAndFollow(c: string, state: Option<RunState>, ghost l: Lease, ghost may: iset<string>)
      requires Inv() && Follows(l, may) && !l.Holds(c) && c in may
      modifies this`containers, this`down
      ensures Inv() && Follows(l, may) && Progress(l, may, old(containers), containers)
    {
      Outside(c, state);
      forall d | l.Holds(d) && UpIn(old(containers), d) ensures UpIn(containers, d) {
        assert StateOf(containers, d) == StateOf(old(containers), d);
      }
      TracksStill(l, leases, may, old(containers), containers);
      TracksStill(l, file, may, old(containers), containers);
    }

    /** A step that touches no container held by l. */
    method QuietStep(e: Event, ghost l: Lease, ghost may: iset<string>) returns (o: Outcome)
      requires Inv() && Switched() && Follows(l, may) && Spares(e, l) && Within(e, may, containers)
      requires e.FireEvent? || e.WarnEvent? || e.ShutdownEvent? || e.TickEvent? || e.OutsideEvent?
      modifies this
      ensures Inv() && (!o.Crash? ==> Switched()) && Follows(l, may) && Progress(l, may, old(containers), containers)
    {
      o := Ok;
      match e {
        case FireEvent(t) => Fire(t);
        case WarnEvent(id) => o := Warn(id);
        case ShutdownEvent => Shutdown();
        case TickEvent(d) => now := now + d;
        case OutsideEvent(c, state) =>
          assert Names(e, containers, c);
          OutsideAndFollow(c, state, l, may);
      }
    }

    /** A step that is no new quiesce of lease l and no outside change of its containers. */
    method FollowStep(e: Event, ghost l: Lease, ghost may: iset<string>)
      requires Inv() && Switched() && Follows(l, may) && Spares(e, l) && Within(e, may, containers)
      modifies this
      ensures Inv() && Switched() && Follows(l, may) && Progress(l, may, old(containers), containers)
    {
      var o;
      if e.ResumeEvent? {
        o := ResumeAndFollow(e.id, l, may);
      } else if e.ExpireEvent? {
        o := ExpireAndFollow(e.id, l, may);
      } else if e.RestartEvent? {
        o := RestartAndStart(l, may);
      } else if e.QuiesceEvent? {
        o := QuiesceAndFollow(e.q, l, may);
      } else {
        o := QuietStep(e, l, may);
      }
      if o.Crash? {
        RestartAndFollow(l, may);
      }
    }

    /** Between any two points of a run, the set of containers held by l that are down does
        not grow; once the lease is over in memory or in the file, it is empty. Containers
        that no lease holds and no event names do not change. */
    method FollowRun(events: seq<Event>, ghost l: Lease, ghost may: iset<string>)
      requires Inv() && Switched() && Follows(l, may)
      requires forall k :: 0 <= k < |events| ==> Spares(events[k], l) && Within(events[k], may, containers)
      modifies this
      ensures Inv() && Switched() && Follows(l, may) && Progress(l, may, old(containers), containers)
    {
      var i := 0;
      while i < |events|
        invariant i <= |events| && Inv() && Switched() && Follows(l, may) && Progress(l, may, old(containers), containers)
      {
        ghost var cs := containers;
        WithinLater(events[i], may, old(containers), containers);
        FollowStep(events[i], l, may);
        ProgressMore(l, may, old(containers), cs, containers);
        i := i + 1;
      }
    }

    /** A quiesce in any state, followed by any resumes, expiries, crashes, restarts, other
        quiesces and outside changes of other containers: once the lease is over in memory or
        in the file, every container that was running is up again. All others are untouched:
        a requested container that was not running stays as it was, unless a lease held it or
        it changed from outside, and so does every container nobody asked for. */
    method RoundTrip(q: Request, events: seq<Event>) returns (r: QuiesceResult)
      requires Inv() && Switched()
      requires forall k :: 0 <= k < |events| ==> Apart(events[k], q, containers)
      modifies this
      ensures Inv()
      ensures r.Quiesced? && q.lease !in old(leases) ==>
                && (forall c :: !Concerned(old(leases), q, events, old(containers), c) ==>
                      StateOf(containers, c) == StateOf(old(containers), c))
                && (!(q.lease in leases && leases[q.lease].Active() && q.lease in file && file[q.lease].Active()) ==>
                    forall c :: WillHold(q, old(containers), c) ==> UpIn(containers, c))
    {
      var isNew := q.lease !in leases;
      ghost var may := iset c | Concerned(leases, q, events, containers, c);
      r := Quiesce(q);
      if r.Quiesced? && isNew {
        forall k | 0 <= k < |events| ensures Within(events[k], may, containers) {
          WithinLater(events[k], may, old(containers), containers);
        }
        FollowRun(events, r.lease, may);
      }
    }
  }
}
