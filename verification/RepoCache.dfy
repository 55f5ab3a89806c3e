/** The agent's cache of open repository sessions, shared by reference-counted handles
    (internal/agent/repository.go). Connecting and closing happen outside the lock, so
    openRepo is two steps and every close a step of its own. */
module RepoCache {
  import opened Common

  /** What became of a connected session. An entry of the cache is named by the session
      it holds; `Spare` is a session that lost the race to be the entry. */
  datatype Fate =
    | Opening(id: string)
    | Entry(id: string, refs: int, stale: bool)
    | Spare

  /** `handles` are the leases handed out and not released; `closing` are the closeRepo
      calls that are due, `closed` those that were made. */
  datatype State = State(
    entries: map<string, nat>,
    sessions: map<nat, Fate>,
    handles: map<nat, nat>,
    closing: multiset<nat>,
    closed: multiset<nat>)

  datatype Action =
    | Hit(id: string, handle: nat)
    | Connect(id: string, session: nat)
    | Join(session: nat, handle: nat)
    | Release(handle: nat)
    | Invalidate(id: string)
    | Close(session: nat)

  const START := State(map[], map[], map[], multiset{}, multiset{})

  // ---- Steps ----------------------------------------------------------------

  /** A lease on a session of the cache. */
  function Lease(s: State, session: nat, handle: nat): State
    requires session in s.sessions && s.sessions[session].Entry?
  {
    var e := s.sessions[session];
    s.(sessions := s.sessions[session := e.(refs := e.refs + 1)], handles := s.handles[handle := session])
  }

  /** Change an entry; it is closed once it is stale and unused. */
  function Settle(s: State, session: nat, e: Fate): State
    requires e.Entry?
  {
    s.(sessions := s.sessions[session := e],
       closing := if e.stale && e.refs == 0 then s.closing + multiset{session} else s.closing)
  }

  ghost predicate Enabled(s: State, a: Action) {
    match a
    case Hit(id, handle) => id in s.entries && s.entries[id] in s.sessions && s.sessions[s.entries[id]].Entry? && handle !in s.handles
    case Connect(_, session) => session !in s.sessions
    case Join(session, handle) =>
      && session in s.sessions && s.sessions[session].Opening? && handle !in s.handles
      && (s.sessions[session].id in s.entries ==>
           s.entries[s.sessions[session].id] in s.sessions && s.sessions[s.entries[s.sessions[session].id]].Entry?)
    case Release(handle) => handle in s.handles && s.handles[handle] in s.sessions && s.sessions[s.handles[handle]].Entry?
    case Invalidate(id) => id in s.entries ==> s.entries[id] in s.sessions && s.sessions[s.entries[id]].Entry?
    case Close(session) => session in s.closing
  }

  ghost function Next(s: State, a: Action): State
    requires Enabled(s, a)
  {
    match a
    case Hit(id, handle) => Lease(s, s.entries[id], handle)
    case Connect(id, session) => s.(sessions := s.sessions[session := Opening(id)])
    case Join(session, handle) =>
      var id := s.sessions[session].id;
      if id in s.entries then
        Lease(s.(sessions := s.sessions[session := Spare], closing := s.closing + multiset{session}), s.entries[id], handle)
      else
        s.(entries := s.entries[id := session],
           sessions := s.sessions[session := Entry(id, 1, false)],
           handles := s.handles[handle := session])
    case Release(handle) =>
      var session := s.handles[handle];
      var e := s.sessions[session];
      Settle(s.(handles := s.handles - {handle}), session, e.(refs := e.refs - 1))
    case Invalidate(id) =>
      if id !in s.entries then s
      else Settle(s.(entries := s.entries - {id}), s.entries[id], s.sessions[s.entries[id]].(stale := true))
    case Close(session) =>
      s.(closing := s.closing - multiset{session}, closed := s.closed + multiset{session})
  }

  // ---- Invariant ------------------------------------------------------------

  ghost function HandlesOf(handles: map<nat, nat>, session: nat): set<nat> {
    set h | h in handles && handles[h] == session
  }

  /** How often a session has to be closed, all told. */
  ghost function Closes(s: State, session: nat): nat {
    if session !in s.sessions then 0
    else match s.sessions[session]
      case Opening(_) => 0
      case Entry(_, refs, stale) => if stale && refs == 0 then 1 else 0
      case Spare => 1
  }

  ghost predicate SessionOk(s: State, x: nat) {
    && s.closing[x] + s.closed[x] == Closes(s, x)
    && |HandlesOf(s.handles, x)| == (if x in s.sessions && s.sessions[x].Entry? then s.sessions[x].refs else 0)
    && (x in s.sessions && s.sessions[x].Entry? && !s.sessions[x].stale ==>
         s.sessions[x].id in s.entries && s.entries[s.sessions[x].id] == x)
  }

  ghost predicate EntryOk(s: State, id: string) {
    id in s.entries ==>
      && s.entries[id] in s.sessions
      && s.sessions[s.entries[id]].Entry? && s.sessions[s.entries[id]].id == id && !s.sessions[s.entries[id]].stale
  }

  ghost predicate Inv(s: State) {
    (forall x :: SessionOk(s, x)) && (forall id :: EntryOk(s, id))
  }

  lemma HandleAdded(handles: map<nat, nat>, h: nat, session: nat, x: nat)
    requires h !in handles
    ensures |HandlesOf(handles[h := session], x)| == |HandlesOf(handles, x)| + if x == session then 1 else 0
  {
    var after := HandlesOf(handles[h := session], x);
    if x == session {
      assert after == HandlesOf(handles, x) + {h};
    } else {
      assert after == HandlesOf(handles, x);
    }
  }

  lemma HandleDropped(handles: map<nat, nat>, h: nat, x: nat)
    requires h in handles
    ensures |HandlesOf(handles - {h}, x)| == |HandlesOf(handles, x)| - if x == handles[h] then 1 else 0
  {
    if x == handles[h] {
      assert HandlesOf(handles - {h}, x) == HandlesOf(handles, x) - {h};
    } else {
      assert HandlesOf(handles - {h}, x) == HandlesOf(handles, x);
    }
  }

  lemma LeaseKeeps(s: State, session: nat, handle: nat)
    requires Inv(s) && session in s.sessions && s.sessions[session].Entry? && !s.sessions[session].stale && handle !in s.handles
    ensures Inv(Lease(s, session, handle))
  {
    var t := Lease(s, session, handle);
    forall x ensures SessionOk(t, x) {
      assert SessionOk(s, x);
      HandleAdded(s.handles, handle, session, x);
    }
    forall id ensures EntryOk(t, id) {
      assert EntryOk(s, id);
    }
  }

  lemma SpareKeeps(s: State, session: nat)
    requires Inv(s) && session in s.sessions && s.sessions[session].Opening?
    ensures Inv(s.(sessions := s.sessions[session := Spare], closing := s.closing + multiset{session}))
  {
    var t := s.(sessions := s.sessions[session := Spare], closing := s.closing + multiset{session});
    forall x ensures SessionOk(t, x) {
      assert SessionOk(s, x);
    }
    forall id ensures EntryOk(t, id) {
      assert EntryOk(s, id);
    }
  }

  lemma JoinKeeps(s: State, session: nat, handle: nat)
    requires Inv(s) && Enabled(s, Join(session, handle))
    ensures Inv(Next(s, Join(session, handle)))
  {
    var id, t := s.sessions[session].id, Next(s, Join(session, handle));
    if id in s.entries {
      assert EntryOk(s, id);
      SpareKeeps(s, session);
      LeaseKeeps(s.(sessions := s.sessions[session := Spare], closing := s.closing + multiset{session}), s.entries[id], handle);
    } else {
      forall x ensures SessionOk(t, x) {
        assert SessionOk(s, x);
        HandleAdded(s.handles, handle, session, x);
      }
      forall other ensures EntryOk(t, other) {
        assert EntryOk(s, other);
      }
    }
  }

  lemma ReleaseKeeps(s: State, handle: nat)
    requires Inv(s) && Enabled(s, Release(handle))
    ensures Inv(Next(s, Release(handle)))
  {
    var t := Next(s, Release(handle));
    forall x ensures SessionOk(t, x) {
      assert SessionOk(s, x);
      HandleDropped(s.handles, handle, x);
    }
    forall id ensures EntryOk(t, id) {
      assert EntryOk(s, id);
    }
  }

  lemma InvalidateKeeps(s: State, id: string)
    requires Inv(s) && Enabled(s, Invalidate(id))
    ensures Inv(Next(s, Invalidate(id)))
  {
    var t := Next(s, Invalidate(id));
    assert EntryOk(s, id);
    forall x ensures SessionOk(t, x) {
      assert SessionOk(s, x);
    }
    forall other ensures EntryOk(t, other) {
      assert EntryOk(s, other);
    }
  }

  lemma OutsideKeeps(s: State, a: Action)
    requires Inv(s) && Enabled(s, a) && (a.Connect? || a.Close?)
    ensures Inv(Next(s, a))
  {
    var t := Next(s, a);
    forall x ensures SessionOk(t, x) {
      assert SessionOk(s, x);
    }
    forall id ensures EntryOk(t, id) {
      assert EntryOk(s, id);
    }
  }

  /** Every step keeps the books. */
  lemma StepInv(s: State, a: Action)
    requires Inv(s) && Enabled(s, a)
    ensures Inv(Next(s, a))
  {
    match a
    case Hit(id, handle) =>
      assert EntryOk(s, id);
      LeaseKeeps(s, s.entries[id], handle);
    case Join(session, handle) => JoinKeeps(s, session, handle);
    case Release(handle) => ReleaseKeeps(s, handle);
    case Invalidate(id) => InvalidateKeeps(s, id);
    case Connect(_, _) => OutsideKeeps(s, a);
    case Close(_) => OutsideKeeps(s, a);
  }

  // ---- Every run ------------------------------------------------------------

  /** What callers owe the cache: fresh numbers, and every handle released once. */
  ghost predicate Ready(s: State, a: Action) {
    match a
    case Hit(id, handle) => id in s.entries && handle !in s.handles
    case Connect(_, session) => session !in s.sessions
    case Join(session, handle) => session in s.sessions && s.sessions[session].Opening? && handle !in s.handles
    case Release(handle) => handle in s.handles
    case Invalidate(id) => true
    case Close(session) => session in s.closing
  }

  lemma InUse(s: State, handle: nat)
    requires Inv(s) && handle in s.handles
    ensures s.handles[handle] in s.sessions && s.sessions[s.handles[handle]].Entry?
    ensures s.sessions[s.handles[handle]].refs >= 1
  {
    assert SessionOk(s, s.handles[handle]);
    assert handle in HandlesOf(s.handles, s.handles[handle]);
  }

  /** No step finds an entry missing. */
  lemma ReadySuffices(s: State, a: Action)
    requires Inv(s) && Ready(s, a)
    ensures Enabled(s, a)
  {
    match a
    case Hit(id, _) => assert EntryOk(s, id);
    case Join(session, _) => assert EntryOk(s, s.sessions[session].id);
    case Release(handle) => InUse(s, handle);
    case Invalidate(id) => assert EntryOk(s, id);
    case _ =>
  }

  ghost predicate Run(run: seq<State>, actions: seq<Action>) {
    && |run| == |actions| + 1 && run[0] == START
    && forall i :: 0 <= i < |actions| ==> Ready(run[i], actions[i]) && Enabled(run[i], actions[i]) && run[i + 1] == Next(run[i], actions[i])
  }

  lemma {:induction false} RunInv(run: seq<State>, actions: seq<Action>, i: nat)
    requires Run(run, actions) && i < |run|
    ensures Inv(run[i])
  {
    if i == 0 {
      forall x ensures SessionOk(START, x) {
        assert HandlesOf(START.handles, x) == {};
      }
    } else {
      RunInv(run, actions, i - 1);
      StepInv(run[i - 1], actions[i - 1]);
    }
  }

  /** A session is closed at most once, and never while a handle on it is out. */
  lemma ClosedOnceAndUnused(run: seq<State>, actions: seq<Action>, i: nat, x: nat)
    requires Run(run, actions) && i < |run|
    ensures run[i].closing[x] + run[i].closed[x] <= 1
    ensures x in run[i].handles.Values ==> run[i].closing[x] + run[i].closed[x] == 0
  {
    RunInv(run, actions, i);
    assert SessionOk(run[i], x);
    if x in run[i].handles.Values {
      var h :| h in run[i].handles && run[i].handles[h] == x;
      InUse(run[i], h);
    }
  }

  /** A release makes a close due exactly when it gives back the last handle of an entry
      that was dropped from the cache. */
  lemma LastReleaseCloses(s: State, handle: nat)
    requires Inv(s) && Enabled(s, Release(handle))
    ensures var x := s.handles[handle];
            Next(s, Release(handle)).closing ==
            if HandlesOf(s.handles, x) == {handle} && x !in s.entries.Values then s.closing + multiset{x} else s.closing
  {
    var x := s.handles[handle];
    var id := s.sessions[x].id;
    var all := HandlesOf(s.handles, x);
    assert SessionOk(s, x) && EntryOk(s, id);
    assert handle in all && |all - {handle}| == |all| - 1;
    if x in s.entries.Values {
      var other :| other in s.entries && s.entries[other] == x;
      assert EntryOk(s, other);
    }
  }

  /** Nothing leaks: when no command runs, every session that was not closed is the one
      the cache would hand out for its repository. */
  lemma NothingLeaks(s: State, x: nat)
    requires Inv(s) && s.handles == map[] && s.closing == multiset{} && x in s.sessions && !s.sessions[x].Opening?
    ensures s.closed[x] == 1 || (s.sessions[x].Entry? && s.sessions[x].id in s.entries && s.entries[s.sessions[x].id] == x)
  {
    assert SessionOk(s, x);
    assert HandlesOf(s.handles, x) == {};
  }

  // ---- The cache ------------------------------------------------------------

  /** A cached session, as its entry records it. */
  datatype Row = Row(id: string, refs: int, stale: bool)

  function AsEntry(r: Row): Fate {
    Entry(r.id, r.refs, r.stale)
  }

  ghost predicate Mirrors(rows: map<nat, Row>, sessions: map<nat, Fate>, x: nat) {
    && (x in rows <==> x in sessions && sessions[x].Entry?)
    && (x in rows ==> sessions[x] == AsEntry(rows[x]))
  }

  ghost predicate AllMirror(rows: map<nat, Row>, sessions: map<nat, Fate>) {
    forall x :: Mirrors(rows, sessions, x)
  }

  lemma MirrorsSet(rows: map<nat, Row>, sessions: map<nat, Fate>, x: nat, r: Row)
    requires AllMirror(rows, sessions)
    ensures AllMirror(rows[x := r], sessions[x := AsEntry(r)])
  {
    var newRows, newSessions := rows[x := r], sessions[x := AsEntry(r)];
    forall y ensures Mirrors(newRows, newSessions, y) {
      assert Mirrors(rows, sessions, y);
    }
  }

  /** A session that is no entry leaves no row. */
  lemma MirrorsOther(rows: map<nat, Row>, sessions: map<nat, Fate>, x: nat, f: Fate)
    requires AllMirror(rows, sessions) && !f.Entry? && (x in sessions ==> !sessions[x].Entry?)
    ensures AllMirror(rows, sessions[x := f])
  {
    var newSessions := sessions[x := f];
    forall y ensures Mirrors(rows, newSessions, y) {
      assert Mirrors(rows, sessions, y);
    }
  }

  /** The cache under its lock. Every locked section is one step. */
  class Cache {
    var entries: map<string, nat>
    var rows: map<nat, Row>
    ghost var state: State

    ghost predicate Valid()
      reads this
    {
      Inv(state) && entries == state.entries && AllMirror(rows, state.sessions)
    }

    constructor ()
      ensures Valid() && state == START
    {
      entries, rows, state := map[], map[], START;
      new;
      forall x ensures SessionOk(START, x) {
        assert HandlesOf(START.handles, x) == {};
      }
    }

    /** The step taken, which its caller was ready for. */
    twostate predicate Took(a: Action)
      reads this
    {
      Ready(old(state), a) && Enabled(old(state), a) && state == Next(old(state), a)
    }

    /** The first locked section of openRepo. */
    method Lookup(id: string, ghost handle: nat) returns (session: Option<nat>)
      requires Valid() && handle !in state.handles
      modifies this
      ensures Valid()
      ensures if id in old(entries) then Took(Hit(id, handle)) && session == Some(state.handles[handle])
              else session == None && state == old(state)
    {
      if id !in entries {
        return None;
      }
      var x := entries[id];
      ReadySuffices(state, Hit(id, handle));
      StepInv(state, Hit(id, handle));
      assert Mirrors(rows, state.sessions, x);
      var row := rows[x].(refs := rows[x].refs + 1);
      MirrorsSet(rows, state.sessions, x, row);
      rows := rows[x := row];
      state := Next(state, Hit(id, handle));
      session := Some(x);
    }

    /** A connect outside the lock that succeeded. */
    ghost method Connected(id: string, session: nat)
      requires Valid() && session !in state.sessions
      modifies this
      ensures Valid() && Took(Connect(id, session))
    {
      StepInv(state, Connect(id, session));
      MirrorsOther(rows, state.sessions, session, Opening(id));
      state := Next(state, Connect(id, session));
    }

    /** The second locked section of openRepo: become the entry, or use the winner and
        have the own session closed. */
    method Enter(id: string, session: nat, ghost handle: nat) returns (winner: nat, closeIt: bool)
      requires Valid() && session in state.sessions && state.sessions[session] == Opening(id) && handle !in state.handles
      modifies this
      ensures Valid() && Took(Join(session, handle)) && winner == state.handles[handle]
      ensures closeIt <==> winner != session
      ensures state.closing == if closeIt then old(state).closing + multiset{session} else old(state).closing
    {
      ghost var a := Join(session, handle);
      ReadySuffices(state, a);
      StepInv(state, a);
      if id in entries {
        winner, closeIt := entries[id], true;
        assert EntryOk(state, id) && Mirrors(rows, state.sessions, winner);
        var row := rows[winner].(refs := rows[winner].refs + 1);
        MirrorsOther(rows, state.sessions, session, Spare);
        MirrorsSet(rows, state.sessions[session := Spare], winner, row);
        rows := rows[winner := row];
      } else {
        winner, closeIt := session, false;
        MirrorsSet(rows, state.sessions, session, Row(id, 1, false));
        entries, rows := entries[id := session], rows[session := Row(id, 1, false)];
      }
      state := Next(state, a);
    }

    /** release; the caller closes the session when told to. */
    method ReleaseHandle(session: nat, ghost handle: nat) returns (closeIt: bool)
      requires Valid() && handle in state.handles && state.handles[handle] == session
      modifies this
      ensures Valid() && Took(Release(handle))
      ensures state.closing == if closeIt then old(state).closing + multiset{session} else old(state).closing
    {
      ghost var a := Release(handle);
      ReadySuffices(state, a);
      StepInv(state, a);
      assert Mirrors(rows, state.sessions, session);
      var row := rows[session].(refs := rows[session].refs - 1);
      MirrorsSet(rows, state.sessions, session, row);
      rows := rows[session := row];
      closeIt := row.stale && row.refs == 0;
      state := Next(state, a);
    }

    method InvalidateId(id: string) returns (closeIt: Option<nat>)
      requires Valid()
      modifies this
      ensures Valid() && Took(Invalidate(id)) && entries == old(entries) - {id}
      ensures state.closing == if closeIt.Some? then old(state).closing + multiset{closeIt.value} else old(state).closing
    {
      ghost var a := Invalidate(id);
      ReadySuffices(state, a);
      StepInv(state, a);
      closeIt := None;
      if id in entries {
        var x := entries[id];
        assert EntryOk(state, id) && Mirrors(rows, state.sessions, x);
        var row := rows[x].(stale := true);
        MirrorsSet(rows, state.sessions, x, row);
        entries, rows := entries - {id}, rows[x := row];
        if row.refs == 0 {
          closeIt := Some(x);
        }
      }
      state := Next(state, a);
    }

    ghost method Closed(session: nat)
      requires Valid() && session in state.closing
      modifies this
      ensures Valid() && Took(Close(session))
    {
      StepInv(state, Close(session));
      state := Next(state, Close(session));
    }

    /** Without others at work, nothing stays cached and every unused session is closed. */
    method CloseAll()
      requires Valid()
      modifies this
      ensures Valid() && entries == map[] && state.handles == old(state).handles
      ensures forall x :: x in state.sessions && state.sessions[x].Entry? ==> state.sessions[x].stale
    {
      var ids := entries.Keys;
      while ids != {}
        invariant Valid() && entries.Keys <= ids && state.handles == old(state).handles
        decreases ids
      {
        var id :| id in ids;
        ids := ids - {id};
        var closeIt := InvalidateId(id);
        if closeIt.Some? {
          Closed(closeIt.value);
        }
      }
      forall x | x in state.sessions && state.sessions[x].Entry? ensures state.sessions[x].stale {
        assert SessionOk(state, x);
      }
    }
  }
}
