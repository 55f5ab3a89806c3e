/** The resizable semaphore that bounds concurrent jobs (internal/agent/limiter.go). A
    channel is a number: all numbers below `channel` are closed, and a thread that waits
    on a closed channel can go on. */
module JobLimiter {

  /** `holders` are the threads that were granted a slot and did not release it;
      `parked` are those in the select of acquire, with the channel they wait on. */
  datatype State = State(limit: int, active: int, channel: nat, holders: set<nat>, parked: map<nat, nat>)

  datatype Action =
    | SetLimit(n: int)
    | TryAcquire(t: nat)
    | Acquire(t: nat)
    | Wake(t: nat)
    | Cancel(t: nat)
    | Release(t: nat)

  function Start(n: int): State {
    State(n, 0, 0, {}, map[])
  }

  function Notify(s: State): State {
    s.(channel := s.channel + 1)
  }

  /** The locked section of acquire: take a slot, or wait on the current channel. */
  function Check(s: State, t: nat): State {
    if s.active < s.limit then s.(active := s.active + 1, holders := s.holders + {t}, parked := s.parked - {t})
    else s.(parked := s.parked[t := s.channel])
  }

  predicate Free(s: State) {
    s.active < s.limit
  }

  predicate Idle(s: State, t: nat) {
    t !in s.holders && t !in s.parked
  }

  /** When a thread can take a step. Callers release only what they hold. */
  predicate Enabled(s: State, a: Action) {
    match a
    case SetLimit(_) => true
    case TryAcquire(t) => Idle(s, t)
    case Acquire(t) => Idle(s, t)
    case Wake(t) => t in s.parked && s.parked[t] < s.channel
    case Cancel(t) => t in s.parked
    case Release(t) => t in s.holders
  }

  function Next(s: State, a: Action): State {
    match a
    case SetLimit(n) => Notify(s.(limit := if n < 1 then 1 else n))
    case TryAcquire(t) => if Free(s) then s.(active := s.active + 1, holders := s.holders + {t}) else s
    case Acquire(t) => Check(s, t)
    case Wake(t) => Check(s, t)
    case Cancel(t) => s.(parked := s.parked - {t})
    case Release(t) => Notify(s.(active := s.active - 1, holders := s.holders - {t}))
  }

  // ---- Every run ------------------------------------------------------------

  /** No thread sleeps on the current channel while a slot is free. */
  ghost predicate Inv(s: State) {
    && s.active == |s.holders|
    && (forall t :: t in s.parked ==> s.parked[t] <= s.channel && t !in s.holders)
    && (forall t :: t in s.parked && s.parked[t] == s.channel ==> s.active >= s.limit)
  }

  lemma StepInv(s: State, a: Action)
    requires Inv(s) && Enabled(s, a)
    ensures Inv(Next(s, a))
  {
  }

  ghost predicate Run(run: seq<State>, actions: seq<Action>) {
    && |run| == |actions| + 1 && run[0] == Start(run[0].limit)
    && forall i :: 0 <= i < |actions| ==> Enabled(run[i], actions[i]) && run[i + 1] == Next(run[i], actions[i])
  }

  lemma {:induction false} RunInv(run: seq<State>, actions: seq<Action>, i: nat)
    requires Run(run, actions) && i < |run|
    ensures Inv(run[i])
  {
    if i == 0 {
    } else {
      RunInv(run, actions, i - 1);
      StepInv(run[i - 1], actions[i - 1]);
    }
  }

  /** In every run: a waiter that cannot go on means there is no free slot; and with a
      free slot, every waiter can go on and gets it. */
  lemma NoLostWakeup(run: seq<State>, actions: seq<Action>, i: nat, t: nat)
    requires Run(run, actions) && i < |run| && t in run[i].parked
    ensures !Enabled(run[i], Wake(t)) ==> run[i].active >= run[i].limit
    ensures Free(run[i]) ==> Enabled(run[i], Wake(t)) && t in Next(run[i], Wake(t)).holders
  {
    RunInv(run, actions, i);
  }

  /** A step grants at most one slot, and only below the limit; only a resize can leave
      more slots taken than the limit. */
  lemma GrantsBelowLimit(s: State, a: Action)
    requires Inv(s) && Enabled(s, a)
    ensures var r := Next(s, a);
            && |r.holders - s.holders| <= 1
            && (r.holders - s.holders != {} ==> s.active < s.limit && r.active <= r.limit)
            && (s.active <= s.limit && r.active > r.limit ==> a.SetLimit?)
  {
    var r := Next(s, a);
    if t :| t in r.holders - s.holders {
      assert r.holders - s.holders == {t};
    }
  }

  /** Slots taken never exceed the largest limit there was. */
  lemma {:induction false} NeverAbove(run: seq<State>, actions: seq<Action>, i: nat, most: nat)
    requires Run(run, actions) && i < |run| && forall j :: 0 <= j <= i ==> run[j].limit <= most
    ensures |run[i].holders| == run[i].active <= most
  {
    RunInv(run, actions, i);
    if i == 0 {
    } else {
      NeverAbove(run, actions, i - 1, most);
    }
  }

  // ---- The limiter ----------------------------------------------------------

  /** The last two fields stand for the threads that use the limiter. */
  class Limiter {
    var limit: int
    var active: int
    var changed: nat
    var holders: set<nat>
    var parked: map<nat, nat>

    function Abs(): State
      reads this
    {
      State(limit, active, changed, holders, parked)
    }

    ghost predicate Valid()
      reads this
    {
      Inv(Abs())
    }

    constructor (n: int)
      ensures Valid() && Abs() == Start(n)
    {
      limit, active, changed, holders, parked := n, 0, 0, {}, map[];
    }

    method SetSize(n: int)
      requires Valid()
      modifies this
      ensures Valid() && Abs() == Next(old(Abs()), SetLimit(n))
    {
      limit := if n < 1 then 1 else n;
      changed := changed + 1;
    }

    method TryTake(t: nat) returns (ok: bool)
      requires Valid() && Enabled(Abs(), TryAcquire(t))
      modifies this
      ensures Valid() && Abs() == Next(old(Abs()), TryAcquire(t))
      ensures ok <==> t in holders
    {
      if active < limit {
        active := active + 1;
        holders := holders + {t};
        return true;
      }
      return false;
    }

    method GiveBack(t: nat)
      requires Valid() && Enabled(Abs(), Release(t))
      modifies this
      ensures Valid() && Abs() == Next(old(Abs()), Release(t))
    {
      StepInv(Abs(), Release(t));
      active, holders := active - 1, holders - {t};
      changed := changed + 1;
    }

    /** What other threads do meanwhile. */
    method Others(t: nat, script: seq<Action>)
      requires Valid()
      modifies this
      ensures Valid() && (t in parked) == old(t in parked) && (t in holders) == old(t in holders)
      ensures t in parked ==> parked[t] == old(parked)[t]
    {
      for i := 0 to |script|
        invariant Valid() && (t in parked) == old(t in parked) && (t in holders) == old(t in holders)
        invariant t in parked ==> t in old(parked) && parked[t] == old(parked)[t]
      {
        var a := script[i];
        if Enabled(Abs(), a) && (a.SetLimit? || a.t != t) {
          StepInv(Abs(), a);
          var r := Next(Abs(), a);
          limit, active, changed, holders, parked := r.limit, r.active, r.channel, r.holders, r.parked;
        }
      }
    }

    /** The locked section of acquire. */
    method TakeOrPark(t: nat) returns (ok: bool)
      requires Valid() && t !in holders
      modifies this
      ensures Valid() && Abs() == Check(old(Abs()), t)
      ensures ok == old(Free(Abs())) && (ok <==> t in holders)
      ensures !ok ==> t in parked && parked[t] == changed
    {
      if active < limit {
        active := active + 1;
        holders, parked := holders + {t}, parked - {t};
        return true;
      }
      parked := parked[t := changed];
      return false;
    }

    /** acquire, with what other threads do each time it waits. It gives up only when its
        context ends; while it waits on, a slot that is free has closed its channel. */
    method Take(t: nat, rounds: seq<seq<Action>>) returns (ok: bool)
      requires Valid() && Enabled(Abs(), Acquire(t))
      modifies this
      ensures Valid() && t !in parked && (ok <==> t in holders)
    {
      ok := TakeOrPark(t);
      for i := 0 to |rounds|
        invariant Valid() && (ok <==> t in holders) && (t in parked <==> !ok)
      {
        if ok {
          return;
        }
        Others(t, rounds[i]);
        var ended: bool := *;
        if ended {
          break;
        }
        if parked[t] < changed {
          ok := TakeOrPark(t);
        } else {
          assert active >= limit;
        }
      }
      if !ok {
        parked := parked - {t};
      }
    }
  }
}
