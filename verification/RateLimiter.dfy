/** The fixed-window limiter of login attempts (internal/auth/lockout.go). Times are
    integers, and the clock never goes back. */
module RateLimiter {

  datatype Window = Window(start: int, count: int)

  datatype Attempt = Attempt(key: string, now: int)

  /** `limit` attempts per `window` for each key. */
  datatype Limits = Limits(limit: int, window: int)

  type Hits = map<string, Window>

  const MAX_KEYS := 10000

  // ---- A limiter that never forgets -------------------------------------------

  predicate Expired(l: Limits, w: Window, now: int) {
    now - w.start >= l.window
  }

  predicate Fresh(l: Limits, hits: Hits, a: Attempt) {
    a.key !in hits || Expired(l, hits[a.key], a.now)
  }

  predicate Admits(l: Limits, hits: Hits, a: Attempt) {
    Fresh(l, hits, a) || hits[a.key].count < l.limit
  }

  function Counted(l: Limits, hits: Hits, a: Attempt): Hits {
    if Fresh(l, hits, a) then hits[a.key := Window(a.now, 1)]
    else if Admits(l, hits, a) then hits[a.key := hits[a.key].(count := hits[a.key].count + 1)]
    else hits
  }

  function HitsAfter(l: Limits, trace: seq<Attempt>): Hits {
    if trace == [] then map[]
    else Counted(l, HitsAfter(l, trace[..|trace| - 1]), trace[|trace| - 1])
  }

  ghost predicate Ordered(trace: seq<Attempt>) {
    forall i, j :: 0 <= i < j < |trace| ==> trace[i].now <= trace[j].now
  }

  /** The attempts of a key that were admitted between two times. */
  function Admitted(l: Limits, trace: seq<Attempt>, key: string, from: int, to: int): nat {
    if trace == [] then 0
    else
      var before, a := trace[..|trace| - 1], trace[|trace| - 1];
      Admitted(l, before, key, from, to) +
      if a.key == key && from <= a.now <= to && Admits(l, HitsAfter(l, before), a) then 1 else 0
  }

  function AtLeastOne(n: int): int {
    if n < 1 then 1 else n
  }

  /** The attempts of a key that were admitted from a time on. */
  ghost function Since(l: Limits, trace: seq<Attempt>, key: string, from: int): nat {
    if trace == [] then 0
    else
      var before, a := trace[..|trace| - 1], trace[|trace| - 1];
      Since(l, before, key, from) +
      if a.key == key && from <= a.now && Admits(l, HitsAfter(l, before), a) then 1 else 0
  }

  lemma {:induction false} SinceLater(l: Limits, trace: seq<Attempt>, key: string, from: int, later: int)
    requires from <= later
    ensures Since(l, trace, key, later) <= Since(l, trace, key, from)
  {
    if trace == [] {
    } else {
      SinceLater(l, trace[..|trace| - 1], key, from, later);
    }
  }

  lemma {:induction false} AdmittedSince(l: Limits, trace: seq<Attempt>, key: string, from: int, to: int)
    ensures Admitted(l, trace, key, from, to) <= Since(l, trace, key, from)
  {
    if trace == [] {
    } else {
      AdmittedSince(l, trace[..|trace| - 1], key, from, to);
    }
  }

  /** What the counter of a key says about the past: it counts the attempts admitted
      since its window began, none of them came after the window, and the window's
      length before it admitted no more than one window. */
  ghost predicate Accounts(l: Limits, trace: seq<Attempt>, key: string) {
    var hits, most := HitsAfter(l, trace), AtLeastOne(l.limit);
    if key !in hits then
      forall from :: Since(l, trace, key, from) == 0
    else
      var w := hits[key];
      && 1 <= w.count <= most
      && trace != [] && w.start <= trace[|trace| - 1].now
      && Since(l, trace, key, w.start) == w.count
      && Since(l, trace, key, w.start + l.window) == 0
      && Since(l, trace, key, w.start - l.window) <= w.count + most
  }

  /** A new window begins at least a window after the old one. */
  lemma NewWindow(l: Limits, trace: seq<Attempt>, a: Attempt)
    requires l.window > 0 && Accounts(l, trace, a.key) && Fresh(l, HitsAfter(l, trace), a)
    ensures Since(l, trace, a.key, a.now) == 0 && Since(l, trace, a.key, a.now + l.window) == 0
    ensures Since(l, trace, a.key, a.now - l.window) <= AtLeastOne(l.limit)
  {
    var hits := HitsAfter(l, trace);
    if a.key in hits {
      SinceLater(l, trace, a.key, hits[a.key].start + l.window, a.now);
      SinceLater(l, trace, a.key, hits[a.key].start, a.now - l.window);
      SinceLater(l, trace, a.key, a.now, a.now + l.window);
    }
  }

  lemma AccountsNext(l: Limits, trace: seq<Attempt>, a: Attempt)
    requires l.window > 0 && Accounts(l, trace, a.key) && (trace != [] ==> trace[|trace| - 1].now <= a.now)
    ensures Accounts(l, trace + [a], a.key)
  {
    var next := trace + [a];
    assert next[..|trace|] == trace && next[|trace|] == a;
    if Fresh(l, HitsAfter(l, trace), a) {
      NewWindow(l, trace, a);
    }
  }

  lemma {:induction false} AlwaysAccounts(l: Limits, trace: seq<Attempt>, key: string)
    requires l.window > 0 && Ordered(trace)
    ensures Accounts(l, trace, key)
  {
    if trace == [] {
    } else {
      var before, a := trace[..|trace| - 1], trace[|trace| - 1];
      AlwaysAccounts(l, before, key);
      if a.key == key {
        AccountsNext(l, before, a);
        assert before + [a] == trace;
      }
    }
  }

  /** Any time interval of one window's length admits at most twice the limit. An empty
      window is the one exception, see ZeroWindow. */
  lemma {:induction false} TwiceTheLimit(l: Limits, trace: seq<Attempt>, key: string, from: int)
    requires l.window != 0 && Ordered(trace)
    ensures Admitted(l, trace, key, from, from + l.window) <= 2 * AtLeastOne(l.limit)
  {
    if trace == [] {
    } else {
      var before, a := trace[..|trace| - 1], trace[|trace| - 1];
      TwiceTheLimit(l, before, key, from);
      if a.key == key && from <= a.now <= from + l.window && Admits(l, HitsAfter(l, before), a) {
        AlwaysAccounts(l, trace, key);
        AdmittedSince(l, trace, key, from, from + l.window);
        SinceLater(l, trace, key, HitsAfter(l, trace)[key].start - l.window, from);
      }
    }
  }

  // ---- The bound is reached ----------------------------------------------------

  function Burst(key: string, now: int, n: nat): seq<Attempt> {
    if n == 0 then [] else Burst(key, now, n - 1) + [Attempt(key, now)]
  }

  /** One more attempt at the same time. */
  lemma BurstNext(l: Limits, trace: seq<Attempt>, a: Attempt, from: int, to: int)
    requires from <= a.now <= to && Admits(l, HitsAfter(l, trace), a)
    ensures HitsAfter(l, trace + [a]) == Counted(l, HitsAfter(l, trace), a)
    ensures Admitted(l, trace + [a], a.key, from, to) == Admitted(l, trace, a.key, from, to) + 1
  {
    assert (trace + [a])[..|trace|] == trace;
  }

  lemma BurstCounts(l: Limits, before: seq<Attempt>, a: Attempt, n: nat, from: int, to: int)
    requires l.window > 0 && 0 < n <= l.limit && from <= a.now <= to
    requires var hits := HitsAfter(l, before);
             if n == 1 then Fresh(l, hits, a) else a.key in hits && hits[a.key] == Window(a.now, n - 1)
    ensures var hits := HitsAfter(l, before + [a]); a.key in hits && hits[a.key] == Window(a.now, n)
    ensures Admitted(l, before + [a], a.key, from, to) == Admitted(l, before, a.key, from, to) + 1
  {
    BurstNext(l, before, a, from, to);
  }

  /** A burst of n attempts after a trace whose window of the key is over. */
  lemma {:induction false} BurstAdmitted(l: Limits, trace: seq<Attempt>, key: string, now: int, n: nat, from: int, to: int)
    requires l.window > 0 && n <= l.limit && from <= now <= to && Fresh(l, HitsAfter(l, trace), Attempt(key, now))
    ensures n > 0 ==> var hits := HitsAfter(l, trace + Burst(key, now, n)); key in hits && hits[key] == Window(now, n)
    ensures Admitted(l, trace + Burst(key, now, n), key, from, to) == Admitted(l, trace, key, from, to) + n
  {
    if n == 0 {
      assert trace + Burst(key, now, n) == trace;
    } else {
      var before, a := trace + Burst(key, now, n - 1), Attempt(key, now);
      BurstAdmitted(l, trace, key, now, n - 1, from, to);
      assert n == 1 ==> before == trace;
      assert before + [a] == trace + Burst(key, now, n);
      BurstCounts(l, before, a, n, from, to);
    }
  }

  /** For every limit some run admits exactly twice the limit in one window's length. */
  lemma TwiceIsReached(l: Limits, key: string) returns (trace: seq<Attempt>)
    requires l.window > 0 && l.limit >= 1
    ensures Admitted(l, trace, key, 0, l.window) == 2 * l.limit
  {
    var first := [] + Burst(key, 0, l.limit);
    BurstAdmitted(l, [], key, 0, l.limit, 0, l.window);
    BurstAdmitted(l, first, key, l.window, l.limit, 0, l.window);
    trace := first + Burst(key, l.window, l.limit);
  }

  /** An empty window admits everything. */
  lemma {:induction false} ZeroWindow(limit: int, key: string, n: nat)
    ensures Admitted(Limits(limit, 0), Burst(key, 0, n), key, 0, 0) == n
    ensures forall k :: k in HitsAfter(Limits(limit, 0), Burst(key, 0, n)) ==> HitsAfter(Limits(limit, 0), Burst(key, 0, n))[k].start == 0
  {
    if n == 0 {
    } else {
      ZeroWindow(limit, key, n - 1);
      BurstNext(Limits(limit, 0), Burst(key, 0, n - 1), Attempt(key, 0), 0, 0);
    }
  }

  // ---- Forgetting expired windows ----------------------------------------------

  /** `kept` is `all` without some windows that have expired by `now`. */
  ghost predicate Forgets(l: Limits, kept: Hits, all: Hits, now: int) {
    && (forall k :: k in kept ==> k in all && kept[k] == all[k])
    && (forall k :: k in all && k !in kept ==> Expired(l, all[k], now))
  }

  /** Forgetting changes neither this decision nor, step by step, any later one. */
  lemma ForgetsNext(l: Limits, kept: Hits, all: Hits, a: Attempt)
    requires Forgets(l, kept, all, a.now)
    ensures Admits(l, kept, a) <==> Admits(l, all, a)
    ensures Forgets(l, Counted(l, kept, a), Counted(l, all, a), a.now)
  {
  }

  /** What is forgotten stays expired, and more expired windows may be forgotten. */
  lemma ForgetsMore(l: Limits, fewer: Hits, kept: Hits, trace: seq<Attempt>, now: int)
    requires Forgets(l, kept, HitsAfter(l, trace), Last(trace)) && (trace == [] || Last(trace) <= now)
    requires Forgets(l, fewer, kept, now)
    ensures Forgets(l, fewer, HitsAfter(l, trace), now)
  {
  }

  ghost function Last(trace: seq<Attempt>): int {
    if trace == [] then 0 else trace[|trace| - 1].now
  }

  lemma TraceNext(l: Limits, trace: seq<Attempt>, a: Attempt)
    requires Ordered(trace) && (trace == [] || Last(trace) <= a.now)
    ensures Ordered(trace + [a]) && Last(trace + [a]) == a.now
    ensures HitsAfter(l, trace + [a]) == Counted(l, HitsAfter(l, trace), a)
  {
    assert (trace + [a])[..|trace|] == trace;
  }

  /** The wait a rejected attempt is told is exact: the key is admitted again from then
      on, and not before. */
  lemma WaitIsExact(l: Limits, hits: Hits, a: Attempt, b: Attempt)
    requires !Admits(l, hits, a) && b.key == a.key
    ensures Admits(l, Counted(l, hits, a), b) <==> b.now >= a.now + (hits[a.key].start + l.window - a.now)
  {
  }

  /** The limiter as it is: expired windows are dropped when there are many keys. */
  class Limiter {
    const l: Limits
    var hits: Hits
    ghost var trace: seq<Attempt>

    ghost predicate Valid()
      reads this
    {
      Ordered(trace) && Forgets(l, hits, HitsAfter(l, trace), Last(trace))
    }

    constructor (limit: int, window: int)
      ensures Valid() && trace == [] && l == Limits(limit, window)
    {
      l := Limits(limit, window);
      hits := map[];
      trace := [];
    }

    method Evict(now: int)
      modifies this`hits
      ensures Forgets(l, hits, old(hits), now)
    {
      var todo := hits.Keys;
      while todo != {}
        invariant todo <= old(hits).Keys
        invariant forall k :: k in hits ==> k in old(hits) && hits[k] == old(hits)[k]
        invariant forall k :: k in old(hits) && k !in hits ==> Expired(l, old(hits)[k], now)
        decreases todo
      {
        var k :| k in todo;
        todo := todo - {k};
        if k in hits && Expired(l, hits[k], now) {
          hits := hits - {k};
        }
      }
    }

    /** Every decision is that of the limiter that never forgets. */
    method Allow(key: string, now: int) returns (ok: bool, wait: int)
      requires Valid() && (trace == [] || Last(trace) <= now)
      modifies this
      ensures Valid() && trace == old(trace) + [Attempt(key, now)]
      ensures ok <==> Admits(l, HitsAfter(l, old(trace)), Attempt(key, now))
      ensures ok ==> wait == 0
      ensures !ok ==> 0 < wait == HitsAfter(l, old(trace))[key].start + l.window - now
    {
      ghost var a := Attempt(key, now);
      if |hits| > MAX_KEYS {
        Evict(now);
      }
      ForgetsMore(l, hits, old(hits), trace, now);
      ForgetsNext(l, hits, HitsAfter(l, trace), a);
      TraceNext(l, trace, a);
      trace := trace + [a];
      ok, wait := Count(key, now);
    }

    method Count(key: string, now: int) returns (ok: bool, wait: int)
      modifies this`hits
      ensures hits == Counted(l, old(hits), Attempt(key, now))
      ensures ok <==> Admits(l, old(hits), Attempt(key, now))
      ensures ok ==> wait == 0
      ensures !ok ==> key in old(hits) && 0 < wait == old(hits)[key].start + l.window - now
    {
      if key !in hits || now - hits[key].start >= l.window {
        hits := hits[key := Window(now, 1)];
        return true, 0;
      }
      if hits[key].count >= l.limit {
        return false, hits[key].start + l.window - now;
      }
      hits := hits[key := hits[key].(count := hits[key].count + 1)];
      return true, 0;
    }
  }
}
