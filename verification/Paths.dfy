/** Slash-separated paths, and path.Clean of the Go library, which the bundle's name test and
    the report on unprotected paths rest on. */
module Paths {

  /** The parts of a path between slashes. */
  function Parts(p: string): seq<string> {
    if p == "" then [""]
    else
      var rest := Parts(p[1..]);
      if p[0] == '/' then [""] + rest else [[p[0]] + rest[0]] + rest[1..]
  }

  function Joined(parts: seq<string>): string {
    if parts == [] then "" else if |parts| == 1 then parts[0] else parts[0] + "/" + Joined(parts[1..])
  }

  /** The parts that stay once "." is dropped and ".." takes its parent away. */
  function Resolved(rooted: bool, parts: seq<string>): seq<string> {
    if parts == [] then []
    else
      var n := |parts| - 1;
      var before := Resolved(rooted, parts[..n]);
      if parts[n] in {"", "."} then before
      else if parts[n] != ".." then before + [parts[n]]
      else if before != [] && before[|before| - 1] != ".." then before[..|before| - 1]
      else if rooted then before
      else before + [".."]
  }

  predicate Rooted(p: string) {
    p != "" && p[0] == '/'
  }

  function Clean(p: string): string {
    var parts := Resolved(Rooted(p), Parts(p));
    if Rooted(p) then "/" + Joined(parts) else if parts == [] then "." else Joined(parts)
  }

  // ---- Splitting and joining --------------------------------------------------

  lemma {:induction false} OnePart(p: string)
    requires '/' !in p
    ensures Parts(p) == [p]
  {
    if p == "" {
    } else {
      OnePart(p[1..]);
      assert [p[0]] + p[1..] == p;
    }
  }

  lemma {:induction false} JoinedParts(p: string)
    ensures |Parts(p)| >= 1 && Joined(Parts(p)) == p
  {
    if p == "" {
    } else {
      JoinedParts(p[1..]);
      var rest := Parts(p[1..]);
      assert p == [p[0]] + p[1..];
      if p[0] == '/' {
        assert Parts(p)[1..] == rest;
      } else {
        assert Parts(p)[1..] == rest[1..];
        assert |rest| > 1 ==> [p[0]] + (rest[0] + "/" + Joined(rest[1..])) == ([p[0]] + rest[0]) + "/" + Joined(rest[1..]);
      }
    }
  }

  lemma {:induction false} JoinedSplit(parts: seq<string>, k: nat)
    requires 0 < k < |parts|
    ensures Joined(parts) == Joined(parts[..k]) + "/" + Joined(parts[k..])
  {
    if k == 1 {
      assert parts[..k] == [parts[0]];
    } else {
      JoinedSplit(parts[1..], k - 1);
      assert parts[..k][1..] == parts[1..][..k - 1] && parts[1..][k - 1..] == parts[k..];
      assert parts[0] + "/" + (Joined(parts[1..][..k - 1]) + "/" + Joined(parts[k..]))
          == (parts[0] + "/" + Joined(parts[1..][..k - 1])) + "/" + Joined(parts[k..]);
    }
  }

  lemma {:induction false} PartsFlat(p: string)
    ensures forall part :: part in Parts(p) ==> '/' !in part
  {
    if p == "" {
    } else {
      PartsFlat(p[1..]);
    }
  }

  /** Text without a slash in front of a path becomes part of its first part. */
  lemma {:induction false} PartsOfSum(a: string, p: string)
    requires '/' !in a
    ensures Parts(a + p) == [a + Parts(p)[0]] + Parts(p)[1..]
  {
    if a == "" {
      assert a + p == p && a + Parts(p)[0] == Parts(p)[0];
    } else {
      PartsOfSum(a[1..], p);
      assert (a + p)[1..] == a[1..] + p && (a + p)[0] == a[0] && a[0] != '/';
      assert [a[0]] + (a[1..] + Parts(p)[0]) == a + Parts(p)[0];
    }
  }

  lemma {:induction false} PartsJoined(parts: seq<string>)
    requires parts != [] && forall part :: part in parts ==> '/' !in part
    ensures Parts(Joined(parts)) == parts
  {
    if |parts| == 1 {
      OnePart(parts[0]);
    } else {
      PartsJoined(parts[1..]);
      var rest := "/" + Joined(parts[1..]);
      assert rest[1..] == Joined(parts[1..]) && Parts(rest) == [""] + parts[1..];
      assert Parts(rest)[0] == "" && Parts(rest)[1..] == parts[1..];
      PartsOfSum(parts[0], rest);
      assert parts[0] + "/" + Joined(parts[1..]) == parts[0] + rest && parts[0] + "" == parts[0];
    }
  }

  // ---- Clean paths --------------------------------------------------------------

  /** No part that Resolved would drop: ".." is only at the front of a relative path. */
  ghost predicate Normal(rooted: bool, parts: seq<string>) {
    && (forall i :: 0 <= i < |parts| ==> parts[i] !in {"", "."})
    && (forall i :: 0 <= i < |parts| && parts[i] == ".." ==> !rooted && (0 < i ==> parts[i - 1] == ".."))
  }

  lemma {:induction false} ResolvedNormal(rooted: bool, parts: seq<string>)
    ensures Normal(rooted, Resolved(rooted, parts))
    ensures forall part :: part in Resolved(rooted, parts) ==> part in parts
  {
    if parts == [] {
    } else {
      ResolvedNormal(rooted, parts[..|parts| - 1]);
    }
  }

  lemma {:induction false} NormalStays(rooted: bool, parts: seq<string>)
    requires Normal(rooted, parts)
    ensures Resolved(rooted, parts) == parts
  {
    if parts == [] {
    } else {
      var n := |parts| - 1;
      NormalStays(rooted, parts[..n]);
      assert parts == parts[..n] + [parts[n]];
    }
  }

  lemma {:induction false} EmptyFirst(rooted: bool, parts: seq<string>)
    ensures Resolved(rooted, [""] + parts) == Resolved(rooted, parts)
  {
    var n := |parts|;
    if n == 0 {
      assert ([""] + parts)[..n] == [];
    } else {
      EmptyFirst(rooted, parts[..n - 1]);
      assert ([""] + parts)[..n] == [""] + parts[..n - 1];
    }
  }

  lemma CleanParts(p: string)
    ensures var parts := Resolved(Rooted(p), Parts(p));
            && Normal(Rooted(p), parts) && Rooted(Clean(p)) == Rooted(p) && Clean(p) != ""
            && Resolved(Rooted(p), Parts(Clean(p))) == parts
  {
    var parts := Resolved(Rooted(p), Parts(p));
    ResolvedNormal(Rooted(p), Parts(p));
    PartsFlat(p);
    NormalStays(Rooted(p), parts);
    if parts != [] {
      PartsJoined(parts);
      assert Joined(parts) != "" && Joined(parts)[0] == parts[0][0] && parts[0][0] in parts[0];
    }
    if Rooted(p) {
      assert Clean(p)[1..] == Joined(parts);
      EmptyFirst(true, Parts(Joined(parts)));
    } else if parts == [] {
      OnePart(".");
    }
  }

  /** Cleaning is once and for all, and keeps a path absolute or relative. */
  lemma CleanTwice(p: string)
    ensures Clean(Clean(p)) == Clean(p) && Rooted(Clean(p)) == Rooted(p) && Clean(p) != ""
  {
    CleanParts(p);
  }

  /** The clean paths are the ones Clean leaves alone. */
  lemma CleanIff(p: string)
    requires p != "" && !Rooted(p)
    ensures Clean(p) == p <==> p == "." || Normal(false, Parts(p))
  {
    JoinedParts(p);
    if Clean(p) == p {
      CleanParts(p);
      PartsFlat(p);
      var parts := Resolved(false, Parts(p));
      if parts != [] {
        ResolvedNormal(false, Parts(p));
        PartsJoined(parts);
      }
    } else if Normal(false, Parts(p)) {
      NormalStays(false, Parts(p));
    } else if p == "." {
      OnePart(p);
    }
  }
}
