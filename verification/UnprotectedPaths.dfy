/** Finding changed paths of a container that no mount protects, and reporting them by
    directory (internal/inventory/analyze.go). */
module UnprotectedPaths {
  import opened Paths

  datatype Change = Change(deleted: bool, path: string)

  datatype Container = Container(readOnlyRootfs: bool, mounts: seq<string>, tmpfs: seq<string>, changes: seq<Change>)

  datatype Severity = High | Low

  datatype Finding = Finding(path: string, files: nat, severity: Severity)

  const SYSTEM := ["/proc", "/sys", "/dev", "/tmp", "/var/tmp", "/run", "/var/run"]
  const DOCKER_MANAGED := ["/etc/hosts", "/etc/hostname", "/etc/resolv.conf", "/.dockerenv"]
  const LOW := ["/var/log", "/var/cache", "/root/.cache", "/root/.npm", "/var/lib/apt", "/var/lib/dpkg", "/var/lib/rpm",
                "/etc", "/usr/local/share/ca-certificates", "/usr/share/ca-certificates"]
  const DEEP := ["var", "usr", "opt", "srv", "home"]

  function TrimSlashes(p: string): string {
    if p != "" && p[|p| - 1] == '/' then TrimSlashes(p[..|p| - 1]) else p
  }

  predicate Under(p: string, prefixes: seq<string>) {
    exists i :: 0 <= i < |prefixes| && prefixes[i] != "" && (p == prefixes[i] || TrimSlashes(prefixes[i]) + "/" <= p)
  }

  predicate AncestorOf(p: string, paths: seq<string>) {
    exists i :: 0 <= i < |paths| && TrimSlashes(p) + "/" <= paths[i]
  }

  predicate Contains(p: string, s: string) {
    exists i :: 0 <= i <= |p| && s <= p[i..]
  }

  /** A path that is no application data of the writable layer. */
  predicate Ignored(p: string, mounts: seq<string>) {
    p in DOCKER_MANAGED || Under(p, SYSTEM) || Under(p, mounts) || AncestorOf(p, mounts)
  }

  predicate IsLow(p: string) {
    Under(p, LOW) || Contains(p, "/cache") || Contains(p, "/.cache")
  }

  /** p is the directory d or below it. */
  predicate AtOrBelow(p: string, d: string) {
    p == d || d + "/" <= p
  }

  // ---- Leaves ---------------------------------------------------------------

  predicate Before(a: string, b: string) {
    b != "" && (a == "" || a[0] < b[0] || (a[0] == b[0] && Before(a[1..], b[1..])))
  }

  function Insert(p: string, sorted: seq<string>): seq<string> {
    if sorted == [] || Before(p, sorted[0]) then [p] + sorted else [sorted[0]] + Insert(p, sorted[1..])
  }

  function Sorted(paths: seq<string>): seq<string> {
    if paths == [] then [] else Insert(paths[|paths| - 1], Sorted(paths[..|paths| - 1]))
  }

  lemma {:induction false} InsertKeeps(p: string, sorted: seq<string>)
    ensures multiset(Insert(p, sorted)) == multiset(sorted) + multiset{p}
  {
    if sorted == [] || Before(p, sorted[0]) {
    } else {
      InsertKeeps(p, sorted[1..]);
      assert sorted == [sorted[0]] + sorted[1..];
    }
  }

  lemma {:induction false} SortedKeeps(paths: seq<string>)
    ensures multiset(Sorted(paths)) == multiset(paths)
  {
    if paths == [] {
    } else {
      SortedKeeps(paths[..|paths| - 1]);
      InsertKeeps(paths[|paths| - 1], Sorted(paths[..|paths| - 1]));
      assert paths == paths[..|paths| - 1] + [paths[|paths| - 1]];
    }
  }

  /** The changed paths that count, in the order of the changes. */
  function Relevant(changes: seq<Change>, mounts: seq<string>): seq<string> {
    if changes == [] then []
    else
      var n := |changes| - 1;
      var p := Clean(changes[n].path);
      Relevant(changes[..n], mounts) + if changes[n].deleted || Ignored(p, mounts) then [] else [p]
  }

  predicate HasChild(paths: seq<string>, i: nat)
    requires i < |paths|
  {
    i + 1 < |paths| && paths[i] + "/" <= paths[i + 1]
  }

  /** Some leaf is at or below the path. */
  ghost predicate Covered(leaves: seq<string>, p: string) {
    exists l :: l in leaves && AtOrBelow(l, p)
  }

  method DropParents(paths: seq<string>) returns (leaves: seq<string>)
    ensures multiset(leaves) <= multiset(paths)
    ensures forall p :: p in paths ==> Covered(leaves, p)
  {
    leaves := [];
    for i := 0 to |paths|
      invariant multiset(leaves) <= multiset(paths[..i])
      invariant forall j :: 0 <= j < i && !HasChild(paths, j) ==> paths[j] in leaves
    {
      assert paths[..i + 1] == paths[..i] + [paths[i]];
      if HasChild(paths, i) {
        continue;
      }
      leaves := leaves + [paths[i]];
    }
    assert paths[..|paths|] == paths;
    forall p | p in paths ensures Covered(leaves, p) {
      var i :| 0 <= i < |paths| && paths[i] == p;
      var l := LeafBelow(paths, leaves, i);
    }
  }

  /** A chain of dropped parents ends in a leaf. */
  lemma {:induction false} LeafBelow(paths: seq<string>, leaves: seq<string>, i: nat) returns (l: string)
    requires i < |paths| && forall j :: 0 <= j < |paths| && !HasChild(paths, j) ==> paths[j] in leaves
    ensures l in leaves && AtOrBelow(l, paths[i])
    decreases |paths| - i
  {
    if HasChild(paths, i) {
      l := LeafBelow(paths, leaves, i + 1);
      assert paths[i] + "/" <= paths[i + 1] <= l;
    } else {
      l := paths[i];
    }
  }

  // ---- Groups ---------------------------------------------------------------

  function GroupPath(p: string): string {
    var parts := Parts(if p != "" && p[0] == '/' then p[1..] else p);
    var depth := if parts != [] && parts[0] in DEEP then 3 else 2;
    "/" + Joined(parts[..if |parts| > depth then depth else if |parts| > 1 then |parts| - 1 else |parts|])
  }

  /** A file is reported under a directory it is in exactly if its path is absolute. */
  lemma GroupHolds(p: string)
    requires p != ""
    ensures AtOrBelow(p, GroupPath(p)) <==> Rooted(p)
  {
    if Rooted(p) {
      var parts := Parts(p[1..]);
      JoinedParts(p[1..]);
      assert p == "/" + p[1..];
      var depth := if parts[0] in DEEP then 3 else 2;
      if |parts| > 1 {
        var k := if |parts| > depth then depth else |parts| - 1;
        JoinedSplit(parts, k);
        assert p == GroupPath(p) + "/" + Joined(parts[k..]);
      } else {
        assert parts[..1] == parts;
      }
    } else {
      assert GroupPath(p)[0] == '/' && (GroupPath(p) + "/")[0] == '/';
    }
  }

  datatype Agg = Agg(files: nat, high: nat)

  function FilesIn(leaves: seq<string>, g: string): Agg {
    if leaves == [] then Agg(0, 0)
    else
      var n := |leaves| - 1;
      var before, p := FilesIn(leaves[..n], g), leaves[n];
      if GroupPath(p) != g then before else Agg(before.files + 1, before.high + if IsLow(p) then 0 else 1)
  }

  ghost predicate Grouped(leaves: seq<string>, groups: map<string, Agg>) {
    forall g :: GroupedAt(leaves, groups, g)
  }

  ghost predicate GroupedAt(leaves: seq<string>, groups: map<string, Agg>, g: string) {
    FilesIn(leaves, g) == (if g in groups then groups[g] else Agg(0, 0)) && (g in groups ==> groups[g].files > 0)
  }

  /** The files of some groups together. */
  ghost function Total(groups: map<string, Agg>, keys: set<string>): nat
    requires keys <= groups.Keys
  {
    if keys == {} then 0 else var g :| g in keys; groups[g].files + Total(groups, keys - {g})
  }

  lemma {:induction false} TotalWithout(groups: map<string, Agg>, keys: set<string>, g: string)
    requires keys <= groups.Keys && g in keys
    ensures Total(groups, keys) == groups[g].files + Total(groups, keys - {g})
    decreases keys
  {
    var first :| first in keys && Total(groups, keys) == groups[first].files + Total(groups, keys - {first});
    if first == g {
    } else {
      TotalWithout(groups, keys - {first}, g);
      TotalWithout(groups, keys - {g}, first);
      assert keys - {first} - {g} == keys - {g} - {first};
    }
  }

  lemma {:induction false} TotalSame(a: map<string, Agg>, b: map<string, Agg>, keys: set<string>)
    requires keys <= a.Keys && keys <= b.Keys && forall g :: g in keys ==> a[g] == b[g]
    ensures Total(a, keys) == Total(b, keys)
    decreases keys
  {
    if keys == {} {
    } else {
      var g :| g in keys;
      TotalWithout(a, keys, g);
      TotalWithout(b, keys, g);
      TotalSame(a, b, keys - {g});
    }
  }

  /** One more file in a group is one more file in all. */
  lemma TotalMore(groups: map<string, Agg>, g: string, more: Agg)
    requires more.files == 1 + if g in groups then groups[g].files else 0
    ensures var after := groups[g := more]; Total(after, after.Keys) == Total(groups, groups.Keys) + 1
  {
    var after := groups[g := more];
    TotalWithout(after, after.Keys, g);
    assert after.Keys - {g} == groups.Keys - {g};
    TotalSame(after, groups, groups.Keys - {g});
    if g in groups {
      TotalWithout(groups, groups.Keys, g);
    } else {
      assert groups.Keys - {g} == groups.Keys;
    }
  }

  lemma GroupedNext(leaves: seq<string>, p: string, groups: map<string, Agg>)
    requires Grouped(leaves, groups)
    ensures var g := GroupPath(p);
            var had := if g in groups then groups[g] else Agg(0, 0);
            Grouped(leaves + [p], groups[g := Agg(had.files + 1, had.high + if IsLow(p) then 0 else 1)])
  {
    var g := GroupPath(p);
    var had := if g in groups then groups[g] else Agg(0, 0);
    var after := groups[g := Agg(had.files + 1, had.high + if IsLow(p) then 0 else 1)];
    assert (leaves + [p])[..|leaves|] == leaves;
    forall x ensures GroupedAt(leaves + [p], after, x) {
      assert GroupedAt(leaves, groups, x);
    }
  }

  /** Every leaf is counted in exactly one group. */
  method Group(leaves: seq<string>) returns (groups: map<string, Agg>)
    ensures Grouped(leaves, groups)
    ensures Total(groups, groups.Keys) == |leaves|
  {
    groups := map[];
    for i := 0 to |leaves|
      invariant Grouped(leaves[..i], groups) && Total(groups, groups.Keys) == i
    {
      var p := leaves[i];
      var g := GroupPath(p);
      var agg := if g in groups then groups[g] else Agg(0, 0);
      agg := Agg(agg.files + 1, agg.high + if IsLow(p) then 0 else 1);
      assert leaves[..i + 1] == leaves[..i] + [p];
      GroupedNext(leaves[..i], p, groups);
      TotalMore(groups, g, agg);
      groups := groups[g := agg];
    }
    assert leaves[..|leaves|] == leaves;
  }

  lemma {:induction false} RelevantIs(changes: seq<Change>, mounts: seq<string>, p: string)
    ensures p in Relevant(changes, mounts) <==>
            exists i :: 0 <= i < |changes| && Clean(changes[i].path) == p && !changes[i].deleted && !Ignored(p, mounts)
  {
    if changes == [] {
    } else {
      RelevantIs(changes[..|changes| - 1], mounts, p);
    }
  }

  lemma {:induction false} SomeFile(leaves: seq<string>, l: string)
    requires l in leaves
    ensures FilesIn(leaves, GroupPath(l)).files > 0
    ensures !IsLow(l) ==> FilesIn(leaves, GroupPath(l)).high > 0
  {
    var n := |leaves| - 1;
    if leaves[n] == l {
    } else {
      SomeFile(leaves[..n], l);
    }
  }

  function Reported(groups: map<string, Agg>): map<string, Finding> {
    map g | g in groups :: Finding(g, groups[g].files, if groups[g].high == 0 then Low else High)
  }

  /** The leaves of some paths and the report on them. */
  method Report(paths: seq<string>) returns (leaves: seq<string>, groups: map<string, Agg>)
    ensures forall p :: p in paths ==> Covered(leaves, p)
    ensures forall l :: l in leaves ==> l in paths && GroupPath(l) in groups && (!IsLow(l) ==> groups[GroupPath(l)].high > 0)
    ensures Grouped(leaves, groups) && Total(groups, groups.Keys) == |leaves|
  {
    var sorted := Sorted(paths);
    SortedKeeps(paths);
    assert forall p :: p in multiset(paths) <==> p in multiset(sorted);
    leaves := DropParents(sorted);
    groups := Group(leaves);
    forall p | p in paths ensures Covered(leaves, p) {
      assert p in multiset(paths);
    }
    forall l | l in leaves ensures l in paths && GroupPath(l) in groups && (!IsLow(l) ==> groups[GroupPath(l)].high > 0) {
      assert l in multiset(leaves);
      SomeFile(leaves, l);
      assert GroupedAt(leaves, groups, GroupPath(l));
    }
  }

  ghost predicate Counts(c: Container, i: nat)
    requires i < |c.changes|
  {
    !c.readOnlyRootfs && !c.changes[i].deleted && !Ignored(Clean(c.changes[i].path), c.mounts + c.tmpfs)
  }

  ghost predicate Changed(c: Container, p: string) {
    exists i :: 0 <= i < |c.changes| && Counts(c, i) && Clean(c.changes[i].path) == p
  }

  /** A changed path that counts is reported: some leaf at or below it is in a reported
      group, which an absolute leaf lies in, and a leaf that matters makes its group's
      severity high. The files of all groups are the leaves. */
  method FindUnprotected(c: Container) returns (leaves: seq<string>, groups: map<string, Agg>, findings: map<string, Finding>)
    ensures forall p :: Changed(c, p) ==> Covered(leaves, p)
    ensures forall l :: l in leaves ==>
              GroupPath(l) in findings && (!IsLow(l) ==> findings[GroupPath(l)].severity == High)
              && Changed(c, l) && (Rooted(l) <==> AtOrBelow(l, GroupPath(l)))
    ensures findings == Reported(groups) && Grouped(leaves, groups) && Total(groups, groups.Keys) == |leaves|
  {
    if c.readOnlyRootfs || |c.changes| == 0 {
      return [], map[], map[];
    }
    var paths := Collect(c.changes, c.mounts + c.tmpfs);
    leaves, groups := Report(paths);
    findings := Reported(groups);
    forall p ensures p in paths <==> Changed(c, p) {
      RelevantIs(c.changes, c.mounts + c.tmpfs, p);
    }
    forall l | l in leaves ensures Rooted(l) <==> AtOrBelow(l, GroupPath(l)) {
      var i :| 0 <= i < |c.changes| && Counts(c, i) && Clean(c.changes[i].path) == l;
      CleanTwice(c.changes[i].path);
      GroupHolds(l);
    }
  }

  method Collect(changes: seq<Change>, mounts: seq<string>) returns (paths: seq<string>)
    ensures paths == Relevant(changes, mounts)
  {
    paths := [];
    for i := 0 to |changes|
      invariant paths == Relevant(changes[..i], mounts)
    {
      assert changes[..i + 1][..i] == changes[..i];
      if changes[i].deleted {
        continue;
      }
      var p := Clean(changes[i].path);
      if Ignored(p, mounts) {
        continue;
      }
      paths := paths + [p];
    }
    assert changes[..|changes|] == changes;
  }
}
