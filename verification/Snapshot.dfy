/** Taking a snapshot of an application's components in order, and the recovery point
    manifest made of the results (internal/agent/snapshot.go, internal/manifest/manifest.go). */
module Snapshot {
  import opened Common

  /** A component name; `Meta(n)` is n after the prefix "fsmeta:", which no plain name has. */
  datatype Name = Plain(text: string) | Meta(of: Name)

  const NO_NAME := Plain("")

  datatype Kind = Config | Volume | BindMount | Database | Image | FsMeta | UnknownKind

  datatype Status = Succeeded | Failed | Skipped | UnknownStatus

  datatype Spec = Spec(name: Name, kind: Kind, required: bool, captureFsMeta: bool)

  /** `identified` tells whether the snapshot's ID and source are recorded. */
  datatype Component = Component(name: Name, kind: Kind, required: bool, parent: Option<Name>, status: Status, identified: bool)

  // ---- The order of the results -----------------------------------------------

  predicate HasFsMeta(s: Spec) {
    s.captureFsMeta && (s.kind == Volume || s.kind == BindMount)
  }

  /** What the results have to be about. */
  datatype Planned = Planned(name: Name, kind: Kind, required: bool, parent: Option<Name>)

  function PlanOf(s: Spec): seq<Planned> {
    [Planned(s.name, s.kind, s.required, None)] +
    if HasFsMeta(s) then [Planned(Meta(s.name), FsMeta, s.required, Some(s.name))] else []
  }

  function Plan(specs: seq<Spec>): seq<Planned> {
    if specs == [] then [] else Plan(specs[..|specs| - 1]) + PlanOf(specs[|specs| - 1])
  }

  predicate About(r: Component, p: Planned) {
    r.name == p.name && r.kind == p.kind && r.required == p.required && r.parent == p.parent
  }

  /** A required component failed before result i. */
  ghost predicate Stopped(results: seq<Component>, i: nat)
    requires i <= |results|
  {
    exists j :: 0 <= j < i && results[j].required && results[j].status == Failed
  }

  /** A result is skipped exactly when the snapshot was stopped before it, when it is the
      metadata of a component that did not succeed, or when it is an image. */
  ghost predicate MaySkip(p: Planned, results: seq<Component>, i: nat)
    requires i <= |results|
  {
    || Stopped(results, i)
    || (p.parent.Some? && 0 < i && results[i - 1].status != Succeeded)
    || (p.kind == Image && p.name != NO_NAME)
  }

  ghost predicate InOrder(plan: seq<Planned>, results: seq<Component>) {
    && |plan| == |results|
    && forall i :: 0 <= i < |plan| ==> Fits(plan[i], results, i)
  }

  /** A component without a name, of an unknown kind, or metadata on its own. */
  predicate Unsupported(p: Planned) {
    p.name == NO_NAME || p.kind == UnknownKind || (p.kind == FsMeta && p.parent.None?)
  }

  ghost predicate Fits(p: Planned, results: seq<Component>, i: nat)
    requires i < |results|
  {
    && About(results[i], p)
    && (Unsupported(p) ==> results[i].status != Succeeded)
    && (results[i].status == Skipped <==> MaySkip(p, results, i))
    && results[i].status != UnknownStatus
    && (results[i].status == Succeeded ==> results[i].identified)
  }

  lemma FitsLonger(p: Planned, results: seq<Component>, r: Component, i: nat)
    requires i < |results|
    ensures Fits(p, results + [r], i) <==> Fits(p, results, i)
  {
    var longer := results + [r];
    assert longer[i] == results[i] && (0 < i ==> longer[i - 1] == results[i - 1]);
    assert forall j :: 0 <= j < i ==> longer[j] == results[j];
    assert Stopped(longer, i) <==> Stopped(results, i);
  }

  lemma InOrderNext(plan: seq<Planned>, results: seq<Component>, p: Planned, r: Component)
    requires InOrder(plan, results) && About(r, p) && r.status != UnknownStatus && (r.status == Succeeded ==> r.identified)
    requires Unsupported(p) ==> r.status != Succeeded
    requires r.status == Skipped <==> MaySkip(p, results, |results|)
    ensures InOrder(plan + [p], results + [r])
  {
    var longer, more := results + [r], plan + [p];
    forall i | 0 <= i < |more| ensures Fits(more[i], longer, i) {
      if i < |plan| {
        assert Fits(plan[i], results, i);
        FitsLonger(plan[i], results, r, i);
      } else {
        assert forall j :: 0 <= j < i ==> longer[j] == results[j];
        assert Stopped(longer, i) <==> Stopped(results, i);
      }
    }
  }

  // ---- Taking the snapshot ----------------------------------------------------

  /** What one capture came to: the repository reported a snapshot or an error, or the
      command was cancelled. */
  datatype Capture = Captured | Error | Cancelled

  method Attempt(p: Planned) returns (r: Option<Component>)
    ensures r.Some? ==> About(r.value, p) && r.value.status != UnknownStatus
    ensures r.Some? ==> (r.value.status == Skipped <==> p.kind == Image && p.name != NO_NAME)
    ensures r.Some? ==> (r.value.status == Succeeded ==> r.value.identified)
    ensures r.Some? && Unsupported(p) ==> r.value.status == Failed
  {
    var outcome: Capture := *;
    var base := Component(p.name, p.kind, p.required, p.parent, Failed, false);
    if Unsupported(p) {
      outcome := if outcome == Cancelled then Cancelled else Error;
    } else if p.kind == Image {
      return Some(base.(status := Skipped));
    }
    match outcome
    case Cancelled => return None;
    case Error => return Some(base);
    case Captured => return Some(base.(status := Succeeded, identified := true));
  }

  function SkippedFor(p: Planned): Component {
    Component(p.name, p.kind, p.required, p.parent, Skipped, false)
  }

  /** The results of one spec, and whether the rest is to be skipped. */
  method TakeOne(s: Spec, ghost plan: seq<Planned>, results: seq<Component>, stopped: bool)
    returns (more: Option<seq<Component>>, stop: bool)
    requires InOrder(plan, results) && (stopped <==> Stopped(results, |results|))
    ensures more.Some? ==> InOrder(plan + PlanOf(s), results + more.value)
    ensures more.Some? ==> (stop <==> Stopped(results + more.value, |results| + |more.value|))
  {
    var p := PlanOf(s)[0];
    var r := SkippedFor(p);
    if !stopped {
      var got := Attempt(p);
      if got.None? {
        return None, stopped;
      }
      r := got.value;
    }
    InOrderNext(plan, results, p, r);
    StoppedNext(results, r);
    more, stop := Some([r]), stopped || (r.required && r.status == Failed);
    if !HasFsMeta(s) {
      assert PlanOf(s) == [p];
    } else {
      var q := PlanOf(s)[1];
      var meta := SkippedFor(q);
      if !stopped && r.status == Succeeded {
        var got := Attempt(q);
        if got.None? {
          return None, stop;
        }
        meta := got.value;
      }
      InOrderNext(plan + [p], results + [r], q, meta);
      StoppedNext(results + [r], meta);
      assert plan + PlanOf(s) == (plan + [p]) + [q] && results + [r, meta] == (results + [r]) + [meta];
      more, stop := Some([r, meta]), stop || (meta.required && meta.status == Failed);
    }
  }

  lemma StoppedNext(results: seq<Component>, r: Component)
    ensures Stopped(results + [r], |results| + 1) <==> Stopped(results, |results|) || (r.required && r.status == Failed)
  {
    var longer := results + [r];
    assert longer[|results|] == r;
    assert forall j :: 0 <= j < |results| ==> longer[j] == results[j];
    if Stopped(longer, |results| + 1) {
      var j :| 0 <= j < |results| + 1 && longer[j].required && longer[j].status == Failed;
    }
  }

  /** The whole command: results in the order of the plan, as many as were announced. */
  method TakeSnapshot(specs: seq<Spec>) returns (total: nat, results: Option<seq<Component>>)
    ensures total == |Plan(specs)|
    ensures results.Some? ==> InOrder(Plan(specs), results.value)
  {
    total := 0;
    for i := 0 to |specs|
      invariant total == |Plan(specs[..i])|
    {
      assert specs[..i + 1][..i] == specs[..i];
      total := total + if HasFsMeta(specs[i]) then 2 else 1;
    }
    assert specs[..|specs|] == specs;
    var all, stopped := [], false;
    for i := 0 to |specs|
      invariant InOrder(Plan(specs[..i]), all) && (stopped <==> Stopped(all, |all|))
    {
      assert specs[..i + 1][..i] == specs[..i];
      var more, stop := TakeOne(specs[i], Plan(specs[..i]), all, stopped);
      if more.None? {
        return total, None;
      }
      all, stopped := all + more.value, stop;
    }
    return total, Some(all);
  }

  // ---- Status -------------------------------------------------------------------

  datatype PointStatus = Complete | Partial | UnknownPoint

  /** None when there is no recovery point. */
  method StatusFor(components: seq<Component>) returns (status: Option<PointStatus>)
    ensures status == DueStatus(components)
  {
    status := Some(Complete);
    for i := 0 to |components|
      invariant status.Some? && status == DueStatus(components[..i])
    {
      assert components[..i + 1] == components[..i] + [components[i]];
      DueNext(components[..i], components[i]);
      if DueStatus(components[..i + 1]).None? {
        DueStays(components, i + 1);
      }
      if components[i].status == Succeeded {
        continue;
      }
      if components[i].required {
        return None;
      }
      status := Some(Partial);
    }
    assert components[..|components|] == components;
  }

  ghost predicate AllRequiredSucceeded(components: seq<Component>) {
    forall i :: 0 <= i < |components| && components[i].required ==> components[i].status == Succeeded
  }

  ghost predicate AllSucceeded(components: seq<Component>) {
    forall i :: 0 <= i < |components| ==> components[i].status == Succeeded
  }

  /** The status a recovery point of these components has to have, if there may be one. */
  ghost function DueStatus(components: seq<Component>): Option<PointStatus> {
    if !AllRequiredSucceeded(components) then None
    else if AllSucceeded(components) then Some(Complete)
    else Some(Partial)
  }

  lemma DueNext(components: seq<Component>, c: Component)
    ensures DueStatus(components + [c]) ==
            if DueStatus(components).None? || (c.required && c.status != Succeeded) then None
            else if c.status == Succeeded then DueStatus(components)
            else Some(Partial)
  {
    var longer := components + [c];
    assert longer[|components|] == c;
    assert forall i :: 0 <= i < |components| ==> longer[i] == components[i];
  }

  /** A required component that did not succeed rules a recovery point out for good. */
  lemma DueStays(components: seq<Component>, n: nat)
    requires n <= |components| && DueStatus(components[..n]).None?
    ensures DueStatus(components).None?
  {
  }

  // ---- The manifest ---------------------------------------------------------------

  datatype Mode = Live | Quiesced | Offline | UnknownMode

  /** The fields about the recovery point as a whole; a time that was not set is None. */
  datatype Header = Header(schemaVersion: int, recoveryPointID: string, mode: Mode, crashConsistentOnly: bool,
                           applicationID: string, hostID: string, agentID: string, repositoryID: string,
                           workflowID: string, runID: string, createdAt: Option<int>, consistencyPoint: Option<int>)

  datatype Manifest = Manifest(header: Header, status: PointStatus, components: seq<Component>)

  const SCHEMA_VERSION := 1
  const ULID_LENGTH := 26

  /** Crockford's base 32: digits and capitals without I, L, O and U. */
  predicate IsULIDChar(c: char) {
    '0' <= c <= '9' || ('A' <= c <= 'Z' && c !in {'I', 'L', 'O', 'U'})
  }

  predicate IsRecoveryPointID(id: string) {
    && "rp_" <= id && |id| == 3 + ULID_LENGTH
    && forall i :: 3 <= i < |id| ==> IsULIDChar(id[i])
  }

  ghost predicate HeaderOk(h: Header) {
    && h.schemaVersion == SCHEMA_VERSION && IsRecoveryPointID(h.recoveryPointID)
    && h.mode != UnknownMode && (h.mode == Live ==> h.crashConsistentOnly)
    && "" !in {h.applicationID, h.hostID, h.agentID, h.repositoryID, h.workflowID, h.runID}
    && h.createdAt.Some? && h.consistencyPoint.Some?
  }

  /** The source's seven header checks, all of which are made. */
  method CheckHeader(h: Header) returns (errors: nat)
    ensures errors == 0 <==> HeaderOk(h)
  {
    errors := 0;
    if h.schemaVersion != SCHEMA_VERSION {
      errors := errors + 1;
    }
    if !IsRecoveryPointID(h.recoveryPointID) {
      errors := errors + 1;
    }
    if h.mode == UnknownMode {
      errors := errors + 1;
    }
    if h.mode == Live && !h.crashConsistentOnly {
      errors := errors + 1;
    }
    if h.applicationID == "" || h.agentID == "" || h.hostID == "" || h.repositoryID == "" {
      errors := errors + 1;
    }
    if h.workflowID == "" || h.runID == "" {
      errors := errors + 1;
    }
    if h.createdAt.None? || h.consistencyPoint.None? {
      errors := errors + 1;
    }
  }

  predicate ComponentOk(c: Component) {
    && c.kind != UnknownKind && c.status != UnknownStatus
    && if c.status == Succeeded then c.identified else !c.required
  }

  ghost predicate NamesOk(cs: seq<Component>) {
    && (forall i :: 0 <= i < |cs| ==> cs[i].name != NO_NAME)
    && (forall i, j :: 0 <= i < j < |cs| ==> cs[i].name != cs[j].name)
  }

  /** The parent of a metadata component is a filesystem component, and one that
      succeeded only together with its metadata. */
  predicate IsParent(p: Component, c: Component) {
    && c.parent == Some(p.name) && (p.kind == Volume || p.kind == BindMount)
    && (p.status == Succeeded ==> c.status == Succeeded)
  }

  ghost predicate ParentOk(cs: seq<Component>, c: Component) {
    c.kind == FsMeta ==> exists j :: 0 <= j < |cs| && IsParent(cs[j], c)
  }

  ghost predicate ValidManifest(m: Manifest) {
    var cs := m.components;
    && HeaderOk(m.header) && cs != [] && NamesOk(cs)
    && (forall i :: 0 <= i < |cs| ==> ComponentOk(cs[i]))
    && (forall i :: 0 <= i < |cs| ==> ParentOk(cs, cs[i]))
    && m.status == if AllSucceeded(cs) then Complete else Partial
  }

  /** The components by name, the last one winning. */
  ghost predicate ByName(cs: seq<Component>, names: map<Name, Component>) {
    && (forall i :: 0 <= i < |cs| ==> cs[i].name in names)
    && (forall n :: n in names ==> names[n].name == n && names[n] in cs)
  }

  method CheckComponents(cs: seq<Component>) returns (errors: nat, names: map<Name, Component>, failedOptional: bool)
    ensures ByName(cs, names)
    ensures errors == 0 <==> NamesOk(cs) && forall i :: 0 <= i < |cs| ==> ComponentOk(cs[i])
    ensures errors == 0 ==> (failedOptional <==> !AllSucceeded(cs))
  {
    errors, names, failedOptional := 0, map[], false;
    for i := 0 to |cs|
      invariant ByName(cs[..i], names)
      invariant errors == 0 <==> NamesOk(cs[..i]) && forall j :: 0 <= j < i ==> ComponentOk(cs[j])
      invariant errors == 0 ==> (failedOptional <==> !AllSucceeded(cs[..i]))
    {
      var c := cs[i];
      assert cs[..i + 1] == cs[..i] + [c];
      NamesNext(cs[..i], c, names);
      if c.name == NO_NAME || c.name in names {
        errors := errors + 1;
      }
      names := names[c.name := c];
      if c.kind == UnknownKind {
        errors := errors + 1;
      }
      if c.status == UnknownStatus {
        errors := errors + 1;
      }
      if c.status == Succeeded && !c.identified {
        errors := errors + 1;
      } else if c.status != Succeeded && c.required {
        errors := errors + 1;
      } else if c.status != Succeeded {
        failedOptional := true;
      }
    }
    assert cs[..|cs|] == cs;
  }

  lemma NamesNext(cs: seq<Component>, c: Component, names: map<Name, Component>)
    requires ByName(cs, names)
    ensures NamesOk(cs + [c]) <==> NamesOk(cs) && c.name != NO_NAME && c.name !in names
    ensures ByName(cs + [c], names[c.name := c])
    ensures AllSucceeded(cs + [c]) <==> AllSucceeded(cs) && c.status == Succeeded
  {
    var longer := cs + [c];
    assert longer[|cs|] == c && forall i :: 0 <= i < |cs| ==> longer[i] == cs[i];
    if c.name in names {
      var i :| 0 <= i < |cs| && cs[i] == names[c.name];
      assert longer[i].name == longer[|cs|].name;
    }
  }

  method CheckParents(cs: seq<Component>, names: map<Name, Component>) returns (errors: nat)
    requires ByName(cs, names)
    ensures NamesOk(cs) ==> (errors == 0 <==> forall i :: 0 <= i < |cs| ==> ParentOk(cs, cs[i]))
  {
    errors := 0;
    for i := 0 to |cs|
      invariant NamesOk(cs) ==> (errors == 0 <==> forall j :: 0 <= j < i ==> ParentOk(cs, cs[j]))
    {
      var c := cs[i];
      if c.kind == FsMeta {
        if NamesOk(cs) {
          ParentByName(cs, names, c);
        }
        if c.parent.None? || c.parent.value !in names {
          errors := errors + 1;
        } else {
          var p := names[c.parent.value];
          if p.kind != Volume && p.kind != BindMount {
            errors := errors + 1;
          } else if p.status == Succeeded && c.status != Succeeded {
            errors := errors + 1;
          }
        }
      }
    }
  }

  lemma ParentByName(cs: seq<Component>, names: map<Name, Component>, c: Component)
    requires ByName(cs, names) && NamesOk(cs) && c.kind == FsMeta
    ensures ParentOk(cs, c) <==> c.parent.Some? && c.parent.value in names && IsParent(names[c.parent.value], c)
  {
    if c.parent.Some? && c.parent.value in names {
      var p := names[c.parent.value];
      var k :| 0 <= k < |cs| && cs[k] == p;
      assert forall j :: 0 <= j < |cs| && cs[j].name == p.name ==> j == k;
    }
  }

  /** Validate reports no error exactly for a valid manifest. */
  method Validate(m: Manifest) returns (ok: bool)
    ensures ok <==> ValidManifest(m)
  {
    var headerErrors := CheckHeader(m.header);
    var errors, names, failedOptional := CheckComponents(m.components);
    var orphans := CheckParents(m.components, names);
    ok := headerErrors == 0 && m.components != [] && errors == 0 && orphans == 0;
    match m.status
    case Complete => ok := ok && !failedOptional;
    case Partial => ok := ok && failedOptional;
    case UnknownPoint => ok := false;
  }

  /** A manifest that Validate accepts has the status that StatusFor computes. */
  lemma ValidStatus(m: Manifest)
    requires ValidManifest(m)
    ensures DueStatus(m.components) == Some(m.status)
  {
    assert forall i :: 0 <= i < |m.components| ==> ComponentOk(m.components[i]);
  }

  // ---- From a snapshot to a manifest ------------------------------------------------

  /** Where the plan's metadata stands: right after its filesystem component. */
  lemma {:induction false} MetaAfterParent(specs: seq<Spec>, i: nat)
    requires i < |Plan(specs)|
    ensures var plan := Plan(specs);
            plan[i].parent.Some? ==>
              && 0 < i && plan[i].kind == FsMeta && plan[i].parent == Some(plan[i - 1].name)
              && (plan[i - 1].kind == Volume || plan[i - 1].kind == BindMount)
  {
    var n := |specs| - 1;
    if |Plan(specs[..n])| <= i {
    } else {
      MetaAfterParent(specs[..n], i);
    }
  }

  /** Specs the manifest can express: known kinds, metadata only as part of its parent,
      and no name used twice. */
  ghost predicate Expressible(specs: seq<Spec>) {
    var plan := Plan(specs);
    && plan != []
    && (forall i :: 0 <= i < |plan| ==> plan[i].name != NO_NAME && plan[i].kind != UnknownKind)
    && (forall i :: 0 <= i < |plan| && plan[i].kind == FsMeta ==> plan[i].parent.Some?)
    && (forall i, j :: 0 <= i < j < |plan| ==> plan[i].name != plan[j].name)
  }

  /** No filesystem component succeeded while its metadata failed. */
  ghost predicate MetaTaken(results: seq<Component>) {
    forall i :: 0 < i < |results| && results[i].parent.Some? && results[i - 1].status == Succeeded ==> results[i].status == Succeeded
  }

  lemma ParentIsBefore(specs: seq<Spec>, results: seq<Component>, i: nat)
    requires InOrder(Plan(specs), results) && NamesOk(results) && i < |results| && results[i].parent.Some?
    ensures 0 < i
    ensures ParentOk(results, results[i]) <==> (results[i - 1].status == Succeeded ==> results[i].status == Succeeded)
  {
    var plan := Plan(specs);
    assert Fits(plan[i], results, i);
    MetaAfterParent(specs, i);
    assert Fits(plan[i - 1], results, i - 1);
    if ParentOk(results, results[i]) {
      var j :| 0 <= j < |results| && IsParent(results[j], results[i]);
      assert j == i - 1;
    } else {
      assert !IsParent(results[i - 1], results[i]);
    }
  }

  lemma NamesOfPlan(specs: seq<Spec>, results: seq<Component>)
    requires InOrder(Plan(specs), results)
    ensures Expressible(specs) <==>
            && results != [] && NamesOk(results)
            && (forall i :: 0 <= i < |results| ==> results[i].kind != UnknownKind)
            && (forall i :: 0 <= i < |results| && results[i].kind == FsMeta ==> results[i].parent.Some?)
  {
    var plan := Plan(specs);
    assert forall i :: 0 <= i < |plan| ==> Fits(plan[i], results, i);
    assert forall i :: 0 <= i < |plan| ==> results[i].name == plan[i].name && results[i].kind == plan[i].kind && results[i].parent == plan[i].parent;
  }

  lemma OrphanIsInvalid(results: seq<Component>, i: nat)
    requires i < |results| && results[i].kind == FsMeta && results[i].parent.None?
    ensures !ParentOk(results, results[i])
  {
  }

  /** The manifest of a snapshot for which StatusFor allows a recovery point is accepted
      exactly when the specs are expressible and no metadata was lost on its own: for an
      optional component, StatusFor does not see that case. */
  lemma SnapshotManifest(h: Header, specs: seq<Spec>, results: seq<Component>)
    requires HeaderOk(h) && InOrder(Plan(specs), results) && DueStatus(results).Some?
    ensures ValidManifest(Manifest(h, DueStatus(results).value, results)) <==> Expressible(specs) && MetaTaken(results)
  {
    var m := Manifest(h, DueStatus(results).value, results);
    NamesOfPlan(specs, results);
    assert forall i :: 0 <= i < |results| ==> Fits(Plan(specs)[i], results, i);
    if ValidManifest(m) {
      forall i | 0 <= i < |results| && results[i].kind == FsMeta ensures results[i].parent.Some? {
        if results[i].parent.None? {
          OrphanIsInvalid(results, i);
        }
      }
      forall i | 0 < i < |results| && results[i].parent.Some? && results[i - 1].status == Succeeded
        ensures results[i].status == Succeeded
      {
        assert ParentOk(results, results[i]);
        ParentIsBefore(specs, results, i);
      }
    }
    if Expressible(specs) && MetaTaken(results) {
      forall i | 0 <= i < |results| ensures ComponentOk(results[i]) {
        assert Fits(Plan(specs)[i], results, i);
      }
      forall i | 0 <= i < |results| ensures ParentOk(results, results[i]) {
        if results[i].kind == FsMeta {
          ParentIsBefore(specs, results, i);
        }
      }
    }
  }

  /** An optional volume whose metadata failed: StatusFor says partial, Validate refuses. */
  lemma LostMetadata(h: Header, name: string)
    requires HeaderOk(h) && name != ""
    ensures var n := Plain(name);
            var results := [Component(n, Volume, false, None, Succeeded, true),
                            Component(Meta(n), FsMeta, false, Some(n), Failed, false)];
            && InOrder(Plan([Spec(n, Volume, false, true)]), results)
            && DueStatus(results) == Some(Partial) && !ValidManifest(Manifest(h, Partial, results))
  {
    var n := Plain(name);
    var spec := Spec(n, Volume, false, true);
    var results := [Component(n, Volume, false, None, Succeeded, true),
                    Component(Meta(n), FsMeta, false, Some(n), Failed, false)];
    assert [spec][..0] == [];
    assert Plan([spec]) == PlanOf(spec);
    assert Fits(Plan([spec])[0], results, 0) && Fits(Plan([spec])[1], results, 1);
    SnapshotManifest(h, [spec], results);
    assert results[1].parent.Some? && results[0].status == Succeeded;
  }
}
