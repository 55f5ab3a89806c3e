/** Idempotent command execution: the agent under any sequence of deliveries, acks,
    session drops and restarts (internal/agent/agent.go over journal.go). */
module CommandProtocol {
  import opened CommandJournal
  import opened Common

  datatype Phase = Executing | Finishing(u: Update)

  /** A goroutine that executes a command. */
  datatype Job = Job(id: string, phase: Phase)

  /** `mem` is the journal's map, `disk` and `tail` what its file holds, `running` the
      claimed commands, `checking` a delivery between its journal check and its claim,
      and `sent` the terminal updates handed to a session so far. */
  datatype State = State(mem: Records, disk: Records, tail: Option<Record>, running: set<string>,
                         jobs: map<nat, Job>, nextJob: nat, checking: Option<string>, sent: seq<Update>, now: nat)

  datatype Action =
    | Check(id: string)
    | Claim(kind: string)
    | Complete(job: nat, u: Update, kind: string)
    | Emit(job: nat)
    | Abandon(job: nat)
    | Acknowledge(id: string)
    | Resend(id: string)
    | Restart
    | Tick(d: nat)

  function ResultOf(m: Records, id: string): Option<Update> {
    if id in m then m[id].update else None
  }

  /** A journal write of record r in state s. */
  ghost predicate Writes(s: State, r: Record, s': State) {
    && s'.mem == s.mem[r.id := r]
    && WriteEffect(s.disk, s.tail, r, s'.mem, s'.disk, s'.tail)
  }

  ghost predicate Next(s: State, a: Action, s': State) {
    match a
    case Check(id) =>
      && s.checking == None
      && s' == if ResultOf(s.mem, id).Some? then s.(sent := s.sent + [ResultOf(s.mem, id).value])
               else s.(checking := Some(id))
    case Claim(kind) =>
      && s.checking.Some?
      && if s.checking.value in s.running then s' == s.(checking := None)
         else
           && Writes(s, Record(s.checking.value, kind, Accepted, s.now, None), s')
           && s' == s.(mem := s'.mem, disk := s'.disk, tail := s'.tail, checking := None,
                       running := s.running + {s.checking.value},
                       jobs := s.jobs[s.nextJob := Job(s.checking.value, Executing)], nextJob := s.nextJob + 1)
    case Complete(j, u, kind) =>
      && j in s.jobs && s.jobs[j] == Job(u.id, Executing)
      && Writes(s, Record(u.id, kind, if u.succeeded then Succeeded else Failed, s.now, Some(u)), s')
      && s' == s.(mem := s'.mem, disk := s'.disk, tail := s'.tail, jobs := s.jobs[j := Job(u.id, Finishing(u))])
    case Emit(j) =>
      && j in s.jobs && s.jobs[j].phase.Finishing?
      && s' == s.(sent := s.sent + [s.jobs[j].phase.u], jobs := s.jobs - {j}, running := s.running - {s.jobs[j].id})
    case Abandon(j) =>
      && j in s.jobs && s.jobs[j].phase == Executing
      && s' == s.(jobs := s.jobs - {j}, running := s.running - {s.jobs[j].id})
    case Acknowledge(id) =>
      if id in s.mem && s.mem[id].Terminal() then
        && Writes(s, s.mem[id].(state := Acked, updated := s.now), s')
        && s' == s.(mem := s'.mem, disk := s'.disk, tail := s'.tail)
      else s' == s
    case Resend(id) =>
      && id in s.mem && s.mem[id].Terminal() && s.mem[id].update.Some?
      && s' == s.(sent := s.sent + [s.mem[id].update.value])
    case Restart =>
      var m := Kept(Recovered(s.disk, s.tail), s.now);
      s' == s.(mem := m, disk := m, tail := None, running := {}, jobs := map[], checking := None)
    case Tick(d) => s' == s.(now := s.now + d)
  }

  /** This action starts an execution of id. */
  predicate Starts(s: State, a: Action, id: string) {
    a.Claim? && s.checking == Some(id) && id !in s.running
  }

  ghost predicate Keyed(m: Records) {
    forall i :: i in m ==> m[i].id == i && (m[i].update.Some? ==> m[i].update.value.id == i)
  }

  ghost predicate RecordsInv(s: State) {
    && Keyed(s.mem) && Keyed(s.disk)
    && (s.tail.Some? && s.tail.value.update.Some? ==> s.tail.value.update.value.id == s.tail.value.id)
  }

  /** The running set is exactly the commands with a job, one job each. */
  ghost predicate JobsInv(running: set<string>, jobs: map<nat, Job>, nextJob: nat) {
    && (forall j :: j in jobs ==> j < nextJob && jobs[j].id in running)
    && (forall i, j :: i in jobs && j in jobs && jobs[i].id == jobs[j].id ==> i == j)
    && (forall id :: id in running ==> exists j :: j in jobs && jobs[j].id == id)
    && (forall j :: j in jobs && jobs[j].phase.Finishing? ==> jobs[j].phase.u.id == jobs[j].id)
  }

  ghost predicate Inv(s: State) {
    RecordsInv(s) && JobsInv(s.running, s.jobs, s.nextJob)
  }

  /** States ss[0], ss[1], … connected by the actions. */
  ghost predicate Run(ss: seq<State>, acts: seq<Action>) {
    |ss| == |acts| + 1 && forall k :: 0 <= k < |acts| ==> Next(ss[k], acts[k], ss[k + 1])
  }

  lemma RunMore(ss: seq<State>, acts: seq<Action>, a: Action, s': State)
    requires Run(ss, acts) && Next(ss[|acts|], a, s')
    ensures Run(ss + [s'], acts + [a])
  {
  }

  /** A run of resends from one state to another. */
  ghost predicate Resends(ss: seq<State>, acts: seq<Action>, from: State, to: State) {
    && Run(ss, acts) && ss[0] == from && ss[|acts|] == to
    && forall k :: 0 <= k < |acts| ==> acts[k].Resend?
  }

  lemma ResendsMore(ss: seq<State>, acts: seq<Action>, from: State, to: State, id: string, s': State)
    requires Resends(ss, acts, from, to) && Next(to, Resend(id), s')
    ensures Resends(ss + [s'], acts + [Resend(id)], from, s')
  {
    RunMore(ss, acts, Resend(id), s');
  }

  lemma JobStarts(running: set<string>, jobs: map<nat, Job>, nextJob: nat, id: string)
    requires JobsInv(running, jobs, nextJob) && id !in running
    ensures JobsInv(running + {id}, jobs[nextJob := Job(id, Executing)], nextJob + 1)
  {
    var after := jobs[nextJob := Job(id, Executing)];
    forall i | i in running + {id} ensures exists j :: j in after && after[j].id == i {
      if i == id {
        assert after[nextJob].id == i;
      } else {
        var j :| j in jobs && jobs[j].id == i;
        assert after[j].id == i;
      }
    }
  }

  lemma JobFinishes(running: set<string>, jobs: map<nat, Job>, nextJob: nat, k: nat, u: Update)
    requires JobsInv(running, jobs, nextJob) && k in jobs && jobs[k].id == u.id
    ensures JobsInv(running, jobs[k := Job(u.id, Finishing(u))], nextJob)
  {
    var after := jobs[k := Job(u.id, Finishing(u))];
    forall i | i in running ensures exists j :: j in after && after[j].id == i {
      var j :| j in jobs && jobs[j].id == i;
      assert after[j].id == i;
    }
  }

  lemma JobEnds(running: set<string>, jobs: map<nat, Job>, nextJob: nat, k: nat)
    requires JobsInv(running, jobs, nextJob) && k in jobs
    ensures JobsInv(running - {jobs[k].id}, jobs - {k}, nextJob)
  {
    var after := jobs - {k};
    forall i | i in running - {jobs[k].id} ensures exists j :: j in after && after[j].id == i {
      var j :| j in jobs && jobs[j].id == i;
      assert after[j].id == i;
    }
  }

  lemma StepJobs(s: State, a: Action, s': State)
    requires JobsInv(s.running, s.jobs, s.nextJob) && Next(s, a, s')
    ensures JobsInv(s'.running, s'.jobs, s'.nextJob)
  {
    match a {
      case Claim(kind) =>
        if s.checking.value !in s.running {
          JobStarts(s.running, s.jobs, s.nextJob, s.checking.value);
        }
      case Complete(j, u, kind) => JobFinishes(s.running, s.jobs, s.nextJob, j, u);
      case Emit(j) => JobEnds(s.running, s.jobs, s.nextJob, j);
      case Abandon(j) => JobEnds(s.running, s.jobs, s.nextJob, j);
      case _ =>
    }
  }

  lemma WriteKeepsRecords(s: State, r: Record, s': State)
    requires RecordsInv(s) && Writes(s, r, s') && (r.update.Some? ==> r.update.value.id == r.id)
    ensures RecordsInv(s')
  {
  }

  lemma StepRecords(s: State, a: Action, s': State)
    requires RecordsInv(s) && Next(s, a, s')
    ensures RecordsInv(s')
  {
    match a {
      case Claim(kind) =>
        if s.checking.value !in s.running {
          WriteKeepsRecords(s, Record(s.checking.value, kind, Accepted, s.now, None), s');
        }
      case Complete(j, u, kind) =>
        WriteKeepsRecords(s, Record(u.id, kind, if u.succeeded then Succeeded else Failed, s.now, Some(u)), s');
      case Acknowledge(id) =>
        if id in s.mem && s.mem[id].Terminal() {
          WriteKeepsRecords(s, s.mem[id].(state := Acked, updated := s.now), s');
        }
      case _ =>
    }
  }

  lemma StepInv(s: State, a: Action, s': State)
    requires Inv(s) && Next(s, a, s')
    ensures Inv(s')
  {
    StepJobs(s, a, s');
    StepRecords(s, a, s');
  }

  lemma {:induction false} RunInv(ss: seq<State>, acts: seq<Action>)
    requires Run(ss, acts) && Inv(ss[0])
    ensures Inv(ss[|acts|])
  {
    if acts == [] {
    } else {
      var n := |acts| - 1;
      RunInv(ss[..n + 1], acts[..n]);
      StepInv(ss[n], acts[n], ss[n + 1]);
    }
  }

  /** In every run at most one execution per command is in flight. */
  lemma AtMostOneExecution(ss: seq<State>, acts: seq<Action>, i: nat, j: nat)
    requires Run(ss, acts) && Inv(ss[0])
    requires i in ss[|acts|].jobs && j in ss[|acts|].jobs && ss[|acts|].jobs[i].id == ss[|acts|].jobs[j].id
    ensures i == j
  {
    RunInv(ss, acts);
  }

  // ---- Sticky results -------------------------------------------------------

  /** Result u of command id is in the journal file. */
  ghost predicate Journaled(s: State, id: string, u: Update) {
    id != "" && ResultOf(s.disk, id) == Some(u)
  }

  /** The result is settled: everything the agent knows about id says u. */
  ghost predicate Settled(s: State, id: string, u: Update) {
    && RecordsSay(s, id, u)
    && (forall j :: j in s.jobs && s.jobs[j].id == id ==> s.jobs[j].phase == Finishing(u))
  }

  /** The retention of 24 hours after the ack does not end for id in this step. */
  ghost predicate Retains(s: State, a: Action, id: string) {
    a.Restart? ==> id in Kept(Recovered(s.disk, s.tail), s.now)
  }

  /** Nothing is sent for id from s to s' but u. */
  ghost predicate SendsOnly(s: State, s': State, id: string, u: Update) {
    && |s.sent| <= |s'.sent|
    && forall k :: |s.sent| <= k < |s'.sent| && s'.sent[k].id == id ==> s'.sent[k] == u
  }

  /** The records say u: in memory, in the file, and in a torn tail of it. */
  ghost predicate RecordsSay(s: State, id: string, u: Update) {
    && Journaled(s, id, u)
    && ResultOf(s.mem, id) == Some(u)
    && (s.tail.Some? && s.tail.value.id == id ==> s.tail.value.update == Some(u))
  }

  /** A write of another command, or of the same result, leaves the records saying u. */
  lemma WriteSticks(s: State, r: Record, s': State, id: string, u: Update)
    requires RecordsSay(s, id, u) && Writes(s, r, s') && (r.id == id ==> r.update == Some(u))
    ensures RecordsSay(s', id, u)
  {
  }

  lemma RecordsStick(s: State, a: Action, s': State, id: string, u: Update)
    requires Inv(s) && Next(s, a, s') && Settled(s, id, u) && s.checking != Some(id) && Retains(s, a, id)
    ensures RecordsSay(s', id, u)
  {
    match a {
      case Claim(kind) =>
        if s.checking.value !in s.running {
          WriteSticks(s, Record(s.checking.value, kind, Accepted, s.now, None), s', id, u);
        }
      case Complete(j, v, kind) =>
        WriteSticks(s, Record(v.id, kind, if v.succeeded then Succeeded else Failed, s.now, Some(v)), s', id, u);
      case Acknowledge(i) =>
        if i in s.mem && s.mem[i].Terminal() {
          WriteSticks(s, s.mem[i].(state := Acked, updated := s.now), s', id, u);
        }
      case _ =>
    }
  }

  /** One step after the result settled, while no delivery of id has passed its check. */
  lemma StepSticks(s: State, a: Action, s': State, id: string, u: Update)
    requires Inv(s) && Next(s, a, s') && Settled(s, id, u) && s.checking != Some(id) && Retains(s, a, id)
    ensures Settled(s', id, u) && s'.checking != Some(id) && !Starts(s, a, id)
    ensures s.sent <= s'.sent && SendsOnly(s, s', id, u)
  {
    RecordsStick(s, a, s', id, u);
  }

  lemma SendsOnlyTrans(s0: State, s: State, s': State, id: string, u: Update)
    requires SendsOnly(s0, s, id, u) && SendsOnly(s, s', id, u) && s.sent <= s'.sent
    ensures SendsOnly(s0, s', id, u)
  {
    forall k | |s0.sent| <= k < |s'.sent| && s'.sent[k].id == id
      ensures s'.sent[k] == u
    {
      if k < |s.sent| {
        assert s'.sent[k] == s.sent[k];
      }
    }
  }

  /** The retention does not end for id anywhere in the run, and no step starts id. */
  ghost predicate Retained(ss: seq<State>, acts: seq<Action>, id: string)
    requires |ss| == |acts| + 1
  {
    forall k :: 0 <= k < |acts| ==> Retains(ss[k], acts[k], id)
  }

  ghost predicate NeverStarts(ss: seq<State>, acts: seq<Action>, id: string)
    requires |ss| == |acts| + 1
  {
    forall k :: 0 <= k < |acts| ==> !Starts(ss[k], acts[k], id)
  }

  /** Once a result is journaled and no delivery of the same command is between its check
      and its claim, the command never starts again and every later terminal update for
      it is that result, whatever is delivered, acknowledged, dropped or restarted. */
  lemma {:induction false} ResultSticks(ss: seq<State>, acts: seq<Action>, id: string, u: Update)
    requires Run(ss, acts) && Inv(ss[0]) && Settled(ss[0], id, u) && ss[0].checking != Some(id)
    requires Retained(ss, acts, id)
    ensures Settled(ss[|acts|], id, u) && ss[|acts|].checking != Some(id)
    ensures NeverStarts(ss, acts, id)
    ensures SendsOnly(ss[0], ss[|acts|], id, u)
  {
    if acts == [] {
    } else {
      var n := |acts| - 1;
      var ss0, acts0 := ss[..n + 1], acts[..n];
      assert Retained(ss0, acts0, id) by {
        forall k | 0 <= k < n ensures Retains(ss0[k], acts0[k], id) {
          assert Retains(ss[k], acts[k], id);
        }
      }
      ResultSticks(ss0, acts0, id, u);
      RunInv(ss0, acts0);
      StepSticks(ss[n], acts[n], ss[n + 1], id, u);
      SendsOnlyTrans(ss[0], ss[n], ss[n + 1], id, u);
      forall k | 0 <= k < |acts| ensures !Starts(ss[k], acts[k], id) {
        if k < n {
          assert !Starts(ss0[k], acts0[k], id);
        }
      }
    }
  }

  /** A completed execution whose result reached the file is settled. */
  lemma CompletionSettles(s: State, j: nat, u: Update, kind: string, s': State)
    requires Inv(s) && Next(s, Complete(j, u, kind), s') && s'.disk != s.disk && Journaled(s', u.id, u)
    ensures Settled(s', u.id, u)
  {
  }

  // ---- The race -------------------------------------------------------------

  /** An agent with an empty journal. */
  const FRESH := State(map[], map[], None, {}, map[], 0, None, [], 0)

  lemma FreshInv()
    ensures Inv(FRESH)
  {
  }

  /** A second delivery of a command may check the journal while the first one executes, and
      the result settles before it goes on. */
  lemma RaceReachable(id: string, kind: string, u: Update) returns (ss: seq<State>, acts: seq<Action>)
    requires id != "" && u.id == id
    ensures Run(ss, acts) && ss[0] == FRESH && Settled(ss[|acts|], id, u) && ss[|acts|].checking == Some(id)
    ensures Inv(ss[|acts|])
  {
    var accepted := Record(id, kind, Accepted, 0, None);
    var finished := Record(id, kind, if u.succeeded then Succeeded else Failed, 0, Some(u));
    var s1 := FRESH.(checking := Some(id));
    var s2 := FRESH.(mem := map[id := accepted], disk := map[id := accepted], running := {id},
                     jobs := map[0 := Job(id, Executing)], nextJob := 1);
    var s3 := s2.(checking := Some(id));
    var s4 := s3.(mem := map[id := finished], disk := map[id := finished], jobs := map[0 := Job(id, Finishing(u))]);
    assert Next(FRESH, Check(id), s1) && Next(s1, Claim(kind), s2) && Next(s2, Check(id), s3);
    assert s3.mem[id := finished] == s4.mem && s3.disk[id := finished] == s4.disk;
    assert Next(s3, Complete(0, u, kind), s4);
    ss, acts := [FRESH], [];
    RunMore(ss, acts, Check(id), s1);
    ss, acts := ss + [s1], acts + [Check(id)];
    RunMore(ss, acts, Claim(kind), s2);
    ss, acts := ss + [s2], acts + [Claim(kind)];
    RunMore(ss, acts, Check(id), s3);
    ss, acts := ss + [s3], acts + [Check(id)];
    FreshInv();
    RunInv(ss, acts);
    RunMore(ss, acts, Complete(0, u, kind), s4);
    ss, acts := ss + [s4], acts + [Complete(0, u, kind)];
    CompletionSettles(s3, 0, u, kind, s4);
    RunInv(ss, acts);
  }

  /** The settled execution ends, if it has not yet. */
  lemma ExecutionEnds(s: State, id: string, u: Update) returns (ss: seq<State>, acts: seq<Action>)
    requires Inv(s) && Settled(s, id, u) && s.checking == Some(id)
    ensures Run(ss, acts) && ss[0] == s && Retained(ss, acts, id)
    ensures id !in ss[|acts|].running && ss[|acts|].checking == Some(id)
  {
    ss, acts := [s], [];
    if id in s.running {
      var j :| j in s.jobs && s.jobs[j].id == id;
      var free := s.(sent := s.sent + [u], jobs := s.jobs - {j}, running := s.running - {id});
      assert Next(s, Emit(j), free);
      RunMore(ss, acts, Emit(j), free);
      ss, acts := [s, free], [Emit(j)];
    }
  }

  lemma ClaimStarts(s: State, id: string) returns (s': State)
    requires id !in s.running && s.checking == Some(id)
    ensures Next(s, Claim(""), s') && Starts(s, Claim(""), id)
  {
    var r := Record(id, "", Accepted, s.now, None);
    s' := s.(mem := s.mem[id := r], tail := None, checking := None, running := s.running + {id},
             jobs := s.jobs[s.nextJob := Job(id, Executing)], nextJob := s.nextJob + 1);
    assert Writes(s, r, s');
  }

  /** A delivery that found no result before the result was journaled claims the command
      after the execution ended, and starts it again. */
  lemma StaleCheckRestarts(s: State, id: string, u: Update) returns (ss: seq<State>, acts: seq<Action>)
    requires Inv(s) && Settled(s, id, u) && s.checking == Some(id)
    ensures Run(ss, acts) && ss[0] == s && Retained(ss, acts, id) && !NeverStarts(ss, acts, id)
  {
    ss, acts := ExecutionEnds(s, id, u);
    var n := |acts|;
    var again := ClaimStarts(ss[n], id);
    RunMore(ss, acts, Claim(""), again);
    ss, acts := ss + [again], acts + [Claim("")];
    assert Starts(ss[n], acts[n], id);
  }

  lemma RunAppend(ss: seq<State>, acts: seq<Action>, ss': seq<State>, acts': seq<Action>)
    requires Run(ss, acts) && Run(ss', acts') && ss'[0] == ss[|acts|]
    ensures Run(ss + ss'[1..], acts + acts')
  {
    var all, acted, n := ss + ss'[1..], acts + acts', |acts|;
    forall k | 0 <= k < |acted| ensures Next(all[k], acted[k], all[k + 1]) {
      if k < n {
        assert all[k] == ss[k] && all[k + 1] == ss[k + 1];
      } else {
        assert all[k] == ss'[k - n] && all[k + 1] == ss'[k - n + 1] && acted[k] == acts'[k - n];
      }
    }
  }

  /** From an empty journal on, a command whose result is settled at step m starts again. */
  lemma SecondExecution(id: string, u: Update) returns (ss: seq<State>, acts: seq<Action>, m: nat, n: nat)
    requires id != "" && u.id == id
    ensures Run(ss, acts) && ss[0] == FRESH && m <= n < |acts|
    ensures Settled(ss[m], id, u) && Starts(ss[n], acts[n], id)
  {
    var first, before := RaceReachable(id, "", u);
    m := |before|;
    var later, after := StaleCheckRestarts(first[m], id, u);
    var k :| 0 <= k < |after| && Starts(later[k], after[k], id);
    RunAppend(first, before, later, after);
    ss, acts, n := first + later[1..], before + after, m + k;
    assert ss[n] == later[k] && acts[n] == after[k] && ss[m] == first[m];
  }

  /** A journaled result sticks in every run if and only if, when it settles, no delivery
      of the same command is between its journal check and its claim. */
  lemma SticksIff(s: State, id: string, u: Update)
    requires Inv(s) && Settled(s, id, u)
    ensures (forall ss, acts :: Run(ss, acts) && ss[0] == s && Retained(ss, acts, id) ==> NeverStarts(ss, acts, id))
            <==> s.checking != Some(id)
  {
    if s.checking == Some(id) {
      var ss, acts := StaleCheckRestarts(s, id, u);
    } else {
      forall ss, acts | Run(ss, acts) && ss[0] == s && Retained(ss, acts, id)
        ensures NeverStarts(ss, acts, id)
      {
        ResultSticks(ss, acts, id, u);
      }
    }
  }

  // ---- The agent ------------------------------------------------------------

  /** The parts of the agent that handle commands; each method is one locked section. */
  class Agent {
    const journal: Journal
    var running: set<string>
    var jobs: map<nat, Job>
    var nextJob: nat
    var checking: Option<string>
    var sent: seq<Update>

    constructor (j: Journal)
      ensures journal == j && running == {} && jobs == map[] && checking == None && sent == []
    {
      journal := j;
      running, jobs, nextJob, checking, sent := {}, map[], 0, None, [];
    }

    ghost function Abs(): State
      reads this, journal
    {
      State(journal.records, Durable(journal.file), Tail(journal.file), running, jobs, nextJob, checking, sent, journal.now)
    }

    /** handleCommand up to the journal check. */
    method CheckJournal(id: string) returns (found: bool)
      requires checking == None
      modifies this`sent, this`checking
      ensures Next(old(Abs()), Check(id), Abs())
      ensures found == ResultOf(journal.records, id).Some?
    {
      var u := journal.Result(id);
      found := u.Some?;
      if found {
        sent := sent + [u.value];
      } else {
        checking := Some(id);
      }
    }

    /** handleCommand from the lock on. An Accept that fails is only logged. */
    method ClaimCommand(kind: string) returns (started: bool)
      requires checking.Some? && journal.Keyed()
      modifies this, journal`file, journal`records, journal`lines, journal`open
      ensures journal.Keyed() && Next(old(Abs()), Claim(kind), Abs())
      ensures started == Starts(old(Abs()), Claim(kind), old(checking.value))
    {
      var id := checking.value;
      checking := None;
      if id in running { return false; }
      running := running + {id};
      var o := journal.Accept(id, kind);
      jobs, nextJob := jobs[nextJob := Job(id, Executing)], nextJob + 1;
      started := true;
    }

    /** The goroutine's execution ended with u: it journals the result. */
    method FinishJob(j: nat, u: Update, kind: string)
      requires j in jobs && jobs[j] == Job(u.id, Executing) && journal.Keyed()
      modifies this`jobs, journal`file, journal`records, journal`lines, journal`open
      ensures journal.Keyed() && Next(old(Abs()), Complete(j, u, kind), Abs())
    {
      var o := journal.Finish(u, kind);
      jobs := jobs[j := Job(u.id, Finishing(u))];
    }

    /** The goroutine sends its result and gives the command up. */
    method EndJob(j: nat)
      requires j in jobs && jobs[j].phase.Finishing?
      modifies this`sent, this`jobs, this`running
      ensures Next(old(Abs()), Emit(j), Abs())
    {
      sent := sent + [jobs[j].phase.u];
      running := running - {jobs[j].id};
      jobs := jobs - {j};
    }

    /** The agent is shutting down: the goroutine ends without a result. */
    method AbandonJob(j: nat)
      requires j in jobs && jobs[j].phase == Executing
      modifies this`jobs, this`running
      ensures Next(old(Abs()), Abandon(j), Abs())
    {
      running := running - {jobs[j].id};
      jobs := jobs - {j};
    }

    method ReceiveAck(id: string)
      requires journal.Keyed()
      modifies journal`file, journal`records, journal`lines, journal`open
      ensures journal.Keyed() && Next(old(Abs()), Acknowledge(id), Abs())
    {
      var o := journal.Ack(id);
    }

    ghost predicate Unacknowledged(u: Update)
      reads journal`records
    {
      exists i :: i in journal.records && journal.records[i].Terminal() && journal.records[i].update == Some(u)
    }

    /** The start of a session: every unacknowledged result is sent again, each in a step of
        its own. */
    method ResendResults() returns (ghost ss: seq<State>, ghost acts: seq<Action>)
      requires Keyed(journal.records)
      modifies this`sent
      ensures Resends(ss, acts, old(Abs()), Abs())
      ensures old(sent) <= sent && forall u :: u in sent[|old(sent)|..] <==> Unacknowledged(u)
    {
      var us := journal.Unacked();
      ss, acts := ResendEach(us);
    }

    method ResendEach(us: set<Update>) returns (ghost ss: seq<State>, ghost acts: seq<Action>)
      requires Keyed(journal.records) && forall u :: u in us ==> Unacknowledged(u)
      modifies this`sent
      ensures Resends(ss, acts, old(Abs()), Abs())
      ensures old(sent) <= sent && forall u :: u in sent[|old(sent)|..] <==> u in us
    {
      var todo := us;
      ss, acts := [Abs()], [];
      ghost var added: seq<Update> := [];
      while todo != {}
        invariant todo <= us && sent == old(sent) + added
        invariant forall u :: u in added <==> u in us - todo
        invariant Resends(ss, acts, old(Abs()), Abs())
        decreases todo
      {
        var u :| u in todo;
        ghost var to := Abs();
        ResendOne(u);
        todo, added := todo - {u}, added + [u];
        ResendsMore(ss, acts, old(Abs()), to, u.id, Abs());
        ss, acts := ss + [Abs()], acts + [Resend(u.id)];
      }
      assert sent[|old(sent)|..] == added;
    }

    method ResendOne(u: Update)
      requires Keyed(journal.records) && Unacknowledged(u)
      modifies this`sent
      ensures Next(old(Abs()), Resend(u.id), Abs()) && sent == old(sent) + [u]
    {
      sent := sent + [u];
    }

    /** The process restarts on the journal file. */
    method Reopen() returns (o: Outcome)
      modifies this, journal`file, journal`records, journal`lines, journal`open
      ensures o.Ok? ==> journal.Keyed() && journal.InStep() && Next(old(Abs()), Restart, Abs())
    {
      ReplayIsRecovered(journal.file);
      running, jobs, checking := {}, map[], None;
      o := journal.Open();
    }
  }
}
