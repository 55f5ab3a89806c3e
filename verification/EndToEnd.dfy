/** Agents and gateway together: what a Dispatch returns for a command (internal/agent/agent.go
    over journal.go, internal/gateway/gateway.go). Messages may be lost, delayed, repeated and
    reordered: the gateway may at any time receive any update that an agent ever sent. */
module EndToEnd {
  import opened Common
  import A = CommandProtocol
  import J = CommandJournal
  import G = GatewaySessions

  datatype State = State(agents: map<string, A.State>, gateway: G.State)

  datatype Action = OnAgent(agent: string, step: A.Action) | OnGateway(move: G.Action)

  /** The update reports a result the agent sent for the command, or is the failure in place
      of a success that could not be stored. */
  ghost predicate Reports(u: G.Update, sent: J.Update) {
    && sent.id == u.command
    && (u.body == G.Reported(sent.succeeded, sent.payload) || (sent.succeeded && u.body == G.StoreFailed))
  }

  ghost predicate Genuine(s: State, u: G.Update) {
    u.terminal ==>
      && u.agent in s.agents
      && exists k :: 0 <= k < |s.agents[u.agent].sent| && Reports(u, s.agents[u.agent].sent[k])
  }

  ghost predicate Next(s: State, a: Action, s': State) {
    match a
    case OnAgent(agent, step) =>
      && agent in s.agents && agent in s'.agents && A.Next(s.agents[agent], step, s'.agents[agent])
      && s' == s.(agents := s.agents[agent := s'.agents[agent]])
    case OnGateway(move) =>
      && G.Enabled(s.gateway, move) && (move.Route? ==> Genuine(s, move.update))
      && s' == s.(gateway := G.Next(s.gateway, move))
  }

  ghost predicate Initial(s: State) {
    s.gateway == G.START && forall agent :: agent in s.agents ==> s.agents[agent] == A.FRESH
  }

  ghost predicate Run(run: seq<State>, actions: seq<Action>) {
    && |run| == |actions| + 1 && Initial(run[0])
    && forall k :: 0 <= k < |actions| ==> Next(run[k], actions[k], run[k + 1])
  }

  // ---- Where updates come from ------------------------------------------------

  ghost predicate Inv(s: State) {
    && (forall agent :: agent in s.agents ==> A.Inv(s.agents[agent]))
    && G.Inv(s.gateway)
    && (forall u :: G.Carries(s.gateway, u) ==> Genuine(s, u))
  }

  /** An agent only ever adds to what it sent. */
  lemma SentGrows(s: A.State, a: A.Action, s': A.State)
    requires A.Next(s, a, s')
    ensures s.sent <= s'.sent
  {
  }

  lemma GenuineStays(s: State, agent: string, a: A.Action, s': State, u: G.Update)
    requires Next(s, OnAgent(agent, a), s') && Genuine(s, u)
    ensures Genuine(s', u)
  {
    SentGrows(s.agents[agent], a, s'.agents[agent]);
    if u.terminal {
      var k :| 0 <= k < |s.agents[u.agent].sent| && Reports(u, s.agents[u.agent].sent[k]);
      assert s'.agents[u.agent].sent[k] == s.agents[u.agent].sent[k];
    }
  }

  lemma StepInv(s: State, a: Action, s': State)
    requires Inv(s) && Next(s, a, s')
    ensures Inv(s')
  {
    match a
    case OnAgent(agent, step) =>
      A.StepInv(s.agents[agent], step, s'.agents[agent]);
      forall u | G.Carries(s'.gateway, u) ensures Genuine(s', u) {
        GenuineStays(s, agent, step, s', u);
      }
    case OnGateway(move) =>
      G.StepInv(s.gateway, move);
      forall u | G.Carries(s'.gateway, u) ensures Genuine(s', u) {
        G.StepCarries(s.gateway, move, u);
        assert Genuine(s, u);
      }
  }

  lemma {:induction false} RunInv(run: seq<State>, actions: seq<Action>, i: nat)
    requires Run(run, actions) && i < |run|
    ensures Inv(run[i])
  {
    if i == 0 {
      A.FreshInv();
    } else {
      RunInv(run, actions, i - 1);
      StepInv(run[i - 1], actions[i - 1], run[i]);
    }
  }

  // ---- The result of a command ---------------------------------------------------

  /** Nothing is known of command id but executions that are under way. */
  ghost predicate Unfinished(s: A.State, id: string) {
    && A.ResultOf(s.mem, id) == None && A.ResultOf(s.disk, id) == None
    && (s.tail.Some? && s.tail.value.id == id ==> s.tail.value.update == None)
    && (forall j :: j in s.jobs && s.jobs[j].id == id ==> s.jobs[j].phase == A.Executing)
    && (forall k :: 0 <= k < |s.sent| ==> s.sent[k].id != id)
  }

  /** Everything sent for id so far is u. */
  ghost predicate SentOnly(s: A.State, id: string, u: J.Update) {
    forall k :: 0 <= k < |s.sent| && s.sent[k].id == id ==> s.sent[k] == u
  }

  lemma WriteUnfinished(s: A.State, r: J.Record, s': A.State, id: string)
    requires A.Inv(s) && Unfinished(s, id) && A.Writes(s, r, s') && (r.id == id ==> r.update == None)
    ensures A.ResultOf(s'.mem, id) == None && A.ResultOf(s'.disk, id) == None
    ensures s'.tail.Some? && s'.tail.value.id == id ==> s'.tail.value.update == None
  {
  }

  lemma UnfinishedStep(s: A.State, a: A.Action, s': A.State, id: string)
    requires A.Inv(s) && Unfinished(s, id) && A.Next(s, a, s') && (a.Complete? ==> a.u.id != id)
    ensures Unfinished(s', id)
  {
    match a {
      case Claim(kind) =>
        if s.checking.value !in s.running {
          WriteUnfinished(s, J.Record(s.checking.value, kind, J.Accepted, s.now, None), s', id);
        }
      case Complete(j, v, kind) =>
        WriteUnfinished(s, J.Record(v.id, kind, if v.succeeded then J.Succeeded else J.Failed, s.now, Some(v)), s', id);
      case Acknowledge(i) =>
        if i in s.mem && s.mem[i].Terminal() {
          WriteUnfinished(s, s.mem[i].(state := J.Acked, updated := s.now), s', id);
        }
      case _ =>
    }
  }

  /** Before the first completion of id nothing was sent for it. */
  lemma {:induction false} StaysUnfinished(run: seq<State>, actions: seq<Action>, i: nat, agent: string, id: string)
    requires Run(run, actions) && i < |run| && agent in run[0].agents
    requires forall k :: 0 <= k < i && actions[k].OnAgent? && actions[k].agent == agent && actions[k].step.Complete? ==>
               actions[k].step.u.id != id
    ensures agent in run[i].agents && Unfinished(run[i].agents[agent], id)
  {
    if i == 0 {
    } else {
      StaysUnfinished(run, actions, i - 1, agent, id);
      RunInv(run, actions, i - 1);
      var a := actions[i - 1];
      assert Next(run[i - 1], a, run[i]);
      if a.OnAgent? && a.agent == agent {
        UnfinishedStep(run[i - 1].agents[agent], a.step, run[i].agents[agent], id);
      }
    }
  }

  /** The first result of a command, once in the file, is settled and all that was sent. */
  lemma FirstResult(s: A.State, j: nat, u: J.Update, kind: string, s': A.State)
    requires A.Inv(s) && Unfinished(s, u.id) && A.Next(s, A.Complete(j, u, kind), s') && A.Journaled(s', u.id, u)
    ensures A.Settled(s', u.id, u) && SentOnly(s', u.id, u)
  {
    A.CompletionSettles(s, j, u, kind, s');
  }

  /** Command id of an agent is settled with u, nobody holds an old answer about it, and u
      is all the agent sent for it. */
  ghost predicate Fixed(s: A.State, id: string, u: J.Update) {
    A.Settled(s, id, u) && s.checking != Some(id) && SentOnly(s, id, u)
  }

  lemma FixedStep(s: A.State, a: A.Action, s': A.State, id: string, u: J.Update)
    requires A.Inv(s) && A.Next(s, a, s') && Fixed(s, id, u) && A.Retains(s, a, id)
    ensures Fixed(s', id, u)
  {
    A.StepSticks(s, a, s', id, u);
    forall k | 0 <= k < |s'.sent| && s'.sent[k].id == id ensures s'.sent[k] == u {
      if k < |s.sent| {
        assert s'.sent[k] == s.sent[k];
      }
    }
  }

  /** No step of the agent from m to n ends the retention of command id. */
  ghost predicate Retained(run: seq<State>, actions: seq<Action>, m: nat, n: nat, agent: string, id: string)
    requires |run| == |actions| + 1 && n < |run|
  {
    forall k :: m <= k < n && actions[k].OnAgent? && actions[k].agent == agent && agent in run[k].agents ==>
      A.Retains(run[k].agents[agent], actions[k].step, id)
  }

  lemma FixedJointStep(s: State, a: Action, s': State, agent: string, id: string, u: J.Update)
    requires Inv(s) && Next(s, a, s') && agent in s.agents && Fixed(s.agents[agent], id, u)
    requires a.OnAgent? && a.agent == agent ==> A.Retains(s.agents[agent], a.step, id)
    ensures agent in s'.agents && Fixed(s'.agents[agent], id, u)
  {
    if a.OnAgent? && a.agent == agent {
      FixedStep(s.agents[agent], a.step, s'.agents[agent], id, u);
    }
  }

  lemma {:induction false} StaysFixed(run: seq<State>, actions: seq<Action>, m: nat, n: nat, agent: string, id: string,
                                      u: J.Update)
    requires Run(run, actions) && m <= n < |run| && agent in run[m].agents && Fixed(run[m].agents[agent], id, u)
    requires Retained(run, actions, m, n, agent, id)
    ensures agent in run[n].agents && Fixed(run[n].agents[agent], id, u)
    decreases n
  {
    if n == m {
    } else {
      StaysFixed(run, actions, m, n - 1, agent, id, u);
      RunInv(run, actions, n - 1);
      FixedJointStep(run[n - 1], actions[n - 1], run[n], agent, id, u);
    }
  }

  /** In every run, a Dispatch returns only what its agent sent for its command, or the
      failure in place of a success the gateway could not store. */
  lemma AnswersAreReports(run: seq<State>, actions: seq<Action>, n: nat, call: nat)
    requires Run(run, actions) && n < |run| && call in run[n].gateway.answers
    ensures var a := run[n].gateway.answers[call];
            && a.update.terminal && a.update.agent == a.call.agent && a.update.command == a.call.command
            && Genuine(run[n], a.update)
  {
    RunInv(run, actions, n);
    assert G.Carries(run[n].gateway, run[n].gateway.answers[call].update);
  }

  /** Once the first result of a command is in the agent's file, with no other delivery of it
      between check and claim, every Dispatch of the command that returns, then or at any
      later time within the retention, returns that result or the gateway's failure for it;
      none returned before. */
  lemma DispatchReturnsResult(run: seq<State>, actions: seq<Action>, m: nat, n: nat, agent: string, j: nat, u: J.Update,
                              kind: string, call: nat)
    requires Run(run, actions) && m < |actions| && n < |run| && agent in run[0].agents
    requires actions[m] == OnAgent(agent, A.Complete(j, u, kind))
    requires forall k :: 0 <= k < m && actions[k].OnAgent? && actions[k].agent == agent && actions[k].step.Complete? ==>
               actions[k].step.u.id != u.id
    requires agent in run[m + 1].agents && A.Journaled(run[m + 1].agents[agent], u.id, u)
    requires run[m + 1].agents[agent].checking != Some(u.id) && Retained(run, actions, m + 1, n, agent, u.id)
    requires call in run[n].gateway.answers
    requires run[n].gateway.answers[call].call.agent == agent && run[n].gateway.answers[call].call.command == u.id
    ensures m < n
    ensures var body := run[n].gateway.answers[call].update.body;
            body == G.Reported(u.succeeded, u.payload) || (u.succeeded && body == G.StoreFailed)
  {
    AnswersAreReports(run, actions, n, call);
    var update := run[n].gateway.answers[call].update;
    var k :| 0 <= k < |run[n].agents[agent].sent| && Reports(update, run[n].agents[agent].sent[k]);
    if n <= m {
      StaysUnfinished(run, actions, n, agent, u.id);
      assert false;
    }
    StaysUnfinished(run, actions, m, agent, u.id);
    RunInv(run, actions, m);
    assert Next(run[m], actions[m], run[m + 1]);
    FirstResult(run[m].agents[agent], j, u, kind, run[m + 1].agents[agent]);
    StaysFixed(run, actions, m + 1, n, agent, u.id, u);
  }
}
