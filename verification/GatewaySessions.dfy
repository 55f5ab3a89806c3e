/** Agent sessions and command dispatch on the gateway (internal/gateway/gateway.go). A
    locked section or a channel operation is one step. The channel `changed` is a number:
    all smaller numbers are closed. */
module GatewaySessions {
  import opened Common

  /** An update the gateway routes: which agent's session it came from, for which command. */
  datatype Update = Update(agent: string, command: string, terminal: bool, body: Body)

  /** What the agent reported, or the failure the gateway puts in the place of a result that
      it could not store. */
  datatype Body = Reported(succeeded: bool, payload: nat) | StoreFailed

  /** Where a Dispatch call stands: about to look for a session, waiting for one, about to
      send on one, or waiting for updates after it sent on one. */
  datatype Stage = Looking | Parked(channel: nat) | Found(session: nat) | Sent(session: nat)

  datatype Call = Call(agent: string, command: string, stage: Stage, inbox: seq<Update>)

  datatype Answer = Answer(call: Call, update: Update)

  /** An update on its way to the waiter that was looked up for it. */
  datatype Routing = Routing(call: nat, update: Update)

  /** `agentOf` lists every session that was registered; `ending` are those whose close is
      due, `done` those that are closed. */
  datatype State = State(
    sessions: map<string, nat>,
    agentOf: map<nat, string>,
    ending: set<nat>,
    done: set<nat>,
    channel: nat,
    waiters: map<string, nat>,
    calls: map<nat, Call>,
    routing: map<nat, Routing>,
    answers: map<nat, Answer>)

  datatype Action =
    | Register(agent: string, session: nat)
    | Unregister(session: nat)
    | CloseDue(session: nat)
    | Drop(session: nat)
    | Dispatch(call: nat, agent: string, command: string)
    | Look(call: nat)
    | Enqueue(call: nat, sent: bool)
    | Resend(call: nat)
    | Route(route: nat, session: nat, update: Update)
    | Push(route: nat, accepted: bool)
    | Take(call: nat)
    | GiveUp(call: nat)

  const START := State(map[], map[], {}, {}, 0, map[], map[], map[], map[])

  // ---- Steps ----------------------------------------------------------------

  predicate Current(s: State, session: nat) {
    session in s.agentOf && s.agentOf[session] in s.sessions && s.sessions[s.agentOf[session]] == session
  }

  function AtStage(s: State, call: nat, stage: Stage): State
    requires call in s.calls
  {
    s.(calls := s.calls[call := s.calls[call].(stage := stage)])
  }

  /** The deferred cleanup of Dispatch: the waiter goes only if it is the call's own. */
  function Left(s: State, call: nat): State
    requires call in s.calls
  {
    var command := s.calls[call].command;
    s.(calls := s.calls - {call},
       waiters := if command in s.waiters && s.waiters[command] == call then s.waiters - {command} else s.waiters)
  }

  predicate Enabled(s: State, a: Action) {
    match a
    case Register(_, session) => session !in s.agentOf
    case Unregister(session) => session in s.agentOf
    case CloseDue(session) => session in s.ending
    case Drop(session) => session in s.agentOf
    case Dispatch(call, _, _) =>
      && call !in s.calls && call !in s.answers && call !in s.waiters.Values
      && forall r :: r in s.routing ==> s.routing[r].call != call
    case Look(call) =>
      call in s.calls && (s.calls[call].stage == Looking || (s.calls[call].stage.Parked? && s.calls[call].stage.channel < s.channel))
    case Enqueue(call, sent) => call in s.calls && s.calls[call].stage.Found? && (sent || s.calls[call].stage.session in s.done)
    case Resend(call) => call in s.calls && s.calls[call].stage.Sent? && s.calls[call].stage.session in s.done
    case Route(route, session, update) => route !in s.routing && session in s.agentOf && update.agent == s.agentOf[session]
    case Push(route, _) => route in s.routing
    case Take(call) => call in s.calls && s.calls[call].stage.Sent? && s.calls[call].inbox != []
    case GiveUp(call) => call in s.calls
  }

  function Next(s: State, a: Action): State
    requires Enabled(s, a)
  {
    match a
    case Register(agent, session) =>
      s.(sessions := s.sessions[agent := session], agentOf := s.agentOf[session := agent], channel := s.channel + 1,
         ending := if agent in s.sessions then s.ending + {s.sessions[agent]} else s.ending)
    case Unregister(session) =>
      var r := s.(ending := s.ending + {session});
      if Current(s, session) then r.(sessions := s.sessions - {s.agentOf[session]}, channel := s.channel + 1) else r
    case CloseDue(session) => s.(ending := s.ending - {session}, done := s.done + {session})
    case Drop(session) => s.(done := s.done + {session})
    case Dispatch(call, agent, command) =>
      s.(waiters := s.waiters[command := call], calls := s.calls[call := Call(agent, command, Looking, [])])
    case Look(call) =>
      var agent := s.calls[call].agent;
      AtStage(s, call, if agent in s.sessions then Found(s.sessions[agent]) else Parked(s.channel))
    case Enqueue(call, sent) => AtStage(s, call, if sent then Sent(s.calls[call].stage.session) else Looking)
    case Resend(call) => AtStage(s, call, Looking)
    case Route(route, _, update) =>
      if update.command !in s.waiters then s
      else
        var call := s.waiters[update.command];
        if call !in s.calls || s.calls[call].agent != update.agent then s
        else s.(routing := s.routing[route := Routing(call, update)])
    case Push(route, accepted) =>
      var r, rest := s.routing[route], s.(routing := s.routing - {route});
      if !accepted || r.call !in s.calls then rest
      else rest.(calls := s.calls[r.call := s.calls[r.call].(inbox := s.calls[r.call].inbox + [r.update])])
    case Take(call) =>
      var c := s.calls[call];
      if c.inbox[0].terminal then Left(s, call).(answers := s.answers[call := Answer(c, c.inbox[0])])
      else s.(calls := s.calls[call := c.(inbox := c.inbox[1..])])
    case GiveUp(call) => Left(s, call)
  }

  // ---- Invariant ------------------------------------------------------------

  /** A registered session is the agent's current one, or closed, or about to be. */
  ghost predicate SessionsOk(s: State) {
    && (forall x :: x in s.agentOf ==> Current(s, x) || x in s.ending || x in s.done)
    && (forall agent :: agent in s.sessions ==> s.sessions[agent] in s.agentOf && s.agentOf[s.sessions[agent]] == agent)
  }

  /** A call that sleeps on the current channel has no session; the sessions it found are
      its agent's; everything in its inbox is for it. */
  ghost predicate CallOk(s: State, call: nat)
    requires call in s.calls
  {
    var c := s.calls[call];
    && (c.stage.Parked? ==> c.stage.channel <= s.channel && (c.stage.channel == s.channel ==> c.agent !in s.sessions))
    && (c.stage.Found? || c.stage.Sent? ==> c.stage.session in s.agentOf && s.agentOf[c.stage.session] == c.agent)
    && (forall i :: 0 <= i < |c.inbox| ==> c.inbox[i].agent == c.agent && c.inbox[i].command == c.command)
  }

  ghost predicate WaitersOk(s: State) {
    forall c :: c in s.waiters ==> s.waiters[c] in s.calls && s.calls[s.waiters[c]].command == c
  }

  /** Answers are terminal and belong to the call that got them. */
  ghost predicate AnswersOk(s: State) {
    forall call :: call in s.answers ==>
      && s.answers[call].update.terminal
      && s.answers[call].update.agent == s.answers[call].call.agent
      && s.answers[call].update.command == s.answers[call].call.command
  }

  /** An update goes to a call of its agent and command, if that is still there. */
  ghost predicate RoutingOk(s: State) {
    forall r :: r in s.routing && s.routing[r].call in s.calls ==>
      && s.routing[r].update.agent == s.calls[s.routing[r].call].agent
      && s.routing[r].update.command == s.calls[s.routing[r].call].command
  }

  ghost predicate Inv(s: State) {
    SessionsOk(s) && WaitersOk(s) && AnswersOk(s) && RoutingOk(s) && forall call :: call in s.calls ==> CallOk(s, call)
  }

  lemma SessionStep(s: State, a: Action)
    requires Inv(s) && Enabled(s, a) && (a.Register? || a.Unregister? || a.CloseDue? || a.Drop?)
    ensures Inv(Next(s, a))
  {
    var t := Next(s, a);
    SessionsStep(s, a);
    forall call | call in t.calls ensures CallOk(t, call) {
      SessionKeepsCall(s, a, call);
    }
  }

  lemma SessionsStep(s: State, a: Action)
    requires Enabled(s, a) && SessionsOk(s) && (a.Register? || a.Unregister? || a.CloseDue? || a.Drop?)
    ensures SessionsOk(Next(s, a))
  {
  }

  lemma SessionKeepsCall(s: State, a: Action, call: nat)
    requires Enabled(s, a) && call in s.calls && CallOk(s, call)
    requires a.Register? || a.Unregister? || a.CloseDue? || a.Drop?
    ensures CallOk(Next(s, a), call)
  {
  }

  lemma ChangeKeeps(s: State, call: nat, c: Call)
    requires Inv(s) && call in s.calls && c.command == s.calls[call].command && c.agent == s.calls[call].agent
    requires CallOk(s.(calls := s.calls[call := c]), call)
    ensures Inv(s.(calls := s.calls[call := c]))
  {
    var t := s.(calls := s.calls[call := c]);
    forall other | other in t.calls ensures CallOk(t, other) {
      if other != call {
        assert CallOk(s, other);
      }
    }
  }

  lemma LeftKeeps(s: State, call: nat)
    requires Inv(s) && call in s.calls
    ensures Inv(Left(s, call))
  {
    var t := Left(s, call);
    forall other | other in t.calls ensures CallOk(t, other) {
      assert CallOk(s, other);
    }
  }

  lemma DispatchKeeps(s: State, call: nat, agent: string, command: string)
    requires Inv(s) && Enabled(s, Dispatch(call, agent, command))
    ensures Inv(Next(s, Dispatch(call, agent, command)))
  {
    var t := Next(s, Dispatch(call, agent, command));
    forall other | other in t.calls ensures CallOk(t, other) {
      if other != call {
        assert CallOk(s, other);
      }
    }
  }

  lemma RouteKeeps(s: State, route: nat, session: nat, update: Update)
    requires Inv(s) && Enabled(s, Route(route, session, update))
    ensures Inv(Next(s, Route(route, session, update)))
  {
    var t := Next(s, Route(route, session, update));
    forall call | call in t.calls ensures CallOk(t, call) {
      assert CallOk(s, call);
    }
  }

  lemma PushKeeps(s: State, route: nat, accepted: bool)
    requires Inv(s) && Enabled(s, Push(route, accepted))
    ensures Inv(Next(s, Push(route, accepted)))
  {
    var r, rest := s.routing[route], s.(routing := s.routing - {route});
    forall call | call in rest.calls ensures CallOk(rest, call) {
      assert CallOk(s, call);
    }
    if accepted && r.call in s.calls {
      var c := s.calls[r.call];
      ChangeKeeps(rest, r.call, c.(inbox := c.inbox + [r.update]));
    }
  }

  lemma TakeKeeps(s: State, call: nat)
    requires Inv(s) && Enabled(s, Take(call))
    ensures Inv(Next(s, Take(call)))
  {
    var c := s.calls[call];
    assert CallOk(s, call);
    if c.inbox[0].terminal {
      LeftKeeps(s, call);
      var t := Next(s, Take(call));
      forall other | other in t.calls ensures CallOk(t, other) {
        assert CallOk(Left(s, call), other);
      }
    } else {
      ChangeKeeps(s, call, c.(inbox := c.inbox[1..]));
    }
  }

  lemma LookKeeps(s: State, a: Action)
    requires Inv(s) && Enabled(s, a) && (a.Look? || a.Enqueue? || a.Resend?)
    ensures Inv(Next(s, a))
  {
    assert CallOk(s, a.call);
    ChangeKeeps(s, a.call, Next(s, a).calls[a.call]);
  }

  lemma StepInv(s: State, a: Action)
    requires Inv(s) && Enabled(s, a)
    ensures Inv(Next(s, a))
  {
    match a
    case Dispatch(call, agent, command) => DispatchKeeps(s, call, agent, command);
    case Route(route, session, update) => RouteKeeps(s, route, session, update);
    case Push(route, accepted) => PushKeeps(s, route, accepted);
    case Take(call) => TakeKeeps(s, call);
    case GiveUp(call) => LeftKeeps(s, call);
    case Look(_) => LookKeeps(s, a);
    case Enqueue(_, _) => LookKeeps(s, a);
    case Resend(_) => LookKeeps(s, a);
    case _ => SessionStep(s, a);
  }

  // ---- Every run ------------------------------------------------------------

  ghost predicate Run(run: seq<State>, actions: seq<Action>) {
    && |run| == |actions| + 1 && run[0] == START
    && forall i :: 0 <= i < |actions| ==> Enabled(run[i], actions[i]) && run[i + 1] == Next(run[i], actions[i])
  }

  lemma {:induction false} RunInv(run: seq<State>, actions: seq<Action>, i: nat)
    requires Run(run, actions) && i < |run|
    ensures Inv(run[i])
  {
    if i == 0 {
    } else {
      RunInv(run, actions, i - 1);
      StepInv(run[i - 1], actions[i - 1]);
    }
  }

  /** A call that waits for a session and cannot go on has none to find; one that waits
      for updates and cannot go on waits on its agent's current session, or on one whose
      close is due. */
  lemma NoLostWakeup(run: seq<State>, actions: seq<Action>, i: nat, call: nat)
    requires Run(run, actions) && i < |run| && call in run[i].calls
    ensures var s, c := run[i], run[i].calls[call];
            && (c.stage.Parked? && c.agent in s.sessions ==>
                 Enabled(s, Look(call)) && Next(s, Look(call)).calls[call].stage == Found(s.sessions[c.agent]))
            && (c.stage.Sent? && !Enabled(s, Resend(call)) ==>
                 (c.agent in s.sessions && s.sessions[c.agent] == c.stage.session) || c.stage.session in s.ending)
  {
    RunInv(run, actions, i);
    assert CallOk(run[i], call);
  }

  /** Only the current session's unregister removes a session; a superseded one changes
      nothing that any call can see but its own close. */
  lemma SupersededKeepsNewer(s: State, session: nat)
    requires Inv(s) && Enabled(s, Unregister(session))
    ensures var r := Next(s, Unregister(session));
            && (forall agent :: agent in s.sessions && s.sessions[agent] != session ==>
                 agent in r.sessions && r.sessions[agent] == s.sessions[agent])
            && (r.sessions == s.sessions <==> !Current(s, session))
            && session !in r.sessions.Values && session in r.ending
  {
    if Current(s, session) {
      assert s.agentOf[session] !in Next(s, Unregister(session)).sessions;
    }
  }

  /** In every run, what a Dispatch returns is a terminal update that its agent sent for
      its command. */
  lemma AnswersAreOwn(run: seq<State>, actions: seq<Action>, i: nat, call: nat)
    requires Run(run, actions) && i < |run| && call in run[i].answers
    ensures var a := run[i].answers[call];
            a.update.terminal && a.update.agent == a.call.agent && a.update.command == a.call.command
  {
    RunInv(run, actions, i);
  }

  /** Update u is in an inbox, on its way to one, or was returned. */
  ghost predicate Carries(s: State, u: Update) {
    || (exists c :: c in s.calls && u in s.calls[c].inbox)
    || (exists r :: r in s.routing && s.routing[r].update == u)
    || (exists c :: c in s.answers && s.answers[c].update == u)
  }

  lemma PushCarries(s: State, route: nat, accepted: bool, u: Update)
    requires Enabled(s, Push(route, accepted)) && Carries(Next(s, Push(route, accepted)), u)
    ensures Carries(s, u)
  {
    var t := Next(s, Push(route, accepted));
    if c :| c in t.calls && u in t.calls[c].inbox {
      assert u in s.calls[c].inbox || u == s.routing[route].update;
    } else if r :| r in t.routing && t.routing[r].update == u {
      assert r in s.routing;
    } else {
      var c :| c in t.answers && t.answers[c].update == u;
      assert c in s.answers;
    }
  }

  lemma AnswerCarries(s: State, call: nat, u: Update)
    requires Enabled(s, Take(call)) && s.calls[call].inbox[0].terminal && Carries(Next(s, Take(call)), u)
    ensures Carries(s, u)
  {
    var t := Next(s, Take(call));
    if c :| c in t.calls && u in t.calls[c].inbox {
      assert c in s.calls;
    } else if r :| r in t.routing && t.routing[r].update == u {
      assert r in s.routing;
    } else {
      var c :| c in t.answers && t.answers[c].update == u;
      assert c in s.answers || (c == call && u in s.calls[call].inbox);
    }
  }

  lemma SkipCarries(s: State, call: nat, u: Update)
    requires Enabled(s, Take(call)) && !s.calls[call].inbox[0].terminal && Carries(Next(s, Take(call)), u)
    ensures Carries(s, u)
  {
    var t := Next(s, Take(call));
    if c :| c in t.calls && u in t.calls[c].inbox {
      assert u in s.calls[c].inbox;
    }
  }

  lemma RouteCarries(s: State, route: nat, session: nat, update: Update, u: Update)
    requires Enabled(s, Route(route, session, update)) && Carries(Next(s, Route(route, session, update)), u)
    ensures Carries(s, u) || u == update
  {
    var t := Next(s, Route(route, session, update));
    if c :| c in t.calls && u in t.calls[c].inbox {
      assert c in s.calls;
    } else if r :| r in t.routing && t.routing[r].update == u {
      assert r in s.routing || u == update;
    } else {
      var c :| c in t.answers && t.answers[c].update == u;
      assert c in s.answers;
    }
  }

  lemma StageCarries(s: State, a: Action, u: Update)
    requires Enabled(s, a) && !a.Push? && !a.Take? && !a.Route? && Carries(Next(s, a), u)
    ensures Carries(s, u)
  {
    var t := Next(s, a);
    if c :| c in t.calls && u in t.calls[c].inbox {
      assert c in s.calls && t.calls[c].inbox == s.calls[c].inbox;
    } else if r :| r in t.routing && t.routing[r].update == u {
      assert r in s.routing;
    } else {
      var c :| c in t.answers && t.answers[c].update == u;
      assert c in s.answers;
    }
  }

  /** The gateway makes no update up: only route brings one in. */
  lemma StepCarries(s: State, a: Action, u: Update)
    requires Enabled(s, a) && Carries(Next(s, a), u)
    ensures Carries(s, u) || (a.Route? && a.update == u)
  {
    match a
    case Push(route, accepted) => PushCarries(s, route, accepted, u);
    case Take(call) =>
      if s.calls[call].inbox[0].terminal {
        AnswerCarries(s, call, u);
      } else {
        SkipCarries(s, call, u);
      }
    case Route(route, session, update) => RouteCarries(s, route, session, update, u);
    case _ => StageCarries(s, a, u);
  }

  /** The action is no newer dispatch of the command, and the call does not give up. */
  predicate KeepsWaiter(a: Action, call: nat, command: string) {
    (a.Dispatch? ==> a.call != call && a.command != command) && (a.GiveUp? ==> a.call != call)
  }

  /** The command's waiter is the call, until it got its answer. */
  ghost predicate Waits(s: State, call: nat, command: string) {
    if call in s.calls then s.calls[call].command == command && command in s.waiters && s.waiters[command] == call
    else call in s.answers
  }

  lemma LeftKeepsWaiter(s: State, other: nat, call: nat, command: string)
    requires other in s.calls && other != call && Waits(s, call, command)
    ensures Waits(Left(s, other), call, command)
  {
  }

  lemma TakeKeepsWaiter(s: State, other: nat, call: nat, command: string)
    requires Enabled(s, Take(other)) && Waits(s, call, command)
    ensures Waits(Next(s, Take(other)), call, command)
  {
    if other != call {
      LeftKeepsWaiter(s, other, call, command);
    }
  }

  lemma WaiterStep(s: State, a: Action, call: nat, command: string)
    requires Enabled(s, a) && KeepsWaiter(a, call, command) && Waits(s, call, command)
    ensures Waits(Next(s, a), call, command)
  {
    match a
    case GiveUp(other) => LeftKeepsWaiter(s, other, call, command);
    case Take(other) => TakeKeepsWaiter(s, other, call, command);
    case _ =>
  }

  /** A retried dispatch takes over: whatever stale calls, sessions and others do, the
      command's waiter is the new call until it got its answer, and an update of its agent
      for the command is routed to it. */
  lemma {:induction false} RetryTakesOver(run: seq<State>, actions: seq<Action>, i: nat, call: nat, agent: string,
                                          command: string)
    requires |run| == |actions| + 1 && 0 < i < |run| && actions[0] == Dispatch(call, agent, command)
    requires forall k :: 0 <= k < |actions| ==> Enabled(run[k], actions[k]) && run[k + 1] == Next(run[k], actions[k])
    requires forall k :: 0 < k < |actions| ==> KeepsWaiter(actions[k], call, command)
    ensures Waits(run[i], call, command)
  {
    if i == 1 {
      assert run[1] == Next(run[0], actions[0]);
    } else {
      RetryTakesOver(run, actions, i - 1, call, agent, command);
      assert KeepsWaiter(actions[i - 1], call, command);
      WaiterStep(run[i - 1], actions[i - 1], call, command);
    }
  }

  /** Such an update reaches the waiter's inbox unless it is full or the call ended. */
  lemma RoutedToWaiter(s: State, call: nat, command: string, route: nat, session: nat, update: Update)
    requires Waits(s, call, command) && call in s.calls && Enabled(s, Route(route, session, update))
    requires update.command == command && update.agent == s.calls[call].agent
    ensures var r := Next(s, Route(route, session, update));
            && r.routing[route] == Routing(call, update) && Enabled(r, Push(route, true))
            && Next(r, Push(route, true)).calls[call].inbox == s.calls[call].inbox + [update]
  {
  }

  // ---- The gateway ----------------------------------------------------------

  /** Whose step it is, if it is a Dispatch call's. */
  function CallOf(a: Action): Option<nat> {
    match a
    case Dispatch(call, _, _) => Some(call)
    case Look(call) => Some(call)
    case Enqueue(call, _) => Some(call)
    case Resend(call) => Some(call)
    case Take(call) => Some(call)
    case GiveUp(call) => Some(call)
    case _ => None
  }

  lemma TakeKeepsOther(s: State, other: nat, call: nat)
    requires Enabled(s, Take(other)) && call in s.calls && call != other
    ensures var r := Next(s, Take(other));
            call in r.calls && r.calls[call] == s.calls[call] && (call in r.answers <==> call in s.answers)
  {
  }

  /** Other threads do not move a call; they can only fill its inbox. */
  lemma OthersKeepStage(s: State, a: Action, call: nat)
    requires Enabled(s, a) && call in s.calls && CallOf(a) != Some(call)
    ensures var r := Next(s, a);
            call in r.calls && r.calls[call] == s.calls[call].(inbox := r.calls[call].inbox)
            && (call in r.answers <==> call in s.answers)
  {
    match a
    case Take(other) => TakeKeepsOther(s, other, call);
    case _ =>
  }

  /** A call goes on with its agent and command, or returns an answer. */
  ghost predicate Follows(s: State, r: State, call: nat)
    requires call in s.calls
  {
    if call in r.calls then
      call !in r.answers && r.calls[call].agent == s.calls[call].agent && r.calls[call].command == s.calls[call].command
    else
      call in r.answers && r.answers[call].call == s.calls[call]
  }

  lemma OwnStep(s: State, a: Action, call: nat)
    requires Enabled(s, a) && call in s.calls && call !in s.answers && CallOf(a) == Some(call) && !a.GiveUp?
    ensures Follows(s, Next(s, a), call)
  {
  }

  /** `sessions`, `changed` and `waiters` are the gateway's fields; the others stand for
      the sessions and calls themselves. */
  class Gateway {
    var sessions: map<string, nat>
    var changed: nat
    var waiters: map<string, nat>
    var agentOf: map<nat, string>
    var ending: set<nat>
    var done: set<nat>
    var calls: map<nat, Call>
    var routing: map<nat, Routing>
    var answers: map<nat, Answer>

    function Abs(): State
      reads this
    {
      State(sessions, agentOf, ending, done, changed, waiters, calls, routing, answers)
    }

    constructor ()
      ensures Abs() == START
    {
      sessions, changed, waiters := map[], 0, map[];
      agentOf, ending, done, calls, routing, answers := map[], {}, {}, map[], map[], map[];
    }

    /** register, without the close of the session it replaces. */
    method Add(agent: string, session: nat)
      requires Inv(Abs()) && Enabled(Abs(), Register(agent, session))
      modifies this
      ensures Inv(Abs()) && Abs() == Next(old(Abs()), Register(agent, session))
    {
      StepInv(Abs(), Register(agent, session));
      Replace(agent, session);
    }

    method Replace(agent: string, session: nat)
      requires Enabled(Abs(), Register(agent, session))
      modifies this
      ensures Abs() == Next(old(Abs()), Register(agent, session))
    {
      ghost var next := Next(Abs(), Register(agent, session));
      if agent in sessions {
        ending := ending + {sessions[agent]};
      }
      sessions, agentOf := sessions[agent := session], agentOf[session := agent];
      changed := changed + 1;
      assert Abs() == next;
    }

    /** unregister, without the close of the session. */
    method Remove(session: nat)
      requires Inv(Abs()) && Enabled(Abs(), Unregister(session))
      modifies this
      ensures Inv(Abs()) && Abs() == Next(old(Abs()), Unregister(session))
    {
      StepInv(Abs(), Unregister(session));
      ghost var next := Next(Abs(), Unregister(session));
      var agent := agentOf[session];
      if agent in sessions && sessions[agent] == session {
        sessions := sessions - {agent};
        changed := changed + 1;
      }
      ending := ending + {session};
      assert Abs() == next;
    }

    /** The locked section of route. */
    method FindWaiter(route: nat, session: nat, update: Update)
      requires Inv(Abs()) && Enabled(Abs(), Route(route, session, update))
      modifies this
      ensures Inv(Abs()) && Abs() == Next(old(Abs()), Route(route, session, update))
    {
      StepInv(Abs(), Route(route, session, update));
      if update.command !in waiters {
        return;
      }
      var call := waiters[update.command];
      if call !in calls || calls[call].agent != update.agent {
        return;
      }
      routing := routing[route := Routing(call, update)];
    }

    /** The send on the waiter's channel; the waiter may be full, or gone. */
    method Deliver(route: nat, accepted: bool)
      requires Inv(Abs()) && Enabled(Abs(), Push(route, accepted))
      modifies this
      ensures Inv(Abs()) && Abs() == Next(old(Abs()), Push(route, accepted))
    {
      StepInv(Abs(), Push(route, accepted));
      var r := routing[route];
      routing := routing - {route};
      if accepted && r.call in calls {
        calls := calls[r.call := calls[r.call].(inbox := calls[r.call].inbox + [r.update])];
      }
    }

    /** The locked section of waitSession. */
    method LookUp(call: nat)
      requires Inv(Abs()) && Enabled(Abs(), Look(call))
      modifies this
      ensures Inv(Abs()) && Abs() == Next(old(Abs()), Look(call))
    {
      StepInv(Abs(), Look(call));
      var c := calls[call];
      var stage := if c.agent in sessions then Found(sessions[c.agent]) else Parked(changed);
      calls := calls[call := c.(stage := stage)];
    }

    /** What other threads do meanwhile. */
    method Others(call: nat, script: seq<Action>)
      requires Inv(Abs()) && call in calls && call !in answers
      modifies this
      ensures Inv(Abs()) && call in calls && call !in answers
      ensures calls[call] == old(calls)[call].(inbox := calls[call].inbox)
    {
      for i := 0 to |script|
        invariant Inv(Abs()) && call in calls && call !in answers
        invariant calls[call] == old(calls)[call].(inbox := calls[call].inbox)
      {
        if Enabled(Abs(), script[i]) && CallOf(script[i]) != Some(call) {
          StepInv(Abs(), script[i]);
          OthersKeepStage(Abs(), script[i], call);
          Become(Next(Abs(), script[i]));
        }
      }
    }

    method Become(s: State)
      modifies this
      ensures Abs() == s
    {
      sessions, changed, waiters := s.sessions, s.channel, s.waiters;
      agentOf, ending, done, calls := s.agentOf, s.ending, s.done, s.calls;
      routing, answers := s.routing, s.answers;
    }

    method StepOf(call: nat, a: Action)
      requires Inv(Abs()) && call in calls && call !in answers && Enabled(Abs(), a) && CallOf(a) == Some(call) && !a.GiveUp?
      modifies this
      ensures Inv(Abs()) && Follows(old(Abs()), Abs(), call)
    {
      StepInv(Abs(), a);
      OwnStep(Abs(), a, call);
      Become(Next(Abs(), a));
    }

    /** One step of a Dispatch call, if it can go on. */
    method Advance(call: nat)
      requires Inv(Abs()) && call in calls && call !in answers
      modifies this
      ensures Inv(Abs()) && Follows(old(Abs()), Abs(), call)
    {
      var choice: bool := *;
      match calls[call].stage
      case Looking => StepOf(call, Look(call));
      case Parked(channel) =>
        if channel < changed {
          StepOf(call, Look(call));
        }
      case Found(session) => StepOf(call, Enqueue(call, choice || session !in done));
      case Sent(session) =>
        if calls[call].inbox != [] && (choice || session !in done) {
          StepOf(call, Take(call));
        } else if session in done {
          StepOf(call, Resend(call));
        }
    }

    /** Dispatch, with what other threads do between its steps; after the last round its
        context ends. It returns only a terminal update of its agent for its command. */
    method Send(call: nat, agent: string, command: string, rounds: seq<seq<Action>>) returns (u: Option<Update>)
      requires Inv(Abs()) && Enabled(Abs(), Dispatch(call, agent, command))
      modifies this
      ensures Inv(Abs()) && call !in calls && call !in waiters.Values
      ensures u.Some? ==> u.value.terminal && u.value.agent == agent && u.value.command == command
    {
      StepInv(Abs(), Dispatch(call, agent, command));
      waiters := waiters[command := call];
      calls := calls[call := Call(agent, command, Looking, [])];
      for i := 0 to |rounds|
        invariant Inv(Abs()) && call in calls && call !in answers
        invariant calls[call].agent == agent && calls[call].command == command
      {
        Others(call, rounds[i]);
        Advance(call);
        if call !in calls {
          return Some(answers[call].update);
        }
      }
      StepInv(Abs(), GiveUp(call));
      Become(Next(Abs(), GiveUp(call)));
      u := None;
    }
  }
}
