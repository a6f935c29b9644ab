/** The promises of the route, over every run. */
module GatewayTheorems {
  import opened Wrappers
  import opened Texts
  import opened Requests
  import opened Bindings
  import opened PolicyTypes
  import opened Policies
  import opened Gateways
  import Risk
  import P = ApprovalProtocol
  import Safety = ApprovalSafety
  import Theorems = ApprovalTheorems
  import Scenarios = ApprovalScenarios

  /** What a forwarded request was decided to be, by the snapshot it was evaluated against. */
  ghost function VerdictOf(cfg: Settings, s: State, f: Forward): Option<Decision>
    requires f.version <= |s.swaps|
  {
    if f.context.None? then None else Some(cfg.verdict(PoliciesAt(s, f.version), f.context.value).decision)
  }

  ghost predicate ForwardedOnApproval(cfg: Settings, s: State, f: Forward) {
    f in s.forwards && f.version <= |s.swaps| && VerdictOf(cfg, s, f) == Some(REQUIRE_APPROVAL)
  }

  lemma ForwardIsOk(cfg: Settings, states: seq<State>, actions: seq<Action>, n: nat, f: Forward)
    requires IsRun(cfg, states, actions) && n < |states| && f in states[n].forwards
    ensures ForwardOk(cfg, states[n], f)
  {
    RunKeepsInv(cfg, states, actions, n);
    var i :| 0 <= i < |states[n].forwards| && states[n].forwards[i] == f;
  }

  // ---------------------------------------------------------------- policy

  /** Risk never turns a denial into anything else. */
  lemma DenialIsFinal(risk: Option<Risk.RiskEngine>, ps: PolicyList, c: SecurityContext)
    ensures Severity(FinalVerdict(risk, ps, c).decision) >= Severity(Evaluation(ps, c).decision)
  {
    if risk.Some? {
      Risk.AppliedIsTheJoin(risk.value, c, Evaluation(ps, c));
    }
  }

  /** No request with the verdict DENY is ever forwarded. */
  lemma NoDenyIsForwarded(cfg: Settings, states: seq<State>, actions: seq<Action>, n: nat, f: Forward)
    requires IsRun(cfg, states, actions) && n < |states| && f in states[n].forwards
    ensures f.version <= |states[n].swaps| && VerdictOf(cfg, states[n], f) != Some(DENY)
  {
    ForwardIsOk(cfg, states, actions, n, f);
  }

  /** However policies change meanwhile: in the snapshot against which a forwarded request was
      evaluated, some policy applied to it and none that applied was a denial. */
  lemma NothingDeniedIsForwarded(
    cfg: Settings, risk: Option<Risk.RiskEngine>, states: seq<State>, actions: seq<Action>, n: nat, f: Forward)
    requires UsesEngines(cfg, risk)
    requires IsRun(cfg, states, actions) && n < |states| && f in states[n].forwards && f.context.Some?
    ensures f.version <= |states[n].swaps|
    ensures var ps := PoliciesAt(states[n], f.version);
            && SomeApplies(ps, f.context.value)
            && forall i | 0 <= i < |ps| && Applies(ps[i], f.context.value) :: ps[i].decision != Ascii("DENY")
  {
    NoDenyIsForwarded(cfg, states, actions, n, f);
    var ps: PolicyList := PoliciesAt(states[n], f.version);
    assert cfg.verdict(ps, f.context.value) == FinalVerdict(risk, ps, f.context.value);
    NotDeniedMeansAllowed(risk, ps, f.context.value);
  }

  lemma NotDeniedMeansAllowed(risk: Option<Risk.RiskEngine>, ps: PolicyList, c: SecurityContext)
    requires FinalVerdict(risk, ps, c).decision != DENY
    ensures SomeApplies(ps, c) && forall i | 0 <= i < |ps| && Applies(ps[i], c) :: ps[i].decision != Ascii("DENY")
  {
    DenialIsFinal(risk, ps, c);
    DecisionIsWhatTheNamesSay(ps, c, DENY);
  }

  /** Without a context the body is a message whose id is missing, or neither a string nor a
      number; then no policy was asked. With one, the context is what the body says. */
  lemma OnlyNotificationsSkipPolicy(cfg: Settings, states: seq<State>, actions: seq<Action>, n: nat, f: Forward)
    requires IsRun(cfg, states, actions) && n < |states| && f in states[n].forwards
    ensures f.body.Some? && exists m :: IsMessage(f.body.value, m)
    ensures f.context.None? <==> forall id :: !AsksWithId(f.body.value, id)
    ensures f.context.Some? ==>
              Says(f.body.value, cfg.identity.(agentId := f.agent), cfg.metaKey, f.context.value)
  {
    ForwardIsOk(cfg, states, actions, n, f);
    NotificationsExactly(f.body, cfg.identity, cfg.metaKey);
    EnvelopeErrorsExactly(f.body, cfg.identity, cfg.metaKey);
    var r := Parse(f.body, cfg.identity, cfg.metaKey);
    if r.Request? {
      RequestsExactly(f.body.value, cfg.identity, cfg.metaKey, r.context);
      assert Says(f.body.value, cfg.identity, cfg.metaKey, r.context);
    }
  }

  /** An authenticated notification is forwarded whatever the policies and the risk rules say. */
  lemma NotificationsAlwaysPass(cfg: Settings, s: State, k: nat, agent: Text, c: nat, now: int)
    requires Enabled(cfg, s, Authenticate(k, Some(agent), c, now))
    requires Parse(s.requests[k].body, cfg.identity, cfg.metaKey) == Notification
    ensures Apply(cfg, s, Authenticate(k, Some(agent), c, now)).forwards
         == s.forwards + [Forward(k, s.requests[k].body, agent, None, |s.swaps|, s.requests[k].call)]
  {}

  /** Step m authenticated the request's agent, with this many snapshots swapped in before. */
  ghost predicate AuthenticatedAt(states: seq<State>, actions: seq<Action>, m: nat, k: nat, agent: Text, version: nat)
    requires |states| == |actions| + 1
  {
    && m < |actions| && actions[m].Authenticate? && actions[m].k == k && actions[m].agent == Some(agent)
    && |states[m].swaps| == version
  }

  lemma WaitBeginsWithAuthentication(cfg: Settings, s: State, k: nat, agent: Option<Text>, c: nat, now: int)
    requires k in s.requests && !s.requests[k].phase.Consuming?
    requires AfterAuthentication(cfg, s, k, agent, c, now).requests[k].phase.Consuming?
    ensures var p := AfterAuthentication(cfg, s, k, agent, c, now).requests[k].phase;
            agent == Some(p.context.agentId) && p.version == |s.swaps|
  {
    if agent.Some? { ContextIsShaped(cfg, s.requests[k].body, agent.value); }
  }

  lemma AuthenticationTouchesOneRequest(
    cfg: Settings, s: State, j: nat, agent: Option<Text>, c: nat, now: int, k: nat)
    requires j in s.requests && k != j
    ensures var u := AfterAuthentication(cfg, s, j, agent, c, now);
            (k in u.requests <==> k in s.requests) && (k in s.requests ==> u.requests[k] == s.requests[k])
  {}

  lemma ApprovalTouchesOneRequest(s: State, j: nat, outcome: P.Outcome, k: nat)
    requires j in s.requests && (s.requests[j].phase.Consuming? || s.requests[j].phase.Creating?) && k != j
    ensures var u := AfterApproval(s, j, outcome);
            (k in u.requests <==> k in s.requests) && (k in s.requests ==> u.requests[k] == s.requests[k])
  {}

  lemma OtherRequestsStay(cfg: Settings, s: State, a: Action, u: State, k: nat)
    requires IsStep(cfg, s, a, u) && k in u.requests
    requires !((a.Arrive? || a.Authenticate? || a.Conclude?) && a.k == k)
    ensures k in s.requests && u.requests[k] == s.requests[k]
  {
    match a
    case Authenticate(j, agent, c, now) => AuthenticationTouchesOneRequest(cfg, s, j, agent, c, now, k);
    case Conclude(j) =>
      ApprovalTouchesOneRequest(s, j, s.approvals.tasks[s.requests[j].call.value].phase.result, k);
    case _ =>
  }

  /** Only authentication makes a request wait for a consume call. */
  lemma BeginsToWait(cfg: Settings, s: State, a: Action, u: State, k: nat)
    requires IsStep(cfg, s, a, u) && k in u.requests && u.requests[k].phase.Consuming?
    requires !(k in s.requests && s.requests[k].phase == u.requests[k].phase)
    ensures a.Authenticate? && a.k == k && a.agent == Some(u.requests[k].phase.context.agentId)
    ensures u.requests[k].phase.version == |s.swaps|
  {
    if (a.Arrive? || a.Authenticate? || a.Conclude?) && a.k == k {
      if a.Authenticate? {
        WaitBeginsWithAuthentication(cfg, s, k, a.agent, a.c, a.now);
      } else if a.Conclude? {
        WaitEndsForGood(s, k, s.approvals.tasks[s.requests[k].call.value].phase.result);
      }
    } else {
      OtherRequestsStay(cfg, s, a, u, k);
    }
  }

  lemma WaitEndsForGood(s: State, k: nat, outcome: P.Outcome)
    requires k in s.requests && (s.requests[k].phase.Consuming? || s.requests[k].phase.Creating?)
    ensures !AfterApproval(s, k, outcome).requests[k].phase.Consuming?
  {}

  lemma {:induction false} WaitingWasAuthenticated(
    cfg: Settings, states: seq<State>, actions: seq<Action>, n: nat, k: nat)
    returns (m: nat)
    requires IsRun(cfg, states, actions) && n < |states| && k in states[n].requests
    requires states[n].requests[k].phase.Consuming?
    ensures var p := states[n].requests[k].phase;
            m < n && AuthenticatedAt(states, actions, m, k, p.context.agentId, p.version)
  {
    assert n > 0;
    if k in states[n - 1].requests && states[n - 1].requests[k].phase == states[n].requests[k].phase {
      m := WaitingWasAuthenticated(cfg, states, actions, n - 1, k);
    } else {
      WaitBegins(cfg, states, actions, n - 1, k);
      m := n - 1;
    }
  }

  lemma WaitBegins(cfg: Settings, states: seq<State>, actions: seq<Action>, i: nat, k: nat)
    requires IsRun(cfg, states, actions) && i < |actions|
    requires k in states[i + 1].requests && states[i + 1].requests[k].phase.Consuming?
    requires !(k in states[i].requests && states[i].requests[k].phase == states[i + 1].requests[k].phase)
    ensures var p := states[i + 1].requests[k].phase;
            AuthenticatedAt(states, actions, i, k, p.context.agentId, p.version)
  {
    assert StepAt(cfg, states, actions, i);
    BeginsToWait(cfg, states[i], actions[i], states[i + 1], k);
  }

  /** A forward is made either by authentication or by the end of a wait. */
  lemma BeginsToSend(cfg: Settings, s: State, a: Action, u: State, f: Forward)
    requires IsStep(cfg, s, a, u) && f in u.forwards && f !in s.forwards
    ensures (a.Authenticate? && a.k == f.k && a.agent == Some(f.agent) && f.version == |s.swaps|)
         || (a.Conclude? && a.k == f.k && s.requests[a.k].phase.Consuming?
             && s.requests[a.k].phase.context.agentId == f.agent && s.requests[a.k].phase.version == f.version)
  {}

  /** Every forward was authenticated at some step, and evaluated against the snapshot of
      that very step. */
  lemma {:induction false} ForwardsAreAuthenticated(
    cfg: Settings, states: seq<State>, actions: seq<Action>, n: nat, f: Forward)
    returns (m: nat)
    requires IsRun(cfg, states, actions) && n < |states| && f in states[n].forwards
    ensures m < n && AuthenticatedAt(states, actions, m, f.k, f.agent, f.version)
  {
    assert n > 0;
    var s, a := states[n - 1], actions[n - 1];
    assert StepAt(cfg, states, actions, n - 1);
    if f in s.forwards {
      m := ForwardsAreAuthenticated(cfg, states, actions, n - 1, f);
    } else {
      BeginsToSend(cfg, s, a, states[n], f);
      m := n - 1;
      if a.Conclude? {
        m := WaitingWasAuthenticated(cfg, states, actions, n - 1, f.k);
      }
    }
  }

  // ---------------------------------------------------------------- approvals

  lemma ApprovalRun(cfg: P.Config, t: P.State)
    returns (states: seq<P.State>, actions: seq<P.Action>)
    requires Scenarios.Reachable(cfg, t)
    ensures Safety.IsRun(cfg, states, actions) && states[|states| - 1] == t
  {
    states, actions :| Safety.IsRun(cfg, states, actions) && states[|states| - 1] == t;
  }

  /** The approval that a request was forwarded on. */
  ghost function ApprovalOf(s: State, f: Forward): Text
    requires f.call.Some? && f.call.value in s.approvals.tasks && s.approvals.tasks[f.call.value].call.ConsumeCall?
  {
    s.approvals.tasks[f.call.value].call.id
  }

  ghost predicate HasApproval(s: State, f: Forward) {
    && f.call.Some? && f.call.value in s.approvals.tasks && s.approvals.tasks[f.call.value].call.ConsumeCall?
    && ApprovalOf(s, f) in s.approvals.table
  }

  /** The forward's approval was granted to its agent, and consumed by this agent in time. */
  ghost predicate RestsOnConsumption(s: State, f: Forward) {
    && HasApproval(s, f)
    && var row := s.approvals.table[ApprovalOf(s, f)];
       && row.status.Approved? && row.consumedBy == Some(f.agent) && row.draft.binding.agentId == f.agent
       && row.consumedAt.Some? && row.consumedAt.value < row.draft.expiresAt
  }

  lemma CallMeansConsumption(cfg: Settings, s: State, f: Forward)
    requires Scenarios.Reachable(cfg.approvals, s.approvals) && ForwardOk(cfg, s, f) && f.call.Some?
    ensures RestsOnConsumption(s, f)
  {
    ContextIsShaped(cfg, f.body, f.agent);
    ConsumptionOfCall(cfg.approvals, s.approvals, f.call.value, f.context.value);
  }

  lemma ReachableApprovals(cfg: Settings, states: seq<State>, actions: seq<Action>, n: nat)
    requires IsRun(cfg, states, actions) && n < |states|
    ensures Scenarios.Reachable(cfg.approvals, states[n].approvals)
  {
    RunKeepsInv(cfg, states, actions, n);
  }

  lemma CallMeansVerdict(cfg: Settings, s: State, f: Forward)
    requires ForwardOk(cfg, s, f) && f in s.forwards
    ensures ForwardedOnApproval(cfg, s, f) <==> f.call.Some?
  {
    if f.context.Some? {
      var verdict := cfg.verdict(PoliciesAt(s, f.version), f.context.value);
      assert VerdictOf(cfg, s, f) == Some(verdict.decision);
    }
  }

  /** A request with the verdict REQUIRE_APPROVAL was forwarded on an approval that its own
      agent had been granted and has consumed in time; a request with the verdict ALLOW, or a
      notification, has used no approval. */
  lemma ForwardsRestOnConsumption(cfg: Settings, states: seq<State>, actions: seq<Action>, n: nat, f: Forward)
    requires IsRun(cfg, states, actions) && n < |states| && f in states[n].forwards
    ensures ForwardedOnApproval(cfg, states[n], f) <==> f.call.Some?
    ensures f.call.Some? ==> RestsOnConsumption(states[n], f)
  {
    ForwardIsOk(cfg, states, actions, n, f);
    CallMeansVerdict(cfg, states[n], f);
    if f.call.Some? {
      ReachableApprovals(cfg, states, actions, n);
      CallMeansConsumption(cfg, states[n], f);
    }
  }

  lemma ConsumptionOfCall(cfg: P.Config, t: P.State, c: nat, context: SecurityContext)
    requires Scenarios.Reachable(cfg, t) && ConsumedFor(t, c, context)
    ensures var id := t.tasks[c].call.id;
            && Theorems.ConsumedOk(t, c, id) && id in t.table
            && t.table[id].status.Approved? && t.table[id].consumedBy == Some(context.agentId)
            && t.table[id].draft.binding.agentId == context.agentId
            && t.table[id].consumedAt.Some? && t.table[id].consumedAt.value < t.table[id].draft.expiresAt
  {
    var run, steps := ApprovalRun(cfg, t);
    Theorems.ConsumptionIsBound(cfg, run, steps, |run| - 1, c, t.tasks[c].call.id);
  }

  /** Forwards on approval map one to one into consumed approvals: no approval ever lets two
      requests, or one request twice, through. */
  lemma ApprovalsAreUsedOnce(
    cfg: Settings, states: seq<State>, actions: seq<Action>, n: nat, i: nat, j: nat)
    requires IsRun(cfg, states, actions) && n < |states| && i < j < |states[n].forwards|
    requires ForwardedOnApproval(cfg, states[n], states[n].forwards[i])
    requires ForwardedOnApproval(cfg, states[n], states[n].forwards[j])
    ensures HasApproval(states[n], states[n].forwards[i]) && HasApproval(states[n], states[n].forwards[j])
    ensures ApprovalOf(states[n], states[n].forwards[i]) != ApprovalOf(states[n], states[n].forwards[j])
  {
    RunKeepsInv(cfg, states, actions, n);
    var s := states[n];
    var f, g := s.forwards[i], s.forwards[j];
    ForwardsRestOnConsumption(cfg, states, actions, n, f);
    ForwardsRestOnConsumption(cfg, states, actions, n, g);
    assert ForwardOk(cfg, s, f) && ForwardOk(cfg, s, g);
    assert f.call != g.call;
    if ApprovalOf(s, f) == ApprovalOf(s, g) {
      var run, steps := ApprovalRun(cfg.approvals, s.approvals);
      Theorems.ConsumedAtMostOnce(cfg.approvals, run, steps, |run| - 1, f.call.value, g.call.value, ApprovalOf(s, f));
      assert false;
    }
  }

  lemma ProtocolStepEvolves(cfg: P.Config, t: P.State, step: P.Action)
    requires Scenarios.Reachable(cfg, t) && P.Enabled(cfg, t, step)
    ensures P.TableEvolves(t.table, P.Apply(cfg, t, step).table) && CallsKept(t, P.Apply(cfg, t, step))
  {
    Scenarios.ReachableHolds(cfg, t);
    Safety.StepEvolves(cfg, t, step);
    StepKeepsCalls(cfg, t, step);
  }

  lemma CallingKeepsApprovals(
    cfg: Settings, s: State, k: nat, c: nat, call: P.Call, now: int, waiting: Phase)
    requires k in s.requests && c !in s.approvals.tasks
    ensures var t := Calling(cfg, s, k, c, call, now, waiting).approvals;
            t.table == s.approvals.table && CallsKept(s.approvals, t)
  {}

  lemma AuthenticationKeepsApprovals(cfg: Settings, s: State, k: nat, agent: Option<Text>, c: nat, now: int)
    requires k in s.requests && c !in s.approvals.tasks
    ensures var t := AfterAuthentication(cfg, s, k, agent, c, now).approvals;
            t.table == s.approvals.table && CallsKept(s.approvals, t)
  {
    if agent.Some? {
      var context := ContextOf(cfg, s.requests[k].body, agent.value);
      if context.Some? {
        var verdict := cfg.verdict(PoliciesAt(s, |s.swaps|), context.value);
        if verdict.decision == REQUIRE_APPROVAL {
          var presented := Presented(s.requests[k].header);
          CallingKeepsApprovals(cfg, s, k, c, ApprovalCall(context.value, verdict, presented), now,
                                WaitFor(context.value, |s.swaps|, presented));
        }
      }
    }
  }

  /** Only steps of the approval protocol touch the approvals table. */
  lemma OtherStepsKeepApprovals(cfg: Settings, s: State, a: Action)
    requires Enabled(cfg, s, a) && !a.Approvals?
    ensures Apply(cfg, s, a).approvals.table == s.approvals.table && CallsKept(s.approvals, Apply(cfg, s, a).approvals)
  {
    match a
    case Authenticate(k, agent, c, now) => AuthenticationKeepsApprovals(cfg, s, k, agent, c, now);
    case Conclude(k) =>
      assert AfterApproval(s, k, s.approvals.tasks[s.requests[k].call.value].phase.result).approvals == s.approvals;
    case _ =>
  }

  /** Along the route's steps, approval records only develop and approval calls stay. */
  lemma StepEvolvesApprovals(cfg: Settings, s: State, a: Action, u: State)
    requires Scenarios.Reachable(cfg.approvals, s.approvals) && IsStep(cfg, s, a, u)
    ensures P.TableEvolves(s.approvals.table, u.approvals.table) && CallsKept(s.approvals, u.approvals)
  {
    if a.Approvals? {
      ProtocolStepEvolves(cfg.approvals, s.approvals, a.step);
    } else {
      OtherStepsKeepApprovals(cfg, s, a);
    }
  }

  /** Step i of the run is the insertion of an approval by the create call m. */
  ghost predicate InsertsAt(states: seq<State>, actions: seq<Action>, i: nat, m: nat, id: Text)
    requires |states| == |actions| + 1
  {
    && i < |actions| && actions[i].Approvals? && actions[i].step.Ask? && actions[i].step.c == m
    && m in states[i].approvals.tasks && states[i].approvals.tasks[m].call.CreateCall?
    && id !in states[i].approvals.table && id in states[i + 1].approvals.table
  }

  lemma ProtocolInsertion(cfg: P.Config, t: P.State, step: P.Action, id: Text)
    requires Scenarios.Reachable(cfg, t) && P.Enabled(cfg, t, step)
    requires id !in t.table && id in P.Apply(cfg, t, step).table
    ensures step.Ask? && step.c in t.tasks
    ensures t.tasks[step.c].call.CreateCall? && Shaped(t.tasks[step.c].call.context)
    ensures P.Apply(cfg, t, step).table[id].draft.binding == BindingOf(t.tasks[step.c].call.context)
  {
    Scenarios.ReachableHolds(cfg, t);
    Theorems.InsertionStep(cfg, t, step, id);
  }

  lemma InsertionStep(cfg: Settings, s: State, a: Action, u: State, id: Text)
    requires Scenarios.Reachable(cfg.approvals, s.approvals) && IsStep(cfg, s, a, u)
    requires id !in s.approvals.table && id in u.approvals.table
    ensures a.Approvals? && a.step.Ask? && a.step.c in s.approvals.tasks
    ensures s.approvals.tasks[a.step.c].call.CreateCall? && Shaped(s.approvals.tasks[a.step.c].call.context)
    ensures u.approvals.table[id].draft.binding == BindingOf(s.approvals.tasks[a.step.c].call.context)
  {
    if a.Approvals? {
      ProtocolInsertion(cfg.approvals, s.approvals, a.step, id);
    } else {
      OtherStepsKeepApprovals(cfg, s, a);
    }
  }

  lemma {:induction false} SomeoneInsertedAt(
    cfg: Settings, states: seq<State>, actions: seq<Action>, n: nat, id: Text)
    returns (i: nat, m: nat)
    requires IsRun(cfg, states, actions) && n < |states| && id in states[n].approvals.table
    ensures i < n && InsertsAt(states, actions, i, m, id)
    ensures m in states[n].approvals.tasks && states[n].approvals.tasks[m].call == states[i].approvals.tasks[m].call
    ensures Shaped(states[n].approvals.tasks[m].call.context)
    ensures states[n].approvals.table[id].draft.binding == BindingOf(states[n].approvals.tasks[m].call.context)
  {
    assert n > 0;
    var s, a := states[n - 1], actions[n - 1];
    ReachableApprovals(cfg, states, actions, n - 1);
    assert StepAt(cfg, states, actions, n - 1);
    StepEvolvesApprovals(cfg, s, a, states[n]);
    if id in s.approvals.table {
      i, m := SomeoneInsertedAt(cfg, states, actions, n - 1, id);
      assert P.Evolves(s.approvals.table[id], states[n].approvals.table[id]);
    } else {
      InsertionStep(cfg, s, a, states[n], id);
      i, m := n - 1, a.step.c;
    }
  }

  /** The forwarded context has the binding of its approval. */
  lemma ForwardMatchesItsApproval(cfg: Settings, s: State, f: Forward)
    requires Scenarios.Reachable(cfg.approvals, s.approvals) && ForwardOk(cfg, s, f) && f.call.Some?
    ensures HasApproval(s, f) && Theorems.ConsumedOk(s.approvals, f.call.value, ApprovalOf(s, f))
    ensures Shaped(f.context.value) && s.approvals.tasks[f.call.value].call.context == f.context.value
    ensures SameBinding(s.approvals.table[ApprovalOf(s, f)].draft.binding, BindingOf(f.context.value))
  {
    ContextIsShaped(cfg, f.body, f.agent);
    var run, steps := ApprovalRun(cfg.approvals, s.approvals);
    Theorems.ConsumptionIsBound(cfg.approvals, run, steps, |run| - 1, f.call.value,
                                s.approvals.tasks[f.call.value].call.id);
  }

  /** What is forwarded on an approval is the operation of the create call that inserted the
      approval: the same tool, and structurally equal arguments. */
  lemma ForwardedCallIsTheApprovedCall(cfg: Settings, states: seq<State>, actions: seq<Action>, n: nat, f: Forward)
    requires IsRun(cfg, states, actions) && n < |states| && ForwardedOnApproval(cfg, states[n], f)
    ensures HasApproval(states[n], f)
    ensures exists i: nat, m: nat ::
              && i < n && InsertsAt(states, actions, i, m, ApprovalOf(states[n], f))
              && m in states[n].approvals.tasks
              && states[n].approvals.tasks[m].call == states[i].approvals.tasks[m].call
              && Theorems.SameOperation(states[n].approvals.tasks[m].call.context, f.context.value)
  {
    ForwardsRestOnConsumption(cfg, states, actions, n, f);
    ForwardIsOk(cfg, states, actions, n, f);
    ReachableApprovals(cfg, states, actions, n);
    ForwardMatchesItsApproval(cfg, states[n], f);
    var i, m := SomeoneInsertedAt(cfg, states, actions, n, ApprovalOf(states[n], f));
    BindingIdentifiesTheCall(states[n].approvals.tasks[m].call.context, f.context.value);
  }

  /** It is also the operation of everyone who was told to wait for the approval, reused
      records included. */
  lemma ForwardedCallIsEveryWaitersCall(
    cfg: Settings, states: seq<State>, actions: seq<Action>, n: nat, f: Forward, e: nat)
    requires IsRun(cfg, states, actions) && n < |states| && ForwardedOnApproval(cfg, states[n], f)
    requires Theorems.LookupsAreExact(cfg.approvals, states[n].approvals) && HasApproval(states[n], f)
    requires Theorems.HandsOut(states[n].approvals, e, ApprovalOf(states[n], f))
    ensures Theorems.SameOperation(states[n].approvals.tasks[e].call.context, f.context.value)
  {
    ForwardsRestOnConsumption(cfg, states, actions, n, f);
    ForwardIsOk(cfg, states, actions, n, f);
    ReachableApprovals(cfg, states, actions, n);
    ForwardMatchesItsApproval(cfg, states[n], f);
    var run, steps := ApprovalRun(cfg.approvals, states[n].approvals);
    Theorems.ConsumedCallIsEveryWaitersCall(
      cfg.approvals, run, steps, |run| - 1, f.call.value, ApprovalOf(states[n], f), e);
  }

  // ---------------------------------------------------------------- without an approval service

  /** With no repository behind it, the service has no record and no call in flight. */
  ghost predicate Idle(t: P.State) {
    t.table == map[] && forall c | c in t.tasks :: t.tasks[c].phase.Finished? && !t.tasks[c].phase.result.Consumed?
  }

  lemma {:induction false} UnavailableServiceIsIdle(cfg: P.Config, states: seq<P.State>, actions: seq<P.Action>, n: nat)
    requires !cfg.available && Safety.IsRun(cfg, states, actions) && n < |states|
    ensures Idle(states[n])
  {
    if n > 0 {
      UnavailableServiceIsIdle(cfg, states, actions, n - 1);
      assert Safety.StepAt(cfg, states, actions, n - 1);
    }
  }

  /** While approvals are unavailable, nothing that needs one is forwarded. */
  lemma UnavailableMeansBlocked(cfg: Settings, states: seq<State>, actions: seq<Action>, n: nat, f: Forward)
    requires IsRun(cfg, states, actions) && n < |states| && !cfg.approvals.available
    ensures !ForwardedOnApproval(cfg, states[n], f)
  {
    if ForwardedOnApproval(cfg, states[n], f) {
      ForwardsRestOnConsumption(cfg, states, actions, n, f);
      RunKeepsInv(cfg, states, actions, n);
      var run, steps := ApprovalRun(cfg.approvals, states[n].approvals);
      UnavailableServiceIsIdle(cfg.approvals, run, steps, |run| - 1);
      assert false;
    }
  }

  // ---------------------------------------------------------------- what goes through

  ghost predicate CanRound(cfg: Settings, s: State, c: nat) {
    Scenarios.CanRound(cfg.approvals, s.approvals, c, [])
  }

  /** One repository operation of an approval call and the code that awaited it: two steps. */
  ghost function Round(cfg: Settings, s: State, c: nat): State
    requires CanRound(cfg, s, c)
  {
    s.(approvals := Scenarios.Round(cfg.approvals, s.approvals, c, [], 0, []))
  }

  /** A request that needs an approval and presents one that is approved, unconsumed, unexpired
      and bound to it is forwarded, when nothing else interferes: read, update, send. */
  lemma ApprovedRequestGoesThrough(
    cfg: Settings, s: State, k: nat, agent: Text, c: nat, now: int, context: SecurityContext, id: Text)
    requires Inv(cfg, s) && cfg.approvals.available && Enabled(cfg, s, Authenticate(k, Some(agent), c, now))
    requires ContextOf(cfg, s.requests[k].body, agent) == Some(context) && Presented(s.requests[k].header) == Some(id)
    requires cfg.verdict(PoliciesAt(s, |s.swaps|), context).decision == REQUIRE_APPROVAL
    requires Scenarios.Executable(s.approvals.table, id, context, now)
    ensures var s1 := Apply(cfg, s, Authenticate(k, Some(agent), c, now));
            CanRound(cfg, s1, c) && CanRound(cfg, Round(cfg, s1, c), c)
            && var s3 := Round(cfg, Round(cfg, s1, c), c);
               && Enabled(cfg, s3, Conclude(k))
               && Apply(cfg, s3, Conclude(k)).forwards
                  == s.forwards + [Forward(k, s.requests[k].body, agent, Some(context), |s.swaps|, Some(c))]
  {
    ContextIsShaped(cfg, s.requests[k].body, agent);
    var call := P.ConsumeCall(id, context, agent);
    var s1 := Apply(cfg, s, Authenticate(k, Some(agent), c, now));
    assert s1.approvals == P.Apply(cfg.approvals, s.approvals, P.Action.Start(c, call, now));
    Scenarios.ReachableHolds(cfg.approvals, s.approvals);
    Scenarios.UncontestedConsume(cfg.approvals, s.approvals, c, call, now);
    var s3 := Round(cfg, Round(cfg, s1, c), c);
    assert Theorems.ConsumedOk(s3.approvals, c, id);
    assert s3.requests[k] == s1.requests[k];
  }
}
