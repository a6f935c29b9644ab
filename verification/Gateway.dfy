/** The route of the gateway: any number of requests in flight, interleaved at every await with
    each other, with policy reloads and with all other approval calls. */
module Gateways {
  import opened Wrappers
  import opened Texts
  import opened Json
  import opened Requests
  import opened PolicyTypes
  import opened Policies
  import Risk
  import P = ApprovalProtocol
  import Safety = ApprovalSafety
  import Scenarios = ApprovalScenarios

  /** What the store's snapshot can be: it is valid at all times. */
  type PolicyList = ps: seq<Policy> | ValidPolicies(ps)

  /** The outcome of reading the body as JSON; objects have unique keys. */
  type Body = b: Option<Json> | b.Some? ==> WellFormed(b.value) witness None

  /** `verdict` decides a context by a snapshot; see `UsesEngines`. */
  datatype Settings = Settings(
    approvals: P.Config,
    identity: Identity,
    metaKey: Text,
    verdict: (PolicyList, SecurityContext) -> PolicyEvaluation,
    argumentsTooLarge: Json -> bool)

  // ---------------------------------------------------------------- the verdict

  /** Policy first, then risk, if there is a risk engine. */
  function FinalVerdict(risk: Option<Risk.RiskEngine>, ps: PolicyList, c: SecurityContext): PolicyEvaluation {
    var verdict := Evaluation(ps, c);
    if risk.Some? then Risk.Applied(risk.value, c, verdict) else verdict
  }

  /** The route decides by the policy engine and the risk engine. */
  ghost predicate UsesEngines(cfg: Settings, risk: Option<Risk.RiskEngine>) {
    forall ps: PolicyList, c: SecurityContext :: cfg.verdict(ps, c) == FinalVerdict(risk, ps, c)
  }

  function TrimStart(t: Text): Text {
    if t != [] && IsSpace(t[0]) then TrimStart(t[1..]) else t
  }

  function TrimEnd(t: Text): Text {
    if t != [] && IsSpace(t[|t| - 1]) then TrimEnd(t[..|t| - 1]) else t
  }

  /** The approval id in the request's header, if it is not blank. */
  function Presented(header: Option<Text>): Option<Text> {
    if header.None? then None
    else
      var trimmed := TrimEnd(TrimStart(header.value));
      if trimmed == [] then None else Some(trimmed)
  }

  /** The parsed context with the authenticated agent in place of the static identity. */
  function ContextOf(cfg: Settings, body: Body, agent: Text): Option<SecurityContext> {
    var r := Parse(body, cfg.identity, cfg.metaKey);
    if r.Request? then Some(r.context.(agentId := agent)) else None
  }

  lemma ContextIsShaped(cfg: Settings, body: Body, agent: Text)
    ensures var c := ContextOf(cfg, body, agent);
            c.Some? ==> Shaped(c.value) && c.value.agentId == agent && c.value.serverId == cfg.identity.serverId
  {
    ParsedContextsAreShaped(body, cfg.identity, cfg.metaKey);
  }

  // ---------------------------------------------------------------- states

  datatype Response =
    | TooLarge
    | NotActionable(error: ParseError)
    | AuthenticationFailed
    | Blocked(verdict: PolicyEvaluation)
    | ApprovalRefused(outcome: P.Outcome)
    | ApprovalNeeded(id: Option<Text>)
    | InternalError

  /** `Consuming` and `Creating` wait for a call of the approval service. */
  datatype Phase =
    | Authenticating
    | Consuming(context: SecurityContext, version: nat, id: Text)
    | Creating(context: SecurityContext, version: nat)
    | Forwarded
    | Answered(response: Response)

  /** `call` is the approval call that the request has started. */
  datatype Exchange = Exchange(body: Body, header: Option<Text>, call: Option<nat>, phase: Phase)

  /** What was sent upstream: the body, and on which grounds. A notification has no context. */
  datatype Forward = Forward(
    k: nat, body: Body, agent: Text, context: Option<SecurityContext>, version: nat, call: Option<nat>)

  /** `swaps` are the snapshots that followed the initial one. */
  datatype State = State(
    approvals: P.State,
    initial: PolicyList,
    swaps: seq<PolicyList>,
    requests: map<nat, Exchange>,
    forwards: seq<Forward>)

  function Start(initial: PolicyList): State {
    State(P.INITIAL, initial, [], map[], [])
  }

  function PoliciesAt(s: State, version: nat): PolicyList
    requires version <= |s.swaps|
  {
    if version == 0 then s.initial else s.swaps[version - 1]
  }

  datatype Action =
    | Approvals(step: P.Action)
    | SwapPolicies(ps: PolicyList)
    | Arrive(k: nat, body: Body, header: Option<Text>, oversized: bool)
    | Authenticate(k: nat, agent: Option<Text>, c: nat, now: int)
    | Conclude(k: nat)

  ghost predicate Enabled(cfg: Settings, s: State, a: Action) {
    match a
    case Approvals(step) => P.Enabled(cfg.approvals, s.approvals, step)
    case SwapPolicies(_) => true
    case Arrive(k, _, _, _) => k !in s.requests
    case Authenticate(k, _, c, _) =>
      k in s.requests && s.requests[k].phase.Authenticating? && c !in s.approvals.tasks
    case Conclude(k) =>
      && k in s.requests && (s.requests[k].phase.Consuming? || s.requests[k].phase.Creating?)
      && s.requests[k].call.Some? && s.requests[k].call.value in s.approvals.tasks
      && s.approvals.tasks[s.requests[k].call.value].phase.Finished?
  }

  /** The checks before the first await. */
  function Arrived(cfg: Settings, body: Body, oversized: bool): Phase {
    var r := Parse(body, cfg.identity, cfg.metaKey);
    if oversized then Answered(TooLarge)
    else if r.Error? then Answered(NotActionable(r.error))
    else if r.Request? && r.context.toolArguments.Some? && cfg.argumentsTooLarge(r.context.toolArguments.value) then
      Answered(TooLarge)
    else Authenticating
  }

  function WithRequest(s: State, k: nat, r: Exchange): State {
    s.(requests := s.requests[k := r])
  }

  function Sent(s: State, k: nat, agent: Text, context: Option<SecurityContext>, version: nat): State
    requires k in s.requests
  {
    var r := s.requests[k];
    WithRequest(s, k, r.(phase := Forwarded)).(
      forwards := s.forwards + [Forward(k, r.body, agent, context, version, r.call)])
  }

  /** The request starts the approval call c and waits for it. */
  function Calling(cfg: Settings, s: State, k: nat, c: nat, call: P.Call, now: int, phase: Phase): State
    requires k in s.requests
  {
    WithRequest(s, k, s.requests[k].(call := Some(c), phase := phase)).(
      approvals := s.approvals.(tasks := s.approvals.tasks[c := P.Begun(cfg.approvals, call, now)]))
  }

  /** The call of the approval service that a request makes, with or without an approval id. */
  function ApprovalCall(c: SecurityContext, verdict: PolicyEvaluation, presented: Option<Text>): P.Call {
    match presented
    case Some(id) => P.ConsumeCall(id, c, c.agentId)
    case None => P.CreateCall(c, verdict, P.Unspecified)
  }

  function WaitFor(c: SecurityContext, version: nat, presented: Option<Text>): Phase {
    match presented
    case Some(id) => Consuming(c, version, id)
    case None => Creating(c, version)
  }

  /** From the verdict to the next await. */
  function AfterVerdict(
    cfg: Settings, s: State, k: nat, context: SecurityContext, verdict: PolicyEvaluation, c: nat, now: int): State
    requires k in s.requests
  {
    match verdict.decision
    case DENY => WithRequest(s, k, s.requests[k].(phase := Answered(Blocked(verdict))))
    case ALLOW => Sent(s, k, context.agentId, Some(context), |s.swaps|)
    case REQUIRE_APPROVAL =>
      var presented := Presented(s.requests[k].header);
      Calling(cfg, s, k, c, ApprovalCall(context, verdict, presented), now, WaitFor(context, |s.swaps|, presented))
  }

  /** From the authenticator's answer to the next await. */
  function AfterAuthentication(cfg: Settings, s: State, k: nat, agent: Option<Text>, c: nat, now: int): State
    requires k in s.requests
  {
    var r := s.requests[k];
    if agent.None? then WithRequest(s, k, r.(phase := Answered(AuthenticationFailed)))
    else
      var context := ContextOf(cfg, r.body, agent.value);
      if context.None? then Sent(s, k, agent.value, None, |s.swaps|)
      else
        AfterVerdict(cfg, s, k, context.value, cfg.verdict(PoliciesAt(s, |s.swaps|), context.value), c, now)
  }

  /** From the approval service's answer to the end. */
  function AfterApproval(s: State, k: nat, outcome: P.Outcome): State
    requires k in s.requests && (s.requests[k].phase.Consuming? || s.requests[k].phase.Creating?)
  {
    var r := s.requests[k];
    match r.phase
    case Consuming(context, version, _) =>
      if outcome.Consumed? then Sent(s, k, context.agentId, Some(context), version)
      else if outcome.Failed? then WithRequest(s, k, r.(phase := Answered(InternalError)))
      else WithRequest(s, k, r.(phase := Answered(ApprovalRefused(outcome))))
    case Creating(_, _) =>
      var response :=
        if outcome.Created? || outcome.Existing? then ApprovalNeeded(Some(outcome.record.draft.id))
        else if outcome.Unavailable? then ApprovalNeeded(None)
        else InternalError;
      WithRequest(s, k, r.(phase := Answered(response)))
  }

  ghost function Apply(cfg: Settings, s: State, a: Action): State
    requires Enabled(cfg, s, a)
  {
    match a
    case Approvals(step) => s.(approvals := P.Apply(cfg.approvals, s.approvals, step))
    case SwapPolicies(ps) => s.(swaps := s.swaps + [ps])
    case Arrive(k, body, header, oversized) =>
      WithRequest(s, k, Exchange(body, header, None, Arrived(cfg, body, oversized)))
    case Authenticate(k, agent, c, now) => AfterAuthentication(cfg, s, k, agent, c, now)
    case Conclude(k) => AfterApproval(s, k, s.approvals.tasks[s.requests[k].call.value].phase.result)
  }

  // ---------------------------------------------------------------- the invariant

  /** The grounds on which a body was sent hold: a notification needs none; a request had the
      verdict ALLOW, or the verdict REQUIRE_APPROVAL and an approval that its call consumed. */
  ghost predicate ForwardOk(cfg: Settings, s: State, f: Forward) {
    && f.k in s.requests && s.requests[f.k].phase == Forwarded && s.requests[f.k].call == f.call
    && s.requests[f.k].body == f.body
    && !Parse(f.body, cfg.identity, cfg.metaKey).Error?
    && f.context == ContextOf(cfg, f.body, f.agent)
    && f.version <= |s.swaps|
    && (f.context.None? ==> f.call.None?)
    && (f.context.Some? ==>
          match cfg.verdict(PoliciesAt(s, f.version), f.context.value).decision
          case DENY => false
          case ALLOW => f.call.None?
          case REQUIRE_APPROVAL => f.call.Some? && ConsumedFor(s.approvals, f.call.value, f.context.value))
  }

  /** The approval call is a consume call for the context by its own agent, and succeeded. */
  ghost predicate ConsumedFor(t: P.State, c: nat, context: SecurityContext) {
    && c in t.tasks && t.tasks[c].call.ConsumeCall?
    && t.tasks[c].call.context == context && t.tasks[c].call.agent == context.agentId
    && t.tasks[c].phase.Finished? && t.tasks[c].phase.result.Consumed?
  }

  /** A request in flight remembers what it is about. */
  ghost predicate RequestOk(cfg: Settings, s: State, r: Exchange) {
    && (r.call.Some? ==> r.call.value in s.approvals.tasks)
    && match r.phase
       case Authenticating => r.call.None? && !Parse(r.body, cfg.identity, cfg.metaKey).Error?
       case Consuming(context, version, id) =>
         && r.call.Some? && s.approvals.tasks[r.call.value].call == P.ConsumeCall(id, context, context.agentId)
         && NeedsApproval(cfg, s, r.body, context, version)
       case Creating(context, version) =>
         && r.call.Some? && s.approvals.tasks[r.call.value].call.CreateCall?
         && s.approvals.tasks[r.call.value].call.context == context
         && NeedsApproval(cfg, s, r.body, context, version)
       case _ => true
  }

  ghost predicate NeedsApproval(cfg: Settings, s: State, body: Body, context: SecurityContext, version: nat) {
    && !Parse(body, cfg.identity, cfg.metaKey).Error?
    && ContextOf(cfg, body, context.agentId) == Some(context)
    && version <= |s.swaps| && cfg.verdict(PoliciesAt(s, version), context).decision == REQUIRE_APPROVAL
  }

  /** No two requests share an approval call. */
  ghost predicate OwnCalls(s: State) {
    forall j, k | j in s.requests && k in s.requests
                  && s.requests[j].call.Some? && s.requests[j].call == s.requests[k].call :: j == k
  }

  /** No request is sent twice. */
  ghost predicate SentOnce(s: State) {
    forall i, j | 0 <= i < j < |s.forwards| :: s.forwards[i].k != s.forwards[j].k
  }

  ghost predicate Inv(cfg: Settings, s: State) {
    && Scenarios.Reachable(cfg.approvals, s.approvals)
    && (forall k | k in s.requests :: RequestOk(cfg, s, s.requests[k]))
    && (forall i | 0 <= i < |s.forwards| :: ForwardOk(cfg, s, s.forwards[i]))
    && OwnCalls(s) && SentOnce(s)
  }

  // ---------------------------------------------------------------- every step keeps it

  /** Approval calls keep what they were called with, and their results. */
  ghost predicate CallsKept(t: P.State, u: P.State) {
    forall c | c in t.tasks ::
      && c in u.tasks && u.tasks[c].call == t.tasks[c].call
      && (t.tasks[c].phase.Finished? ==> u.tasks[c] == t.tasks[c])
  }

  lemma StepKeepsCalls(cfg: P.Config, t: P.State, a: P.Action)
    requires P.Enabled(cfg, t, a)
    ensures CallsKept(t, P.Apply(cfg, t, a))
  {
    Safety.TasksOfStep(cfg, t, a);
  }

  /** What was known of a request or of a forward outlives changes elsewhere. */
  lemma GroundsLast(cfg: Settings, s: State, u: State)
    requires CallsKept(s.approvals, u.approvals) && u.initial == s.initial && s.swaps <= u.swaps
    ensures forall r | RequestOk(cfg, s, r) :: RequestOk(cfg, u, r)
    ensures forall v | 0 <= v <= |s.swaps| :: PoliciesAt(u, v) == PoliciesAt(s, v)
  {}

  lemma ForwardLasts(cfg: Settings, s: State, u: State, f: Forward)
    requires ForwardOk(cfg, s, f)
    requires CallsKept(s.approvals, u.approvals) && u.initial == s.initial && s.swaps <= u.swaps
    requires f.k in u.requests && u.requests[f.k].phase == Forwarded && u.requests[f.k].call == f.call
    requires u.requests[f.k].body == f.body
    ensures ForwardOk(cfg, u, f)
  {
    assert PoliciesAt(u, f.version) == PoliciesAt(s, f.version);
  }

  /** u is s after a step that concerns at most request k, which had not been sent before. */
  ghost predicate Touches(cfg: Settings, s: State, u: State, k: nat) {
    && CallsKept(s.approvals, u.approvals) && Scenarios.Reachable(cfg.approvals, u.approvals)
    && u.initial == s.initial && s.swaps <= u.swaps
    && k in u.requests && u.requests == s.requests[k := u.requests[k]]
    && (k in s.requests ==> s.requests[k].phase != Forwarded)
    && RequestOk(cfg, u, u.requests[k])
  }

  /** The approval call of request k is none, the one it had, or a new one. */
  ghost predicate FreshCall(s: State, u: State, k: nat)
    requires k in u.requests
  {
    || u.requests[k].call.None?
    || (k in s.requests && u.requests[k].call == s.requests[k].call)
    || u.requests[k].call.value !in s.approvals.tasks
  }

  lemma OwnCallsKept(cfg: Settings, s: State, u: State, k: nat)
    requires Inv(cfg, s) && Touches(cfg, s, u, k) && FreshCall(s, u, k)
    ensures OwnCalls(u)
  {
    forall j | j in s.requests && s.requests[j].call.Some? ensures s.requests[j].call.value in s.approvals.tasks {
      assert RequestOk(cfg, s, s.requests[j]);
    }
  }

  lemma OldForwardsLast(cfg: Settings, s: State, u: State, k: nat)
    requires Inv(cfg, s) && Touches(cfg, s, u, k)
    ensures forall i | 0 <= i < |s.forwards| :: ForwardOk(cfg, u, s.forwards[i]) && s.forwards[i].k != k
  {
    forall i | 0 <= i < |s.forwards| ensures ForwardOk(cfg, u, s.forwards[i]) && s.forwards[i].k != k {
      assert ForwardOk(cfg, s, s.forwards[i]);
      ForwardLasts(cfg, s, u, s.forwards[i]);
    }
  }

  lemma RequestsLast(cfg: Settings, s: State, u: State, k: nat)
    requires Inv(cfg, s) && Touches(cfg, s, u, k)
    ensures forall j | j in u.requests :: RequestOk(cfg, u, u.requests[j])
  {
    GroundsLast(cfg, s, u);
    forall j | j in u.requests && j != k ensures RequestOk(cfg, u, u.requests[j]) {
      assert RequestOk(cfg, s, s.requests[j]);
    }
  }

  lemma ChangeKeepsInv(cfg: Settings, s: State, u: State, k: nat)
    requires Inv(cfg, s) && Touches(cfg, s, u, k) && FreshCall(s, u, k) && u.forwards == s.forwards
    ensures Inv(cfg, u)
  {
    OwnCallsKept(cfg, s, u, k);
    OldForwardsLast(cfg, s, u, k);
    RequestsLast(cfg, s, u, k);
  }

  lemma SendingKeepsInv(cfg: Settings, s: State, u: State, k: nat, f: Forward)
    requires Inv(cfg, s) && Touches(cfg, s, u, k) && FreshCall(s, u, k)
    requires u.forwards == s.forwards + [f] && f.k == k && ForwardOk(cfg, u, f)
    ensures Inv(cfg, u)
  {
    OwnCallsKept(cfg, s, u, k);
    OldForwardsLast(cfg, s, u, k);
    RequestsLast(cfg, s, u, k);
  }

  lemma ApprovalStepKeepsInv(cfg: Settings, s: State, step: P.Action)
    requires Inv(cfg, s) && P.Enabled(cfg.approvals, s.approvals, step)
    ensures Inv(cfg, Apply(cfg, s, Approvals(step)))
  {
    var u := Apply(cfg, s, Approvals(step));
    StepKeepsCalls(cfg.approvals, s.approvals, step);
    Scenarios.StepIsReachable(cfg.approvals, s.approvals, step);
    GroundsLast(cfg, s, u);
    forall i | 0 <= i < |s.forwards| ensures ForwardOk(cfg, u, s.forwards[i]) {
      ForwardLasts(cfg, s, u, s.forwards[i]);
    }
  }

  lemma SwapKeepsInv(cfg: Settings, s: State, ps: PolicyList)
    requires Inv(cfg, s)
    ensures Inv(cfg, Apply(cfg, s, SwapPolicies(ps)))
  {
    var u := Apply(cfg, s, SwapPolicies(ps));
    GroundsLast(cfg, s, u);
    forall i | 0 <= i < |s.forwards| ensures ForwardOk(cfg, u, s.forwards[i]) {
      ForwardLasts(cfg, s, u, s.forwards[i]);
    }
  }

  lemma ArriveKeepsInv(cfg: Settings, s: State, k: nat, body: Body, header: Option<Text>, oversized: bool)
    requires Inv(cfg, s) && k !in s.requests
    ensures Inv(cfg, Apply(cfg, s, Arrive(k, body, header, oversized)))
  {
    ChangeKeepsInv(cfg, s, Apply(cfg, s, Arrive(k, body, header, oversized)), k);
  }

  /** Starting an approval call is a step of the approval protocol. */
  lemma CallingIsAStart(cfg: Settings, s: State, k: nat, c: nat, call: P.Call, now: int, phase: Phase)
    requires Inv(cfg, s) && k in s.requests && c !in s.approvals.tasks && P.ValidCall(call)
    ensures var u := Calling(cfg, s, k, c, call, now, phase);
            && CallsKept(s.approvals, u.approvals) && Scenarios.Reachable(cfg.approvals, u.approvals)
            && c in u.approvals.tasks && u.approvals.tasks[c].call == call
  {
    var step := P.Action.Start(c, call, now);
    assert P.Enabled(cfg.approvals, s.approvals, step);
    Scenarios.StepIsReachable(cfg.approvals, s.approvals, step);
    assert Calling(cfg, s, k, c, call, now, phase).approvals == P.Apply(cfg.approvals, s.approvals, step);
  }

  /** Both kinds of approval call are started in the same way. */
  lemma CallingKeepsInv(cfg: Settings, s: State, k: nat, c: nat, call: P.Call, now: int, phase: Phase)
    requires Inv(cfg, s) && k in s.requests && s.requests[k].phase.Authenticating? && c !in s.approvals.tasks
    requires P.ValidCall(call)
    requires match phase
             case Consuming(context, version, id) =>
               && call == P.ConsumeCall(id, context, context.agentId)
               && NeedsApproval(cfg, s, s.requests[k].body, context, version)
             case Creating(context, version) =>
               call.CreateCall? && call.context == context
               && NeedsApproval(cfg, s, s.requests[k].body, context, version)
             case _ => false
    ensures Inv(cfg, Calling(cfg, s, k, c, call, now, phase))
  {
    var u := Calling(cfg, s, k, c, call, now, phase);
    CallingIsAStart(cfg, s, k, c, call, now, phase);
    CalledIsOk(cfg, s, u, k, c);
    ChangeKeepsInv(cfg, s, u, k);
  }

  lemma CalledIsOk(cfg: Settings, s: State, u: State, k: nat, c: nat)
    requires k in s.requests && k in u.requests && u.requests[k].body == s.requests[k].body
    requires u.initial == s.initial && u.swaps == s.swaps
    requires u.requests[k].call == Some(c) && c in u.approvals.tasks
    requires match u.requests[k].phase
             case Consuming(context, version, id) =>
               && u.approvals.tasks[c].call == P.ConsumeCall(id, context, context.agentId)
               && NeedsApproval(cfg, s, s.requests[k].body, context, version)
             case Creating(context, version) =>
               && u.approvals.tasks[c].call.CreateCall? && u.approvals.tasks[c].call.context == context
               && NeedsApproval(cfg, s, s.requests[k].body, context, version)
             case _ => false
    ensures RequestOk(cfg, u, u.requests[k])
  {}

  lemma RequiringKeepsInv(cfg: Settings, s: State, k: nat, agent: Text, c: nat, now: int)
    requires Inv(cfg, s) && Enabled(cfg, s, Authenticate(k, Some(agent), c, now))
    requires var context := ContextOf(cfg, s.requests[k].body, agent);
             context.Some? && cfg.verdict(PoliciesAt(s, |s.swaps|), context.value).decision == REQUIRE_APPROVAL
    ensures Inv(cfg, AfterAuthentication(cfg, s, k, Some(agent), c, now))
  {
    assert RequestOk(cfg, s, s.requests[k]);
    ContextIsShaped(cfg, s.requests[k].body, agent);
    var context := ContextOf(cfg, s.requests[k].body, agent).value;
    var verdict := cfg.verdict(PoliciesAt(s, |s.swaps|), context);
    var presented := Presented(s.requests[k].header);
    CallingKeepsInv(cfg, s, k, c, ApprovalCall(context, verdict, presented), now,
                    WaitFor(context, |s.swaps|, presented));
  }

  /** Sending a notification, or a request with the verdict ALLOW, right after authentication. */
  lemma SendingAtOnceKeepsInv(cfg: Settings, s: State, k: nat, agent: Text)
    requires Inv(cfg, s) && k in s.requests && s.requests[k].phase.Authenticating?
    requires var context := ContextOf(cfg, s.requests[k].body, agent);
             context.Some? ==> cfg.verdict(PoliciesAt(s, |s.swaps|), context.value).decision == ALLOW
    ensures Inv(cfg, Sent(s, k, agent, ContextOf(cfg, s.requests[k].body, agent), |s.swaps|))
  {
    assert RequestOk(cfg, s, s.requests[k]);
    var context := ContextOf(cfg, s.requests[k].body, agent);
    var u := Sent(s, k, agent, context, |s.swaps|);
    SendingKeepsInv(cfg, s, u, k, Forward(k, s.requests[k].body, agent, context, |s.swaps|, None));
  }

  lemma AnsweringKeepsInv(cfg: Settings, s: State, k: nat, response: Response)
    requires Inv(cfg, s) && k in s.requests && s.requests[k].phase != Forwarded
    ensures Inv(cfg, WithRequest(s, k, s.requests[k].(phase := Answered(response))))
  {
    assert RequestOk(cfg, s, s.requests[k]);
    ChangeKeepsInv(cfg, s, WithRequest(s, k, s.requests[k].(phase := Answered(response))), k);
  }

  lemma AuthenticateKeepsInv(cfg: Settings, s: State, k: nat, agent: Option<Text>, c: nat, now: int)
    requires Inv(cfg, s) && Enabled(cfg, s, Authenticate(k, agent, c, now))
    ensures Inv(cfg, Apply(cfg, s, Authenticate(k, agent, c, now)))
  {
    if agent.None? {
      AnsweringKeepsInv(cfg, s, k, AuthenticationFailed);
    } else {
      var context := ContextOf(cfg, s.requests[k].body, agent.value);
      if context.None? {
        SendingAtOnceKeepsInv(cfg, s, k, agent.value);
      } else {
        var verdict := cfg.verdict(PoliciesAt(s, |s.swaps|), context.value);
        match verdict.decision
        case DENY => AnsweringKeepsInv(cfg, s, k, Blocked(verdict));
        case ALLOW =>
          ContextIsShaped(cfg, s.requests[k].body, agent.value);
          SendingAtOnceKeepsInv(cfg, s, k, agent.value);
        case REQUIRE_APPROVAL => RequiringKeepsInv(cfg, s, k, agent.value, c, now);
      }
    }
  }

  lemma SendingAfterConsumptionKeepsInv(cfg: Settings, s: State, k: nat)
    requires Inv(cfg, s) && Enabled(cfg, s, Conclude(k)) && s.requests[k].phase.Consuming?
    requires s.approvals.tasks[s.requests[k].call.value].phase.result.Consumed?
    ensures var p := s.requests[k].phase;
            Inv(cfg, Sent(s, k, p.context.agentId, Some(p.context), p.version))
  {
    var r, p := s.requests[k], s.requests[k].phase;
    assert RequestOk(cfg, s, r);
    var u := Sent(s, k, p.context.agentId, Some(p.context), p.version);
    SendingKeepsInv(cfg, s, u, k, Forward(k, r.body, p.context.agentId, Some(p.context), p.version, r.call));
  }

  lemma ConcludeKeepsInv(cfg: Settings, s: State, k: nat)
    requires Inv(cfg, s) && Enabled(cfg, s, Conclude(k))
    ensures Inv(cfg, Apply(cfg, s, Conclude(k)))
  {
    var outcome := s.approvals.tasks[s.requests[k].call.value].phase.result;
    if s.requests[k].phase.Consuming? && outcome.Consumed? {
      SendingAfterConsumptionKeepsInv(cfg, s, k);
    } else {
      AnsweringKeepsInv(cfg, s, k, Apply(cfg, s, Conclude(k)).requests[k].phase.response);
    }
  }

  lemma StepKeepsInv(cfg: Settings, s: State, a: Action)
    requires Inv(cfg, s) && Enabled(cfg, s, a)
    ensures Inv(cfg, Apply(cfg, s, a))
  {
    match a
    case Approvals(step) => ApprovalStepKeepsInv(cfg, s, step);
    case SwapPolicies(ps) => SwapKeepsInv(cfg, s, ps);
    case Arrive(k, body, header, oversized) => ArriveKeepsInv(cfg, s, k, body, header, oversized);
    case Authenticate(k, agent, c, now) => AuthenticateKeepsInv(cfg, s, k, agent, c, now);
    case Conclude(k) => ConcludeKeepsInv(cfg, s, k);
  }

  ghost predicate IsStep(cfg: Settings, s: State, a: Action, u: State) {
    Enabled(cfg, s, a) && u == Apply(cfg, s, a)
  }

  ghost predicate IsRun(cfg: Settings, states: seq<State>, actions: seq<Action>) {
    && |states| == |actions| + 1 && states[0] == Start(states[0].initial)
    && forall i | 0 <= i < |actions| :: StepAt(cfg, states, actions, i)
  }

  ghost predicate StepAt(cfg: Settings, states: seq<State>, actions: seq<Action>, i: nat)
    requires |states| == |actions| + 1 && i < |actions|
  {
    IsStep(cfg, states[i], actions[i], states[i + 1])
  }

  lemma {:induction false} RunKeepsInv(cfg: Settings, states: seq<State>, actions: seq<Action>, n: nat)
    requires IsRun(cfg, states, actions) && n < |states|
    ensures Inv(cfg, states[n])
  {
    if n == 0 {
      Scenarios.InitialIsReachable(cfg.approvals);
    } else {
      RunKeepsInv(cfg, states, actions, n - 1);
      assert StepAt(cfg, states, actions, n - 1);
      StepKeepsInv(cfg, states[n - 1], actions[n - 1]);
    }
  }
}
