/** The route handler as it is written: staged awaits with early returns. */
module GatewayRoutes {
  import opened Wrappers
  import opened Texts
  import opened Requests
  import opened Bindings
  import opened PolicyTypes
  import opened Policies
  import opened PolicyStores
  import opened ApprovalServices
  import opened Gateways
  import opened GatewayVerdicts
  import Risk
  import P = ApprovalProtocol
  import Records = ApprovalRecords

  /** What the handler did: it sent the body upstream, on an approval or not, or replied. */
  datatype Handled =
    | SentOn(context: Option<SecurityContext>, approval: Option<Text>)
    | Replied(response: Response)

  /** The handling of a request whose verdict is REQUIRE_APPROVAL: with an approval id it is sent
      exactly when the consume call succeeded, and without one it is never sent. */
  ghost predicate RestsOnApproval(
    cfg: P.Config, t: Records.Table, c: SecurityContext, presented: Option<Text>, now: int, h: Handled)
  {
    match presented
    case Some(id) =>
      if h.SentOn? then
        && h == SentOn(Some(c), Some(id)) && id in t
        && t[id].status.Approved? && t[id].consumedBy == Some(c.agentId) && t[id].consumedAt == Some(now)
        && now < t[id].draft.expiresAt && SameBinding(t[id].draft.binding, BindingOf(c))
      else
        h.response.ApprovalRefused? && !h.response.outcome.Consumed?
        && P.Truthful(cfg, t, P.ConsumeCall(id, c, c.agentId), now, h.response.outcome)
    case None =>
      && h.Replied? && (h.response.ApprovalNeeded? || h.response.InternalError?)
      && (h.response.ApprovalNeeded? ==> (h.response.id.None? <==> !cfg.available))
      && (h.response.ApprovalNeeded? && h.response.id.Some? ==>
            && h.response.id.value in t
            && Records.SameKey(cfg.backend, t[h.response.id.value].draft.binding, BindingOf(c)))
  }

  /** What becomes of an authenticated call, by the stricter of the policies and the risk rules:
      blocked with the verdict, sent as it is, or resting on an approval. */
  ghost predicate Treated(
    cfg: Settings, risk: Option<Risk.RiskEngine>, ps: PolicyList, t: Records.Table, c: SecurityContext,
    presented: Option<Text>, now: int, h: Handled)
  {
    if h.Replied? && h.response.Blocked? then
      IsStricterOf(risk, ps, c, DENY) && h == Replied(Blocked(cfg.verdict(ps, c)))
    else if h == SentOn(Some(c), None) then IsStricterOf(risk, ps, c, ALLOW)
    else IsStricterOf(risk, ps, c, REQUIRE_APPROVAL) && RestsOnApproval(cfg.approvals, t, c, presented, now, h)
  }

  class McpRoute {
    const cfg: Settings
    const risk: Option<Risk.RiskEngine>
    const store: PolicyStore
    const service: ApprovalService

    ghost predicate Valid()
      reads this, store, service, service.repository
    {
      store.Valid() && service.Valid() && service.cfg == cfg.approvals && UsesEngines(cfg, risk)
    }

    constructor (cfg: Settings, risk: Option<Risk.RiskEngine>, store: PolicyStore, service: ApprovalService)
      requires store.Valid() && service.Valid() && service.cfg == cfg.approvals && UsesEngines(cfg, risk)
      ensures Valid() && this.cfg == cfg && this.risk == risk && this.store == store && this.service == service
    {
      this.cfg, this.risk, this.store, this.service := cfg, risk, store, service;
    }

    /** The policy engine on the present snapshot, then the risk engine. */
    method Decide(c: SecurityContext) returns (verdict: PolicyEvaluation)
      requires Valid()
      ensures verdict == cfg.verdict(store.snapshot, c)
      ensures IsStricterOf(risk, store.snapshot, c, verdict.decision)
    {
      var engine := store.BuildEngine();
      verdict := Evaluate(engine.value, c);
      if risk.Some? {
        verdict := Risk.Applied(risk.value, c, verdict);
      }
      assert verdict == FinalVerdict(risk, store.snapshot, c);
      VerdictIsTheStricter(risk, store.snapshot, c);
    }

    /** The approval call that belongs to what the request presents has ended, and the answer is
        the one for its result. */
    ghost predicate FollowsItsCall(
      c: SecurityContext, v: PolicyEvaluation, presented: Option<Text>, now: int, at: int, h: Handled)
      reads this, service
    {
      service.task.phase.Finished? &&
      match presented
      case Some(id) =>
        && service.Ended(P.ConsumeCall(id, c, c.agentId), now, service.task.phase.result)
        && h == (match service.task.phase.result
                 case Consumed(_) => SentOn(Some(c), Some(id))
                 case refusal => Replied(ApprovalRefused(refusal)))
      case None =>
        && service.Ended(P.CreateCall(c, v, P.Unspecified), at, service.task.phase.result)
        && h == Replied(match service.task.phase.result
                        case Created(r) => ApprovalNeeded(Some(r.draft.id))
                        case Existing(r) => ApprovalNeeded(Some(r.draft.id))
                        case Unavailable => ApprovalNeeded(None)
                        case _ => InternalError)
    }

    /** With an approval id: consume it, and send only on success. */
    method HandlePresented(c: SecurityContext, ghost v: PolicyEvaluation, id: Text, now: int, ghost at: int)
      returns (h: Handled)
      requires Valid() && Shaped(c)
      modifies service, service.repository
      ensures Valid() && P.TableEvolves(old(service.Records()), service.Records())
      ensures RestsOnApproval(cfg.approvals, service.Records(), c, Some(id), now, h)
      ensures h.SentOn? && id in old(service.Records()) ==> old(service.Records())[id].consumedAt.None?
      ensures FollowsItsCall(c, v, Some(id), now, at, h)
      ensures service.Executable(old(service.Records()), id, c, now) ==>
                h.SentOn? || (h.response.ApprovalRefused? && h.response.outcome.AlreadyConsumed?)
    {
      var outcome := service.Consume(id, c, c.agentId, now);
      if !outcome.Consumed? {
        return Replied(ApprovalRefused(outcome));
      }
      return SentOn(Some(c), Some(id));
    }

    /** Without one: create or reuse a pending approval, and send nothing. */
    method HandleUnpresented(c: SecurityContext, v: PolicyEvaluation, at: int, id: Text, ghost now: int)
      returns (h: Handled)
      requires Valid() && Shaped(c)
      modifies service, service.repository
      ensures Valid() && P.TableEvolves(old(service.Records()), service.Records())
      ensures RestsOnApproval(cfg.approvals, service.Records(), c, None, now, h)
      ensures FollowsItsCall(c, v, None, now, at, h)
    {
      var outcome := service.CreateForContext(c, v, P.Unspecified, at, id);
      if outcome.Failed? {
        return Replied(InternalError);
      }
      if outcome.Unavailable? {
        return Replied(ApprovalNeeded(None));
      }
      return Replied(ApprovalNeeded(Some(outcome.record.draft.id)));
    }

    /** The last part of the handler, for an authenticated call: decide, and do what is decided. */
    method HandleCall(c: SecurityContext, presented: Option<Text>, now: int, at: int, id: Text)
      returns (h: Handled)
      requires Valid() && Shaped(c)
      modifies service, service.repository
      ensures Valid() && P.TableEvolves(old(service.Records()), service.Records())
      ensures Treated(cfg, risk, old(store.snapshot), service.Records(), c, presented, now, h)
      ensures var v := cfg.verdict(old(store.snapshot), c);
              v.decision == REQUIRE_APPROVAL ==> FollowsItsCall(c, v, presented, now, at, h)
    {
      var v := Decide(c);
      if v.decision == DENY { return Replied(Blocked(v)); }
      if v.decision == REQUIRE_APPROVAL {
        if presented.Some? {
          h := HandlePresented(c, v, presented.value, now, at);
        } else {
          h := HandleUnpresented(c, v, at, id, now);
        }
        return;
      }
      return SentOn(Some(c), None);
    }

    /** One request from its arrival to its end. `agent` is the authenticator's answer, `now`
        and `at` are the clock when an approval call begins, `id` is fresh. */
    method Handle(
      body: Body, header: Option<Text>, oversized: bool, agent: Option<Text>, now: int, at: int, id: Text)
      returns (h: Handled)
      requires Valid()
      modifies service, service.repository
      ensures Valid() && P.TableEvolves(old(service.Records()), service.Records())
      ensures if oversized then h == Replied(TooLarge)
              else match Parse(body, cfg.identity, cfg.metaKey)
                case Error(e) => h == Replied(NotActionable(e))
                case Notification => h == if agent.None? then Replied(AuthenticationFailed) else SentOn(None, None)
                case Request(c) =>
                  if c.toolArguments.Some? && cfg.argumentsTooLarge(c.toolArguments.value) then h == Replied(TooLarge)
                  else if agent.None? then h == Replied(AuthenticationFailed)
                  else
                    var a := c.(agentId := agent.value);
                    var v := cfg.verdict(old(store.snapshot), a);
                    && Treated(cfg, risk, old(store.snapshot), service.Records(), a, Presented(header), now, h)
                    && (v.decision == REQUIRE_APPROVAL ==> FollowsItsCall(a, v, Presented(header), now, at, h))
    {
      if oversized { return Replied(TooLarge); }
      var parsed := Parse(body, cfg.identity, cfg.metaKey);
      if parsed.Error? { return Replied(NotActionable(parsed.error)); }
      if parsed.Request? && parsed.context.toolArguments.Some?
         && cfg.argumentsTooLarge(parsed.context.toolArguments.value) {
        return Replied(TooLarge);
      }
      if agent.None? { return Replied(AuthenticationFailed); }
      if parsed.Notification? { return SentOn(None, None); }
      ContextIsShaped(cfg, body, agent.value);
      var c := parsed.context.(agentId := agent.value);
      h := HandleCall(c, Presented(header), now, at, id);
    }
  }
}
