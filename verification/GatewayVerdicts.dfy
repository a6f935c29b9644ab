/** What the route's verdict means, in the names of the policies and the levels of the rules. */
module GatewayVerdicts {
  import opened Wrappers
  import opened Texts
  import opened Requests
  import opened PolicyTypes
  import opened Policies
  import opened Gateways
  import opened GatewayTheorems
  import Risk
  import P = ApprovalProtocol

  // ---------------------------------------------------------------- the verdict

  /** The decision is as severe as the stricter of what the policies' names say and what the
      highest level among the baseline and the matching rules is mapped to. */
  ghost predicate IsStricterOf(risk: Option<Risk.RiskEngine>, ps: seq<Policy>, c: SecurityContext, d: Decision) {
    exists p :: NamesSay(ps, c, p) &&
      match risk
      case None => d == p
      case Some(e) => forall l | Risk.IsHighest(e.baseline, e.rules, c, l) ::
        Severity(d) == Max(Severity(p), Risk.MappedSeverity(e.mapping, l))
  }

  lemma VerdictIsTheStricter(risk: Option<Risk.RiskEngine>, ps: PolicyList, c: SecurityContext)
    ensures IsStricterOf(risk, ps, c, FinalVerdict(risk, ps, c).decision)
    ensures FinalVerdict(risk, ps, c).policyId == Evaluation(ps, c).policyId
    ensures Evaluation(ps, c).reason <= FinalVerdict(risk, ps, c).reason
  {
    var v := Evaluation(ps, c);
    DecisionIsWhatTheNamesSay(ps, c, v.decision);
    if risk.Some? {
      Risk.LevelIsTheMaximum(risk.value, c);
      Risk.AppliedIsTheJoin(risk.value, c, v);
    }
  }

  /** The names settle one decision. */
  lemma NamesSayOneThing(ps: seq<Policy>, c: SecurityContext, d: Decision, e: Decision)
    requires AllNamed(ps) && NamesSay(ps, c, d) && NamesSay(ps, c, e)
    ensures d == e
  {
    DecisionIsWhatTheNamesSay(ps, c, d);
    DecisionIsWhatTheNamesSay(ps, c, e);
  }

  /** What the two engines must have said for a decision to be made. */
  lemma StricterMeans(risk: Option<Risk.RiskEngine>, ps: seq<Policy>, c: SecurityContext, d: Decision)
    requires AllNamed(ps) && IsStricterOf(risk, ps, c, d)
    ensures d == DENY <==>
              || NamesSay(ps, c, DENY)
              || (risk.Some? && exists l :: Risk.IsHighest(risk.value.baseline, risk.value.rules, c, l)
                                           && risk.value.mapping(l) == Some(DENY))
    ensures d == ALLOW <==>
              && NamesSay(ps, c, ALLOW)
              && (risk.Some? ==> forall l | Risk.IsHighest(risk.value.baseline, risk.value.rules, c, l) ::
                                   risk.value.mapping(l) in {None, Some(ALLOW)})
  {
    var p :| NamesSay(ps, c, p) && match risk
      case None => d == p
      case Some(e) => forall l | Risk.IsHighest(e.baseline, e.rules, c, l) ::
        Severity(d) == Max(Severity(p), Risk.MappedSeverity(e.mapping, l));
    if NamesSay(ps, c, DENY) { NamesSayOneThing(ps, c, p, DENY); }
    if NamesSay(ps, c, ALLOW) { NamesSayOneThing(ps, c, p, ALLOW); }
    if risk.Some? {
      var e := risk.value;
      Risk.LevelIsTheMaximum(e, c);
      var l := Risk.Assessment(e, c).level;
      assert Severity(d) == Max(Severity(p), Risk.MappedSeverity(e.mapping, l));
    }
  }

  // ---------------------------------------------------------------- the header

  ghost predicate IsWhite(t: Text) {
    forall i | 0 <= i < |t| :: t[i] in WhiteSpace()
  }

  /** The text without the white space at its ends, which is not empty. */
  ghost predicate IsTrimmed(h: Text, t: Text) {
    && t != [] && t[0] !in WhiteSpace() && t[|t| - 1] !in WhiteSpace()
    && exists a, b :: IsWhite(a) && IsWhite(b) && h == a + t + b
  }

  lemma {:induction false} TrimStartDrops(a: Text, rest: Text)
    requires IsWhite(a) && (rest != [] ==> rest[0] !in WhiteSpace())
    ensures TrimStart(a + rest) == rest
  {
    SpacesAreWhite();
    if a == [] {
      assert a + rest == rest;
    } else {
      assert (a + rest)[1..] == a[1..] + rest;
      TrimStartDrops(a[1..], rest);
    }
  }

  lemma {:induction false} TrimEndDrops(rest: Text, b: Text)
    requires IsWhite(b) && (rest != [] ==> rest[|rest| - 1] !in WhiteSpace())
    ensures TrimEnd(rest + b) == rest
  {
    SpacesAreWhite();
    if b == [] {
      assert rest + b == rest;
    } else {
      var n := |b| - 1;
      assert (rest + b)[..|rest + b| - 1] == rest + b[..n];
      TrimEndDrops(rest, b[..n]);
    }
  }

  lemma SpacesAreWhite()
    ensures forall u: CodeUnit :: IsSpace(u) <==> u in WhiteSpace()
  {}

  lemma {:induction false} TrimStartSplits(h: Text) returns (a: Text)
    ensures IsWhite(a) && h == a + TrimStart(h)
    ensures TrimStart(h) != [] ==> TrimStart(h)[0] !in WhiteSpace()
  {
    SpacesAreWhite();
    a := [];
    if h != [] && IsSpace(h[0]) {
      var rest := TrimStartSplits(h[1..]);
      a := [h[0]] + rest;
      assert h == [h[0]] + h[1..];
    }
  }

  lemma {:induction false} TrimEndSplits(h: Text) returns (b: Text)
    ensures IsWhite(b) && h == TrimEnd(h) + b
    ensures TrimEnd(h) != [] ==> TrimEnd(h)[|TrimEnd(h)| - 1] !in WhiteSpace()
  {
    SpacesAreWhite();
    b := [];
    if h != [] && IsSpace(h[|h| - 1]) {
      var rest := TrimEndSplits(h[..|h| - 1]);
      b := rest + [h[|h| - 1]];
      assert h == h[..|h| - 1] + [h[|h| - 1]];
    }
  }

  /** The route takes the header's text without the white space around it for the approval id;
      a header of white space alone is none. */
  lemma PresentedExactly(header: Option<Text>, t: Text)
    ensures Presented(header) == Some(t) <==> header.Some? && IsTrimmed(header.value, t)
    ensures Presented(header).None? <==> header.None? || !HasInk(header.value)
  {
    if header.Some? {
      var h := header.value;
      var a := TrimStartSplits(h);
      var b := TrimEndSplits(TrimStart(h));
      var r := TrimEnd(TrimStart(h));
      assert h == a + r + b;
      if r == [] {
        assert !HasInk(h);
      } else {
        assert h[|a|] == r[0] && h[|a|] == TrimStart(h)[0];
        assert HasInk(h);
        assert IsTrimmed(h, r);
      }
      if IsTrimmed(h, t) { TrimmedOnce(h, t); }
    }
  }

  lemma TrimmedOnce(h: Text, t: Text)
    requires IsTrimmed(h, t)
    ensures TrimEnd(TrimStart(h)) == t
  {
    var a, b :| IsWhite(a) && IsWhite(b) && h == a + t + b;
    assert a + t + b == a + (t + b);
    TrimStartDrops(a, t + b);
    TrimEndDrops(t, b);
  }

  // ---------------------------------------------------------------- what a request meets

  /** How the route goes on after authentication, by the stricter of policies and risk: blocked,
      sent, or waiting for the approval call that belongs to what the request presents. */
  lemma AuthenticatedRequestIsTreated(
    cfg: Settings, risk: Option<Risk.RiskEngine>, s: State, k: nat, agent: Text, c: nat, now: int,
    context: SecurityContext)
    requires UsesEngines(cfg, risk) && Enabled(cfg, s, Authenticate(k, Some(agent), c, now))
    requires ContextOf(cfg, s.requests[k].body, agent) == Some(context)
    ensures var u, n := Apply(cfg, s, Authenticate(k, Some(agent), c, now)), |s.swaps|;
            var v := cfg.verdict(PoliciesAt(s, n), context);
            && IsStricterOf(risk, PoliciesAt(s, n), context, v.decision) && k in u.requests
            && match v.decision
               case DENY => u.requests[k].phase == Answered(Blocked(v)) && u.forwards == s.forwards
               case ALLOW =>
                 && u.requests[k].phase == Forwarded
                 && u.forwards
                    == s.forwards + [Forward(k, s.requests[k].body, agent, Some(context), n, s.requests[k].call)]
               case REQUIRE_APPROVAL =>
                 && u.forwards == s.forwards && u.requests[k].call == Some(c) && c in u.approvals.tasks
                 && u.approvals.tasks[c]
                    == P.Begun(cfg.approvals, match Presented(s.requests[k].header)
                                              case Some(id) => P.ConsumeCall(id, context, agent)
                                              case None => P.CreateCall(context, v, P.Unspecified), now)
                 && u.requests[k].phase == match Presented(s.requests[k].header)
                                           case Some(id) => Consuming(context, n, id)
                                           case None => Creating(context, n)
  {
    ContextIsShaped(cfg, s.requests[k].body, agent);
    VerdictIsTheStricter(risk, PoliciesAt(s, |s.swaps|), context);
  }

  /** How it goes on after a consume call: sent exactly if the call has consumed. */
  lemma ConsumerIsTreated(cfg: Settings, s: State, k: nat)
    requires Enabled(cfg, s, Conclude(k)) && s.requests[k].phase.Consuming?
    ensures var u, r := Apply(cfg, s, Conclude(k)), s.approvals.tasks[s.requests[k].call.value].phase.result;
            k in u.requests &&
            match r
            case Consumed(_) =>
              && u.requests[k].phase == Forwarded
              && u.forwards == s.forwards
                 + [Forward(k, s.requests[k].body, s.requests[k].phase.context.agentId,
                            Some(s.requests[k].phase.context), s.requests[k].phase.version, s.requests[k].call)]
            case Failed => u.forwards == s.forwards && u.requests[k].phase == Answered(InternalError)
            case _ => u.forwards == s.forwards && u.requests[k].phase == Answered(ApprovalRefused(r))
  {}

  /** How it goes on after a create call: nothing is sent, and the answer names the approval. */
  lemma CreatorIsTreated(cfg: Settings, s: State, k: nat)
    requires Enabled(cfg, s, Conclude(k)) && s.requests[k].phase.Creating?
    ensures var u, r := Apply(cfg, s, Conclude(k)), s.approvals.tasks[s.requests[k].call.value].phase.result;
            k in u.requests && u.forwards == s.forwards &&
            u.requests[k].phase == Answered(
              match r
              case Created(record) => ApprovalNeeded(Some(record.draft.id))
              case Existing(record) => ApprovalNeeded(Some(record.draft.id))
              case Unavailable => ApprovalNeeded(None)
              case _ => InternalError)
  {}

  // ---------------------------------------------------------------- what was sent had passed

  /** Step m brought this request to the route, with this body and header. */
  ghost predicate ArrivedAt(
    states: seq<State>, actions: seq<Action>, m: nat, k: nat, body: Body, header: Option<Text>, oversized: bool)
    requires |states| == |actions| + 1
  {
    m < |actions| && actions[m] == Arrive(k, body, header, oversized)
  }

  /** A body within bounds, a message to act on, and arguments within bounds. */
  ghost predicate PassesTheChecks(cfg: Settings, body: Body, oversized: bool) {
    && !oversized
    && match Parse(body, cfg.identity, cfg.metaKey)
       case Error(_) => false
       case Notification => true
       case Request(c) => c.toolArguments.Some? ==> !cfg.argumentsTooLarge(c.toolArguments.value)
  }

  /** What a step makes of the request it concerns. */
  lemma MovedRequest(cfg: Settings, s: State, a: Action, u: State, k: nat)
    requires IsStep(cfg, s, a, u) && k in s.requests && k in u.requests
    requires (a.Authenticate? || a.Conclude?) && a.k == k
    ensures u.requests[k].body == s.requests[k].body && u.requests[k].header == s.requests[k].header
    ensures !s.requests[k].phase.Answered?
  {}

  /** Every request arrived at some step with the body and header it has; unless it was answered
      then and there, it had passed the checks. */
  lemma {:induction false} RequestsArrived(
    cfg: Settings, states: seq<State>, actions: seq<Action>, n: nat, k: nat)
    returns (m: nat, oversized: bool)
    requires IsRun(cfg, states, actions) && n < |states| && k in states[n].requests
    ensures var r := states[n].requests[k];
            && m < n && ArrivedAt(states, actions, m, k, r.body, r.header, oversized)
            && (PassesTheChecks(cfg, r.body, oversized) || (r.phase.Answered? && m + 1 < |states|
                && k in states[m + 1].requests && states[m + 1].requests[k] == r))
  {
    assert n > 0;
    var s, a := states[n - 1], actions[n - 1];
    assert StepAt(cfg, states, actions, n - 1);
    if a.Arrive? && a.k == k {
      m, oversized := n - 1, a.oversized;
    } else {
      if (a.Authenticate? || a.Conclude?) && a.k == k {
        MovedRequest(cfg, s, a, states[n], k);
      } else {
        OtherRequestsStay(cfg, s, a, states[n], k);
      }
      m, oversized := RequestsArrived(cfg, states, actions, n - 1, k);
    }
  }

  lemma ForwardsHaveTheirBody(cfg: Settings, states: seq<State>, actions: seq<Action>, n: nat, f: Forward)
    requires IsRun(cfg, states, actions) && n < |states| && f in states[n].forwards
    ensures f.k in states[n].requests && states[n].requests[f.k].body == f.body
    ensures states[n].requests[f.k].phase == Forwarded
  {
    ForwardIsOk(cfg, states, actions, n, f);
  }

  /** What was sent upstream is a body that arrived, and that had passed the checks. */
  lemma ForwardsPassedTheChecks(cfg: Settings, states: seq<State>, actions: seq<Action>, n: nat, f: Forward)
    requires IsRun(cfg, states, actions) && n < |states| && f in states[n].forwards
    ensures PassesTheChecks(cfg, f.body, false)
    ensures exists m: nat, header :: m < n && ArrivedAt(states, actions, m, f.k, f.body, header, false)
  {
    ForwardsHaveTheirBody(cfg, states, actions, n, f);
    var m, oversized := RequestsArrived(cfg, states, actions, n, f.k);
    assert ArrivedAt(states, actions, m, f.k, f.body, states[n].requests[f.k].header, oversized);
  }

  /** What fails the checks is answered at once: too large, not actionable, or again too large. */
  lemma RefusedOnArrival(cfg: Settings, s: State, k: nat, body: Body, header: Option<Text>, oversized: bool)
    requires Enabled(cfg, s, Arrive(k, body, header, oversized))
    ensures var u := Apply(cfg, s, Arrive(k, body, header, oversized));
            && u.forwards == s.forwards && k in u.requests
            && u.requests[k].phase ==
                 if PassesTheChecks(cfg, body, oversized) then Authenticating
                 else Answered(match Parse(body, cfg.identity, cfg.metaKey)
                               case Error(e) => if oversized then TooLarge else NotActionable(e)
                               case _ => TooLarge)
  {}

  /** An agent that is not authenticated gets an answer, and nothing is sent. */
  lemma StrangersAreRefused(cfg: Settings, s: State, k: nat, c: nat, now: int)
    requires Enabled(cfg, s, Authenticate(k, None, c, now))
    ensures var u := Apply(cfg, s, Authenticate(k, None, c, now));
            && u.forwards == s.forwards && u.approvals == s.approvals
            && k in u.requests && u.requests[k].phase == Answered(AuthenticationFailed)
  {}

  // ---------------------------------------------------------------- risk

  /** Over every run: what was sent was not at a level that is mapped to a denial; what was sent
      without an approval was at a level mapped to no more than ALLOW, and every policy that
      applied to it was named "ALLOW". */
  lemma RiskIsHeeded(
    cfg: Settings, risk: Option<Risk.RiskEngine>, states: seq<State>, actions: seq<Action>, n: nat, f: Forward,
    l: Risk.RiskLevel)
    requires UsesEngines(cfg, risk) && IsRun(cfg, states, actions) && n < |states| && f in states[n].forwards
    requires f.context.Some?
    requires risk.Some? ==> Risk.IsHighest(risk.value.baseline, risk.value.rules, f.context.value, l)
    ensures f.version <= |states[n].swaps|
    ensures risk.Some? ==>
              && Risk.MappedSeverity(risk.value.mapping, l) < Severity(DENY)
              && (f.call.None? ==> Risk.MappedSeverity(risk.value.mapping, l) <= Severity(ALLOW))
    ensures f.call.None? ==> NamesSay(PoliciesAt(states[n], f.version), f.context.value, ALLOW)
  {
    ForwardIsOk(cfg, states, actions, n, f);
    var ps, c := PoliciesAt(states[n], f.version), f.context.value;
    assert cfg.verdict(ps, c) == FinalVerdict(risk, ps, c);
    BothPermit(risk, ps, c, l);
  }

  lemma BothPermit(risk: Option<Risk.RiskEngine>, ps: PolicyList, c: SecurityContext, l: Risk.RiskLevel)
    requires risk.Some? ==> Risk.IsHighest(risk.value.baseline, risk.value.rules, c, l)
    ensures var d := FinalVerdict(risk, ps, c).decision;
            && (d != DENY && risk.Some? ==> Risk.MappedSeverity(risk.value.mapping, l) < Severity(DENY))
            && (d == ALLOW && risk.Some? ==> Risk.MappedSeverity(risk.value.mapping, l) <= Severity(ALLOW))
            && (d == ALLOW ==> NamesSay(ps, c, ALLOW))
  {
    VerdictIsTheStricter(risk, ps, c);
    StricterMeans(risk, ps, c, FinalVerdict(risk, ps, c).decision);
    if risk.Some? { Risk.LevelIsTheMaximum(risk.value, c); }
  }
}
