/** Policies, their validation, matching and evaluation. */
module Policies {
  import opened Wrappers
  import opened Texts
  import opened Json
  import opened Requests
  import opened PolicyTypes

  /** A policy as configuration or storage delivers it: the decision is still a name and the
      match still a JSON value. Absent priority and enabled are `undefined`. */
  datatype Policy = Policy(
    id: Text,
    decision: Text,
    conditions: Json,
    reason: Text,
    priority: Option<int>,
    enabled: Option<bool>)

  const AGENT: Text := Ascii("agent")
  const SERVER: Text := Ascii("server")
  const METHOD: Text := Ascii("method")
  const TOOL: Text := Ascii("tool")
  const ARGUMENTS: Text := Ascii("arguments")
  const EQUALS: Text := Ascii("equals")
  const ONE_OF: Text := Ascii("oneOf")

  function Named(name: Text): Option<Decision> {
    if name == Ascii("ALLOW") then Some(ALLOW)
    else if name == Ascii("DENY") then Some(DENY)
    else if name == Ascii("REQUIRE_APPROVAL") then Some(REQUIRE_APPROVAL)
    else None
  }

  // ---------------------------------------------------------------- validation

  /** The code units that `trim` removes. */
  predicate IsSpace(u: CodeUnit) {
    9 <= u <= 13 || u in {0x20, 0xA0, 0x1680, 0x2028, 0x2029, 0x202F, 0x205F, 0x3000, 0xFEFF}
    || 0x2000 <= u <= 0x200A
  }

  predicate Blank(t: Text) {
    forall i | 0 <= i < |t| :: IsSpace(t[i])
  }

  datatype Fault =
    | BlankId
    | DuplicateId
    | UnknownDecision
    | MatchNotAnObject
    | BlankReason
    | ArgumentsNotAnObject
    | ConstraintNotAnObject(key: Text)
    | NotExactlyOneOperator(key: Text)
    | OneOfNotAnArray(key: Text)

  function ConstraintFault(m: Member): Option<Fault> {
    if !m.value.Obj? then Some(ConstraintNotAnObject(m.key))
    else if Has(m.value.members, EQUALS) == Has(m.value.members, ONE_OF) then Some(NotExactlyOneOperator(m.key))
    else if Has(m.value.members, ONE_OF) && !Get(m.value.members, ONE_OF).Arr? then Some(OneOfNotAnArray(m.key))
    else None
  }

  predicate ValidArguments(conditions: Json) {
    var args := Field(conditions, ARGUMENTS);
    args.None? || (args.value.Obj? && forall i | 0 <= i < |args.value.members| ::
                                        ConstraintFault(args.value.members[i]).None?)
  }

  /** A policy that is acceptable on its own. */
  predicate GoodPolicy(p: Policy) {
    !Blank(p.id) && Named(p.decision).Some? && p.conditions.Obj? && !Blank(p.reason) && ValidArguments(p.conditions)
  }

  ghost predicate DistinctIds(ps: seq<Policy>) {
    forall i, j | 0 <= i < j < |ps| :: ps[i].id != ps[j].id
  }

  ghost predicate ValidPolicies(ps: seq<Policy>) {
    DistinctIds(ps) && forall i | 0 <= i < |ps| :: GoodPolicy(ps[i])
  }

  /** The fault lies with the arguments as a whole or with their first bad constraint. */
  ghost predicate StopsAt(conditions: Json, fault: Fault) {
    var args := Field(conditions, ARGUMENTS);
    && args.Some?
    && if !args.value.Obj? then fault == ArgumentsNotAnObject
       else exists k | 0 <= k < |args.value.members| ::
              && ConstraintFault(args.value.members[k]) == Some(fault)
              && forall i | 0 <= i < k :: ConstraintFault(args.value.members[i]).None?
  }

  /** An earlier policy has this policy's id. */
  ghost predicate IsRepeated(ps: seq<Policy>, i: nat)
    requires i < |ps|
  {
    exists j | 0 <= j < i :: ps[j].id == ps[i].id
  }

  /** What the fault says of the policy that has it: this check fails, and those before it do not. */
  ghost predicate Explains(fault: Fault, ps: seq<Policy>, i: nat)
    requires i < |ps|
  {
    var p := ps[i];
    if fault == BlankId then Blank(p.id)
    else
      && !Blank(p.id)
      && if fault == DuplicateId then IsRepeated(ps, i)
         else
           && !IsRepeated(ps, i)
           && if fault == Fault.UnknownDecision then Named(p.decision).None?
              else
                && Named(p.decision).Some?
                && if fault == Fault.MatchNotAnObject then !p.conditions.Obj?
                   else
                     && p.conditions.Obj?
                     && if fault == Fault.BlankReason then Blank(p.reason)
                        else !Blank(p.reason) && StopsAt(p.conditions, fault)
  }

  /** The constraint at which the scan of a policy's arguments stops. */
  method ValidateArgumentConstraints(p: Policy) returns (fault: Option<Fault>)
    ensures fault.None? <==> ValidArguments(p.conditions)
    ensures fault.Some? ==> StopsAt(p.conditions, fault.value)
  {
    var args := Field(p.conditions, ARGUMENTS);
    if args.None? { return None; }
    if !args.value.Obj? { return Some(ArgumentsNotAnObject); }
    var entries := args.value.members;
    for k := 0 to |entries|
      invariant forall i | 0 <= i < k :: ConstraintFault(entries[i]).None?
    {
      if ConstraintFault(entries[k]).Some? {
        return ConstraintFault(entries[k]);
      }
    }
    return None;
  }

  /** `validatePolicies`: an error names the first policy that spoils the list. */
  method ValidatePolicies(ps: seq<Policy>) returns (r: Option<(nat, Fault)>)
    ensures r.None? <==> ValidPolicies(ps)
    ensures r.Some? ==>
              var (i, fault) := r.value;
              && i < |ps| && ValidPolicies(ps[..i]) && !ValidPolicies(ps[..i + 1])
              && Explains(fault, ps, i)
  {
    var seenIds: set<Text> := {};
    for i := 0 to |ps|
      invariant seenIds == set j | 0 <= j < i :: ps[j].id
      invariant ValidPolicies(ps[..i])
    {
      var p := ps[i];
      assert ps[..i + 1][i] == p;
      if Blank(p.id) { return Some((i, BlankId)); }
      if p.id in seenIds {
        var j :| 0 <= j < i && ps[j].id == p.id;
        assert ps[..i + 1][j].id == ps[..i + 1][i].id;
        return Some((i, DuplicateId));
      }
      seenIds := seenIds + {p.id};
      if Named(p.decision).None? { return Some((i, UnknownDecision)); }
      if !p.conditions.Obj? { return Some((i, MatchNotAnObject)); }
      if Blank(p.reason) { return Some((i, BlankReason)); }
      var fault := ValidateArgumentConstraints(p);
      if fault.Some? { return Some((i, fault.value)); }
      assert forall j | 0 <= j < i :: ps[..i + 1][j] == ps[..i][j];
    }
    assert ps[..|ps|] == ps;
    return None;
  }

  // ---------------------------------------------------------------- matching

  /** A constraint needs the argument to be present; one without an operator never matches. */
  predicate MatchesConstraint(value: Option<Json>, constraint: Json) {
    var equals := Field(constraint, EQUALS);
    var oneOf := Field(constraint, ONE_OF);
    if equals.Some? then value.Some? && DeepEqual(value.value, equals.value)
    else if oneOf.Some? && oneOf.value.Arr? then
      value.Some? && exists i | 0 <= i < |oneOf.value.items| :: DeepEqual(value.value, oneOf.value.items[i])
    else false
  }

  /** A field that is set must equal the context's value; one that is not matches any. */
  predicate MatchesField(conditions: Json, field: Text, value: Option<Text>) {
    var wanted := Field(conditions, field);
    wanted.None? || (value.Some? && wanted.value == Str(value.value))
  }

  predicate MatchesArguments(wanted: Json, args: Json) {
    wanted.Obj? && forall i | 0 <= i < |wanted.members| ::
                     MatchesConstraint(Field(args, wanted.members[i].key), wanted.members[i].value)
  }

  predicate MatchesPolicy(c: SecurityContext, conditions: Json) {
    && MatchesField(conditions, AGENT, Some(c.agentId))
    && MatchesField(conditions, SERVER, Some(c.serverId))
    && MatchesField(conditions, METHOD, Some(c.rpcMethod))
    && MatchesField(conditions, TOOL, c.toolName)
    && var wanted := Field(conditions, ARGUMENTS);
       (wanted.None? || (c.toolArguments.Some? && MatchesArguments(wanted.value, c.toolArguments.value)))
  }

  // ---------------------------------------------------------------- what a match means

  lemma FieldNamesDiffer()
    ensures AGENT != SERVER && AGENT != METHOD && AGENT != TOOL && AGENT != ARGUMENTS
    ensures SERVER != METHOD && SERVER != TOOL && SERVER != ARGUMENTS
    ensures METHOD != TOOL && METHOD != ARGUMENTS && TOOL != ARGUMENTS
  {
    assert SERVER[0] == 's' as int && METHOD[0] == 'm' as int;
  }

  /** What one member of a match demands; members with other names demand nothing. */
  predicate Demands(c: SecurityContext, m: Member) {
    && (m.key == Ascii("agent") ==> m.value == Str(c.agentId))
    && (m.key == Ascii("server") ==> m.value == Str(c.serverId))
    && (m.key == Ascii("method") ==> m.value == Str(c.rpcMethod))
    && (m.key == Ascii("tool") ==> c.toolName.Some? && m.value == Str(c.toolName.value))
    && (m.key == Ascii("arguments") ==> c.toolArguments.Some? && MatchesArguments(m.value, c.toolArguments.value))
  }

  /** Looking up a name finds its member, wherever it stands. */
  lemma FieldOfMember(ms: seq<Member>, i: nat)
    requires i < |ms| && DistinctKeys(ms)
    ensures Field(Obj(ms), ms[i].key) == Some(ms[i].value)
  {
    GetIsTheMember(ms, i);
  }

  lemma FieldIsAMember(ms: seq<Member>, key: Text) returns (i: nat)
    requires Field(Obj(ms), key).Some?
    ensures i < |ms| && ms[i] == Member(key, Field(Obj(ms), key).value)
  {
    i :| 0 <= i < |ms| && ms[i] == Member(key, Get(ms, key));
  }

  lemma MatchImpliesDemands(c: SecurityContext, ms: seq<Member>, i: nat)
    requires DistinctKeys(ms) && MatchesPolicy(c, Obj(ms)) && i < |ms|
    ensures Demands(c, ms[i])
  {
    FieldNamesDiffer();
    FieldOfMember(ms, i);
  }

  lemma DemandsImplyMatch(c: SecurityContext, ms: seq<Member>)
    requires forall i | 0 <= i < |ms| :: Demands(c, ms[i])
    ensures MatchesPolicy(c, Obj(ms))
  {
    FieldNamesDiffer();
    if Field(Obj(ms), AGENT).Some? { var i := FieldIsAMember(ms, AGENT); }
    if Field(Obj(ms), SERVER).Some? { var i := FieldIsAMember(ms, SERVER); }
    if Field(Obj(ms), METHOD).Some? { var i := FieldIsAMember(ms, METHOD); }
    if Field(Obj(ms), TOOL).Some? { var i := FieldIsAMember(ms, TOOL); }
    if Field(Obj(ms), ARGUMENTS).Some? { var i := FieldIsAMember(ms, ARGUMENTS); }
  }

  /** A match is the conjunction of its members, in any order and with any others between
      them: each name demands equality with its own part of the context, and the empty match
      accepts everything. */
  lemma MatchIsAConjunction(c: SecurityContext, ms: seq<Member>)
    requires DistinctKeys(ms)
    ensures MatchesPolicy(c, Obj(ms)) <==> forall i | 0 <= i < |ms| :: Demands(c, ms[i])
  {
    if MatchesPolicy(c, Obj(ms)) {
      forall i | 0 <= i < |ms| ensures Demands(c, ms[i]) {
        MatchImpliesDemands(c, ms, i);
      }
    } else if forall i | 0 <= i < |ms| :: Demands(c, ms[i]) {
      DemandsImplyMatch(c, ms);
    }
  }

  /** What a constraint object asks of an argument, by its members: `equals` for one value and
      `oneOf` for one of several, up to structural equality. */
  ghost predicate Asks(v: Json, m: Member) {
    || (m.key == Ascii("equals") && DeepEqual(v, m.value))
    || (m.key == Ascii("oneOf") && m.value.Arr?
        && exists i :: 0 <= i < |m.value.items| && DeepEqual(v, m.value.items[i]))
  }

  /** For any constraint object, valid or not: it matches exactly a present argument that its
      `equals` asks for or, if it has no `equals`, that its `oneOf` does. With no operator it
      matches nothing, and if validation accepts it, its one operator alone decides. */
  lemma ConstraintsMeanWhatTheySay(v: Option<Json>, key: Text, ms: seq<Member>)
    requires DistinctKeys(ms)
    ensures MatchesConstraint(v, Obj(ms))
       <==> v.Some? && exists i :: 0 <= i < |ms| && Asks(v.value, ms[i]) && (ms[i].key == EQUALS || !Has(ms, EQUALS))
    ensures ConstraintFault(Member(key, Obj(ms))).None? ==>
              (MatchesConstraint(v, Obj(ms)) <==> v.Some? && exists i :: 0 <= i < |ms| && Asks(v.value, ms[i]))
  {
    assert EQUALS != ONE_OF by { assert EQUALS[0] == 'e' as int && ONE_OF[0] == 'o' as int; }
    forall j | 0 <= j < |ms| ensures Field(Obj(ms), ms[j].key) == Some(ms[j].value) {
      FieldOfMember(ms, j);
    }
    if Has(ms, EQUALS) {
      var i := FieldIsAMember(ms, EQUALS);
    } else if Has(ms, ONE_OF) {
      var i := FieldIsAMember(ms, ONE_OF);
    }
  }

  /** The argument is there, and it is what the constraint asks for. */
  ghost predicate Meets(args: Json, key: Text, constraint: Json) {
    exists v :: Carries(args, key, v) && constraint.Obj? &&
      exists i :: 0 <= i < |constraint.members| && Asks(v, constraint.members[i])
                    && (constraint.members[i].key == Ascii("equals") || !Has(constraint.members, Ascii("equals")))
  }

  /** The call has arguments, and every argument that the match names meets its constraint. */
  ghost predicate MeetsAll(args: Option<Json>, wanted: Json) {
    && args.Some? && wanted.Obj?
    && forall i | 0 <= i < |wanted.members| :: Meets(args.value, wanted.members[i].key, wanted.members[i].value)
  }

  lemma ConstraintMetExactly(args: Json, key: Text, constraint: Json)
    requires WellFormed(args) && WellFormed(constraint)
    ensures MatchesConstraint(Field(args, key), constraint) <==> Meets(args, key, constraint)
  {
    FieldIsCarried(args, key);
    var v := Field(args, key);
    if v.Some? { assert Carries(args, key, v.value); }
    if constraint.Obj? { ConstraintsMeanWhatTheySay(v, key, constraint.members); }
  }

  /** The arguments of a match, told by the members of both sides. */
  lemma ArgumentsMetExactly(wanted: Json, args: Option<Json>)
    requires WellFormed(wanted) && (args.Some? ==> WellFormed(args.value))
    ensures args.Some? && MatchesArguments(wanted, args.value) <==> MeetsAll(args, wanted)
  {
    if args.Some? && wanted.Obj? {
      forall i | 0 <= i < |wanted.members|
        ensures MatchesConstraint(Field(args.value, wanted.members[i].key), wanted.members[i].value)
           <==> Meets(args.value, wanted.members[i].key, wanted.members[i].value)
      {
        ConstraintMetExactly(args.value, wanted.members[i].key, wanted.members[i].value);
      }
    }
  }

  // ---------------------------------------------------------------- evaluation

  predicate Applies(p: Policy, c: SecurityContext) {
    p.enabled != Some(false) && MatchesPolicy(c, p.conditions)
  }

  function Verdict(p: Policy): Decision
    requires Named(p.decision).Some?
  {
    Named(p.decision).value
  }

  function PriorityOf(p: Policy): int {
    if p.priority.Some? then p.priority.value else 0
  }

  /** Severity first, then priority. */
  predicate Outranks(p: Policy, q: Policy)
    requires Named(p.decision).Some? && Named(q.decision).Some?
  {
    Severity(Verdict(p)) > Severity(Verdict(q))
    || (Severity(Verdict(p)) == Severity(Verdict(q)) && PriorityOf(p) > PriorityOf(q))
  }

  predicate AllNamed(ps: seq<Policy>) {
    forall i | 0 <= i < |ps| :: Named(ps[i].decision).Some?
  }

  /** The policies that pass a test, in their order. */
  function Filter(ps: seq<Policy>, test: Policy -> bool): (r: seq<Policy>)
    ensures AllNamed(ps) ==> AllNamed(r)
  {
    if ps == [] then []
    else
      var last := ps[|ps| - 1];
      Filter(ps[..|ps| - 1], test) + if test(last) then [last] else []
  }

  /** Applying to a context, as a test of policies. */
  function On(c: SecurityContext): Policy -> bool {
    (p: Policy) => Applies(p, c)
  }

  function Matching(ps: seq<Policy>, c: SecurityContext): (r: seq<Policy>)
    ensures AllNamed(ps) ==> AllNamed(r)
  {
    Filter(ps, On(c))
  }

  /** The reduction over the matching policies. */
  function Best(ms: seq<Policy>): (r: Policy)
    requires ms != [] && AllNamed(ms)
    ensures r in ms
  {
    if |ms| == 1 then ms[0]
    else
      var best, current := Best(ms[..|ms| - 1]), ms[|ms| - 1];
      var bestSeverity, currentSeverity := Severity(Verdict(best)), Severity(Verdict(current));
      if currentSeverity != bestSeverity then if currentSeverity > bestSeverity then current else best
      else if PriorityOf(current) != PriorityOf(best) then
        if PriorityOf(current) > PriorityOf(best) then current else best
      else best
  }

  const NO_MATCH: PolicyEvaluation := PolicyEvaluation(DENY, None, Ascii("No matching policy"))

  function ResultOf(p: Policy): PolicyEvaluation
    requires Named(p.decision).Some?
  {
    PolicyEvaluation(Verdict(p), Some(p.id), p.reason)
  }

  function Evaluation(ps: seq<Policy>, c: SecurityContext): PolicyEvaluation
    requires AllNamed(ps)
  {
    var ms := Matching(ps, c);
    if ms == [] then NO_MATCH else ResultOf(Best(ms))
  }

  /** The policy at index k decides among those that pass: it passes, nothing that passes
      outranks it, and it outranks everything that passes and was listed before it. */
  ghost predicate DecidesAmong(ps: seq<Policy>, test: Policy -> bool, k: nat)
    requires AllNamed(ps) && k < |ps|
  {
    && test(ps[k])
    && forall j | 0 <= j < |ps| && test(ps[j]) ::
         !Outranks(ps[j], ps[k]) && (j < k ==> Outranks(ps[k], ps[j]))
  }

  lemma {:induction false} BestDecidesAmong(ps: seq<Policy>, test: Policy -> bool) returns (k: int)
    requires AllNamed(ps)
    ensures Filter(ps, test) == [] <==> forall i | 0 <= i < |ps| :: !test(ps[i])
    ensures Filter(ps, test) != [] ==> 0 <= k < |ps| && ps[k] == Best(Filter(ps, test)) && DecidesAmong(ps, test, k)
  {
    k := -1;
    if ps != [] {
      var n := |ps| - 1;
      var front, last := ps[..n], ps[n];
      k := BestDecidesAmong(front, test);
      var ms := Filter(front, test);
      assert ps == front + [last];
      if !test(last) {
        assert Filter(ps, test) == ms;
        if ms != [] { StillDecides(front, test, k, last); }
      } else {
        BestOfMore(ms, last);
        if ms == [] || Outranks(last, Best(ms)) {
          LastDecides(front, test, k, last);
          k := n;
        } else {
          StillDecides(front, test, k, last);
        }
      }
    }
  }

  lemma StillDecides(ps: seq<Policy>, test: Policy -> bool, k: nat, p: Policy)
    requires AllNamed(ps) && Named(p.decision).Some? && k < |ps| && DecidesAmong(ps, test, k)
    requires test(p) ==> !Outranks(p, ps[k])
    ensures DecidesAmong(ps + [p], test, k) && (ps + [p])[k] == ps[k]
  {}

  lemma LastDecides(ps: seq<Policy>, test: Policy -> bool, k: int, p: Policy)
    requires AllNamed(ps) && Named(p.decision).Some? && test(p)
    requires || (forall i | 0 <= i < |ps| :: !test(ps[i]))
             || (0 <= k < |ps| && DecidesAmong(ps, test, k) && Outranks(p, ps[k]))
    ensures DecidesAmong(ps + [p], test, |ps|)
  {}

  lemma BestOfMore(ms: seq<Policy>, p: Policy)
    requires AllNamed(ms) && Named(p.decision).Some?
    ensures Best(ms + [p]) == if ms == [] || Outranks(p, Best(ms)) then p else Best(ms)
  {
    assert (ms + [p])[..|ms|] == ms;
  }

  /** The policy at index k decides the context. */
  ghost predicate Decides(ps: seq<Policy>, c: SecurityContext, k: nat)
    requires AllNamed(ps) && k < |ps|
  {
    && Applies(ps[k], c)
    && forall j | 0 <= j < |ps| && Applies(ps[j], c) ::
         !Outranks(ps[j], ps[k]) && (j < k ==> Outranks(ps[k], ps[j]))
  }

  ghost predicate SomeApplies(ps: seq<Policy>, c: SecurityContext) {
    exists k :: 0 <= k < |ps| && Applies(ps[k], c)
  }

  lemma BestDecides(ps: seq<Policy>, c: SecurityContext) returns (k: int)
    requires AllNamed(ps)
    ensures Matching(ps, c) == [] <==> !SomeApplies(ps, c)
    ensures Matching(ps, c) != [] ==> 0 <= k < |ps| && ps[k] == Best(Matching(ps, c)) && Decides(ps, c, k)
  {
    k := BestDecidesAmong(ps, On(c));
  }

  lemma OneDecides(ps: seq<Policy>, c: SecurityContext, j: nat, k: nat)
    requires AllNamed(ps) && j < |ps| && k < |ps| && Decides(ps, c, j) && Decides(ps, c, k)
    ensures j == k
  {}

  /** The evaluation is the default denial when nothing applies, and otherwise the result of
      the one policy that decides: the lexicographic maximum by severity, priority, position. */
  lemma EvaluationIsTheMaximum(ps: seq<Policy>, c: SecurityContext, k: nat)
    requires AllNamed(ps)
    ensures !SomeApplies(ps, c) ==> Evaluation(ps, c) == NO_MATCH
    ensures SomeApplies(ps, c) ==>
              exists i :: 0 <= i < |ps| && Decides(ps, c, i) && Evaluation(ps, c) == ResultOf(ps[i])
    ensures k < |ps| && Decides(ps, c, k) ==> Evaluation(ps, c) == ResultOf(ps[k])
  {
    var i := BestDecides(ps, c);
    if k < |ps| && Decides(ps, c, k) {
      assert SomeApplies(ps, c);
      OneDecides(ps, c, i, k);
    }
  }

  /** `PolicyEngine.evaluate`. */
  method Evaluate(ps: seq<Policy>, c: SecurityContext) returns (r: PolicyEvaluation)
    requires AllNamed(ps)
    ensures r == Evaluation(ps, c)
  {
    var matching: seq<Policy> := [];
    for i := 0 to |ps|
      invariant matching == Matching(ps[..i], c)
    {
      assert ps[..i + 1][..i] == ps[..i];
      if ps[i].enabled == Some(false) { continue; }
      if MatchesPolicy(c, ps[i].conditions) {
        matching := matching + [ps[i]];
      }
    }
    assert ps[..|ps|] == ps;
    if |matching| == 0 { return NO_MATCH; }
    if |matching| == 1 { return ResultOf(matching[0]); }
    return ResultOf(Best(matching));
  }

  // ---------------------------------------------------------------- laws

  lemma SameElements(ps: seq<Policy>, qs: seq<Policy>, p: Policy)
    requires multiset(ps) == multiset(qs)
    ensures p in ps <==> p in qs
  {
    assert p in ps <==> p in multiset(ps);
    assert p in qs <==> p in multiset(qs);
  }

  lemma SeverityIsInjective(a: Decision, b: Decision)
    requires Severity(a) == Severity(b)
    ensures a == b
  {}

  /** Two policies that both apply and neither of which outranks the other. */
  ghost predicate Tied(ps: seq<Policy>, c: SecurityContext, p: Policy, q: Policy)
    requires AllNamed(ps)
  {
    && p in ps && q in ps && p != q && Applies(p, c) && Applies(q, c)
    && !Outranks(p, q) && !Outranks(q, p)
  }

  /** The order of the list never changes the decision, and changes the deciding policy only
      among policies tied in severity and priority. */
  lemma OrderDoesNotDecide(ps: seq<Policy>, qs: seq<Policy>, c: SecurityContext)
    requires AllNamed(ps) && AllNamed(qs) && multiset(ps) == multiset(qs)
    ensures Evaluation(ps, c).decision == Evaluation(qs, c).decision
    ensures Evaluation(ps, c) == Evaluation(qs, c)
         || exists p, q :: Tied(ps, c, p, q) && Evaluation(ps, c) == ResultOf(p) && Evaluation(qs, c) == ResultOf(q)
  {
    var i := BestDecides(ps, c);
    var j := BestDecides(qs, c);
    if SomeApplies(ps, c) {
      SameElements(ps, qs, ps[i]);
      assert SomeApplies(qs, c);
      SameElements(ps, qs, qs[j]);
      var p, q := ps[i], qs[j];
      assert !Outranks(q, p) && !Outranks(p, q);
      SeverityIsInjective(Verdict(p), Verdict(q));
      if p != q {
        assert Tied(ps, c, p, q);
      }
    } else if SomeApplies(qs, c) {
      SameElements(ps, qs, qs[j]);
      assert false;
    }
  }

  /** Adding a policy, anywhere in the list: one that does not apply changes no decision, and
      one that does raises the severity to its own or leaves it, unless nothing applied
      before, when it decides alone. */
  lemma AddingAPolicy(ps: seq<Policy>, qs: seq<Policy>, p: Policy, c: SecurityContext)
    requires AllNamed(ps) && AllNamed(qs) && multiset(qs) == multiset(ps) + multiset{p}
    requires Named(p.decision).Some?
    ensures !Applies(p, c) ==> Evaluation(qs, c).decision == Evaluation(ps, c).decision
    ensures Applies(p, c) && !SomeApplies(ps, c) ==> Evaluation(qs, c) == ResultOf(p)
    ensures Applies(p, c) && SomeApplies(ps, c) ==>
              Severity(Evaluation(qs, c).decision) == Max(Severity(Verdict(p)), Severity(Evaluation(ps, c).decision))
  {
    assert multiset(ps + [p]) == multiset(qs);
    OrderDoesNotDecide(ps + [p], qs, c);
    EvaluationOfMore(ps, p, c);
    var k := BestDecides(ps, c);
    if Applies(p, c) && !SomeApplies(ps, c) {
      AloneHasNoTie(ps, p, c);
    }
  }

  lemma EvaluationOfMore(ps: seq<Policy>, p: Policy, c: SecurityContext)
    requires AllNamed(ps) && Named(p.decision).Some?
    ensures AllNamed(ps + [p])
    ensures var ms := Matching(ps, c);
            Evaluation(ps + [p], c)
              == if !Applies(p, c) then Evaluation(ps, c)
                 else if ms == [] || Outranks(p, Best(ms)) then ResultOf(p)
                 else ResultOf(Best(ms))
  {
    assert (ps + [p])[..|ps|] == ps;
    if Applies(p, c) {
      BestOfMore(Matching(ps, c), p);
    } else {
      assert Matching(ps + [p], c) == Matching(ps, c);
    }
  }

  lemma AloneHasNoTie(ps: seq<Policy>, p: Policy, c: SecurityContext)
    requires AllNamed(ps + [p]) && !SomeApplies(ps, c)
    ensures forall x, y :: !Tied(ps + [p], c, x, y)
  {
    forall x | x in ps + [p] && Applies(x, c) ensures x == p {}
  }

  function Max(a: int, b: int): int {
    if a < b then b else a
  }

  /** When something applies already, no further policy lowers the severity. */
  lemma AddingNeverWeakens(ps: seq<Policy>, qs: seq<Policy>, p: Policy, c: SecurityContext)
    requires AllNamed(ps) && AllNamed(qs) && multiset(qs) == multiset(ps) + multiset{p}
    requires Named(p.decision).Some?
    ensures SomeApplies(ps, c) ==> Severity(Evaluation(qs, c).decision) >= Severity(Evaluation(ps, c).decision)
    ensures Severity(Evaluation(qs, c).decision) < Severity(Evaluation(ps, c).decision)
       <==> !SomeApplies(ps, c) && Applies(p, c) && Verdict(p) != DENY
  {
    AddingAPolicy(ps, qs, p, c);
    var k := BestDecides(ps, c);
  }

  /** The set of policies that apply, not the list, settles what is decided. */
  lemma DenyWins(ps: seq<Policy>, c: SecurityContext)
    requires AllNamed(ps)
    ensures Evaluation(ps, c).decision == ALLOW <==>
              SomeApplies(ps, c) && forall i | 0 <= i < |ps| && Applies(ps[i], c) :: Verdict(ps[i]) == ALLOW
    ensures Evaluation(ps, c).decision == DENY <==>
              !SomeApplies(ps, c) || exists i :: 0 <= i < |ps| && Applies(ps[i], c) && Verdict(ps[i]) == DENY
  {
    var k := BestDecides(ps, c);
    if SomeApplies(ps, c) {
      forall i | 0 <= i < |ps| && Applies(ps[i], c) ensures Severity(Verdict(ps[i])) <= Severity(Verdict(ps[k])) {
        assert !Outranks(ps[i], ps[k]);
      }
    }
  }

  // ---------------------------------------------------------------- by the names in the policies

  /** White space and line ends as ECMA-262 lists them, in sections 12.2 and 12.3. */
  ghost function WhiteSpace(): set<CodeUnit> {
    { 0x09, 0x0A, 0x0B, 0x0C, 0x0D, 0x20, 0xA0, 0x1680, 0x2000, 0x2001, 0x2002, 0x2003, 0x2004, 0x2005, 0x2006,
      0x2007, 0x2008, 0x2009, 0x200A, 0x2028, 0x2029, 0x202F, 0x205F, 0x3000, 0xFEFF }
  }

  ghost predicate HasInk(t: Text) {
    exists i :: 0 <= i < |t| && t[i] !in WhiteSpace()
  }

  lemma BlankMeansNoInk(t: Text)
    ensures Blank(t) <==> !HasInk(t)
  {
    forall u: CodeUnit ensures IsSpace(u) <==> u in WhiteSpace() {}
  }

  /** One operator, and an array where it is `oneOf`. */
  ghost predicate HasOneOperator(constraint: Json) {
    && constraint.Obj?
    && ((exists v :: Carries(constraint, Ascii("equals"), v))
        <==> !(exists v :: Carries(constraint, Ascii("oneOf"), v)))
    && forall v | Carries(constraint, Ascii("oneOf"), v) :: v.Arr?
  }

  lemma ConstraintFaultExactly(m: Member)
    requires WellFormed(m.value)
    ensures ConstraintFault(m).None? <==> HasOneOperator(m.value)
  {
    FieldIsCarried(m.value, EQUALS);
    FieldIsCarried(m.value, ONE_OF);
    if m.value.Obj? {
      var e, o := Field(m.value, EQUALS), Field(m.value, ONE_OF);
      assert e.Some? ==> Carries(m.value, EQUALS, e.value);
      assert o.Some? ==> Carries(m.value, ONE_OF, o.value);
    }
  }

  ghost predicate GoodArguments(args: Json) {
    args.Obj? && forall i | 0 <= i < |args.members| :: HasOneOperator(args.members[i].value)
  }

  /** What validation asks of a policy, told by its own texts and members. */
  lemma GoodPolicyExactly(p: Policy)
    requires WellFormed(p.conditions)
    ensures GoodPolicy(p)
       <==> && HasInk(p.id) && HasInk(p.reason) && (exists d :: p.decision == NameOf(d)) && p.conditions.Obj?
            && forall args | Carries(p.conditions, Ascii("arguments"), args) :: GoodArguments(args)
  {
    BlankMeansNoInk(p.id);
    BlankMeansNoInk(p.reason);
    forall d ensures Named(p.decision) == Some(d) <==> p.decision == NameOf(d) { NamesMean(p.decision, d); }
    FieldIsCarried(p.conditions, ARGUMENTS);
    var args := Field(p.conditions, ARGUMENTS);
    if args.Some? && args.value.Obj? {
      forall i | 0 <= i < |args.value.members|
        ensures ConstraintFault(args.value.members[i]).None? <==> HasOneOperator(args.value.members[i].value)
      {
        ConstraintFaultExactly(args.value.members[i]);
      }
    }
  }

  /** What one member of a match wants of the context, by its name. */
  ghost predicate Wants(c: SecurityContext, m: Member) {
    && (m.key == Ascii("agent") ==> m.value == Str(c.agentId))
    && (m.key == Ascii("server") ==> m.value == Str(c.serverId))
    && (m.key == Ascii("method") ==> m.value == Str(c.rpcMethod))
    && (m.key == Ascii("tool") ==> c.toolName.Some? && m.value == Str(c.toolName.value))
    && (m.key == Ascii("arguments") ==> MeetsAll(c.toolArguments, m.value))
  }

  /** A policy applies exactly when it is not disabled and the context is what every member of
      its match wants. */
  lemma AppliesExactly(p: Policy, c: SecurityContext)
    requires p.conditions.Obj? && WellFormed(p.conditions)
    requires c.toolArguments.Some? ==> WellFormed(c.toolArguments.value)
    ensures Applies(p, c)
       <==> p.enabled != Some(false) && forall i | 0 <= i < |p.conditions.members| :: Wants(c, p.conditions.members[i])
  {
    var ms := p.conditions.members;
    MatchIsAConjunction(c, ms);
    forall i | 0 <= i < |ms| ensures Demands(c, ms[i]) <==> Wants(c, ms[i]) {
      ArgumentsMetExactly(ms[i].value, c.toolArguments);
    }
  }

  ghost predicate SomeNamed(ps: seq<Policy>, c: SecurityContext, decision: Text) {
    exists i :: 0 <= i < |ps| && Applies(ps[i], c) && ps[i].decision == decision
  }

  ghost predicate AllNamedThat(ps: seq<Policy>, c: SecurityContext, decision: Text) {
    forall i | 0 <= i < |ps| && Applies(ps[i], c) :: ps[i].decision == decision
  }

  /** What the names say: "DENY" wins over "REQUIRE_APPROVAL", and that over "ALLOW"; where
      nothing applies the answer is a denial. */
  ghost predicate NamesSay(ps: seq<Policy>, c: SecurityContext, d: Decision) {
    match d
    case DENY => !SomeApplies(ps, c) || SomeNamed(ps, c, Ascii("DENY"))
    case ALLOW => SomeApplies(ps, c) && AllNamedThat(ps, c, Ascii("ALLOW"))
    case REQUIRE_APPROVAL => SomeNamed(ps, c, Ascii("REQUIRE_APPROVAL")) && !SomeNamed(ps, c, Ascii("DENY"))
  }

  ghost function NameOf(d: Decision): Text {
    match d
    case DENY => Ascii("DENY")
    case ALLOW => Ascii("ALLOW")
    case REQUIRE_APPROVAL => Ascii("REQUIRE_APPROVAL")
  }

  /** The three names are known and no others, each for its own decision. */
  lemma NamesMean(name: Text, d: Decision)
    ensures Named(name) == Some(d) <==> name == NameOf(d)
  {
    assert |Ascii("DENY")| == 4 && |Ascii("ALLOW")| == 5 && |Ascii("REQUIRE_APPROVAL")| == 16;
  }

  /** The decision is exactly what the names in the policies that apply say. */
  lemma DecisionIsWhatTheNamesSay(ps: seq<Policy>, c: SecurityContext, d: Decision)
    requires AllNamed(ps)
    ensures Evaluation(ps, c).decision == d <==> NamesSay(ps, c, d)
  {
    DenyWins(ps, c);
    forall i, v | 0 <= i < |ps| ensures Verdict(ps[i]) == v <==> ps[i].decision == NameOf(v) {
      NamesMean(ps[i].decision, v);
    }
    assert NameOf(DENY) == Ascii("DENY") && NameOf(ALLOW) == Ascii("ALLOW");
  }

  /** Where something applies, the evaluation names a policy that applies, with its reason; none
      that applies and has the same decision has a higher priority (0 where none is given), and
      none of those listed before it has the same. Where nothing applies, it is the default. */
  lemma EvaluationNamesItsPolicy(ps: seq<Policy>, c: SecurityContext)
    requires AllNamed(ps)
    ensures !SomeApplies(ps, c) ==>
              Evaluation(ps, c) == PolicyEvaluation(DENY, None, Ascii("No matching policy"))
    ensures SomeApplies(ps, c) ==> exists k :: 0 <= k < |ps| && IsNamed(ps, c, k, Evaluation(ps, c))
  {
    var k := BestDecides(ps, c);
    if SomeApplies(ps, c) {
      assert IsNamed(ps, c, k, Evaluation(ps, c)) by {
        NamesMean(ps[k].decision, Verdict(ps[k]));
        forall j | 0 <= j < |ps| && Applies(ps[j], c) && ps[j].decision == ps[k].decision
          ensures StatedPriority(ps[j]) <= StatedPriority(ps[k])
          ensures j < k ==> StatedPriority(ps[j]) < StatedPriority(ps[k])
        {
          assert !Outranks(ps[j], ps[k]);
        }
      }
    }
  }

  ghost predicate IsNamed(ps: seq<Policy>, c: SecurityContext, k: nat, e: PolicyEvaluation)
    requires k < |ps|
  {
    && Applies(ps[k], c) && ps[k].decision == NameOf(e.decision)
    && e.policyId == Some(ps[k].id) && e.reason == ps[k].reason
    && forall j | 0 <= j < |ps| && Applies(ps[j], c) && ps[j].decision == ps[k].decision ::
         && StatedPriority(ps[j]) <= StatedPriority(ps[k])
         && (j < k ==> StatedPriority(ps[j]) < StatedPriority(ps[k]))
  }

  ghost function StatedPriority(p: Policy): int {
    match p.priority
    case Some(n) => n
    case None => 0
  }
}
