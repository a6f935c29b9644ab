/** The risk engine: findings, the level they imply, and the raised decision. */
module Risk {
  import opened Wrappers
  import opened Texts
  import opened PolicyTypes
  import opened Requests

  datatype RiskLevel = LOW | MEDIUM | HIGH | CRITICAL

  function RiskSeverity(l: RiskLevel): int {
    match l
    case LOW => 1
    case MEDIUM => 2
    case HIGH => 3
    case CRITICAL => 4
  }

  /** A named rule; a test that throws yields no answer. */
  datatype RiskRule = RiskRule(signal: Text, detail: Text, level: RiskLevel, test: SecurityContext -> Option<bool>)

  datatype RiskFinding = RiskFinding(signal: Text, detail: Text, level: RiskLevel)

  datatype RiskAssessment = RiskAssessment(
    level: RiskLevel, findings: seq<RiskFinding>, reason: Text, enhancedAudit: bool)

  /** What each level does to the decision; no decision means that it is inherited. */
  datatype RiskEngine = RiskEngine(
    baseline: RiskLevel, rules: seq<RiskRule>, mapping: RiskLevel -> Option<Decision>)

  function LevelName(l: RiskLevel): Text {
    match l
    case LOW => Ascii("LOW")
    case MEDIUM => Ascii("MEDIUM")
    case HIGH => Ascii("HIGH")
    case CRITICAL => Ascii("CRITICAL")
  }

  predicate Matches(rule: RiskRule, c: SecurityContext) {
    rule.test(c) == Some(true)
  }

  function FindingOf(rule: RiskRule): RiskFinding {
    RiskFinding(rule.signal, rule.detail, rule.level)
  }

  function Findings(rules: seq<RiskRule>, c: SecurityContext): seq<RiskFinding> {
    if rules == [] then []
    else
      var last := rules[|rules| - 1];
      Findings(rules[..|rules| - 1], c) + if Matches(last, c) then [FindingOf(last)] else []
  }

  /** The level after the findings have been taken in turn. */
  function Raised(baseline: RiskLevel, findings: seq<RiskFinding>): RiskLevel {
    if findings == [] then baseline
    else
      var level := Raised(baseline, findings[..|findings| - 1]);
      var next := findings[|findings| - 1].level;
      if RiskSeverity(next) > RiskSeverity(level) then next else level
  }

  function Described(findings: seq<RiskFinding>): Text {
    if findings == [] then []
    else
      var f := findings[0];
      f.signal + Ascii("=") + LevelName(f.level) + Ascii(" (") + f.detail + Ascii(")")
      + if |findings| == 1 then [] else Ascii("; ") + Described(findings[1..])
  }

  function Summary(baseline: RiskLevel, findings: seq<RiskFinding>): Text {
    if |findings| == 0 then Ascii("No risk rule matched; baseline ") + LevelName(baseline)
    else Described(findings)
  }

  function Assessment(e: RiskEngine, c: SecurityContext): RiskAssessment {
    var findings := Findings(e.rules, c);
    var level := Raised(e.baseline, findings);
    RiskAssessment(level, findings, Summary(e.baseline, findings), RiskSeverity(level) >= RiskSeverity(MEDIUM))
  }

  /** `RiskEngine.assess`. */
  method Assess(e: RiskEngine, c: SecurityContext) returns (a: RiskAssessment)
    ensures a == Assessment(e, c)
  {
    var findings: seq<RiskFinding> := [];
    for i := 0 to |e.rules|
      invariant findings == Findings(e.rules[..i], c)
    {
      var rule := e.rules[i];
      assert e.rules[..i + 1][..i] == e.rules[..i];
      var answer := rule.test(c);
      var matched := if answer.Some? then answer.value else false;
      if matched {
        findings := findings + [RiskFinding(rule.signal, rule.detail, rule.level)];
      }
    }
    assert e.rules[..|e.rules|] == e.rules;
    var level := e.baseline;
    for i := 0 to |findings|
      invariant level == Raised(e.baseline, findings[..i])
    {
      assert findings[..i + 1][..i] == findings[..i];
      if RiskSeverity(findings[i].level) > RiskSeverity(level) {
        level := findings[i].level;
      }
    }
    assert findings[..|findings|] == findings;
    a := RiskAssessment(
      level, findings, Summary(e.baseline, findings), RiskSeverity(level) >= RiskSeverity(MEDIUM));
  }

  /** `RiskEngine.apply`. */
  function Applied(e: RiskEngine, c: SecurityContext, evaluation: PolicyEvaluation): PolicyEvaluation {
    var assessment := Assessment(e, c);
    var mapped := e.mapping(assessment.level);
    if mapped.None? then evaluation
    else if Severity(mapped.value) <= Severity(evaluation.decision) then evaluation
    else
      PolicyEvaluation(
        mapped.value,
        evaluation.policyId,
        evaluation.reason + Ascii(" (risk ") + LevelName(assessment.level) + Ascii(": ") + assessment.reason
        + Ascii(")"))
  }

  // ---------------------------------------------------------------- laws

  /** The severity a level asks for; inheriting asks for no more than ALLOW does. */
  function MappedSeverity(mapping: RiskLevel -> Option<Decision>, l: RiskLevel): int {
    if mapping(l).Some? then Severity(mapping(l).value) else Severity(ALLOW)
  }

  ghost predicate IsHighest(baseline: RiskLevel, rules: seq<RiskRule>, c: SecurityContext, l: RiskLevel) {
    && RiskSeverity(baseline) <= RiskSeverity(l)
    && (forall i | 0 <= i < |rules| && Matches(rules[i], c) :: RiskSeverity(rules[i].level) <= RiskSeverity(l))
    && (l == baseline || exists i :: 0 <= i < |rules| && Matches(rules[i], c) && rules[i].level == l)
  }

  lemma {:induction false} RaisedIsTheHighest(baseline: RiskLevel, rules: seq<RiskRule>, c: SecurityContext)
    ensures IsHighest(baseline, rules, c, Raised(baseline, Findings(rules, c)))
  {
    if rules != [] {
      var n := |rules| - 1;
      var front, fs := rules[..n], Findings(rules[..n], c);
      RaisedIsTheHighest(baseline, front, c);
      if Matches(rules[n], c) {
        assert (fs + [FindingOf(rules[n])])[..|fs|] == fs;
      } else {
        assert Findings(rules, c) == fs;
      }
      assert forall i | 0 <= i < n :: front[i] == rules[i];
    }
  }

  /** The level is the highest of the baseline and the levels of all rules that match. */
  lemma LevelIsTheMaximum(e: RiskEngine, c: SecurityContext)
    ensures IsHighest(e.baseline, e.rules, c, Assessment(e, c).level)
    ensures forall l | IsHighest(e.baseline, e.rules, c, l) :: l == Assessment(e, c).level
  {
    RaisedIsTheHighest(e.baseline, e.rules, c);
  }

  /** The baseline has this level, or some rule of this level matches. */
  ghost predicate Present(e: RiskEngine, c: SecurityContext, l: RiskLevel) {
    e.baseline == l || exists i :: 0 <= i < |e.rules| && e.rules[i].test(c) == Some(true) && e.rules[i].level == l
  }

  /** Level by level: CRITICAL goes before HIGH, MEDIUM and LOW, and so on; what is at least
      MEDIUM asks for the enhanced audit. */
  lemma LevelByLevel(e: RiskEngine, c: SecurityContext)
    ensures var a := Assessment(e, c);
            && Present(e, c, a.level)
            && (a.level == CRITICAL <==> Present(e, c, CRITICAL))
            && (a.level == HIGH ==> !Present(e, c, CRITICAL))
            && (a.level == MEDIUM ==> !Present(e, c, CRITICAL) && !Present(e, c, HIGH))
            && (a.level == LOW ==> !Present(e, c, CRITICAL) && !Present(e, c, HIGH) && !Present(e, c, MEDIUM))
            && (a.enhancedAudit <==> Present(e, c, MEDIUM) || Present(e, c, HIGH) || Present(e, c, CRITICAL))
  {
    LevelIsTheMaximum(e, c);
    forall l | Present(e, c, l) ensures RiskSeverity(l) <= RiskSeverity(Assessment(e, c).level) {
      if l != e.baseline {
        var i :| 0 <= i < |e.rules| && e.rules[i].test(c) == Some(true) && e.rules[i].level == l;
        assert Matches(e.rules[i], c);
      }
    }
    var l := Assessment(e, c).level;
    if l != e.baseline {
      var i :| 0 <= i < |e.rules| && Matches(e.rules[i], c) && e.rules[i].level == l;
      assert Present(e, c, l);
    }
  }

  ghost predicate Ascending(at: seq<nat>) {
    forall i, j | 0 <= i < j < |at| :: at[i] < at[j]
  }

  /** The findings are those of the rules that answered yes, all of them and in their order. */
  lemma {:induction false} FindingsInOrder(rules: seq<RiskRule>, c: SecurityContext) returns (at: seq<nat>)
    ensures |at| == |Findings(rules, c)| && Ascending(at)
    ensures forall i | 0 <= i < |at| ::
              && at[i] < |rules| && rules[at[i]].test(c) == Some(true)
              && Findings(rules, c)[i] == RiskFinding(rules[at[i]].signal, rules[at[i]].detail, rules[at[i]].level)
    ensures forall k | 0 <= k < |rules| && rules[k].test(c) == Some(true) :: k in at
  {
    if rules == [] {
      at := [];
    } else {
      var n := |rules| - 1;
      at := FindingsInOrder(rules[..n], c);
      if rules[n].test(c) == Some(true) {
        var front := at;
        at := at + [n];
        assert forall k | k in front :: k in at;
        assert at[|at| - 1] == n;
      }
    }
  }

  ghost function Joined(parts: seq<Text>): Text {
    if |parts| <= 1 then if parts == [] then [] else parts[0]
    else parts[0] + Ascii("; ") + Joined(parts[1..])
  }

  ghost function LevelText(l: RiskLevel): Text {
    Ascii(match l case LOW => "LOW" case MEDIUM => "MEDIUM" case HIGH => "HIGH" case CRITICAL => "CRITICAL")
  }

  ghost function PartOf(f: RiskFinding): Text {
    f.signal + Ascii("=") + LevelText(f.level) + Ascii(" (") + f.detail + Ascii(")")
  }

  lemma {:induction false} DescribedInParts(fs: seq<RiskFinding>) returns (parts: seq<Text>)
    ensures |parts| == |fs| && forall i | 0 <= i < |fs| :: parts[i] == PartOf(fs[i])
    ensures Described(fs) == Joined(parts)
  {
    if fs == [] {
      parts := [];
    } else {
      var rest := DescribedInParts(fs[1..]);
      parts := [PartOf(fs[0])] + rest;
      assert parts[1..] == rest;
      if |fs| == 1 {
        assert PartOf(fs[0]) + [] == PartOf(fs[0]);
      } else {
        assert PartOf(fs[0]) + (Ascii("; ") + Joined(rest)) == PartOf(fs[0]) + Ascii("; ") + Joined(rest);
      }
    }
  }

  /** The reason: the findings one by one or, if there are none, the baseline. */
  lemma ReasonListsTheFindings(e: RiskEngine, c: SecurityContext) returns (parts: seq<Text>)
    ensures var a := Assessment(e, c);
            && a.findings == Findings(e.rules, c) && |parts| == |a.findings|
            && (forall i | 0 <= i < |parts| :: parts[i] == PartOf(a.findings[i]))
            && a.reason == if parts == [] then Ascii("No risk rule matched; baseline ") + LevelText(e.baseline)
                           else Joined(parts)
  {
    parts := DescribedInParts(Findings(e.rules, c));
  }

  /** The final severity is the larger of the policy's and the mapped one, so nothing is ever
      weakened; the deciding policy and the head of the reason are kept, and what is not raised
      is not touched. */
  lemma AppliedIsTheJoin(e: RiskEngine, c: SecurityContext, v: PolicyEvaluation)
    ensures var r := Applied(e, c, v);
            var wanted := MappedSeverity(e.mapping, Assessment(e, c).level);
            && Severity(r.decision) == (if wanted > Severity(v.decision) then wanted else Severity(v.decision))
            && r.policyId == v.policyId
            && (r.decision == v.decision ==> r == v)
            && (v.decision == DENY ==> r == v)
            && (r.decision != v.decision ==>
                  r.reason == v.reason + Ascii(" (risk ") + LevelText(Assessment(e, c).level) + Ascii(": ")
                              + Assessment(e, c).reason + Ascii(")"))
            && v.reason <= r.reason
  {}

  /** Applying the engine to its own outcome changes nothing. */
  lemma ApplyingTwiceIsApplyingOnce(e: RiskEngine, c: SecurityContext, v: PolicyEvaluation)
    ensures Applied(e, c, Applied(e, c, v)) == Applied(e, c, v)
  {
    AppliedIsTheJoin(e, c, v);
  }

  /** A higher level never maps to a weaker decision. */
  ghost predicate Monotone(mapping: RiskLevel -> Option<Decision>) {
    forall a, b | RiskSeverity(a) <= RiskSeverity(b) :: MappedSeverity(mapping, a) <= MappedSeverity(mapping, b)
  }

  /** `more` has at least the rules of `fewer`. */
  ghost predicate HasRulesOf(more: seq<RiskRule>, fewer: seq<RiskRule>) {
    forall i | 0 <= i < |fewer| :: fewer[i] in more
  }

  /** With `more` in place of `fewer` the outcome is at least as severe. */
  ghost predicate NoWeaker(
    mapping: RiskLevel -> Option<Decision>, baseline: RiskLevel, fewer: seq<RiskRule>, more: seq<RiskRule>,
    c: SecurityContext, v: PolicyEvaluation)
  {
    Severity(Applied(RiskEngine(baseline, fewer, mapping), c, v).decision)
    <= Severity(Applied(RiskEngine(baseline, more, mapping), c, v).decision)
  }

  /** For this mapping, rules that come in addition never weaken an outcome. */
  ghost predicate ExtraRulesNeverWeaken(mapping: RiskLevel -> Option<Decision>) {
    forall baseline: RiskLevel, fewer: seq<RiskRule>, more: seq<RiskRule>, c: SecurityContext, v: PolicyEvaluation
      | HasRulesOf(more, fewer) :: NoWeaker(mapping, baseline, fewer, more, c, v)
  }

  lemma LevelGrowsWithRules(e: RiskEngine, more: seq<RiskRule>, c: SecurityContext)
    requires HasRulesOf(more, e.rules)
    ensures RiskSeverity(Assessment(e, c).level) <= RiskSeverity(Assessment(e.(rules := more), c).level)
  {
    LevelIsTheMaximum(e, c);
    LevelIsTheMaximum(e.(rules := more), c);
    var l := Assessment(e, c).level;
    if l != e.baseline {
      var i :| 0 <= i < |e.rules| && Matches(e.rules[i], c) && e.rules[i].level == l;
      var j :| 0 <= j < |more| && more[j] == e.rules[i];
      assert Matches(more[j], c);
    }
  }

  lemma MonotoneIsEnough(
    mapping: RiskLevel -> Option<Decision>, baseline: RiskLevel, fewer: seq<RiskRule>, more: seq<RiskRule>,
    c: SecurityContext, v: PolicyEvaluation)
    requires Monotone(mapping) && HasRulesOf(more, fewer)
    ensures NoWeaker(mapping, baseline, fewer, more, c, v)
  {
    LevelGrowsWithRules(RiskEngine(baseline, fewer, mapping), more, c);
    AppliedIsTheJoin(RiskEngine(baseline, fewer, mapping), c, v);
    AppliedIsTheJoin(RiskEngine(baseline, more, mapping), c, v);
  }

  /** One rule more exposes two levels that are mapped out of order. */
  lemma OneMoreRule(mapping: RiskLevel -> Option<Decision>, c: SecurityContext, a: RiskLevel, b: RiskLevel)
    requires ExtraRulesNeverWeaken(mapping) && RiskSeverity(a) <= RiskSeverity(b)
    ensures MappedSeverity(mapping, a) <= MappedSeverity(mapping, b)
  {
    var rule := RiskRule([], [], b, (_: SecurityContext) => Some(true));
    var v := PolicyEvaluation(ALLOW, None, []);
    var fewer, more := RiskEngine(a, [], mapping), RiskEngine(a, [rule], mapping);
    assert Matches(more.rules[0], c);
    LevelIsTheMaximum(fewer, c);
    LevelIsTheMaximum(more, c);
    assert NoWeaker(mapping, a, [], [rule], c, v);
    AppliedIsTheJoin(fewer, c, v);
    AppliedIsTheJoin(more, c, v);
  }

  /** Extra rules never weaken an outcome exactly when the mapping is monotone. */
  lemma MonotoneMappingsNeverWeaken(mapping: RiskLevel -> Option<Decision>)
    ensures ExtraRulesNeverWeaken(mapping) <==> Monotone(mapping)
  {
    if Monotone(mapping) {
      forall baseline: RiskLevel, fewer: seq<RiskRule>, more: seq<RiskRule>, c: SecurityContext, v: PolicyEvaluation
        | HasRulesOf(more, fewer)
        ensures NoWeaker(mapping, baseline, fewer, more, c, v)
      {
        MonotoneIsEnough(mapping, baseline, fewer, more, c, v);
      }
    }
    if ExtraRulesNeverWeaken(mapping) {
      var c := SecurityContext(Json.Null, None, [], None, None, [], []);
      forall a, b | RiskSeverity(a) <= RiskSeverity(b)
        ensures MappedSeverity(mapping, a) <= MappedSeverity(mapping, b)
      {
        OneMoreRule(mapping, c, a, b);
      }
    }
  }

  function DefaultMapping(l: RiskLevel): Option<Decision> {
    match l
    case LOW => None
    case MEDIUM => None
    case HIGH => Some(REQUIRE_APPROVAL)
    case CRITICAL => Some(DENY)
  }

  lemma DefaultMappingNeverWeakens()
    ensures ExtraRulesNeverWeaken(DefaultMapping)
  {
    MonotoneMappingsNeverWeaken(DefaultMapping);
  }

  /** With the default mapping: a CRITICAL level denies, HIGH asks for approval at least, and the
      other levels leave the policy's decision. */
  lemma DefaultMappingOutcome(e: RiskEngine, c: SecurityContext, v: PolicyEvaluation)
    requires e.mapping == DefaultMapping
    ensures var l, d := Assessment(e, c).level, Applied(e, c, v).decision;
            && (d == DENY <==> v.decision == DENY || l == CRITICAL)
            && (d == ALLOW <==> v.decision == ALLOW && (l == LOW || l == MEDIUM))
  {}
}
