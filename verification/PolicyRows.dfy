/** Policies as rows: what storing a policy list and reading it back preserves. */
module PolicyRows {
  import opened Wrappers
  import opened Texts
  import opened Json
  import opened Requests
  import opened PolicyTypes
  import opened Policies
  import opened CanonicalEquality

  /** A row of the policies table. The match is a JSONB value, which may order keys anew. */
  datatype Row = Row(
    id: Text, decision: Text, conditions: Json, reason: Text, priority: int, enabled: bool)

  datatype RowError = UnknownDecision | MatchNotAnObject | FieldNotAString | BlankReason

  // ---------------------------------------------------------------- writing and reading a row

  /** `stored` is the form in which the column keeps the match. */
  function RowOf(p: Policy, stored: Json): Row {
    Row(p.id, p.decision, stored, p.reason, PriorityOf(p), p.enabled != Some(false))
  }

  /** An absent or null field is left out. */
  function Kept(conditions: Json, field: Text): seq<Member> {
    var v := Field(conditions, field);
    if v.None? || v.value.Null? then [] else [Member(field, v.value)]
  }

  function ReadConditions(raw: Json): Json {
    Obj(Kept(raw, AGENT) + Kept(raw, SERVER) + Kept(raw, METHOD) + Kept(raw, TOOL) + Kept(raw, ARGUMENTS))
  }

  predicate StringOrNull(raw: Json, field: Text) {
    var v := Field(raw, field);
    v.None? || v.value.Null? || v.value.Str?
  }

  predicate ReadableFields(raw: Json) {
    StringOrNull(raw, AGENT) && StringOrNull(raw, SERVER) && StringOrNull(raw, METHOD) && StringOrNull(raw, TOOL)
  }

  /** `toDomainPolicy`. */
  function ToDomainPolicy(row: Row): Result<Policy, RowError> {
    if Named(row.decision).None? then Err(RowError.UnknownDecision)
    else if !row.conditions.Obj? then Err(RowError.MatchNotAnObject)
    else if !ReadableFields(row.conditions) then Err(FieldNotAString)
    else if Blank(row.reason) then Err(RowError.BlankReason)
    else
      Ok(Policy(
        row.id, row.decision, ReadConditions(row.conditions), row.reason,
        if row.priority != 0 then Some(row.priority) else None,
        if row.enabled then None else Some(false)))
  }

  /** No field is null or anything but a string, as the admin route demands. */
  predicate StringFields(raw: Json) {
    ReadableFields(raw) && !HasNullField(raw)
  }

  predicate HasNullField(raw: Json) {
    Some(Null) in [Field(raw, AGENT), Field(raw, SERVER), Field(raw, METHOD), Field(raw, TOOL)]
  }

  // ---------------------------------------------------------------- matching and structural equality

  predicate SameOptional(a: Option<Json>, b: Option<Json>) {
    match (a, b)
    case (Some(x), Some(y)) => DeepEqual(x, y)
    case (None, None) => true
    case _ => false
  }

  ghost predicate WellFormedOption(v: Option<Json>) {
    v.Some? ==> WellFormed(v.value)
  }

  /** Structurally equal values have structurally equal properties. */
  lemma FieldsOfEquals(a: Json, b: Json, key: Text)
    requires WellFormed(a) && WellFormed(b) && DeepEqual(a, b)
    ensures SameOptional(Field(a, key), Field(b, key))
    ensures WellFormedOption(Field(a, key)) && WellFormedOption(Field(b, key))
  {
    if a.Obj? {
      PresentInBoth(a.members, b.members, key);
      DeepEqualIsAnEquivalence(a, b, a);
      PresentInBoth(b.members, a.members, key);
    }
    if Field(a, key).Some? { FieldOfWellFormed(a, key); }
    if Field(b, key).Some? { FieldOfWellFormed(b, key); }
  }

  lemma PresentInBoth(ms: seq<Member>, ns: seq<Member>, key: Text)
    requires DeepEqual(Obj(ms), Obj(ns))
    ensures Has(ms, key) ==> Has(ns, key) && DeepEqual(Get(ms, key), Get(ns, key))
  {
    if Has(ms, key) {
      var i :| 0 <= i < |ms| && ms[i].key == key;
      assert Keys(ms)[i] == key;
      assert key in multiset(SortKeys(Keys(ms)));
      var j :| 0 <= j < |SortKeys(Keys(ms))| && SortKeys(Keys(ms))[j] == key;
      assert SameEntry(ms, ns, j);
      SortedKeysPresent(ns, j);
    }
  }

  lemma EqualToEquals(v: Json, a: Json, b: Json)
    requires WellFormed(v) && WellFormed(a) && WellFormed(b) && DeepEqual(a, b)
    ensures DeepEqual(v, a) <==> DeepEqual(v, b)
  {
    DeepEqualIsAnEquivalence(v, a, b);
    DeepEqualIsAnEquivalence(a, b, a);
    DeepEqualIsAnEquivalence(v, b, a);
  }

  lemma ConstraintsOfEquals(v: Option<Json>, a: Json, b: Json)
    requires WellFormedOption(v) && WellFormed(a) && WellFormed(b) && DeepEqual(a, b)
    ensures MatchesConstraint(v, a) <==> MatchesConstraint(v, b)
  {
    FieldsOfEquals(a, b, EQUALS);
    FieldsOfEquals(a, b, ONE_OF);
    var ea, eb := Field(a, EQUALS), Field(b, EQUALS);
    var oa, ob := Field(a, ONE_OF), Field(b, ONE_OF);
    if v.Some? && ea.Some? {
      EqualToEquals(v.value, ea.value, eb.value);
    } else if v.Some? && oa.Some? && oa.value.Arr? {
      forall i | 0 <= i < |oa.value.items|
        ensures DeepEqual(v.value, oa.value.items[i]) <==> DeepEqual(v.value, ob.value.items[i])
      {
        EqualToEquals(v.value, oa.value.items[i], ob.value.items[i]);
      }
    }
  }

  lemma SameKind(a: Json, b: Json)
    requires DeepEqual(a, b)
    ensures (a.Obj? <==> b.Obj?) && (a.Arr? <==> b.Arr?)
  {}

  predicate SameShape(a: Option<Json>, b: Option<Json>) {
    (a.None? && b.None?) || (a.Some? && b.Some? && (a.value.Arr? <==> b.value.Arr?))
  }

  lemma FaultsOfSameShapes(a: Member, b: Member)
    requires a.value.Obj? <==> b.value.Obj?
    requires SameShape(Field(a.value, EQUALS), Field(b.value, EQUALS))
    requires SameShape(Field(a.value, ONE_OF), Field(b.value, ONE_OF))
    ensures ConstraintFault(a).None? <==> ConstraintFault(b).None?
  {}

  lemma ShapesOfEquals(a: Json, b: Json, key: Text)
    requires WellFormed(a) && WellFormed(b) && DeepEqual(a, b)
    ensures SameShape(Field(a, key), Field(b, key))
  {
    FieldsOfEquals(a, b, key);
    if Field(a, key).Some? { SameKind(Field(a, key).value, Field(b, key).value); }
  }

  lemma FaultsOfEquals(a: Member, b: Member)
    requires WellFormed(a.value) && WellFormed(b.value) && DeepEqual(a.value, b.value)
    ensures ConstraintFault(a).None? <==> ConstraintFault(b).None?
  {
    SameKind(a.value, b.value);
    ShapesOfEquals(a.value, b.value, EQUALS);
    ShapesOfEquals(a.value, b.value, ONE_OF);
    FaultsOfSameShapes(a, b);
  }

  lemma OneWayArguments(a: Json, b: Json, args: Json)
    requires WellFormed(a) && WellFormed(b) && DeepEqual(a, b) && WellFormed(args)
    requires MatchesArguments(a, args)
    ensures MatchesArguments(b, args)
  {
    forall i | 0 <= i < |b.members|
      ensures MatchesConstraint(Field(args, b.members[i].key), b.members[i].value)
    {
      var j := Partner(a.members, b.members, i);
      if Field(args, b.members[i].key).Some? { FieldOfWellFormed(args, b.members[i].key); }
      assert WellFormed(a.members[j].value) && WellFormed(b.members[i].value);
      ConstraintsOfEquals(Field(args, b.members[i].key), a.members[j].value, b.members[i].value);
    }
  }

  /** Every member of an equal object has a member of this one with its key and an equal value. */
  lemma Partner(ms: seq<Member>, ns: seq<Member>, i: nat) returns (j: nat)
    requires WellFormed(Obj(ms)) && WellFormed(Obj(ns)) && DeepEqual(Obj(ms), Obj(ns)) && i < |ns|
    ensures j < |ms| && ms[j].key == ns[i].key && DeepEqual(ms[j].value, ns[i].value)
  {
    DeepEqualIsAnEquivalence(Obj(ms), Obj(ns), Obj(ms));
    GetIsTheMember(ns, i);
    PresentInBoth(ns, ms, ns[i].key);
    FieldsOfEquals(Obj(ms), Obj(ns), ns[i].key);
    j :| 0 <= j < |ms| && ms[j] == Member(ns[i].key, Get(ms, ns[i].key));
  }

  lemma ArgumentsOfEquals(a: Json, b: Json, args: Json)
    requires WellFormed(a) && WellFormed(b) && DeepEqual(a, b) && WellFormed(args)
    ensures MatchesArguments(a, args) <==> MatchesArguments(b, args)
  {
    DeepEqualIsAnEquivalence(a, b, a);
    if MatchesArguments(a, args) { OneWayArguments(a, b, args); }
    if MatchesArguments(b, args) { OneWayArguments(b, a, args); }
  }

  lemma ValidArgumentsOfEquals(a: Json, b: Json)
    requires WellFormed(a) && WellFormed(b) && DeepEqual(a, b) && a.Obj?
    requires forall i | 0 <= i < |a.members| :: ConstraintFault(a.members[i]).None?
    ensures b.Obj? && forall i | 0 <= i < |b.members| :: ConstraintFault(b.members[i]).None?
  {
    forall i | 0 <= i < |b.members| ensures ConstraintFault(b.members[i]).None? {
      var j := Partner(a.members, b.members, i);
      assert WellFormed(a.members[j].value) && WellFormed(b.members[i].value);
      FaultsOfEquals(a.members[j], b.members[i]);
    }
  }

  // ---------------------------------------------------------------- a row read back

  predicate IsMatchField(field: Text) {
    field in [AGENT, SERVER, METHOD, TOOL, ARGUMENTS]
  }

  /** Looking for a field among the ones kept finds exactly that one. */
  lemma LookupKept(raw: Json, field: Text, key: Text)
    ensures Lookup(Kept(raw, field), key) == if field == key && Kept(raw, field) != [] then Field(raw, field) else None
    ensures Has(Kept(raw, field), key) <==> field == key && Kept(raw, field) != []
  {
    var k := Kept(raw, field);
    if k != [] { LookupStep(k, key); }
  }

  function WithoutNull(v: Option<Json>): Option<Json> {
    if v == Some(Null) then None else v
  }

  lemma FieldReadBack(raw: Json, key: Text)
    requires IsMatchField(key)
    ensures Field(ReadConditions(raw), key) == WithoutNull(Field(raw, key))
  {
    FieldNamesDiffer();
    var a, s, m, t, g := Kept(raw, AGENT), Kept(raw, SERVER), Kept(raw, METHOD), Kept(raw, TOOL), Kept(raw, ARGUMENTS);
    LookupConcat(a + s + m + t, g, key);
    LookupConcat(a + s + m, t, key);
    LookupConcat(a + s, m, key);
    LookupConcat(a, s, key);
    LookupKept(raw, AGENT, key);
    LookupKept(raw, SERVER, key);
    LookupKept(raw, METHOD, key);
    LookupKept(raw, TOOL, key);
    LookupKept(raw, ARGUMENTS, key);
  }

  lemma SameWithoutNull(a: Option<Json>, b: Option<Json>)
    requires SameOptional(a, b)
    ensures SameOptional(WithoutNull(a), WithoutNull(b))
  {}

  lemma SameField(a: Json, b: Json, key: Text, value: Option<Text>)
    requires SameOptional(Field(a, key), Field(b, key))
    ensures MatchesField(a, key, value) <==> MatchesField(b, key, value)
  {}

  /** Conditions whose five fields agree match the same contexts. */
  lemma SameFieldsMatchAlike(a: Json, b: Json, c: SecurityContext)
    requires forall key | IsMatchField(key) ::
               && SameOptional(Field(a, key), Field(b, key))
               && WellFormedOption(Field(a, key)) && WellFormedOption(Field(b, key))
    requires WellFormedOption(c.toolArguments)
    ensures MatchesPolicy(c, a) <==> MatchesPolicy(c, b)
  {
    assert IsMatchField(AGENT) && IsMatchField(SERVER) && IsMatchField(METHOD) && IsMatchField(TOOL)
           && IsMatchField(ARGUMENTS);
    SameField(a, b, AGENT, Some(c.agentId));
    SameField(a, b, SERVER, Some(c.serverId));
    SameField(a, b, METHOD, Some(c.rpcMethod));
    SameField(a, b, TOOL, c.toolName);
    if Field(a, ARGUMENTS).Some? && c.toolArguments.Some? {
      ArgumentsOfEquals(Field(a, ARGUMENTS).value, Field(b, ARGUMENTS).value, c.toolArguments.value);
    }
  }

  /** A row was written for the policy: the column keeps its match up to key order. */
  ghost predicate KeepsMatch(p: Policy, stored: Json) {
    WellFormed(p.conditions) && WellFormed(stored) && DeepEqual(p.conditions, stored)
  }

  /** The match that is read back differs from the one written by its null fields only. */
  lemma ReadBackMatches(p: Policy, stored: Json, c: SecurityContext)
    requires KeepsMatch(p, stored) && WellFormedOption(c.toolArguments)
    ensures MatchesPolicy(c, ReadConditions(stored)) <==> MatchesPolicy(c, ReadConditions(p.conditions))
  {
    forall key | IsMatchField(key)
      ensures SameOptional(Field(ReadConditions(stored), key), Field(ReadConditions(p.conditions), key))
      ensures WellFormedOption(Field(ReadConditions(stored), key))
      ensures WellFormedOption(Field(ReadConditions(p.conditions), key))
    {
      DeepEqualIsAnEquivalence(p.conditions, stored, stored);
      FieldsOfEquals(stored, p.conditions, key);
      FieldReadBack(stored, key);
      FieldReadBack(p.conditions, key);
      SameWithoutNull(Field(stored, key), Field(p.conditions, key));
    }
    SameFieldsMatchAlike(ReadConditions(stored), ReadConditions(p.conditions), c);
  }

  lemma NullIsNull(a: Option<Json>, b: Option<Json>)
    requires SameOptional(a, b)
    ensures a == Some(Null) <==> b == Some(Null)
    ensures (a.Some? && a.value.Str?) <==> (b.Some? && b.value.Str?)
  {}

  lemma ReadabilityOfEquals(a: Json, b: Json)
    requires WellFormed(a) && WellFormed(b) && DeepEqual(a, b)
    ensures ReadableFields(a) <==> ReadableFields(b)
  {
    FieldsOfEquals(a, b, AGENT);
    FieldsOfEquals(a, b, SERVER);
    FieldsOfEquals(a, b, METHOD);
    FieldsOfEquals(a, b, TOOL);
    NullIsNull(Field(a, AGENT), Field(b, AGENT));
    NullIsNull(Field(a, SERVER), Field(b, SERVER));
    NullIsNull(Field(a, METHOD), Field(b, METHOD));
    NullIsNull(Field(a, TOOL), Field(b, TOOL));
  }

  /** A null field matches nothing. */
  lemma NullFieldNeverMatches(conditions: Json, c: SecurityContext)
    requires HasNullField(conditions)
    ensures !MatchesPolicy(c, conditions)
  {}

  lemma EqualFieldsMatchAlike(a: Json, b: Json, c: SecurityContext)
    requires Field(a, AGENT) == Field(b, AGENT) && Field(a, SERVER) == Field(b, SERVER)
    requires Field(a, METHOD) == Field(b, METHOD) && Field(a, TOOL) == Field(b, TOOL)
    requires Field(a, ARGUMENTS) == Field(b, ARGUMENTS)
    ensures MatchesPolicy(c, a) <==> MatchesPolicy(c, b)
  {
    assert MatchesField(a, AGENT, Some(c.agentId)) <==> MatchesField(b, AGENT, Some(c.agentId));
    assert MatchesField(a, SERVER, Some(c.serverId)) <==> MatchesField(b, SERVER, Some(c.serverId));
    assert MatchesField(a, METHOD, Some(c.rpcMethod)) <==> MatchesField(b, METHOD, Some(c.rpcMethod));
    assert MatchesField(a, TOOL, c.toolName) <==> MatchesField(b, TOOL, c.toolName);
  }

  lemma NothingLeftOut(conditions: Json, c: SecurityContext)
    requires !HasNullField(conditions) && Field(conditions, ARGUMENTS) != Some(Null)
    ensures MatchesPolicy(c, ReadConditions(conditions)) <==> MatchesPolicy(c, conditions)
  {
    FieldReadBack(conditions, AGENT);
    FieldReadBack(conditions, SERVER);
    FieldReadBack(conditions, METHOD);
    FieldReadBack(conditions, TOOL);
    FieldReadBack(conditions, ARGUMENTS);
    EqualFieldsMatchAlike(ReadConditions(conditions), conditions, c);
  }

  lemma ReadBackArguments(p: Policy, stored: Json)
    requires ValidArguments(p.conditions) && KeepsMatch(p, stored)
    ensures ValidArguments(ReadConditions(stored))
  {
    FieldReadBack(stored, ARGUMENTS);
    FieldsOfEquals(p.conditions, stored, ARGUMENTS);
    if Field(stored, ARGUMENTS).Some? {
      ValidArgumentsOfEquals(Field(p.conditions, ARGUMENTS).value, Field(stored, ARGUMENTS).value);
    }
  }

  /** The two policies look the same and both pass the test or both fail it. */
  ghost predicate Alike(p: Policy, q: Policy, test: Policy -> bool) {
    && p.id == q.id && p.decision == q.decision && p.reason == q.reason && PriorityOf(p) == PriorityOf(q)
    && (test(p) <==> test(q))
  }

  /** A good policy can be read back exactly when no field is of a wrong type, and is then a
      good policy with the same name, decision, reason, priority and enabled flag. */
  lemma ReadBack(p: Policy, stored: Json)
    requires GoodPolicy(p) && KeepsMatch(p, stored)
    ensures var r := ToDomainPolicy(RowOf(p, stored));
            && (r.Ok? <==> ReadableFields(p.conditions))
            && (r.Ok? ==>
                  && GoodPolicy(r.value) && r.value.id == p.id && r.value.decision == p.decision
                  && r.value.reason == p.reason && PriorityOf(r.value) == PriorityOf(p)
                  && (r.value.enabled == Some(false) <==> p.enabled == Some(false)))
  {
    SameKind(p.conditions, stored);
    ReadabilityOfEquals(p.conditions, stored);
    ReadBackArguments(p, stored);
  }

  /** A policy that is read back applies exactly where the stored one would without its null
      fields. */
  lemma ReadBackApplies(p: Policy, stored: Json, c: SecurityContext)
    requires GoodPolicy(p) && KeepsMatch(p, stored) && ReadableFields(p.conditions)
    requires WellFormedOption(c.toolArguments)
    ensures var r := ToDomainPolicy(RowOf(p, stored)); r.Ok? && Alike(NullsDropped(p), r.value, On(c))
  {
    ReadBack(p, stored);
    ReadBackMatches(p, stored, c);
  }

  /** The policy as if its null fields had not been set. */
  function NullsDropped(p: Policy): Policy {
    p.(conditions := ReadConditions(p.conditions))
  }

  /** Dropping null fields lets an enabled policy apply that did not, and nothing else. */
  lemma DroppingNulls(p: Policy, c: SecurityContext)
    requires GoodPolicy(p)
    ensures Applies(NullsDropped(p), c) <==> Applies(p, c) || Widens(p, c)
  {
    if HasNullField(p.conditions) {
      NullFieldNeverMatches(p.conditions, c);
    } else {
      NothingLeftOut(p.conditions, c);
    }
  }

  /** The policy has a null field and applies to the context only without it. */
  predicate Widens(p: Policy, c: SecurityContext) {
    p.enabled != Some(false) && HasNullField(p.conditions) && MatchesPolicy(c, ReadConditions(p.conditions))
  }

  /** Storing and reading back keeps a policy's effect on a context exactly when the policy
      is disabled, or has no null field, or would not match even without its null fields. */
  lemma ReadBackIsAlike(p: Policy, stored: Json, c: SecurityContext)
    requires GoodPolicy(p) && KeepsMatch(p, stored) && ReadableFields(p.conditions)
    requires WellFormedOption(c.toolArguments)
    ensures var r := ToDomainPolicy(RowOf(p, stored));
            && r.Ok?
            && (Alike(p, r.value, On(c))
                <==> || p.enabled == Some(false) || !HasNullField(p.conditions)
                     || !MatchesPolicy(c, ReadConditions(p.conditions)))
  {
    ReadBackApplies(p, stored, c);
    DroppingNulls(p, c);
    if HasNullField(p.conditions) {
      NullFieldNeverMatches(p.conditions, c);
    }
  }

  /** An enabled ALLOW policy whose only condition is a null agent. */
  function NullAgentPolicy(): Policy {
    Policy(Ascii("p"), Ascii("ALLOW"), Obj([Member(AGENT, Null)]), Ascii("r"), None, None)
  }

  lemma NullAgentFields(key: Text)
    ensures Field(NullAgentPolicy().conditions, key) == if key == AGENT then Some(Null) else None
  {
    LookupStep(NullAgentPolicy().conditions.members, key);
  }

  lemma NullAgentPolicyIsGood()
    ensures var p := NullAgentPolicy();
            GoodPolicy(p) && HasNullField(p.conditions) && ReadableFields(p.conditions)
  {
    FieldNamesDiffer();
    NullAgentFields(AGENT);
    NullAgentFields(SERVER);
    NullAgentFields(METHOD);
    NullAgentFields(TOOL);
    NullAgentFields(ARGUMENTS);
    var p := NullAgentPolicy();
    assert p.id[0] == 'p' as int && p.reason[0] == 'r' as int;
  }

  /** Read back, the policy matches everything. */
  lemma NullAgentIsForgotten(stored: Json, c: SecurityContext)
    requires KeepsMatch(NullAgentPolicy(), stored) && WellFormedOption(c.toolArguments)
    ensures MatchesPolicy(c, ReadConditions(stored))
  {
    var p := NullAgentPolicy();
    FieldNamesDiffer();
    forall key | IsMatchField(key) ensures Field(ReadConditions(p.conditions), key).None? {
      NullAgentFields(key);
      FieldReadBack(p.conditions, key);
    }
    MatchesWithoutConditions(ReadConditions(p.conditions), c);
    ReadBackMatches(p, stored, c);
  }

  /** A valid policy that never matches, because a field is null, matches every request once
      it has been stored and read back, and the default denial becomes an allowance. */
  lemma NullFieldWidens(c: SecurityContext, stored: Json)
    ensures var p := NullAgentPolicy();
            KeepsMatch(p, stored) && WellFormedOption(c.toolArguments) ==>
              && ValidPolicies([p]) && Evaluation([p], c).decision == DENY
              && ToDomainPolicy(RowOf(p, stored)).Ok?
              && Evaluation([ToDomainPolicy(RowOf(p, stored)).value], c).decision == ALLOW
  {
    var p := NullAgentPolicy();
    if KeepsMatch(p, stored) && WellFormedOption(c.toolArguments) {
      NullAgentPolicyIsGood();
      ReadBack(p, stored);
      NullFieldNeverMatches(p.conditions, c);
      NullAgentIsForgotten(stored, c);
      OnlyPolicy(p, c);
      OnlyPolicy(ToDomainPolicy(RowOf(p, stored)).value, c);
    }
  }

  lemma MatchesWithoutConditions(conditions: Json, c: SecurityContext)
    requires forall key | IsMatchField(key) :: Field(conditions, key).None?
    ensures MatchesPolicy(c, conditions)
  {
    assert IsMatchField(AGENT) && IsMatchField(SERVER) && IsMatchField(METHOD) && IsMatchField(TOOL)
           && IsMatchField(ARGUMENTS);
  }

  lemma OnlyPolicy(p: Policy, c: SecurityContext)
    requires Named(p.decision).Some?
    ensures Evaluation([p], c) == if Applies(p, c) then ResultOf(p) else NO_MATCH
  {
    var k := BestDecides([p], c);
    assert [p][0] == p;
  }

  // ---------------------------------------------------------------- a table read back

  /** `INSERT … ON CONFLICT (id) DO UPDATE`. */
  function Upserted(rows: seq<Row>, row: Row): seq<Row> {
    if rows == [] then [row]
    else if rows[0].id == row.id then [row] + rows[1..]
    else [rows[0]] + Upserted(rows[1..], row)
  }

  function EnabledRows(rows: seq<Row>): seq<Row> {
    if rows == [] then []
    else (if rows[0].enabled then [rows[0]] else []) + EnabledRows(rows[1..])
  }

  function InsertRow(row: Row, rows: seq<Row>): (r: seq<Row>)
    ensures multiset(r) == multiset(rows) + multiset{row}
  {
    if rows == [] || AtMost(row.id, rows[0].id) then [row] + rows
    else
      assert rows == [rows[0]] + rows[1..];
      [rows[0]] + InsertRow(row, rows[1..])
  }

  /** `ORDER BY id`. */
  function SortedRows(rows: seq<Row>): (r: seq<Row>)
    ensures multiset(r) == multiset(rows)
  {
    if rows == [] then []
    else
      assert rows == [rows[0]] + rows[1..];
      InsertRow(rows[0], SortedRows(rows[1..]))
  }

  ghost predicate InIdOrder(rows: seq<Row>) {
    forall i, j | 0 <= i < j < |rows| :: AtMost(rows[i].id, rows[j].id)
  }

  lemma {:induction false} InsertRowKeepsOrder(row: Row, rows: seq<Row>)
    requires InIdOrder(rows)
    ensures InIdOrder(InsertRow(row, rows))
  {
    if rows == [] {
    } else if AtMost(row.id, rows[0].id) {
      forall j | 0 <= j < |rows| ensures AtMost(row.id, rows[j].id) {
        if j > 0 { AtMostTransitive(row.id, rows[0].id, rows[j].id); }
      }
    } else {
      AtMostTotal(row.id, rows[0].id);
      InsertRowKeepsOrder(row, rows[1..]);
      var r := InsertRow(row, rows[1..]);
      forall j | 0 <= j < |r| ensures AtMost(rows[0].id, r[j].id) {
        assert r[j] in multiset(r);
        assert r[j] == row || r[j] in rows[1..];
      }
    }
  }

  lemma {:induction false} SortedRowsAreInOrder(rows: seq<Row>)
    ensures InIdOrder(SortedRows(rows))
  {
    if rows != [] {
      SortedRowsAreInOrder(rows[1..]);
      InsertRowKeepsOrder(rows[0], SortedRows(rows[1..]));
    }
  }

  /** `map` with a function that may throw: the first error is thrown on. */
  function MapAll<A, B, E>(xs: seq<A>, f: A -> Result<B, E>): Result<seq<B>, E> {
    if xs == [] then Ok([])
    else
      var front := MapAll(xs[..|xs| - 1], f);
      var last := f(xs[|xs| - 1]);
      if front.Err? then front else if last.Err? then Err(last.error) else Ok(front.value + [last.value])
  }

  lemma {:induction false} MapAllElements<A, B, E>(xs: seq<A>, f: A -> Result<B, E>)
    ensures MapAll(xs, f).Ok? <==> forall i | 0 <= i < |xs| :: f(xs[i]).Ok?
    ensures MapAll(xs, f).Ok? ==>
              && |MapAll(xs, f).value| == |xs|
              && forall i | 0 <= i < |xs| :: f(xs[i]) == Ok(MapAll(xs, f).value[i])
  {
    if xs != [] {
      var n := |xs| - 1;
      MapAllElements(xs[..n], f);
      assert forall i | 0 <= i < n :: xs[..n][i] == xs[i];
      if MapAll(xs, f).Err? {
        assert !(forall i | 0 <= i < n :: f(xs[i]).Ok?) || f(xs[n]).Err?;
      }
    }
  }

  function ListEnabled(rows: seq<Row>): Result<seq<Policy>, RowError> {
    MapAll(SortedRows(EnabledRows(rows)), ToDomainPolicy)
  }

  ghost predicate UniqueIds(rows: seq<Row>) {
    forall i, j | 0 <= i < j < |rows| :: rows[i].id != rows[j].id
  }

  lemma {:induction false} EnabledRowsAre(rows: seq<Row>, row: Row)
    ensures row in EnabledRows(rows) <==> row in rows && row.enabled
  {
    if rows != [] {
      EnabledRowsAre(rows[1..], row);
      assert rows == [rows[0]] + rows[1..];
    }
  }

  lemma ListedRows(rows: seq<Row>, row: Row)
    ensures row in SortedRows(EnabledRows(rows)) <==> row in rows && row.enabled
  {
    EnabledRowsAre(rows, row);
    assert row in multiset(SortedRows(EnabledRows(rows))) <==> row in multiset(EnabledRows(rows));
  }

  /** The rows after the policies have been upserted one after the other into an empty table. */
  function StoredRows(ps: seq<Policy>, stored: seq<Json>): seq<Row>
    requires |stored| == |ps|
  {
    if ps == [] then []
    else
      var n := |ps| - 1;
      Upserted(StoredRows(ps[..n], stored[..n]), RowOf(ps[n], stored[n]))
  }

  lemma {:induction false} UpsertOfNewId(rows: seq<Row>, row: Row)
    requires forall i | 0 <= i < |rows| :: rows[i].id != row.id
    ensures Upserted(rows, row) == rows + [row]
  {
    if rows != [] {
      UpsertOfNewId(rows[1..], row);
      assert rows + [row] == [rows[0]] + (rows[1..] + [row]);
    }
  }

  lemma {:induction false} StoredRowsAre(ps: seq<Policy>, stored: seq<Json>)
    requires |stored| == |ps| && DistinctIds(ps)
    ensures |StoredRows(ps, stored)| == |ps|
    ensures forall i | 0 <= i < |ps| :: StoredRows(ps, stored)[i] == RowOf(ps[i], stored[i])
  {
    if ps != [] {
      var n := |ps| - 1;
      StoredRowsAre(ps[..n], stored[..n]);
      UpsertOfNewId(StoredRows(ps[..n], stored[..n]), RowOf(ps[n], stored[n]));
    }
  }

  // ---------------------------------------------------------------- the same decisions

  /** The policy at index i passes and no policy that passes outranks it. */
  ghost predicate IsBest(ps: seq<Policy>, test: Policy -> bool, i: nat)
    requires AllNamed(ps) && i < |ps|
  {
    test(ps[i]) && forall j | 0 <= j < |ps| && test(ps[j]) :: !Outranks(ps[j], ps[i])
  }

  /** No two policies are tied for the best. */
  ghost predicate NoTie(ps: seq<Policy>, test: Policy -> bool)
    requires AllNamed(ps)
  {
    forall i, j | 0 <= i < |ps| && 0 <= j < |ps| && IsBest(ps, test, i) && IsBest(ps, test, j) :: i == j
  }

  /** Severity first, then priority, then the smaller id. */
  ghost predicate NoWorse(p: Policy, q: Policy)
    requires Named(p.decision).Some? && Named(q.decision).Some?
  {
    !Outranks(q, p) && (!Outranks(p, q) ==> AtMost(p.id, q.id))
  }

  /** The policy at index i is the best one, with the least id among its equals. */
  ghost predicate IsLeastBest(ps: seq<Policy>, test: Policy -> bool, i: nat)
    requires AllNamed(ps) && i < |ps|
  {
    test(ps[i]) && forall j | 0 <= j < |ps| && test(ps[j]) :: NoWorse(ps[i], ps[j])
  }

  /** If the policy at index i passes, one of `qs` is alike. */
  ghost predicate HasPartner(ps: seq<Policy>, qs: seq<Policy>, test: Policy -> bool, i: int) {
    0 <= i < |ps| && test(ps[i]) ==> exists j :: 0 <= j < |qs| && Alike(ps[i], qs[j], test)
  }

  /** Each policy that passes on one side has a policy alike on the other. */
  ghost predicate Corresponds(ps: seq<Policy>, qs: seq<Policy>, test: Policy -> bool) {
    (forall i :: HasPartner(ps, qs, test, i)) && (forall j :: HasPartner(qs, ps, test, j))
  }

  ghost predicate PoliciesInIdOrder(ps: seq<Policy>) {
    forall i, j | 0 <= i < j < |ps| :: AtMost(ps[i].id, ps[j].id)
  }

  ghost predicate SomePasses(ps: seq<Policy>, test: Policy -> bool) {
    exists i :: 0 <= i < |ps| && test(ps[i])
  }

  lemma AlikeRanks(p: Policy, q: Policy, x: Policy, y: Policy, test: Policy -> bool)
    requires Alike(p, q, test) && Alike(x, y, test) && Named(p.decision).Some? && Named(x.decision).Some?
    ensures Outranks(p, x) <==> Outranks(q, y)
  {}

  /** The partner of the deciding policy is no worse than anything that passes. */
  lemma PartnerOfDeciding(ps: seq<Policy>, qs: seq<Policy>, test: Policy -> bool, k: nat, i: nat, j: nat)
    requires AllNamed(ps) && AllNamed(qs) && Corresponds(ps, qs, test) && PoliciesInIdOrder(qs)
    requires k < |qs| && DecidesAmong(qs, test, k) && i < |ps| && Alike(ps[i], qs[k], test)
    requires j < |ps| && test(ps[j])
    ensures NoWorse(ps[i], ps[j])
  {
    assert HasPartner(ps, qs, test, j);
    var m :| 0 <= m < |qs| && Alike(ps[j], qs[m], test);
    AlikeRanks(ps[j], qs[m], ps[i], qs[k], test);
    AlikeRanks(ps[i], qs[k], ps[j], qs[m], test);
    if m == k { AtMostReflexive(qs[k].id); }
  }

  lemma PartnerIsLeastBest(ps: seq<Policy>, qs: seq<Policy>, test: Policy -> bool, k: nat) returns (i: nat)
    requires AllNamed(ps) && AllNamed(qs) && Corresponds(ps, qs, test) && PoliciesInIdOrder(qs)
    requires k < |qs| && DecidesAmong(qs, test, k)
    ensures i < |ps| && IsLeastBest(ps, test, i) && ResultOf(ps[i]) == ResultOf(qs[k])
  {
    assert HasPartner(qs, ps, test, k);
    i :| 0 <= i < |ps| && Alike(qs[k], ps[i], test);
    forall j | 0 <= j < |ps| && test(ps[j]) ensures NoWorse(ps[i], ps[j]) {
      PartnerOfDeciding(ps, qs, test, k, i, j);
    }
  }

  lemma BothPass(ps: seq<Policy>, qs: seq<Policy>, test: Policy -> bool)
    requires Corresponds(ps, qs, test)
    ensures SomePasses(ps, test) <==> SomePasses(qs, test)
  {
    if a :| 0 <= a < |ps| && test(ps[a]) {
      assert HasPartner(ps, qs, test, a);
    }
    if b :| 0 <= b < |qs| && test(qs[b]) {
      assert HasPartner(qs, ps, test, b);
    }
  }

  /** The second list decides by the best policy of the first list that has the least id. */
  ghost predicate DecidesByLeastId(ps: seq<Policy>, qs: seq<Policy>, c: SecurityContext)
    requires AllNamed(ps) && AllNamed(qs)
  {
    if SomePasses(ps, On(c)) then
      exists i :: 0 <= i < |ps| && IsLeastBest(ps, On(c), i) && Evaluation(qs, c) == ResultOf(ps[i])
    else Evaluation(qs, c) == NO_MATCH
  }

  lemma AlikeListsDecideAlike(ps: seq<Policy>, qs: seq<Policy>, c: SecurityContext)
    requires AllNamed(ps) && AllNamed(qs) && Corresponds(ps, qs, On(c)) && PoliciesInIdOrder(qs)
    ensures DecidesByLeastId(ps, qs, c)
  {
    BothPass(ps, qs, On(c));
    var k := BestDecidesAmong(qs, On(c));
    if SomePasses(ps, On(c)) {
      var i := PartnerIsLeastBest(ps, qs, On(c), k);
    }
  }

  /** Two best policies decide the same. */
  lemma BestDecideTheSame(ps: seq<Policy>, test: Policy -> bool, i: nat, k: nat)
    requires AllNamed(ps) && i < |ps| && k < |ps| && IsLeastBest(ps, test, i) && DecidesAmong(ps, test, k)
    ensures Verdict(ps[i]) == Verdict(ps[k]) && IsBest(ps, test, i) && IsBest(ps, test, k)
  {
    forall j | 0 <= j < |ps| && test(ps[j]) ensures !Outranks(ps[j], ps[i]) {
      assert NoWorse(ps[i], ps[j]);
    }
    SeverityIsInjective(Verdict(ps[i]), Verdict(ps[k]));
  }

  lemma BestDecideAlike(ps: seq<Policy>, qs: seq<Policy>, c: SecurityContext)
    requires AllNamed(ps) && AllNamed(qs) && DecidesByLeastId(ps, qs, c)
    ensures Evaluation(qs, c).decision == Evaluation(ps, c).decision
    ensures NoTie(ps, On(c)) ==> Evaluation(qs, c) == Evaluation(ps, c)
  {
    var k := BestDecidesAmong(ps, On(c));
    if SomePasses(ps, On(c)) {
      var i :| 0 <= i < |ps| && IsLeastBest(ps, On(c), i) && Evaluation(qs, c) == ResultOf(ps[i]);
      BestDecideTheSame(ps, On(c), i, k);
    }
  }

  /** A list of policies was written row by row. */
  ghost predicate Stores(ps: seq<Policy>, stored: seq<Json>) {
    ValidPolicies(ps) && |stored| == |ps| && forall i | 0 <= i < |ps| :: KeepsMatch(ps[i], stored[i])
  }

  lemma {:induction false} InsertRowKeepsUnique(row: Row, rows: seq<Row>)
    requires UniqueIds(rows) && forall i | 0 <= i < |rows| :: rows[i].id != row.id
    ensures UniqueIds(InsertRow(row, rows))
  {
    if rows != [] && !AtMost(row.id, rows[0].id) {
      InsertRowKeepsUnique(row, rows[1..]);
      var r := InsertRow(row, rows[1..]);
      forall j | 0 <= j < |r| ensures rows[0].id != r[j].id {
        assert r[j] in multiset(r);
        assert r[j] == row || r[j] in rows[1..];
      }
    }
  }

  lemma {:induction false} SortedRowsAreUnique(rows: seq<Row>)
    requires UniqueIds(rows)
    ensures UniqueIds(SortedRows(rows))
  {
    if rows != [] {
      SortedRowsAreUnique(rows[1..]);
      var r := SortedRows(rows[1..]);
      forall i | 0 <= i < |r| ensures r[i].id != rows[0].id {
        assert r[i] in multiset(rows[1..]);
      }
      InsertRowKeepsUnique(rows[0], r);
    }
  }

  lemma {:induction false} EnabledRowsAreUnique(rows: seq<Row>)
    requires UniqueIds(rows)
    ensures UniqueIds(EnabledRows(rows))
  {
    if rows != [] {
      EnabledRowsAreUnique(rows[1..]);
      forall i | 0 <= i < |EnabledRows(rows[1..])| ensures EnabledRows(rows[1..])[i].id != rows[0].id {
        EnabledRowsAre(rows[1..], EnabledRows(rows[1..])[i]);
      }
    }
  }

  /** The i-th policy is enabled and this is its row. */
  ghost predicate IsRowOf(ps: seq<Policy>, stored: seq<Json>, row: Row, i: int)
    requires |stored| == |ps|
  {
    0 <= i < |ps| && ps[i].enabled != Some(false) && row == RowOf(ps[i], stored[i])
  }

  ghost predicate HasPolicy(ps: seq<Policy>, stored: seq<Json>, rows: seq<Row>, k: nat)
    requires |stored| == |ps| && k < |rows|
  {
    exists i :: IsRowOf(ps, stored, rows[k], i)
  }

  ghost predicate HasRow(ps: seq<Policy>, stored: seq<Json>, rows: seq<Row>, i: nat)
    requires |stored| == |ps| && i < |ps|
  {
    ps[i].enabled != Some(false) ==> exists k :: 0 <= k < |rows| && IsRowOf(ps, stored, rows[k], i)
  }

  /** The rows are those of the enabled policies. */
  ghost predicate ListsEnabled(ps: seq<Policy>, stored: seq<Json>, rows: seq<Row>)
    requires |stored| == |ps|
  {
    && (forall k | 0 <= k < |rows| :: HasPolicy(ps, stored, rows, k))
    && (forall i | 0 <= i < |ps| :: HasRow(ps, stored, rows, i))
  }

  lemma ListedRowsAreUnique(ps: seq<Policy>, stored: seq<Json>)
    requires DistinctIds(ps) && |stored| == |ps|
    ensures var enabled := SortedRows(EnabledRows(StoredRows(ps, stored)));
            InIdOrder(enabled) && UniqueIds(enabled)
  {
    var rows := StoredRows(ps, stored);
    StoredRowsAre(ps, stored);
    assert UniqueIds(rows);
    EnabledRowsAreUnique(rows);
    SortedRowsAreUnique(EnabledRows(rows));
    SortedRowsAreInOrder(EnabledRows(rows));
  }

  lemma EnabledRowsAreListed(ps: seq<Policy>, stored: seq<Json>)
    requires DistinctIds(ps) && |stored| == |ps|
    ensures ListsEnabled(ps, stored, SortedRows(EnabledRows(StoredRows(ps, stored))))
  {
    var enabled := SortedRows(EnabledRows(StoredRows(ps, stored)));
    forall k | 0 <= k < |enabled| ensures HasPolicy(ps, stored, enabled, k) {
      var i := PolicyOfRow(ps, stored, enabled[k]);
    }
    forall i | 0 <= i < |ps| ensures HasRow(ps, stored, enabled, i) {
      if ps[i].enabled != Some(false) {
        var k := RowOfPolicy(ps, stored, i);
      }
    }
  }

  lemma PolicyOfRow(ps: seq<Policy>, stored: seq<Json>, row: Row) returns (i: nat)
    requires DistinctIds(ps) && |stored| == |ps| && row in SortedRows(EnabledRows(StoredRows(ps, stored)))
    ensures IsRowOf(ps, stored, row, i)
  {
    ListedRows(StoredRows(ps, stored), row);
    StoredRowsAre(ps, stored);
    i :| 0 <= i < |ps| && StoredRows(ps, stored)[i] == row;
  }

  lemma RowOfPolicy(ps: seq<Policy>, stored: seq<Json>, i: nat) returns (k: nat)
    requires DistinctIds(ps) && |stored| == |ps| && i < |ps| && ps[i].enabled != Some(false)
    ensures var enabled := SortedRows(EnabledRows(StoredRows(ps, stored)));
            k < |enabled| && IsRowOf(ps, stored, enabled[k], i)
  {
    var rows := StoredRows(ps, stored);
    StoredRowsAre(ps, stored);
    ListedRows(rows, rows[i]);
    k :| 0 <= k < |SortedRows(EnabledRows(rows))| && SortedRows(EnabledRows(rows))[k] == rows[i];
  }

  /** What reading the listed rows yields, row by row. */
  ghost predicate ReadsTo(rows: seq<Row>, qs: seq<Policy>) {
    |qs| == |rows| && forall k | 0 <= k < |rows| :: ToDomainPolicy(rows[k]) == Ok(qs[k])
  }

  lemma ReadPoliciesAreValid(ps: seq<Policy>, stored: seq<Json>, rows: seq<Row>, qs: seq<Policy>)
    requires Stores(ps, stored) && ListsEnabled(ps, stored, rows) && ReadsTo(rows, qs)
    requires InIdOrder(rows) && UniqueIds(rows)
    ensures ValidPolicies(qs) && PoliciesInIdOrder(qs)
  {
    forall k | 0 <= k < |qs| ensures GoodPolicy(qs[k]) && qs[k].id == rows[k].id {
      assert HasPolicy(ps, stored, rows, k);
      var i :| IsRowOf(ps, stored, rows[k], i);
      ReadBack(ps[i], stored[i]);
    }
  }

  /** The stored list can be read back exactly when every enabled policy has readable fields;
      it is then a valid list in the order of ids, from which an engine can be built. */
  lemma ListingIsValid(ps: seq<Policy>, stored: seq<Json>)
    requires Stores(ps, stored)
    ensures var listed := ListEnabled(StoredRows(ps, stored));
            && (listed.Ok? <==> forall i | 0 <= i < |ps| && ps[i].enabled != Some(false) ::
                                  ReadableFields(ps[i].conditions))
            && (listed.Ok? ==> ValidPolicies(listed.value) && PoliciesInIdOrder(listed.value))
  {
    var rows := SortedRows(EnabledRows(StoredRows(ps, stored)));
    EnabledRowsAreListed(ps, stored);
    MapAllElements(rows, ToDomainPolicy);
    ReadableRows(ps, stored, rows);
    ListedRowsAreUnique(ps, stored);
    if ListEnabled(StoredRows(ps, stored)).Ok? {
      ReadPoliciesAreValid(ps, stored, rows, ListEnabled(StoredRows(ps, stored)).value);
    }
  }

  lemma ReadableRows(ps: seq<Policy>, stored: seq<Json>, rows: seq<Row>)
    requires Stores(ps, stored) && ListsEnabled(ps, stored, rows)
    ensures (forall k | 0 <= k < |rows| :: ToDomainPolicy(rows[k]).Ok?)
       <==> (forall i | 0 <= i < |ps| && ps[i].enabled != Some(false) :: ReadableFields(ps[i].conditions))
  {
    forall i | 0 <= i < |ps| ensures ToDomainPolicy(RowOf(ps[i], stored[i])).Ok? <==> ReadableFields(ps[i].conditions) {
      ReadBack(ps[i], stored[i]);
    }
    if k :| 0 <= k < |rows| && !ToDomainPolicy(rows[k]).Ok? {
      assert HasPolicy(ps, stored, rows, k);
      var i :| IsRowOf(ps, stored, rows[k], i);
      assert !ReadableFields(ps[i].conditions);
    } else {
      forall i | 0 <= i < |ps| && ps[i].enabled != Some(false) ensures ReadableFields(ps[i].conditions) {
        assert HasRow(ps, stored, rows, i);
        var k :| 0 <= k < |rows| && IsRowOf(ps, stored, rows[k], i);
        assert ToDomainPolicy(rows[k]).Ok?;
      }
    }
  }

  function AllNullsDropped(ps: seq<Policy>): (r: seq<Policy>)
    ensures |r| == |ps| && forall i | 0 <= i < |ps| :: r[i] == NullsDropped(ps[i])
  {
    seq(|ps|, i requires 0 <= i < |ps| => NullsDropped(ps[i]))
  }

  lemma ReadPoliciesCorrespond(
    ps: seq<Policy>, stored: seq<Json>, rows: seq<Row>, qs: seq<Policy>, c: SecurityContext)
    requires Stores(ps, stored) && ListsEnabled(ps, stored, rows) && ReadsTo(rows, qs)
    requires forall i | 0 <= i < |ps| && ps[i].enabled != Some(false) :: ReadableFields(ps[i].conditions)
    requires WellFormedOption(c.toolArguments)
    ensures Corresponds(AllNullsDropped(ps), qs, On(c))
  {
    var ds := AllNullsDropped(ps);
    forall i ensures HasPartner(ds, qs, On(c), i) {
      if 0 <= i < |ds| && On(c)(ds[i]) {
        assert HasRow(ps, stored, rows, i);
        var k :| 0 <= k < |rows| && IsRowOf(ps, stored, rows[k], i);
        ReadBackApplies(ps[i], stored[i], c);
        assert Alike(ds[i], qs[k], On(c));
      }
    }
    forall j ensures HasPartner(qs, ds, On(c), j) {
      if 0 <= j < |qs| && On(c)(qs[j]) {
        assert HasPolicy(ps, stored, rows, j);
        var i :| IsRowOf(ps, stored, rows[j], i);
        ReadBackApplies(ps[i], stored[i], c);
        assert Alike(qs[j], ds[i], On(c));
      }
    }
  }

  /** A valid list whose enabled policies can be read is stored and read back with the decision
      that the list without its null fields makes on every context, and the same evaluation
      except that among policies tied in severity and priority the least id decides. */
  lemma StoringDropsNulls(ps: seq<Policy>, stored: seq<Json>, c: SecurityContext)
    requires Stores(ps, stored) && WellFormedOption(c.toolArguments)
    requires forall i | 0 <= i < |ps| && ps[i].enabled != Some(false) :: ReadableFields(ps[i].conditions)
    ensures var listed, ds := ListEnabled(StoredRows(ps, stored)), AllNullsDropped(ps);
            && listed.Ok? && ValidPolicies(listed.value) && AllNamed(ds)
            && DecidesByLeastId(ds, listed.value, c)
            && Evaluation(listed.value, c).decision == Evaluation(ds, c).decision
            && (NoTie(ds, On(c)) ==> Evaluation(listed.value, c) == Evaluation(ds, c))
  {
    var rows, ds := SortedRows(EnabledRows(StoredRows(ps, stored))), AllNullsDropped(ps);
    EnabledRowsAreListed(ps, stored);
    MapAllElements(rows, ToDomainPolicy);
    ListingIsValid(ps, stored);
    var qs := ListEnabled(StoredRows(ps, stored)).value;
    assert AllNamed(ds) by { assert forall i | 0 <= i < |ps| :: GoodPolicy(ps[i]); }
    ReadPoliciesCorrespond(ps, stored, rows, qs, c);
    AlikeListsDecideAlike(ds, qs, c);
    BestDecideAlike(ds, qs, c);
  }

  /** The same policies but for their matches, which apply alike. */
  ghost predicate SameButForMatches(ps: seq<Policy>, qs: seq<Policy>, c: SecurityContext) {
    |ps| == |qs| && forall i | 0 <= i < |ps| :: Alike(ps[i], qs[i], On(c))
  }

  lemma AlikeIsLeastBestAlike(ps: seq<Policy>, qs: seq<Policy>, c: SecurityContext, i: nat)
    requires AllNamed(ps) && AllNamed(qs) && SameButForMatches(ps, qs, c) && i < |ps|
    ensures IsLeastBest(ps, On(c), i) <==> IsLeastBest(qs, On(c), i)
  {
    assert Alike(ps[i], qs[i], On(c));
    forall j | 0 <= j < |ps| ensures NoWorse(ps[i], ps[j]) <==> NoWorse(qs[i], qs[j]) {
      assert Alike(ps[j], qs[j], On(c));
    }
    assert forall j | 0 <= j < |ps| :: On(c)(ps[j]) <==> On(c)(qs[j]);
  }

  lemma AlikeDecideByLeastId(ps: seq<Policy>, ds: seq<Policy>, qs: seq<Policy>, c: SecurityContext)
    requires AllNamed(ps) && AllNamed(ds) && AllNamed(qs) && SameButForMatches(ps, ds, c)
    requires DecidesByLeastId(ds, qs, c)
    ensures DecidesByLeastId(ps, qs, c)
  {
    if i :| 0 <= i < |ps| && On(c)(ps[i]) {
      assert Alike(ps[i], ds[i], On(c));
    }
    if i :| 0 <= i < |ds| && On(c)(ds[i]) {
      assert Alike(ps[i], ds[i], On(c));
      var k :| 0 <= k < |ds| && IsLeastBest(ds, On(c), k) && Evaluation(qs, c) == ResultOf(ds[k]);
      AlikeIsLeastBestAlike(ps, ds, c, k);
      assert Alike(ps[k], ds[k], On(c));
    }
  }

  lemma NoNullsToDrop(ps: seq<Policy>, c: SecurityContext)
    requires forall i | 0 <= i < |ps| :: GoodPolicy(ps[i])
    requires forall i | 0 <= i < |ps| && ps[i].enabled != Some(false) :: StringFields(ps[i].conditions)
    ensures SameButForMatches(ps, AllNullsDropped(ps), c)
  {
    forall i | 0 <= i < |ps| ensures Alike(ps[i], AllNullsDropped(ps)[i], On(c)) {
      DroppingNulls(ps[i], c);
    }
  }

  /** A valid list whose enabled policies set no field to null or to anything but a string is
      stored and read back with the same decision on every context, and the same evaluation
      except that among policies tied in severity and priority the least id decides. */
  lemma StoringKeepsDecisions(ps: seq<Policy>, stored: seq<Json>, c: SecurityContext)
    requires Stores(ps, stored) && WellFormedOption(c.toolArguments)
    requires forall i | 0 <= i < |ps| && ps[i].enabled != Some(false) :: StringFields(ps[i].conditions)
    ensures var listed := ListEnabled(StoredRows(ps, stored));
            && listed.Ok? && ValidPolicies(listed.value)
            && DecidesByLeastId(ps, listed.value, c)
            && Evaluation(listed.value, c).decision == Evaluation(ps, c).decision
            && (NoTie(ps, On(c)) ==> Evaluation(listed.value, c) == Evaluation(ps, c))
  {
    var ds := AllNullsDropped(ps);
    StoringDropsNulls(ps, stored, c);
    NoNullsToDrop(ps, c);
    var qs := ListEnabled(StoredRows(ps, stored)).value;
    AlikeDecideByLeastId(ps, ds, qs, c);
    BestDecideAlike(ps, qs, c);
  }

  // ---------------------------------------------------------------- exactly which decisions are kept

  function SeverityOf(p: Policy): int
    requires Named(p.decision).Some?
  {
    Severity(Verdict(p))
  }

  /** What decides is as severe as anything that applies, and nothing is more severe than it. */
  lemma DecisionIsTheMostSevere(ps: seq<Policy>, c: SecurityContext)
    requires AllNamed(ps) && SomeApplies(ps, c)
    ensures forall i | 0 <= i < |ps| && Applies(ps[i], c) :: SeverityOf(ps[i]) <= Severity(Evaluation(ps, c).decision)
    ensures exists i :: 0 <= i < |ps| && Applies(ps[i], c) && Verdict(ps[i]) == Evaluation(ps, c).decision
  {
    var k := BestDecides(ps, c);
    forall i | 0 <= i < |ps| && Applies(ps[i], c) ensures SeverityOf(ps[i]) <= SeverityOf(ps[k]) {
      assert !Outranks(ps[i], ps[k]);
    }
  }

  /** The policies that storing lets apply cannot be seen in the decision: they are no more
      severe than it or, where nothing applied before, there are none or one denies. */
  ghost predicate WideningIsHarmless(ps: seq<Policy>, c: SecurityContext)
    requires AllNamed(ps)
  {
    if SomeApplies(ps, c) then
      forall i | 0 <= i < |ps| && Widens(ps[i], c) :: SeverityOf(ps[i]) <= Severity(Evaluation(ps, c).decision)
    else
      || (forall i | 0 <= i < |ps| :: !Widens(ps[i], c))
      || exists i :: 0 <= i < |ps| && Widens(ps[i], c) && Verdict(ps[i]) == DENY
  }

  lemma DroppingKeepsTheDecisionExactly(ps: seq<Policy>, ds: seq<Policy>, c: SecurityContext)
    requires AllNamed(ps) && AllNamed(ds) && |ds| == |ps|
    requires forall i | 0 <= i < |ps| ::
               ds[i].decision == ps[i].decision && (Applies(ds[i], c) <==> Applies(ps[i], c) || Widens(ps[i], c))
    ensures Evaluation(ds, c).decision == Evaluation(ps, c).decision <==> WideningIsHarmless(ps, c)
  {
    if SomeApplies(ps, c) {
      DroppingWhereSomeApply(ps, ds, c);
    } else {
      DroppingWhereNoneApply(ps, ds, c);
    }
  }

  lemma DroppingWhereSomeApply(ps: seq<Policy>, ds: seq<Policy>, c: SecurityContext)
    requires AllNamed(ps) && AllNamed(ds) && |ds| == |ps| && SomeApplies(ps, c)
    requires forall i | 0 <= i < |ps| ::
               ds[i].decision == ps[i].decision && (Applies(ds[i], c) <==> Applies(ps[i], c) || Widens(ps[i], c))
    ensures Evaluation(ds, c).decision == Evaluation(ps, c).decision <==> WideningIsHarmless(ps, c)
  {
    DecisionIsTheMostSevere(ps, c);
    var k :| 0 <= k < |ps| && Applies(ps[k], c) && Verdict(ps[k]) == Evaluation(ps, c).decision;
    assert Applies(ds[k], c);
    DecisionIsTheMostSevere(ds, c);
    var m :| 0 <= m < |ds| && Applies(ds[m], c) && Verdict(ds[m]) == Evaluation(ds, c).decision;
    assert SeverityOf(ds[k]) <= Severity(Evaluation(ds, c).decision);
    if WideningIsHarmless(ps, c) {
      assert SeverityOf(ps[m]) <= Severity(Evaluation(ps, c).decision);
      SeverityIsInjective(Evaluation(ds, c).decision, Evaluation(ps, c).decision);
    } else {
      var i :| 0 <= i < |ps| && Widens(ps[i], c) && SeverityOf(ps[i]) > Severity(Evaluation(ps, c).decision);
      assert Applies(ds[i], c) && SeverityOf(ds[i]) == SeverityOf(ps[i]);
    }
  }

  lemma DroppingWhereNoneApply(ps: seq<Policy>, ds: seq<Policy>, c: SecurityContext)
    requires AllNamed(ps) && AllNamed(ds) && |ds| == |ps| && !SomeApplies(ps, c)
    requires forall i | 0 <= i < |ps| ::
               ds[i].decision == ps[i].decision && (Applies(ds[i], c) <==> Applies(ps[i], c) || Widens(ps[i], c))
    ensures Evaluation(ds, c).decision == Evaluation(ps, c).decision <==> WideningIsHarmless(ps, c)
  {
    DenyWins(ps, c);
    DenyWins(ds, c);
    if i :| 0 <= i < |ps| && Widens(ps[i], c) {
      assert Applies(ds[i], c);
    }
    if i :| 0 <= i < |ps| && Widens(ps[i], c) && Verdict(ps[i]) == DENY {
      assert Applies(ds[i], c) && Verdict(ds[i]) == DENY;
    }
  }

  /** For any valid list that can be read back, null fields or not: storing it keeps the decision
      on a context exactly when widening is harmless there. */
  lemma StoringKeepsTheDecisionExactly(ps: seq<Policy>, stored: seq<Json>, c: SecurityContext)
    requires Stores(ps, stored) && WellFormedOption(c.toolArguments)
    requires forall i | 0 <= i < |ps| && ps[i].enabled != Some(false) :: ReadableFields(ps[i].conditions)
    ensures AllNamed(ps) && ListEnabled(StoredRows(ps, stored)).Ok?
    ensures AllNamed(ListEnabled(StoredRows(ps, stored)).value)
    ensures Evaluation(ListEnabled(StoredRows(ps, stored)).value, c).decision == Evaluation(ps, c).decision
       <==> WideningIsHarmless(ps, c)
  {
    var ds := AllNullsDropped(ps);
    StoringDropsNulls(ps, stored, c);
    forall i | 0 <= i < |ps| ensures Applies(ds[i], c) <==> Applies(ps[i], c) || Widens(ps[i], c) {
      DroppingNulls(ps[i], c);
    }
    DroppingKeepsTheDecisionExactly(ps, ds, c);
  }

  // ---------------------------------------------------------------- the repository

  /** An upsert leaves one row per id: the new one, and all others as they were. */
  lemma {:induction false} UpsertReplaces(rows: seq<Row>, row: Row, x: Row)
    requires UniqueIds(rows)
    ensures UniqueIds(Upserted(rows, row))
    ensures x in Upserted(rows, row) <==> x == row || (x in rows && x.id != row.id)
  {
    if rows != [] {
      var rest := rows[1..];
      assert rows == [rows[0]] + rest;
      forall k | 0 <= k < |Upserted(rest, row)|
        ensures rows[0].id != row.id ==> Upserted(rest, row)[k].id != rows[0].id
      {
        UpsertReplaces(rest, row, Upserted(rest, row)[k]);
      }
      UpsertReplaces(rest, row, x);
    }
  }

  function WithEnabled(rows: seq<Row>, id: Text, enabled: bool): seq<Row> {
    if rows == [] then []
    else
      [if rows[0].id == id then rows[0].(enabled := enabled) else rows[0]] + WithEnabled(rows[1..], id, enabled)
  }

  function Without(rows: seq<Row>, id: Text): seq<Row> {
    if rows == [] then []
    else (if rows[0].id == id then [] else [rows[0]]) + Without(rows[1..], id)
  }

  predicate HasId(rows: seq<Row>, id: Text) {
    exists i | 0 <= i < |rows| :: rows[i].id == id
  }

  /** Disabling a policy takes exactly its row out of the listing, and so does removing it. */
  lemma {:induction false} DisablingIsRemovingFromTheListing(rows: seq<Row>, id: Text)
    ensures EnabledRows(WithEnabled(rows, id, false)) == EnabledRows(Without(rows, id))
  {
    if rows != [] {
      DisablingIsRemovingFromTheListing(rows[1..], id);
      assert WithEnabled(rows, id, false)[1..] == WithEnabled(rows[1..], id, false);
      assert Without(rows, id) == (if rows[0].id == id then [] else [rows[0]]) + Without(rows[1..], id);
      if rows[0].id == id {
        assert Without(rows, id) == Without(rows[1..], id);
      } else {
        assert Without(rows, id)[1..] == Without(rows[1..], id);
      }
    }
  }

  /** Switching a policy on or off changes the flag of its row and nothing else. */
  lemma {:induction false} SwitchedExactly(rows: seq<Row>, id: Text, enabled: bool, i: nat)
    requires i < |rows|
    ensures |WithEnabled(rows, id, enabled)| == |rows|
    ensures var r := rows[i];
            WithEnabled(rows, id, enabled)[i]
            == if r.id == id then Row(r.id, r.decision, r.conditions, r.reason, r.priority, enabled) else r
  {
    if |rows| > 1 { SwitchedExactly(rows[1..], id, enabled, if i == 0 then 0 else i - 1); }
  }

  /** Removing a policy takes out its row and no other. */
  lemma {:induction false} RemovedExactly(rows: seq<Row>, id: Text, x: Row)
    ensures x in Without(rows, id) <==> x in rows && x.id != id
  {
    if rows != [] {
      RemovedExactly(rows[1..], id, x);
      assert rows == [rows[0]] + rows[1..];
    }
  }

  class PgPolicyRepository {
    var rows: seq<Row>

    constructor ()
      ensures rows == [] && UniqueIds(rows)
    {
      rows := [];
    }

    /** Throws on an unknown decision; `stored` is what the JSONB column makes of the match. */
    method Upsert(p: Policy, stored: Json) returns (ok: bool)
      requires UniqueIds(rows) && KeepsMatch(p, stored)
      modifies this
      ensures UniqueIds(rows) && ok == Named(p.decision).Some?
      ensures rows == if ok then Upserted(old(rows), RowOf(p, stored)) else old(rows)
    {
      if Named(p.decision).None? { return false; }
      UpsertReplaces(rows, RowOf(p, stored), RowOf(p, stored));
      rows := Upserted(rows, RowOf(p, stored));
      return true;
    }

    method SetEnabled(id: Text, enabled: bool) returns (found: bool)
      modifies this
      ensures found == HasId(old(rows), id)
      ensures rows == WithEnabled(old(rows), id, enabled)
    {
      found := HasId(rows, id);
      rows := WithEnabled(rows, id, enabled);
    }

    method Remove(id: Text) returns (found: bool)
      modifies this
      ensures found == HasId(old(rows), id)
      ensures rows == Without(old(rows), id)
    {
      found := HasId(rows, id);
      rows := Without(rows, id);
    }

    /** Upserts a whole list, one policy after the other, into the empty table. */
    method UpsertAll(ps: seq<Policy>, stored: seq<Json>)
      requires rows == [] && Stores(ps, stored)
      modifies this
      ensures rows == StoredRows(ps, stored) && UniqueIds(rows)
    {
      assert ps[..0] == [] && stored[..0] == [];
      for i := 0 to |ps|
        invariant rows == StoredRows(ps[..i], stored[..i]) && UniqueIds(rows)
      {
        assert ps[..i + 1][..i] == ps[..i] && stored[..i + 1][..i] == stored[..i];
        var ok := Upsert(ps[i], stored[i]);
      }
      assert ps[..|ps|] == ps && stored[..|ps|] == stored;
    }
  }
}
