/** What reading any row of the policies table yields, told by the row's columns. */
module RowReading {
  import opened Wrappers
  import opened Texts
  import opened Json
  import opened Requests
  import opened Policies
  import opened PolicyRows

  ghost predicate NamesDecision(row: Row) {
    row.decision == Ascii("ALLOW") || row.decision == Ascii("DENY") || row.decision == Ascii("REQUIRE_APPROVAL")
  }

  ghost predicate IsTextOrNull(raw: Json, key: Text) {
    forall v | Carries(raw, key, v) :: v.Null? || v.Str?
  }

  ghost predicate FieldsAreTexts(raw: Json) {
    && IsTextOrNull(raw, Ascii("agent")) && IsTextOrNull(raw, Ascii("server"))
    && IsTextOrNull(raw, Ascii("method")) && IsTextOrNull(raw, Ascii("tool"))
  }

  ghost predicate IsReadKey(key: Text) {
    || key == Ascii("agent") || key == Ascii("server") || key == Ascii("method")
    || key == Ascii("tool") || key == Ascii("arguments")
  }

  /** The match that is read has the five fields as they are in the column, where they are there
      and not null, and nothing else. */
  ghost predicate ReadsFields(raw: Json, read: Json) {
    read.Obj? && forall key, v :: Carries(read, key, v) <==> IsReadKey(key) && Carries(raw, key, v) && v != Null
  }

  lemma TextOrNullExactly(raw: Json, key: Text)
    requires WellFormed(raw)
    ensures StringOrNull(raw, key) <==> IsTextOrNull(raw, key)
  {
    FieldIsCarried(raw, key);
    var v := Field(raw, key);
    if v.Some? { assert Carries(raw, key, v.value); }
  }

  lemma KeptExactly(raw: Json, field: Text, m: Member)
    requires WellFormed(raw)
    ensures m in Kept(raw, field) <==> m.key == field && Carries(raw, field, m.value) && m.value != Null
  {
    FieldIsCarried(raw, field);
  }

  lemma FieldsReadExactly(raw: Json)
    requires WellFormed(raw)
    ensures ReadsFields(raw, ReadConditions(raw))
  {
    forall key, v
      ensures Carries(ReadConditions(raw), key, v) <==> IsReadKey(key) && Carries(raw, key, v) && v != Null
    {
      var m := Member(key, v);
      KeptExactly(raw, Ascii("agent"), m);
      KeptExactly(raw, Ascii("server"), m);
      KeptExactly(raw, Ascii("method"), m);
      KeptExactly(raw, Ascii("tool"), m);
      KeptExactly(raw, Ascii("arguments"), m);
      assert m in ReadConditions(raw).members <==>
               || m in Kept(raw, AGENT) || m in Kept(raw, SERVER) || m in Kept(raw, METHOD)
               || m in Kept(raw, TOOL) || m in Kept(raw, ARGUMENTS);
    }
  }

  lemma NamedExactly(row: Row)
    ensures Named(row.decision).Some? <==> NamesDecision(row)
  {}

  /** A row is refused for its decision, its match, a field of it or its reason, in this order,
      and is otherwise the policy with the row's columns: priority 0 is left out, and so is the
      flag of an enabled policy. */
  lemma RowReadExactly(row: Row)
    requires WellFormed(row.conditions)
    ensures match ToDomainPolicy(row)
            case Err(UnknownDecision) => !NamesDecision(row)
            case Err(MatchNotAnObject) => NamesDecision(row) && !row.conditions.Obj?
            case Err(FieldNotAString) => NamesDecision(row) && row.conditions.Obj? && !FieldsAreTexts(row.conditions)
            case Err(BlankReason) =>
              NamesDecision(row) && row.conditions.Obj? && FieldsAreTexts(row.conditions) && !HasInk(row.reason)
            case Ok(p) =>
              && NamesDecision(row) && row.conditions.Obj? && FieldsAreTexts(row.conditions) && HasInk(row.reason)
              && p.id == row.id && p.decision == row.decision && p.reason == row.reason
              && ReadsFields(row.conditions, p.conditions)
              && (p.priority == Some(row.priority) || (p.priority == None && row.priority == 0))
              && p.priority != Some(0)
              && p.enabled == if row.enabled then None else Some(false)
  {
    NamedExactly(row);
    BlankMeansNoInk(row.reason);
    TextOrNullExactly(row.conditions, Ascii("agent"));
    TextOrNullExactly(row.conditions, Ascii("server"));
    TextOrNullExactly(row.conditions, Ascii("method"));
    TextOrNullExactly(row.conditions, Ascii("tool"));
    FieldsReadExactly(row.conditions);
  }
}
