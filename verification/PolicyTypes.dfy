module PolicyTypes {
  import opened Wrappers
  import opened Texts

  datatype Decision = ALLOW | DENY | REQUIRE_APPROVAL

  /** The outcome of evaluating a context; `policyId` is absent when no policy matched. */
  datatype PolicyEvaluation = PolicyEvaluation(decision: Decision, policyId: Option<Text>, reason: Text)

  function Severity(d: Decision): int {
    match d
    case DENY => 3
    case REQUIRE_APPROVAL => 2
    case ALLOW => 1
  }
}
