/** Enumerations and string constants of utc/core/constants.py. */
module Constants {
  import opened Common

  /** Decision outcomes; `Value` is the enum's string value. */
  datatype DecisionType = Allow | Deny | RequireApproval | PolicyChange
  {
    function Value(): string
    {
      match this
      case Allow => "ALLOW"
      case Deny => "DENY"
      case RequireApproval => "REQUIRE_APPROVAL"
      case PolicyChange => "POLICY_CHANGE"
    }
  }

  /** The two rule keys the system knows. */
  datatype RuleKey = WritesRequireApproval | ReadOnlyForRisky
  {
    function Value(): string
    {
      match this
      case WritesRequireApproval => "writes_require_approval"
      case ReadOnlyForRisky => "read_only_for_risky"
    }
  }

  const ActionPrefixWrite: string := "write:"

  /** Membership test `s in [d.value for d in DecisionType]`, returning the
      member whose value is `s`. */
  function ParseDecision(s: string): (r: Option<DecisionType>)
    ensures r.Some? ==> r.value.Value() == s
  {
    if s == "ALLOW" then Some(Allow)
    else if s == "DENY" then Some(Deny)
    else if s == "REQUIRE_APPROVAL" then Some(RequireApproval)
    else if s == "POLICY_CHANGE" then Some(PolicyChange)
    else None
  }

  /** Parsing fails exactly on a string that is no member's value. */
  lemma ParseDecisionNone(s: string)
    ensures ParseDecision(s).None? <==> forall d: DecisionType :: d.Value() != s
  {
  }

  /** Distinct enum members have distinct string values, so parsing a value
      gives back its member. */
  lemma ParseDecisionValue(d: DecisionType)
    ensures ParseDecision(d.Value()) == Some(d)
  {
  }
}
