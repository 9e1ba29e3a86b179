/** The rules service (utc/services/rules.py) over the rules and receipts
    tables: reading rule states, setting and toggling a rule with a
    POLICY_CHANGE audit receipt, and the first-match decision for an
    action. */
module RulesServiceModel {
  import opened Common
  import opened Constants
  import opened Text
  import opened Codec
  import opened Ordering
  import opened RuleModel
  import opened ReceiptModel

  /** The dictionary `evaluate_rules_for_action` returns. */
  datatype Evaluation = Evaluation(decision: DecisionType, rules: seq<string>, reason: string)

  /** The values the source reads from the clock and the UUID generator
      while writing a policy-change receipt: the receipt id, the two
      `datetime.now(UTC).isoformat()` calls (payload hash, then meta) and
      the server-side creation time. */
  datatype Stamp = Stamp(receiptId: string, hashTime: string, metaTime: string, createdAt: int)

  /** `action.startswith("write:")` */
  predicate IsWrite(action: string)
  {
    StartsWith(action, ActionPrefixWrite)
  }

  /** Strictness of a decision: allow, then approval, then deny. */
  function Strictness(d: DecisionType): nat
  {
    match d
    case Allow => 0
    case RequireApproval => 1
    case Deny => 2
    case PolicyChange => 3
  }

  /** The early-return chain of `evaluate_rules_for_action`, given the
      states of `read_only_for_risky` and `writes_require_approval`. */
  function Decide(action: string, readOnlyForRisky: bool, writesRequireApproval: bool): (r: Evaluation)
    ensures !IsWrite(action) ==> r == Evaluation(Allow, [], "No restrictive policies active")
    ensures IsWrite(action) && readOnlyForRisky ==>
              r.decision == Deny && r.rules == [ReadOnlyForRisky.Value()]
    ensures IsWrite(action) && !readOnlyForRisky && writesRequireApproval ==>
              r.decision == RequireApproval && r.rules == [WritesRequireApproval.Value()]
    ensures !readOnlyForRisky && !writesRequireApproval ==> r.decision == Allow
    ensures r.decision != PolicyChange && |r.rules| <= 1
    ensures r.decision == Allow <==> r.rules == []
  {
    if IsWrite(action) && readOnlyForRisky then
      Evaluation(Deny, [ReadOnlyForRisky.Value()], "Read-only mode active for risky units")
    else if IsWrite(action) && writesRequireApproval then
      Evaluation(RequireApproval, [WritesRequireApproval.Value()], "Approval required for writes")
    else
      Evaluation(Allow, [], "No restrictive policies active")
  }

  /** Switching a rule on never makes the decision for an action less
      strict. */
  lemma DecideMonotone(action: string, ro: bool, wa: bool, ro': bool, wa': bool)
    requires (ro ==> ro') && (wa ==> wa')
    ensures Strictness(Decide(action, ro, wa).decision) <= Strictness(Decide(action, ro', wa').decision)
  {
  }

  /** The reason text of a policy-change receipt. */
  function PolicyChangeReason(key: string, oldState: bool, newState: bool): string
  {
    "Policy changed: " + key + " " + (if newState then "enabled" else "disabled")
    + " (was " + (if oldState then "enabled" else "disabled") + ")"
  }

  /** The metadata object of a policy-change receipt. */
  function PolicyChangeMeta(key: string, oldState: bool, newState: bool, changedBy: string, changedAt: string): Meta
  {
    map["rule_key" := MetaText(key), "old_state" := MetaBool(oldState), "new_state" := MetaBool(newState),
        "changed_by" := MetaText(changedBy), "changed_at" := MetaText(changedAt)]
  }

  /** `rc` is the receipt `_create_policy_change_receipt` writes. */
  ghost predicate IsPolicyChangeReceipt(rc: Receipt, key: string, oldState: bool, newState: bool,
                                        changedBy: string, stamp: Stamp)
    reads rc
  {
    && rc.Valid() && rc.IsPolicyChange()
    && rc.id == stamp.receiptId
    && rc.subject == changedBy
    && rc.action == "policy_change:" + key
    && rc.Rules() == [key]
    && rc.reason == PolicyChangeReason(key, oldState, newState)
    && rc.payloadHash == "sha256:policy-change-" + key + "-" + stamp.hashTime
    && rc.Meta() == PolicyChangeMeta(key, oldState, newState, changedBy, stamp.metaTime)
    && rc.signature.None?
    && rc.createdAt == stamp.createdAt
  }

  class RulesService {
    /** The rows of the rules table; the service changes their values but
        never adds or removes a row. */
    const rules: seq<Rule>
    /** The rows of the receipts table, in insertion order. */
    var receipts: seq<Receipt>

    ghost predicate Valid()
      reads this, rules
    {
      && UniqueKeys(rules)
      && (forall i :: 0 <= i < |rules| ==> rules[i].Valid())
      && (forall i :: 0 <= i < |receipts| ==> receipts[i].Valid())
    }

    /** The state `seed_rules` leaves: both rules present and OFF, and no
        receipts. */
    constructor Seeded()
      ensures Valid() && fresh(rules) && receipts == []
      ensures |rules| == 2
      ensures rules[0].key == WritesRequireApproval.Value() && rules[1].key == ReadOnlyForRisky.Value()
      ensures Values(rules) == [0, 0]
      ensures !IsRuleEnabled(WritesRequireApproval.Value()) && !IsRuleEnabled(ReadOnlyForRisky.Value())
    {
      assert !IsSpace(WritesRequireApproval.Value()[0]) && !IsSpace(ReadOnlyForRisky.Value()[0]);
      var approval := new Rule(WritesRequireApproval.Value(), 0);
      var readOnly := new Rule(ReadOnlyForRisky.Value(), 0);
      assert |approval.key| != |readOnly.key|;
      rules := [approval, readOnly];
      receipts := [];
      new;
      assert FindRule(rules, ReadOnlyForRisky.Value()) == Some(1);
    }

    /** `get_rule` */
    function GetRule(key: string): (r: Option<Rule>)
      ensures r.Some? ==> r.value in rules && r.value.key == key
      ensures r.None? <==> forall i :: 0 <= i < |rules| ==> rules[i].key != key
    {
      match FindRule(rules, key)
      case Some(i) => Some(rules[i])
      case None => None
    }

    /** `is_rule_enabled`: a missing rule counts as disabled. */
    function IsRuleEnabled(key: string): (r: bool)
      reads rules
      ensures r ==> exists i :: 0 <= i < |rules| && rules[i].key == key && rules[i].value == 1
      ensures GetRule(key).None? ==> !r
      ensures GetRule(key).Some? ==> (r <==> GetRule(key).value.value == 1)
    {
      RuleModel.IsRuleEnabled(rules, key)
    }

    /** `get_all_rules`: every rule, ordered by key. */
    function GetAllRules(): (r: seq<Rule>)
      ensures multiset(r) == multiset(rules)
      ensures forall i, j :: 0 <= i < j < |r| ==> LexLe(r[i].key, r[j].key)
    {
      var key := (x: Rule) => x.key;
      LexLeIsTotalPreorder();
      var r := SortBy(rules, key, LexLe);
      assert SortedBy(r, key, LexLe);
      r
    }

    /** `get_rules_dict`: each rule key mapped to its state. */
    function GetRulesDict(): (r: map<string, bool>)
      requires Valid()
      reads this, rules
      ensures forall k :: k in r <==> GetRule(k).Some?
      ensures forall k :: k in r ==> r[k] == IsRuleEnabled(k)
    {
      map k | k in (set i | 0 <= i < |rules| :: rules[i].key) :: IsRuleEnabled(k)
    }

    /** `evaluate_rules_for_action`: the decision chain over the current
        rule states; the load on the unit plays no part. */
    function EvaluateRulesForAction(action: string): (r: Evaluation)
      reads rules
      ensures !IsWrite(action) ==> r.decision == Allow && r.rules == []
      ensures IsWrite(action) && IsRuleEnabled(ReadOnlyForRisky.Value()) ==>
                r.decision == Deny && r.rules == [ReadOnlyForRisky.Value()]
      ensures IsWrite(action) && !IsRuleEnabled(ReadOnlyForRisky.Value())
              && IsRuleEnabled(WritesRequireApproval.Value()) ==>
                r.decision == RequireApproval && r.rules == [WritesRequireApproval.Value()]
      ensures !IsRuleEnabled(ReadOnlyForRisky.Value()) && !IsRuleEnabled(WritesRequireApproval.Value()) ==>
                r.decision == Allow && r.rules == []
      ensures r.decision != PolicyChange && |r.rules| <= 1
    {
      Decide(action, IsRuleEnabled(ReadOnlyForRisky.Value()), IsRuleEnabled(WritesRequireApproval.Value()))
    }

    /** `_create_policy_change_receipt`: appends one POLICY_CHANGE receipt. */
    method CreatePolicyChangeReceipt(key: string, oldState: bool, newState: bool, changedBy: string,
                                     stamp: Stamp)
      returns (rc: Receipt)
      requires Valid()
      modifies this
      ensures Valid()
      ensures fresh(rc) && receipts == old(receipts) + [rc]
      ensures IsPolicyChangeReceipt(rc, key, oldState, newState, changedBy, stamp)
    {
      ParseDecisionValue(PolicyChange);
      var made := NewReceipt(None, stamp.receiptId, changedBy, "policy_change:" + key,
                             Some(PolicyChange.Value()), Some([key]), PolicyChangeReason(key, oldState, newState),
                             "sha256:policy-change-" + key + "-" + stamp.hashTime,
                             Some(PolicyChangeMeta(key, oldState, newState, changedBy, stamp.metaTime)),
                             None, stamp.createdAt);
      rc := made.value;
      receipts := receipts + [rc];
    }

    /** `set_rule`: an unknown key fails with nothing changed. Otherwise
        the rule takes the requested state, every other rule keeps its
        own, and one receipt is appended exactly when receipts are wanted
        and the state really changed. */
    method SetRule(key: string, enabled: bool, createReceipt: bool, changedBy: string, stamp: Stamp)
      returns (r: Result<Rule>)
      requires Valid()
      modifies this, rules
      ensures Valid()
      ensures FindRule(rules, key).None? ==>
                && r == Err(ValueError("Rule not found: " + key))
                && Values(rules) == old(Values(rules)) && receipts == old(receipts)
      ensures FindRule(rules, key).Some? ==>
                var i := FindRule(rules, key).value;
                var oldState := old(rules[i].value) == 1;
                && r == Ok(rules[i])
                && Values(rules) == old(Values(rules))[i := if enabled then 1 else 0]
                && IsRuleEnabled(key) == enabled
                && (createReceipt && oldState != enabled ==>
                      && |receipts| == |old(receipts)| + 1
                      && receipts[..|old(receipts)|] == old(receipts)
                      && fresh(receipts[|old(receipts)|])
                      && IsPolicyChangeReceipt(receipts[|old(receipts)|], key, oldState, enabled, changedBy, stamp))
                && (!createReceipt || oldState == enabled ==> receipts == old(receipts))
    {
      var found := FindRule(rules, key);
      if found.None? {
        return Err(ValueError("Rule not found: " + key));
      }
      var i := found.value;
      var oldState := rules[i].IsEnabled();
      SetFlag(i, enabled);
      if createReceipt && oldState != enabled {
        var _ := CreatePolicyChangeReceipt(key, oldState, enabled, changedBy, stamp);
      }
      r := Ok(rules[i]);
    }

    /** `rule.enable()` or `rule.disable()` on row `i`: only that row's
        value changes. */
    method SetFlag(i: nat, enabled: bool)
      requires Valid() && i < |rules|
      modifies rules[i]
      ensures Valid()
      ensures Values(rules) == old(Values(rules))[i := if enabled then 1 else 0]
    {
      var rule := rules[i];
      forall k | 0 <= k < |rules| && k != i
        ensures rules[k] != rule
      {
        assert rules[k].key != rule.key;
      }
      if enabled {
        rule.Enable();
      } else {
        rule.Disable();
      }
    }

    /** `toggle_rule`: an unknown key fails with nothing changed;
        otherwise the rule is set to the opposite of its state, which
        always changes it, so a receipt is appended exactly when receipts
        are wanted. */
    method ToggleRule(key: string, createReceipt: bool, changedBy: string, stamp: Stamp)
      returns (r: Result<Rule>)
      requires Valid()
      modifies this, rules
      ensures Valid()
      ensures FindRule(rules, key).None? ==>
                && r == Err(ValueError("Rule not found: " + key))
                && Values(rules) == old(Values(rules)) && receipts == old(receipts)
      ensures FindRule(rules, key).Some? ==>
                var i := FindRule(rules, key).value;
                var oldState := old(rules[i].value) == 1;
                && r == Ok(rules[i])
                && Values(rules) == old(Values(rules))[i := Toggled(old(rules[i].value))]
                && IsRuleEnabled(key) == !oldState
                && (createReceipt ==>
                      && |receipts| == |old(receipts)| + 1
                      && receipts[..|old(receipts)|] == old(receipts)
                      && fresh(receipts[|old(receipts)|])
                      && IsPolicyChangeReceipt(receipts[|old(receipts)|], key, oldState, !oldState, changedBy, stamp))
                && (!createReceipt ==> receipts == old(receipts))
    {
      var found := GetRule(key);
      if found.None? {
        return Err(ValueError("Rule not found: " + key));
      }
      assert found.value.Valid();
      var newState := !found.value.IsEnabled();
      r := SetRule(key, newState, createReceipt, changedBy, stamp);
    }
  }
}
