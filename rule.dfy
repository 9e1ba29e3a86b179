/** utc/models/rule.py: a policy rule is a 0/1 flag stored under a unique
    key; the rules table is the sequence of rule rows in insertion order. */
module RuleModel {
  import opened Common
  import opened Text

  /** The value `toggle` leaves behind: ON from OFF, OFF from anything
      else. */
  function Toggled(v: int): (r: int)
    ensures r == 0 || r == 1
    ensures (v == 0 || v == 1) ==> r != v
  {
    if v == 0 then 1 else 0
  }

  /** Toggling a 0/1 value twice gives it back. */
  lemma ToggleTwiceRestores(v: int)
    requires v == 0 || v == 1
    ensures Toggled(Toggled(v)) == v
  {
  }

  /** The checks of `Rule.__init__`, in their order: a missing, empty or
      all-whitespace key first, then a value other than 0 or 1 (a value
      left out is `None` at that point, since the column default is only
      applied on INSERT). */
  function Validate(key: Option<string>, value: Option<int>): (r: Option<Error>)
    ensures r.None? <==> && key.Some? && !IsBlank(key.value)
                         && value.Some? && (value.value == 0 || value.value == 1)
    ensures (key.None? || IsBlank(key.value)) ==> r == Some(ValueError("Rule key cannot be empty"))
    ensures r.Some? ==> r.value.ValueError?
  {
    if key.None? then Some(ValueError("Rule key cannot be empty"))
    else
      StripEmptyIffBlank(key.value);
      if key.value == [] || Strip(key.value) == [] then Some(ValueError("Rule key cannot be empty"))
      else if value.None? then Some(ValueError("Rule value must be 0 or 1, got None"))
      else if value.value != 0 && value.value != 1 then
        Some(ValueError("Rule value must be 0 or 1, got " + Decimal(value.value)))
      else None
  }

  class Rule {
    const key: string
    var value: int

    ghost predicate Valid()
      reads this
    {
      !IsBlank(key) && (value == 0 || value == 1)
    }

    constructor (key: string, value: int)
      requires Validate(Some(key), Some(value)).None?
      ensures this.key == key && this.value == value
      ensures Valid()
    {
      this.key := key;
      this.value := value;
    }

    predicate IsEnabled()
      reads this
    {
      value == 1
    }

    /** A valid rule is either ON or OFF, and enabled exactly when it is
        not OFF. */
    lemma EnabledIffNotOff()
      requires Valid()
      ensures IsEnabled() <==> value != 0
    {
    }

    /** Sets the flag ON; a second call changes nothing more. */
    method Enable()
      modifies this
      ensures value == 1 && IsEnabled()
    {
      value := 1;
    }

    /** Sets the flag OFF; a second call changes nothing more. */
    method Disable()
      modifies this
      ensures value == 0 && !IsEnabled()
    {
      value := 0;
    }

    method Toggle()
      modifies this
      ensures value == Toggled(old(value))
      ensures (old(value) == 0 || old(value) == 1) ==> IsEnabled() == !old(IsEnabled())
    {
      value := if value == 0 then 1 else 0;
    }
  }

  /** `Rule(key=..., value=...)`: a fresh rule, or the first failed check. */
  method NewRule(key: Option<string>, value: Option<int>) returns (r: Result<Rule>)
    ensures r.Err? <==> Validate(key, value).Some?
    ensures r.Err? ==> r.error == Validate(key, value).value
    ensures r.Ok? ==> && fresh(r.value) && r.value.Valid()
                      && r.value.key == key.value && r.value.value == value.value
  {
    var err := Validate(key, value);
    if err.Some? {
      return Err(err.value);
    }
    var rule := new Rule(key.value, value.value);
    r := Ok(rule);
  }

  /** The `unique=True` constraint on the key column. */
  predicate UniqueKeys(table: seq<Rule>)
  {
    forall i, j :: 0 <= i < j < |table| ==> table[i].key != table[j].key
  }

  /** `get_rule_by_key`: the position of the first row with this key. */
  function FindRule(table: seq<Rule>, key: string): (r: Option<nat>)
    ensures r.Some? ==> r.value < |table| && table[r.value].key == key
    ensures r.Some? ==> forall k :: 0 <= k < r.value ==> table[k].key != key
    ensures r.None? <==> forall k :: 0 <= k < |table| ==> table[k].key != key
  {
    if table == [] then None
    else if table[0].key == key then Some(0)
    else match FindRule(table[1..], key)
      case None => None
      case Some(i) => Some(i + 1)
  }

  /** The flag values of the table, row by row. */
  ghost function Values(table: seq<Rule>): (r: seq<int>)
    reads table
    ensures |r| == |table|
    ensures forall i :: 0 <= i < |table| ==> r[i] == table[i].value
  {
    if table == [] then [] else [table[0].value] + Values(table[1..])
  }

  /** `is_rule_enabled`: the looked-up rule's state, and false (the
      fail-safe answer) when no rule has the key. */
  function IsRuleEnabled(table: seq<Rule>, key: string): (r: bool)
    reads table
    ensures r ==> exists i :: 0 <= i < |table| && table[i].key == key && table[i].value == 1
    ensures (forall i :: 0 <= i < |table| ==> table[i].key != key) ==> !r
    ensures UniqueKeys(table) ==>
              (r <==> exists i :: 0 <= i < |table| && table[i].key == key && table[i].value == 1)
  {
    match FindRule(table, key)
    case None => false
    case Some(i) => table[i].IsEnabled()
  }

  /** `toggle_rule`: an unknown key fails with nothing changed; otherwise
      the rule flips and its new state is returned, which for a 0/1 rule
      is the negation of the old one. */
  method ToggleRule(table: seq<Rule>, key: string) returns (r: Result<bool>)
    requires UniqueKeys(table)
    modifies table
    ensures FindRule(table, key).None? ==>
              r == Err(ValueError("Rule not found: " + key)) && Values(table) == old(Values(table))
    ensures FindRule(table, key).Some? ==>
              var i := FindRule(table, key).value;
              && r.Ok?
              && Values(table) == old(Values(table))[i := Toggled(old(table[i].value))]
              && r.value == IsRuleEnabled(table, key)
              && ((old(table[i].value) == 0 || old(table[i].value) == 1) ==> r.value == !old(IsRuleEnabled(table, key)))
  {
    var found := FindRule(table, key);
    if found.None? {
      return Err(ValueError("Rule not found: " + key));
    }
    var rule := table[found.value];
    rule.Toggle();
    forall k | 0 <= k < |table| && k != found.value
      ensures table[k] != rule
    {
      assert table[k].key != key;
    }
    r := Ok(rule.IsEnabled());
  }
}
