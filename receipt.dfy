/** Decision receipts (utc/models/receipt.py): construction with its
    default id and decision check, the JSON-backed `rules` and `meta`
    accessors, the decision predicates, `is_signed`, the key set of
    `to_dict`, and the two newest-first queries over the receipts table. */
module ReceiptModel {
  import opened Common
  import opened Constants
  import opened Codec
  import opened Ordering

  /** The columns of the receipts table, including the two timestamps
      every model inherits. */
  const Columns: set<string> := {"id", "subject", "action", "decision", "rules_json", "reason",
                                 "payload_hash", "meta_json", "signature", "created_at", "updated_at"}

  class Receipt {
    const id: string
    const subject: string
    const action: string
    const decision: string
    var rulesJson: Stored<seq<string>>
    const reason: string
    const payloadHash: string
    var metaJson: Stored<Meta>
    const signature: Option<string>
    const createdAt: int

    /** What construction guarantees: the decision is one of the four
        enumeration values. */
    predicate Valid()
    {
      ParseDecision(decision).Some?
    }

    constructor (id: string, subject: string, action: string, decision: string,
                 rulesJson: Stored<seq<string>>, reason: string, payloadHash: string,
                 metaJson: Stored<Meta>, signature: Option<string>, createdAt: int)
      requires ParseDecision(decision).Some?
      ensures this.id == id && this.subject == subject && this.action == action
      ensures this.decision == decision && this.rulesJson == rulesJson && this.reason == reason
      ensures this.payloadHash == payloadHash && this.metaJson == metaJson
      ensures this.signature == signature && this.createdAt == createdAt
      ensures Valid()
    {
      this.id := id;
      this.subject := subject;
      this.action := action;
      this.decision := decision;
      this.rulesJson := rulesJson;
      this.reason := reason;
      this.payloadHash := payloadHash;
      this.metaJson := metaJson;
      this.signature := signature;
      this.createdAt := createdAt;
    }

    /** The `rules` getter: an absent or undecodable column reads as []. */
    function Rules(): (r: seq<string>)
      reads this
      ensures rulesJson.Encoded? ==> r == rulesJson.value
      ensures !rulesJson.Encoded? ==> r == []
    {
      DecodeOr(rulesJson, [])
    }

    /** The `rules` setter; reading back gives the list just set. */
    method SetRules(value: seq<string>)
      modifies this
      ensures rulesJson == Encode(value) && metaJson == old(metaJson)
      ensures Rules() == value
    {
      rulesJson := Encode(value);
    }

    /** The `meta` getter: an absent or undecodable column reads as {}. */
    function Meta(): (r: Meta)
      reads this
      ensures metaJson.Encoded? ==> r == metaJson.value
      ensures !metaJson.Encoded? ==> r == map[]
    {
      DecodeOr(metaJson, map[])
    }

    /** The `meta` setter; reading back gives the object just set. */
    method SetMeta(value: Meta)
      modifies this
      ensures metaJson == Encode(value) && rulesJson == old(rulesJson)
      ensures Meta() == value
    {
      metaJson := Encode(value);
    }

    predicate IsAllowed()
    {
      decision == Allow.Value()
    }

    predicate IsDenied()
    {
      decision == Deny.Value()
    }

    predicate RequiresApproval()
    {
      decision == RequireApproval.Value()
    }

    predicate IsPolicyChange()
    {
      decision == PolicyChange.Value()
    }

    /** Exactly one decision predicate holds for a constructed receipt,
        and it is the one of its decision's enumeration member. */
    lemma ExactlyOneDecision()
      requires Valid()
      ensures (if IsAllowed() then 1 else 0) + (if IsDenied() then 1 else 0)
              + (if RequiresApproval() then 1 else 0) + (if IsPolicyChange() then 1 else 0) == 1
      ensures var d := ParseDecision(decision).value;
              && (IsAllowed() <==> d == Allow) && (IsDenied() <==> d == Deny)
              && (RequiresApproval() <==> d == RequireApproval) && (IsPolicyChange() <==> d == PolicyChange)
    {
    }

    /** `is_signed`: a signature is present and is not the empty string. */
    function IsSigned(): (r: bool)
      ensures r <==> signature != None && signature != Some("")
    {
      signature.Some? && |signature.value| > 0
    }
  }

  const InvalidDecisionPrefix: string := "Invalid decision type: "
  const InvalidDecisionSuffix: string := ". Must be one of: ['ALLOW', 'DENY', 'REQUIRE_APPROVAL', 'POLICY_CHANGE']"

  /** How a missing decision is rendered in the error message. */
  const NoneText: string := "None"

  /** The error `Receipt.__init__` raises for a decision outside the
      enumeration. */
  function InvalidDecision(decision: string): Error
  {
    ValueError(InvalidDecisionPrefix + decision + InvalidDecisionSuffix)
  }

  /** `Receipt(...)`: the id is `generatedId` (a fresh UUID) only when no id
      is supplied; `rules` and `meta` are stored encoded when given and
      left NULL otherwise (their column defaults only apply on INSERT);
      then the decision is checked; a missing one is rejected as "None". */
  method NewReceipt(id: Option<string>, generatedId: string, subject: string, action: string,
                    decision: Option<string>, rules: Option<seq<string>>, reason: string,
                    payloadHash: string, meta: Option<Meta>, signature: Option<string>, createdAt: int)
    returns (r: Result<Receipt>)
    ensures r.Ok? <==> decision.Some? && ParseDecision(decision.value).Some?
    ensures decision.None? ==> r == Err(InvalidDecision(NoneText))
    ensures decision.Some? && r.Err? ==> r.error == InvalidDecision(decision.value)
    ensures r.Ok? ==> && fresh(r.value) && r.value.Valid()
                      && r.value.id == (if id.Some? then id.value else generatedId)
                      && r.value.subject == subject && r.value.action == action
                      && r.value.decision == decision.value && r.value.reason == reason
                      && r.value.payloadHash == payloadHash && r.value.signature == signature
                      && r.value.createdAt == createdAt
    ensures r.Ok? ==> r.value.Rules() == (if rules.Some? then rules.value else [])
    ensures r.Ok? && meta.Some? ==> r.value.Meta() == meta.value
    ensures r.Ok? && meta.None? ==> r.value.Meta() == map[]
  {
    var theId := if id.Some? then id.value else generatedId;
    var rulesJson: Stored<seq<string>> := if rules.Some? then Encode(rules.value) else Absent;
    var metaJson: Stored<Meta> := if meta.Some? then Encode(meta.value) else Absent;
    if decision.None? {
      return Err(InvalidDecision(NoneText));
    }
    var parsed := ParseDecision(decision.value);
    if parsed.None? {
      return Err(InvalidDecision(decision.value));
    }
    var receipt := new Receipt(theId, subject, action, decision.value, rulesJson, reason, payloadHash,
                               metaJson, signature, createdAt);
    assert receipt.Meta() == DecodeOr(metaJson, map[]);
    r := Ok(receipt);
  }

  /** The keys of `to_dict(exclude)`: every column not excluded, except
      that the two JSON columns are replaced by their decoded `rules` and
      `meta` entries, each present unless itself excluded. */
  function ToDictKeys(exclude: set<string>): (r: set<string>)
    ensures "rules_json" !in r && "meta_json" !in r
    ensures ("rules" in r <==> "rules" !in exclude) && ("meta" in r <==> "meta" !in exclude)
    ensures forall k :: k in r ==> k !in exclude
    ensures forall k :: k in r ==> k in Columns || k == "rules" || k == "meta"
    ensures forall c :: c in Columns && c !in exclude && c != "rules_json" && c != "meta_json" ==> c in r
  {
    (Columns - (exclude + {"rules_json", "meta_json"}))
    + (if "rules" !in exclude then {"rules"} else {})
    + (if "meta" !in exclude then {"meta"} else {})
  }

  /** The query shared by both helpers: matching rows, newest first,
      at most `limit` of them (a negative limit imposes none). */
  function NewestFirst(table: seq<Receipt>, matches: Receipt -> bool, limit: int): (r: seq<Receipt>)
    ensures forall i :: 0 <= i < |r| ==> r[i] in table && matches(r[i])
    ensures forall i, j :: 0 <= i < j < |r| ==> r[i].createdAt >= r[j].createdAt
    ensures forall i :: 0 <= i < |table| && matches(table[i]) && table[i] !in r ==>
              forall j :: 0 <= j < |r| ==> r[j].createdAt >= table[i].createdAt
    ensures multiset(r) <= multiset(table)
  {
    var key := (x: Receipt) => x.createdAt;
    var le := (a: int, b: int) => a >= b;
    assert IsTotalPreorder(le);
    var sorted := SortBy(Filter(table, matches), key, le);
    var r := Take(sorted, limit);
    TakeCounts(table, matches, key, le, limit);
    TakeKeeps(table, matches, key, le, limit);
    TakeOmits(table, matches, key, le, limit);
    assert SortedBy(r, key, le);
    r
  }

  /** `get_receipts_by_subject` */
  function ReceiptsBySubject(table: seq<Receipt>, subject: string, limit: int): (r: seq<Receipt>)
    ensures forall i :: 0 <= i < |r| ==> r[i] in table && r[i].subject == subject
    ensures forall i, j :: 0 <= i < j < |r| ==> r[i].createdAt >= r[j].createdAt
    ensures 0 <= limit ==> |r| <= limit
    ensures forall i :: 0 <= i < |table| && table[i].subject == subject && table[i] !in r ==>
              0 <= limit == |r| && forall j :: 0 <= j < |r| ==> r[j].createdAt >= table[i].createdAt
    ensures multiset(r) <= multiset(table)
  {
    var matches := (x: Receipt) => x.subject == subject;
    var r := NewestFirst(table, matches, limit);
    forall i | 0 <= i < |table| && table[i].subject == subject && table[i] !in r
      ensures 0 <= limit == |r|
    {
      MissingMatchMeansLimit(table, matches, limit, i);
    }
    r
  }

  /** `get_receipts_by_decision` */
  function ReceiptsByDecision(table: seq<Receipt>, decision: DecisionType, limit: int): (r: seq<Receipt>)
    ensures forall i :: 0 <= i < |r| ==> r[i] in table && r[i].decision == decision.Value()
    ensures forall i, j :: 0 <= i < j < |r| ==> r[i].createdAt >= r[j].createdAt
    ensures 0 <= limit ==> |r| <= limit
    ensures forall i :: 0 <= i < |table| && table[i].decision == decision.Value() && table[i] !in r ==>
              0 <= limit == |r| && forall j :: 0 <= j < |r| ==> r[j].createdAt >= table[i].createdAt
    ensures multiset(r) <= multiset(table)
  {
    var matches := (x: Receipt) => x.decision == decision.Value();
    var r := NewestFirst(table, matches, limit);
    forall i | 0 <= i < |table| && table[i].decision == decision.Value() && table[i] !in r
      ensures 0 <= limit == |r|
    {
      MissingMatchMeansLimit(table, matches, limit, i);
    }
    r
  }

  /** A matching row is only ever missing from the answer because the
      limit was reached. */
  lemma MissingMatchMeansLimit(table: seq<Receipt>, matches: Receipt -> bool, limit: int, i: nat)
    requires i < |table| && matches(table[i]) && table[i] !in NewestFirst(table, matches, limit)
    ensures 0 <= limit == |NewestFirst(table, matches, limit)|
  {
    var kept := Filter(table, matches);
    var r := NewestFirst(table, matches, limit);
    assert table[i] in kept;
    assert |kept| > 0;
    if !(0 <= limit < |kept|) {
      var key := (x: Receipt) => x.createdAt;
      var le := (a: int, b: int) => a >= b;
      assert IsTotalPreorder(le);
      SortByMembers(kept, key, le);
      assert false;
    }
  }
}
