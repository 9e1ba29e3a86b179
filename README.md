# Unified trust console: policy-decision core in Dafny

This project models the policy-decision core of the unified trust console
and proves properties about it. The console is a proof of concept that
decides whether an action on a unit is allowed, needs approval or is
denied, and writes an audit receipt for every policy change. The core has
four parts:

- **Per-unit load estimator** (`queueing.dfy`, `feature.dfy`). One row per
  unit holds the arrival rate λ, the service rate μ and the utilisation
  ρ = min(λ/μ, 0.99). `update_feature` applies one EWMA step to λ and μ and
  recomputes ρ, rejecting μ ≤ 0. ρ maps to one of three protection levels
  through the two thresholds of the global settings. `should_auto_relax`
  is a separate check, hard-coded at ρ < 0.5. Rates are Dafny `real`s.
  The service is a class whose `features` field is the features table.
  The service owns every write to it, so every row keeps μ > 0 and a
  current, capped ρ.
- **Rule store and decision engine** (`rule.dfy`, `rules_service.dfy`,
  `constants.dfy`). A rule is a class holding a 0/1 flag under a unique
  key. `enable`, `disable` and `toggle` assign the flag in place.
  `RulesService.set_rule` changes a flag and appends a POLICY_CHANGE
  receipt only when receipts are wanted and the state really changed.
  `evaluate_rules_for_action` is a first-match chain over the `write:`
  prefix and the two rule keys; it does not look at load.
- **Receipt record** (`receipt.dfy`, `codec.dfy`). Construction has a
  default id and a decision check. The record has the decision predicates,
  `is_signed`, and the JSON-backed `rules` and `meta` accessors. There are
  two newest-first query helpers.
- **Events** (`event.dfy`). Construction checks the confidence range.
  There are the case-insensitive critical check, the confidence threshold,
  the policy-change trigger, and the recent-events query with its
  severity-rank filter.

Each database table is a sequence of rows in insertion order. The unique
`key` of the rules table and the unique `unit` of the features table
become invariants over their sequences; the receipts and events tables
carry no uniqueness invariant, and their queries accept any sequence. `ORDER BY` becomes a
stable insertion sort (`Ordering.SortBy`), so rows with equal keys keep
insertion order. `LIMIT` becomes `Ordering.Take`; a negative limit means
no limit, as in SQLite. A JSON text column is the datatype
`Codec.Stored<T>`: NULL, the encoding of a value, or text that does not
decode. The values the source takes from the clock and the UUID generator
are parameters: `generatedId`, `now`, and `RulesServiceModel.Stamp`.
Timestamps are whole seconds.

Three facts about the code shape the model:

- The rule evaluator has no load-driven branch: the decision depends only
  on the action and the two rule states (utc/services/rules.py:234-258).
- Auto-relaxation is fixed at ρ < 0.5 (utc/services/queueing.py:243).
- `get_protection_level` reads the thresholds of the global settings, not
  the service's own `threshold_low`/`threshold_high`
  (utc/services/queueing.py:217-218, utc/models/feature.py:34-40).

## Model

| member | source | states |
|---|---|---|
| Constants.ParseDecision | utc/models/receipt.py:301-302 | a parsed decision is the enum member whose string value is the input |
| Constants.ParseDecisionNone | utc/models/receipt.py:301-306 | parsing fails exactly when no member of DecisionType has the input as its value |
| Constants.ParseDecisionValue | utc/core/constants.py:20-45 | the four values are distinct, so parsing a member's value gives that member back |
| Text.StripEmptyIffBlank | utc/models/rule.py:163 | `strip()` gives the empty string exactly for a string of Python whitespace only |
| Text.LexLeIsTotalPreorder | utc/services/rules.py:84 | the string order used for `ORDER BY key` is total and transitive |
| Ordering.FilterSortFilter | utc/models/event.py:300-311 | filter, stable sort, filter keeps exactly the rows passing both filters, sorted by the key, with no row repeated beyond its count in the input |
| Ordering.FilterSortTake | utc/models/receipt.py:363-369 | filter, sort, limit keeps only matching rows, sorted, at most `limit` of them, and drops no row newer than a kept one |
| Codec.DecodeOr | utc/models/receipt.py:171-174 | a decodable column reads as its value; a NULL or undecodable one reads as the fallback |
| FeatureModel.GetProtectionLevel | utc/models/feature.py:42-56 | read_only iff ρ ≥ high; require_approval iff low ≤ ρ < high; permissive otherwise; exactly one level |
| FeatureModel.CriticalImpliesElevated | utc/models/feature.py:34-40 | with low < high, `is_critical` implies `is_elevated`, and permissive iff ρ < low |
| FeatureModel.ProtectionLevelMonotone | utc/models/feature.py:42-56 | with low < high, a higher ρ never gives a less strict level |
| Queueing.Utilization | utc/services/queueing.py:192-195 | ρ is λ/μ or 0.99, whichever is smaller, so never above 0.99 |
| Queueing.CalculateRho | utc/services/queueing.py:172-195 | fails iff μ ≤ 0; otherwise returns min(λ/μ, 0.99) |
| Queueing.EwmaBetween | utc/services/queueing.py:159-160 | the new estimate lies between the old estimate and the observation |
| Queueing.EwmaPositive | utc/services/queueing.py:160 | positive old μ and positive observed μ give a positive new μ, so the update cannot fail |
| Queueing.RepeatedGap | utc/services/queueing.py:159-160 | after n equal observations the gap to the observation is (1-α)^n times the starting gap |
| Queueing.PowBound | utc/services/queueing.py:159-160 | (1-α)^n · (1 + nα) ≤ 1 for 0 < α < 1 |
| Queueing.EwmaConverges | utc/services/queueing.py:159-160 | after n equal observations the estimate is within \|start − observation\| / (1 + nα) of the observation |
| Queueing.FindUnit | utc/services/queueing.py:95 | the lookup finds the first row of the unit, or none iff no row has it |
| Queueing.WithUnitHasUnit | utc/services/queueing.py:115-132 | after get-or-create the unit has a row |
| Queueing.DefaultFeatureRho | utc/services/queueing.py:97-98 | the default estimates 1.0 and 10.0 give a well-formed row with ρ = 0.1, permissive under the default settings |
| Queueing.ReplaceAt | utc/services/queueing.py:163-165 | overwriting a unit's row keeps units unique and rows well-formed, and changes only that row |
| Queueing.QueueingService.constructor | utc/services/queueing.py:74-77 | the service starts with the given α and thresholds and an empty table |
| Queueing.QueueingService.RhoInvariant | utc/services/queueing.py:189-195 | every stored ρ is at most 0.99 and equals λ/μ unless capped |
| Queueing.QueueingService.GetFeature | utc/services/queueing.py:85-95 | a row is returned iff the unit is tracked, and it is that unit's row |
| Queueing.QueueingService.GetOrCreateFeature | utc/services/queueing.py:97-132 | an existing row is returned with the table unchanged; a new unit fails iff μ ≤ 0, else gets the row (unit, λ, μ, min(λ/μ, 0.99)) appended |
| Queueing.QueueingService.UpdateFeature | utc/services/queueing.py:134-170 | λ' and μ' are EWMA steps from the current row and ρ' is recomputed; fails iff μ' ≤ 0, storing no new values; a positive observed μ always succeeds |
| Queueing.QueueingService.GetProtectionLevel | utc/services/queueing.py:197-218 | get-or-create, then the level of the row under the global settings thresholds |
| Queueing.QueueingService.ShouldAutoRelax | utc/services/queueing.py:220-243 | false for an untracked unit; otherwise true iff ρ < 0.5 |
| Queueing.QueueingService.AutoRelaxOnlyWhenPermissive | utc/services/queueing.py:239-243 | with the low threshold at 0.5 or more, auto-relax is only signalled for a tracked unit at the permissive level |
| Queueing.QueueingService.GetAllFeatures | utc/services/queueing.py:245-257 | a permutation of the table, ρ descending |
| Queueing.NewQueueingService | utc/services/queueing.py:57-83 | missing parameters default to the settings; succeeds iff 0 < α < 1 and 0 < low < high < 1 |
| RuleModel.Toggled | utc/models/rule.py:143 | toggling gives 0 or 1, and for a 0/1 value the other one |
| RuleModel.ToggleTwiceRestores | utc/models/rule.py:143 | toggling a 0/1 value twice gives it back |
| RuleModel.Validate | utc/models/rule.py:160-168 | construction passes iff the key is present and not blank and the value is 0 or 1; a missing or blank key gives "Rule key cannot be empty" |
| RuleModel.Rule.constructor | utc/models/rule.py:149-168 | a rule that passed validation holds its key and value |
| RuleModel.Rule.EnabledIffNotOff | utc/models/rule.py:91-108 | a valid rule is enabled iff its value is not 0 |
| RuleModel.Rule.Enable | utc/models/rule.py:110-121 | the value becomes 1 and the rule is enabled, whatever it was |
| RuleModel.Rule.Disable | utc/models/rule.py:123-132 | the value becomes 0 and the rule is disabled, whatever it was |
| RuleModel.Rule.Toggle | utc/models/rule.py:134-143 | the value becomes its toggle; a 0/1 rule's enabled state flips |
| RuleModel.NewRule | utc/models/rule.py:149-168 | fails with the first failed check, else gives a fresh valid rule with that key and value |
| RuleModel.FindRule | utc/models/rule.py:202-226 | the lookup finds the first row with the key, or none iff no row has it |
| RuleModel.IsRuleEnabled | utc/models/rule.py:229-248 | false when no rule has the key; with unique keys, true iff the key's rule has value 1 |
| RuleModel.ToggleRule | utc/models/rule.py:251-276 | an unknown key fails with "Rule not found" and nothing changed; otherwise only that rule toggles and, for a 0/1 rule, the result is the negation of its old state |
| ReceiptModel.Receipt.constructor | utc/models/receipt.py:277-306 | a receipt with a valid decision holds the given fields |
| ReceiptModel.Receipt.Rules | utc/models/receipt.py:154-174 | the decoded list, or [] for a NULL or undecodable column |
| ReceiptModel.Receipt.SetRules | utc/models/receipt.py:176-188 | reading `rules` back gives the list just set; `meta` is untouched |
| ReceiptModel.Receipt.Meta | utc/models/receipt.py:190-205 | the decoded object, or {} for a NULL or undecodable column |
| ReceiptModel.Receipt.SetMeta | utc/models/receipt.py:207-222 | reading `meta` back gives the object just set; `rules` is untouched |
| ReceiptModel.Receipt.ExactlyOneDecision | utc/models/receipt.py:228-242 | for a constructed receipt exactly one decision predicate holds, the one of its decision |
| ReceiptModel.Receipt.IsSigned | utc/models/receipt.py:244-246 | signed iff the signature is present and not empty |
| ReceiptModel.NewReceipt | utc/models/receipt.py:277-306 | succeeds iff a decision is given and is one of the four; a missing decision fails as "Invalid decision type: None…"; the generated id is used only when none is given; `rules`/`meta` read back as given, or empty |
| ReceiptModel.ToDictKeys | utc/models/receipt.py:252-271 | the keys are the non-excluded columns without the two JSON columns, plus `rules` and `meta` unless excluded |
| ReceiptModel.NewestFirst | utc/models/receipt.py:363-369 | only matching rows, each at most as often as in the table, newest first, and no omitted match is newer than a kept row |
| ReceiptModel.ReceiptsBySubject | utc/models/receipt.py:347-369 | only receipts of the subject, each at most as often as in the table, newest first, at most `limit`; one is omitted only when `limit` rows were returned, all no older |
| ReceiptModel.ReceiptsByDecision | utc/models/receipt.py:372-394 | the same for receipts with the given decision |
| ReceiptModel.MissingMatchMeansLimit | utc/models/receipt.py:363-369 | a matching receipt is missing from the answer only when the limit is reached |
| EventModel.SeverityRank | utc/models/event.py:297-298 | the lower-cased severity "medium" ranks 1, "high" 2, "critical" 3, and every other string (including "low" and unknown ones) 0 |
| EventModel.IsCriticalSeverityIff | utc/models/event.py:190-192 | critical iff each of the 8 letters is that letter of "critical" in either case |
| EventModel.TopRankIffCritical | utc/models/event.py:190-192 | only the critical severity has rank 3 |
| EventModel.Event.constructor | utc/models/event.py:221-237 | an event with confidence in [0, 1] holds the given fields |
| EventModel.Event.Entities | utc/models/event.py:166-178 | the decoded list, or [] for a NULL or undecodable column |
| EventModel.Event.SetEntities | utc/models/event.py:180-184 | reading `entities` back gives the list just set |
| EventModel.Event.TriggerIffTopRankAndConfident | utc/models/event.py:206-215 | the trigger holds iff the severity is critical and confidence ≥ 0.8 |
| EventModel.Event.HighConfidenceAntitone | utc/models/event.py:194-204 | meeting a higher threshold implies meeting a lower one |
| EventModel.NewEvent | utc/models/event.py:221-237 | fails iff confidence is missing (TypeError) or outside [0, 1] (ValueError); `when_seen` defaults to now; `entities` reads back as given or [] |
| EventModel.FilterBySeverityMembers | utc/models/event.py:307-311 | the filter keeps exactly the events ranked at or above the minimum |
| EventModel.FilterBySeverityOrder | utc/models/event.py:307-311 | the filter keeps input order: it distributes over concatenation |
| EventModel.LowestMinimumKeepsAll | utc/models/event.py:297-311 | a minimum of rank 0 (including an unknown one) keeps every event |
| EventModel.GetRecentEvents | utc/models/event.py:278-311 | exactly the events seen since the cutoff and ranked at or above the minimum, each at most as often as in the table, newest first |
| RulesServiceModel.Decide | utc/services/rules.py:234-258 | non-writes get ALLOW with no rules; a write gets DENY if read-only is on, else REQUIRE_APPROVAL if approval is on, else ALLOW; never POLICY_CHANGE; at most one rule; ALLOW iff no rules |
| RulesServiceModel.DecideMonotone | utc/services/rules.py:234-258 | switching a rule on never makes a decision less strict |
| RulesServiceModel.RulesService.Seeded | utc/database/init_db.py:61-70 | the seeded state: both rules present and OFF, no receipts |
| RulesServiceModel.RulesService.GetRule | utc/services/rules.py:55-70 | a rule is returned iff one has the key, and it is that rule |
| RulesServiceModel.RulesService.IsRuleEnabled | utc/services/rules.py:103-118 | false for a missing rule; otherwise the rule's state |
| RulesServiceModel.RulesService.GetAllRules | utc/services/rules.py:72-84 | a permutation of the rules, ordered by key |
| RulesServiceModel.RulesService.GetRulesDict | utc/services/rules.py:86-101 | the keys are exactly the rule keys, each mapped to its state |
| RulesServiceModel.RulesService.EvaluateRulesForAction | utc/services/rules.py:211-258 | the first-match decision over the current rule states |
| RulesServiceModel.RulesService.CreatePolicyChangeReceipt | utc/services/rules.py:260-304 | appends one POLICY_CHANGE receipt with subject, action, rules, reason, payload hash and meta built from the change |
| RulesServiceModel.RulesService.SetRule | utc/services/rules.py:120-177 | an unknown key fails with nothing changed; otherwise the rule takes the state, others keep theirs, and one receipt recording the real old and new states is appended iff receipts are wanted and the state changed |
| RulesServiceModel.RulesService.SetFlag | utc/services/rules.py:160-164 | only the chosen rule's value changes |
| RulesServiceModel.RulesService.ToggleRule | utc/services/rules.py:179-209 | an unknown key fails with nothing changed; otherwise the rule flips and, with receipts wanted, exactly one receipt is appended |

## Left out

- `utc/services/signer.py` (JWT signing through PyJWT) is not part of this model. A signature is an opaque optional string.
- The process-wide singletons `get_queueing_service` and `get_signer` are left out: they hold state, not logic.
- `get_metrics_summary` is left out: it only rounds floats and formats percentages for display.
- Database plumbing is left out: sessions, `flush`/`commit`, DDL, the seeding CLI and its existence checks. Tables are in-memory sequences, and a failed operation leaves them as the model describes (no rollback).
- Settings loading is left out. The queue fields of the settings are the `FeatureModel.Settings` value, and `Settings.Valid` states what the loader enforces.
- The reflection-based `to_dict` of `utc/models/base.py` and server-default timestamps are left out. `ToDictKeys` models only the key set of the receipt override.
- Floating point is left out: λ, μ, ρ, α and confidence are exact reals, with no rounding, NaN or infinity.
- `str.lower()` is modelled on ASCII letters only. This is enough for the comparisons with "critical" and the rank keys.
- The rendering of numbers in error messages is left out. `Queueing.CalculateRho` and `Queueing.NewQueueingService` keep only the text before ", got …". `NewEvent` drops ", got …" from the confidence message. `RuleModel.Validate` renders an integer value in decimal.
- Default arguments are not modelled; every caller passes all values explicitly. The defaults are `create_receipt=True` and `changed_by="system"` on `set_rule`/`toggle_rule`, `limit=100` on `get_receipts_by_subject`/`get_receipts_by_decision`, and `hours=24`, `min_severity="medium"` on `get_recent_events`.
- Timestamps are whole seconds, and `now` and the cutoff are parameters. The UUID and `datetime.now()` values are `generatedId`, `now` and `Stamp`.
- Queueing.QueueingService.UpdateFeature, Queueing.QueueingService.GetFeature, Queueing.QueueingService.GetOrCreateFeature, Queueing.QueueingService.GetAllFeatures: the source returns the stored ORM objects themselves, and `update_feature` changes its object in place. The model stores immutable rows and returns copies, so aliasing of those objects is not modelled.
- Passing raw `rules_json`/`entities_json`/`meta_json` strings to the constructors is left out. The model takes the decoded values and stores their encoding.
- `get_receipt_by_id`, `get_event_by_hash`, `__repr__` and `__str__` are left out: they are single lookups or display text outside the decision core.
- The order of rows with equal sort keys is not fixed by SQL. The model uses the stable order of insertion.
- The JSON text itself is not modelled. `Codec.Stored<T>` records only whether a column is NULL, the encoding of a value, or undecodable. The round trip `DecodeOr(Encode(v), d) == v` follows from `Codec.DecodeOr`.
