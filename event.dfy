/** External trust and risk events (utc/models/event.py): construction
    with its confidence check, the severity and confidence predicates, and
    the recent-events query with its severity-rank filter. Timestamps are
    whole seconds. */
module EventModel {
  import opened Common
  import opened Text
  import opened Codec
  import opened Ordering

  /** Threshold `is_high_confidence` uses when none is given. */
  const DefaultConfidenceThreshold: real := 0.8
  const SecondsPerHour: int := 3600

  const SeverityMedium: string := "medium"
  const SeverityHigh: string := "high"
  const SeverityCritical: string := "critical"

  /** `severity_order.get(s.lower(), 0)` with
      {"low": 0, "medium": 1, "high": 2, "critical": 3}. */
  function SeverityRank(s: string): (r: nat)
    ensures r <= 3
    ensures Lower(s) == SeverityCritical ==> r == 3
    ensures Lower(s) == SeverityHigh ==> r == 2
    ensures Lower(s) == SeverityMedium ==> r == 1
    ensures Lower(s) != SeverityMedium && Lower(s) != SeverityHigh && Lower(s) != SeverityCritical ==> r == 0
  {
    var l := Lower(s);
    if l == SeverityCritical then 3
    else if l == SeverityHigh then 2
    else if l == SeverityMedium then 1
    else 0
  }

  /** `s.lower() == "critical"` */
  predicate IsCriticalSeverity(s: string)
  {
    Lower(s) == SeverityCritical
  }

  /** The critical check is a case-insensitive comparison: every letter
      of the severity is the lower- or upper-case letter of "critical". */
  lemma IsCriticalSeverityIff(s: string)
    ensures IsCriticalSeverity(s) <==>
              |s| == 8 && forall i :: 0 <= i < 8 ==> s[i] == "critical"[i] || s[i] == "CRITICAL"[i]
  {
    if IsCriticalSeverity(s) {
      forall i | 0 <= i < 8 ensures s[i] == "critical"[i] || s[i] == "CRITICAL"[i] {
        assert LowerChar(s[i]) == "critical"[i];
      }
    }
    if |s| == 8 && forall i :: 0 <= i < 8 ==> s[i] == "critical"[i] || s[i] == "CRITICAL"[i] {
      assert forall i :: 0 <= i < 8 ==> Lower(s)[i] == "critical"[i];
    }
  }

  /** Only the critical severity has the top rank. */
  lemma TopRankIffCritical(s: string)
    ensures SeverityRank(s) == 3 <==> IsCriticalSeverity(s)
  {
  }

  class Event {
    const source: string
    const whenSeen: int
    const eventTime: int
    const topic: string
    const severity: string
    const confidence: real
    var entitiesJson: Stored<seq<string>>
    const link: Option<string>
    const hash: string
    const summary: string

    constructor (source: string, whenSeen: int, eventTime: int, topic: string, severity: string,
                 confidence: real, entitiesJson: Stored<seq<string>>, link: Option<string>,
                 hash: string, summary: string)
      requires 0.0 <= confidence <= 1.0
      ensures this.source == source && this.whenSeen == whenSeen && this.eventTime == eventTime
      ensures this.topic == topic && this.severity == severity && this.confidence == confidence
      ensures this.entitiesJson == entitiesJson && this.link == link
      ensures this.hash == hash && this.summary == summary
    {
      this.source := source;
      this.whenSeen := whenSeen;
      this.eventTime := eventTime;
      this.topic := topic;
      this.severity := severity;
      this.confidence := confidence;
      this.entitiesJson := entitiesJson;
      this.link := link;
      this.hash := hash;
      this.summary := summary;
    }

    /** The `entities` getter: an absent or undecodable column reads as []. */
    function Entities(): (r: seq<string>)
      reads this
      ensures entitiesJson.Encoded? ==> r == entitiesJson.value
      ensures !entitiesJson.Encoded? ==> r == []
    {
      DecodeOr(entitiesJson, [])
    }

    /** The `entities` setter; reading back gives the list just set. */
    method SetEntities(value: seq<string>)
      modifies this
      ensures entitiesJson == Encode(value)
      ensures Entities() == value
    {
      entitiesJson := Encode(value);
    }

    predicate IsCritical()
    {
      IsCriticalSeverity(severity)
    }

    predicate IsHighConfidence(threshold: real)
    {
      confidence >= threshold
    }

    predicate ShouldTriggerPolicyChange()
    {
      IsCritical() && IsHighConfidence(DefaultConfidenceThreshold)
    }

    /** A policy change is triggered exactly by a top-rank severity held
        with confidence of at least 0.8. */
    lemma TriggerIffTopRankAndConfident()
      ensures ShouldTriggerPolicyChange() <==> SeverityRank(severity) == 3 && confidence >= 0.8
    {
      TopRankIffCritical(severity);
    }

    /** A higher threshold is harder to meet. */
    lemma HighConfidenceAntitone(lo: real, hi: real)
      requires lo <= hi
      ensures IsHighConfidence(hi) ==> IsHighConfidence(lo)
    {
    }
  }

  /** `Event(...)`: `entities` is encoded when given, `when_seen` defaults
      to the current time, and the confidence must lie in [0, 1]. A
      confidence left out is `None` at the check (the column default is
      only applied on INSERT), where `0.0 <= None` raises a TypeError. */
  method NewEvent(source: string, whenSeen: Option<int>, now: int, eventTime: int, topic: string,
                  severity: string, confidence: Option<real>, entities: Option<seq<string>>,
                  link: Option<string>, hash: string, summary: string)
    returns (r: Result<Event>)
    ensures confidence.None? ==> r.Err? && r.error.TypeError?
    ensures confidence.Some? && !(0.0 <= confidence.value <= 1.0) ==> r.Err? && r.error.ValueError?
    ensures r.Ok? <==> confidence.Some? && 0.0 <= confidence.value <= 1.0
    ensures r.Ok? ==> && fresh(r.value)
                      && r.value.confidence == confidence.value
                      && r.value.whenSeen == (if whenSeen.Some? then whenSeen.value else now)
                      && r.value.Entities() == (if entities.Some? then entities.value else [])
                      && r.value.severity == severity && r.value.source == source
                      && r.value.topic == topic && r.value.eventTime == eventTime
                      && r.value.link == link && r.value.hash == hash && r.value.summary == summary
  {
    var json: Stored<seq<string>> := if entities.Some? then Encode(entities.value) else Absent;
    var seen := if whenSeen.Some? then whenSeen.value else now;
    if confidence.None? {
      return Err(TypeError("'<=' not supported between instances of 'float' and 'NoneType'"));
    }
    if !(0.0 <= confidence.value <= 1.0) {
      return Err(ValueError("Confidence must be 0.0-1.0"));
    }
    var e := new Event(source, seen, eventTime, topic, severity, confidence.value, json, link, hash, summary);
    r := Ok(e);
  }

  /** The severity list comprehension of `get_recent_events`. */
  function FilterBySeverity(events: seq<Event>, minSeverity: string): seq<Event>
  {
    Filter(events, (e: Event) => SeverityRank(e.severity) >= SeverityRank(minSeverity))
  }

  /** The filter keeps exactly the events ranked at or above the minimum. */
  lemma FilterBySeverityMembers(events: seq<Event>, minSeverity: string)
    ensures forall i :: 0 <= i < |FilterBySeverity(events, minSeverity)| ==>
              var e := FilterBySeverity(events, minSeverity)[i];
              e in events && SeverityRank(e.severity) >= SeverityRank(minSeverity)
    ensures forall i :: 0 <= i < |events| ==>
              SeverityRank(events[i].severity) >= SeverityRank(minSeverity) ==> events[i] in FilterBySeverity(events, minSeverity)
  {
  }

  /** The filter keeps input order: filtering a concatenation is the
      concatenation of the filtered parts. */
  lemma FilterBySeverityOrder(a: seq<Event>, b: seq<Event>, minSeverity: string)
    ensures FilterBySeverity(a + b, minSeverity) == FilterBySeverity(a, minSeverity) + FilterBySeverity(b, minSeverity)
  {
    FilterConcat(a, b, (e: Event) => SeverityRank(e.severity) >= SeverityRank(minSeverity));
  }

  /** A minimum of rank 0 ("low", or any unknown severity) keeps every event. */
  lemma {:induction false} LowestMinimumKeepsAll(events: seq<Event>, minSeverity: string)
    requires SeverityRank(minSeverity) == 0
    ensures FilterBySeverity(events, minSeverity) == events
  {
    if events != [] {
      assert events == [events[0]] + events[1..];
      LowestMinimumKeepsAll(events[1..], minSeverity);
      FilterBySeverityOrder([events[0]], events[1..], minSeverity);
    }
  }

  /** `utcnow() - timedelta(hours=hours)`, in seconds. */
  function Cutoff(now: int, hours: int): int
  {
    now - hours * SecondsPerHour
  }

  /** `get_recent_events(hours, min_severity)`: events seen at or after
      `now - hours`, newest first, then the severity filter. */
  function GetRecentEvents(table: seq<Event>, now: int, hours: int, minSeverity: string): (r: seq<Event>)
    ensures forall i :: 0 <= i < |r| ==>
              && r[i] in table
              && r[i].whenSeen >= Cutoff(now, hours)
              && SeverityRank(r[i].severity) >= SeverityRank(minSeverity)
    ensures forall i :: 0 <= i < |table| ==>
              (table[i].whenSeen >= Cutoff(now, hours)
               && SeverityRank(table[i].severity) >= SeverityRank(minSeverity)) ==> table[i] in r
    ensures forall i, j :: 0 <= i < j < |r| ==> r[i].whenSeen >= r[j].whenSeen
    ensures multiset(r) <= multiset(table)
  {
    var cutoff := Cutoff(now, hours);
    var recent := (e: Event) => e.whenSeen >= cutoff;
    var key := (e: Event) => e.whenSeen;
    var le := (a: int, b: int) => a >= b;
    var severe := (e: Event) => SeverityRank(e.severity) >= SeverityRank(minSeverity);
    assert IsTotalPreorder(le);
    FilterSortFilter(table, recent, key, le, severe);
    var r := FilterBySeverity(SortBy(Filter(table, recent), key, le), minSeverity);
    assert SortedBy(r, key, le);
    r
  }
}
