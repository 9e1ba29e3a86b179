/** The queueing service (utc/services/queueing.py): EWMA estimates of the
    arrival rate λ and service rate μ per unit, the utilisation
    ρ = min(λ/μ, 0.99), and the protection level derived from ρ. The
    features table of the session is the service's `features` field. */
module Queueing {
  import opened Common
  import opened FeatureModel
  import opened Ordering

  const RhoCap: real := 0.99
  const AutoRelaxThreshold: real := 0.5
  const DefaultInitialLambda: real := 1.0
  const DefaultInitialMu: real := 10.0

  /** min(λ/μ, 0.99) for a positive μ. */
  function Utilization(lambdaEst: real, muEst: real): (rho: real)
    requires muEst > 0.0
    ensures rho <= RhoCap && rho <= lambdaEst / muEst
    ensures rho == lambdaEst / muEst || rho == RhoCap
  {
    if lambdaEst / muEst < RhoCap then lambdaEst / muEst else RhoCap
  }

  /** `_calculate_rho`: rejects a service rate that is not positive. */
  function CalculateRho(lambdaEst: real, muEst: real): (r: Result<real>)
    ensures r.Err? <==> muEst <= 0.0
    ensures r.Ok? ==> r.value <= RhoCap && r.value == Utilization(lambdaEst, muEst)
  {
    if muEst <= 0.0 then Err(ValueError("Service rate must be positive"))
    else Ok(Utilization(lambdaEst, muEst))
  }

  /** One EWMA step: weight `alpha` on the observation. */
  function Ewma(alpha: real, observed: real, previous: real): real
  {
    alpha * observed + (1.0 - alpha) * previous
  }

  lemma MulNonneg(x: real, y: real)
    requires 0.0 <= x && 0.0 <= y
    ensures 0.0 <= x * y
  {
  }

  lemma MulLe(x: real, y: real, c: real)
    requires x <= y && 0.0 <= c
    ensures x * c <= y * c
  {
    MulNonneg(y - x, c);
    assert (y - x) * c == y * c - x * c;
  }

  /** The new estimate lies between the previous one and the observation. */
  lemma EwmaBetween(alpha: real, observed: real, previous: real)
    requires 0.0 < alpha < 1.0
    ensures previous <= observed ==> previous <= Ewma(alpha, observed, previous) <= observed
    ensures observed <= previous ==> observed <= Ewma(alpha, observed, previous) <= previous
  {
    var e := Ewma(alpha, observed, previous);
    assert e - previous == alpha * (observed - previous);
    assert observed - e == (1.0 - alpha) * (observed - previous);
    if previous <= observed {
      MulNonneg(alpha, observed - previous);
      MulNonneg(1.0 - alpha, observed - previous);
    } else {
      MulNonneg(alpha, previous - observed);
      MulNonneg(1.0 - alpha, previous - observed);
      assert alpha * (observed - previous) == -(alpha * (previous - observed));
      assert (1.0 - alpha) * (observed - previous) == -((1.0 - alpha) * (previous - observed));
    }
  }

  /** A positive service rate observed against a positive estimate keeps
      the estimate positive, so such an update cannot fail. */
  lemma EwmaPositive(alpha: real, observed: real, previous: real)
    requires 0.0 < alpha < 1.0 && observed > 0.0 && previous > 0.0
    ensures Ewma(alpha, observed, previous) > 0.0
  {
    EwmaBetween(alpha, observed, previous);
  }

  function Pow(x: real, n: nat): real
  {
    if n == 0 then 1.0 else x * Pow(x, n - 1)
  }

  /** The estimate after `n` identical observations, from `start`. */
  function Repeated(alpha: real, observed: real, start: real, n: nat): real
  {
    if n == 0 then start else Ewma(alpha, observed, Repeated(alpha, observed, start, n - 1))
  }

  lemma GapStep(alpha: real, observed: real, prev: real, p: real, d: real, q: real)
    requires prev - observed == p * d && q == (1.0 - alpha) * p
    ensures Ewma(alpha, observed, prev) - observed == q * d
  {
    assert Ewma(alpha, observed, prev) - observed == (1.0 - alpha) * (prev - observed);
  }

  /** Each step shrinks the distance to the observation by the factor 1 - α. */
  lemma {:induction false} RepeatedGap(alpha: real, observed: real, start: real, n: nat)
    ensures Repeated(alpha, observed, start, n) - observed == Pow(1.0 - alpha, n) * (start - observed)
  {
    if n > 0 {
      var prev := Repeated(alpha, observed, start, n - 1);
      var p := Pow(1.0 - alpha, n - 1);
      var q := Pow(1.0 - alpha, n);
      RepeatedGap(alpha, observed, start, n - 1);
      assert q == (1.0 - alpha) * p;
      GapStep(alpha, observed, prev, p, start - observed, q);
      assert Repeated(alpha, observed, start, n) == Ewma(alpha, observed, prev);
    }
  }

  lemma BoundStep(alpha: real, p: real, m: real)
    requires 0.0 < alpha < 1.0 && 0.0 <= m && 0.0 < p
    requires p * (1.0 + m * alpha) <= 1.0
    ensures 0.0 < (1.0 - alpha) * p
    ensures ((1.0 - alpha) * p) * (1.0 + (m + 1.0) * alpha) <= 1.0
  {
    var q := 1.0 - alpha;
    MulNonneg(m + 1.0, alpha * alpha);
    assert q * (1.0 + (m + 1.0) * alpha) == 1.0 + m * alpha - (m + 1.0) * (alpha * alpha);
    assert q * (1.0 + (m + 1.0) * alpha) <= 1.0 + m * alpha;
    MulLe(q * (1.0 + (m + 1.0) * alpha), 1.0 + m * alpha, p);
    assert (q * p) * (1.0 + (m + 1.0) * alpha) == (q * (1.0 + (m + 1.0) * alpha)) * p;
    MulNonneg(q, p);
    assert q * p != 0.0;
  }

  /** (1 - α)^n (1 + nα) <= 1, a Bernoulli-type bound. */
  lemma {:induction false} PowBound(alpha: real, n: nat)
    requires 0.0 < alpha < 1.0
    ensures 0.0 < Pow(1.0 - alpha, n)
    ensures Pow(1.0 - alpha, n) * (1.0 + n as real * alpha) <= 1.0
  {
    if n > 0 {
      PowBound(alpha, n - 1);
      var p := Pow(1.0 - alpha, n - 1);
      BoundStep(alpha, p, (n - 1) as real);
      assert 0.0 < (1.0 - alpha) * p;
      assert Pow(1.0 - alpha, n) == (1.0 - alpha) * p;
      assert 0.0 < Pow(1.0 - alpha, n);
      assert (n - 1) as real + 1.0 == n as real;
    }
  }

  function Abs(x: real): real
  {
    if x < 0.0 then -x else x
  }

  /** `x` is `d` scaled by a positive `p` with `p * k <= 1`. */
  predicate Shrunk(x: real, d: real, p: real, k: real)
  {
    x == p * d && 0.0 < p && 0.0 <= k && p * k <= 1.0
  }

  lemma ScaledAbs(x: real, d: real, p: real, k: real)
    requires Shrunk(x, d, p, k)
    ensures Abs(x) * k <= Abs(d)
  {
    assert Abs(x) == p * Abs(d);
    assert p * Abs(d) * k == (p * k) * Abs(d);
    MulLe(p * k, 1.0, Abs(d));
  }

  lemma RepeatedShrunk(alpha: real, observed: real, start: real, n: nat)
    requires 0.0 < alpha < 1.0
    ensures Shrunk(Repeated(alpha, observed, start, n) - observed, start - observed,
                   Pow(1.0 - alpha, n), 1.0 + n as real * alpha)
  {
    RepeatedGap(alpha, observed, start, n);
    PowBound(alpha, n);
    MulNonneg(n as real, alpha);
  }

  /** EWMA convergence: after `n` identical observations the estimate is
      within |start - observed| / (1 + nα) of the observation. It applies
      to λ and to μ alike. */
  lemma EwmaConverges(alpha: real, observed: real, start: real, n: nat)
    requires 0.0 < alpha < 1.0
    ensures Abs(Repeated(alpha, observed, start, n) - observed) * (1.0 + n as real * alpha)
            <= Abs(start - observed)
  {
    var x := Repeated(alpha, observed, start, n) - observed;
    var d := start - observed;
    var p := Pow(1.0 - alpha, n);
    var k := 1.0 + n as real * alpha;
    RepeatedShrunk(alpha, observed, start, n);
    assert Shrunk(x, d, p, k);
    ScaledAbs(x, d, p, k);
  }

  /** A row written by the service: μ positive and ρ recomputed from the
      current λ and μ. */
  predicate WellFormed(f: Feature)
  {
    f.muEst > 0.0 && f.rho == Utilization(f.lambdaEst, f.muEst)
  }

  predicate UniqueUnits(table: seq<Feature>)
  {
    forall i, j :: 0 <= i < j < |table| ==> table[i].unit != table[j].unit
  }

  /** `query(Feature).filter_by(unit=unit).first()`, as an index. */
  function FindUnit(table: seq<Feature>, unit: string): (r: Option<nat>)
    ensures r.Some? ==> r.value < |table| && table[r.value].unit == unit
    ensures r.Some? ==> forall k :: 0 <= k < r.value ==> table[k].unit != unit
    ensures r.None? <==> forall k :: 0 <= k < |table| ==> table[k].unit != unit
  {
    if table == [] then None
    else if table[0].unit == unit then Some(0)
    else match FindUnit(table[1..], unit)
      case None => None
      case Some(i) => Some(i + 1)
  }

  /** The row `get_or_create_feature` creates with its default estimates. */
  function DefaultFeature(unit: string): Feature
  {
    Feature(unit, DefaultInitialLambda, DefaultInitialMu, Utilization(DefaultInitialLambda, DefaultInitialMu))
  }

  /** The default estimates give ρ = 1.0 / 10.0 = 0.1, which the default
      settings place at the permissive level. */
  lemma DefaultFeatureRho(unit: string)
    ensures WellFormed(DefaultFeature(unit)) && DefaultFeature(unit).rho == 0.1
    ensures FeatureModel.GetProtectionLevel(DefaultFeature(unit), DefaultSettings) == Permissive
  {
  }

  /** The table once `get_or_create_feature(unit)` has run. */
  function WithUnit(table: seq<Feature>, unit: string): seq<Feature>
  {
    if FindUnit(table, unit).Some? then table else table + [DefaultFeature(unit)]
  }

  lemma WithUnitHasUnit(table: seq<Feature>, unit: string)
    ensures FindUnit(WithUnit(table, unit), unit).Some?
  {
    if FindUnit(table, unit).None? {
      assert WithUnit(table, unit)[|table|].unit == unit;
    }
  }

  /** The row `get_or_create_feature(unit)` returns. */
  function RecordOf(table: seq<Feature>, unit: string): Feature
  {
    match FindUnit(table, unit)
    case Some(i) => table[i]
    case None => DefaultFeature(unit)
  }

  /** `table` with the row of `f.unit` replaced by `f`. */
  function Replace(table: seq<Feature>, f: Feature): seq<Feature>
  {
    seq(|table|, i requires 0 <= i < |table| => if table[i].unit == f.unit then f else table[i])
  }

  /** Storing a well-formed row over the row of its unit keeps the table
      well-formed and replaces exactly that row. */
  lemma ReplaceAt(table: seq<Feature>, i: nat, f: Feature)
    requires UniqueUnits(table) && forall k :: 0 <= k < |table| ==> WellFormed(table[k])
    requires i < |table| && table[i].unit == f.unit && WellFormed(f)
    ensures table[i := f] == Replace(table, f)
    ensures var t := table[i := f]; UniqueUnits(t) && forall k :: 0 <= k < |t| ==> WellFormed(t[k])
  {
  }

  class QueueingService {
    const alpha: real
    const thresholdLow: real
    const thresholdHigh: real
    /** The global settings object, read by the protection level. */
    const settings: Settings
    var features: seq<Feature>

    ghost predicate Valid()
      reads this
    {
      && 0.0 < alpha < 1.0
      && 0.0 < thresholdLow < thresholdHigh < 1.0
      && settings.Valid()
      && UniqueUnits(features)
      && forall i :: 0 <= i < |features| ==> WellFormed(features[i])
    }

    constructor (alpha: real, thresholdLow: real, thresholdHigh: real, settings: Settings)
      requires 0.0 < alpha < 1.0 && 0.0 < thresholdLow < thresholdHigh < 1.0
      requires settings.Valid()
      ensures Valid() && features == []
      ensures this.alpha == alpha && this.thresholdLow == thresholdLow
      ensures this.thresholdHigh == thresholdHigh && this.settings == settings
    {
      this.alpha := alpha;
      this.thresholdLow := thresholdLow;
      this.thresholdHigh := thresholdHigh;
      this.settings := settings;
      features := [];
    }

    /** Every stored utilisation is capped and current. */
    lemma RhoInvariant(i: nat)
      requires Valid() && i < |features|
      ensures features[i].rho <= RhoCap
      ensures features[i].rho == features[i].lambdaEst / features[i].muEst || features[i].rho == RhoCap
    {
      assert WellFormed(features[i]);
    }

    function GetFeature(unit: string): (r: Option<Feature>)
      reads this
      ensures r.Some? <==> exists k :: 0 <= k < |features| && features[k].unit == unit
      ensures r.Some? ==> r.value in features && r.value.unit == unit
    {
      match FindUnit(features, unit)
      case Some(i) => Some(features[i])
      case None => None
    }

    method GetOrCreateFeature(unit: string, initialLambda: real, initialMu: real) returns (r: Result<Feature>)
      requires Valid()
      modifies this
      ensures Valid()
      ensures FindUnit(old(features), unit).Some? ==>
                r == Ok(old(features)[FindUnit(old(features), unit).value]) && features == old(features)
      ensures FindUnit(old(features), unit).None? && initialMu <= 0.0 ==>
                r.Err? && features == old(features)
      ensures FindUnit(old(features), unit).None? && initialMu > 0.0 ==>
                && r == Ok(Feature(unit, initialLambda, initialMu, Utilization(initialLambda, initialMu)))
                && features == old(features) + [r.value]
    {
      var found := FindUnit(features, unit);
      if found.Some? {
        return Ok(features[found.value]);
      }
      var rho := CalculateRho(initialLambda, initialMu);
      if rho.Err? {
        return Err(rho.error);
      }
      var f := Feature(unit, initialLambda, initialMu, rho.value);
      features := features + [f];
      r := Ok(f);
    }

    /** `update_feature`: get-or-create with the defaults, then one EWMA
        step for λ and μ and a recomputed ρ. The new values are computed
        before any is stored, so a failing update stores nothing. */
    method UpdateFeature(unit: string, arrivalRate: real, serviceRate: real) returns (r: Result<Feature>)
      requires Valid()
      modifies this
      ensures Valid()
      ensures var prev := RecordOf(old(features), unit);
              var newLambda := Ewma(alpha, arrivalRate, prev.lambdaEst);
              var newMu := Ewma(alpha, serviceRate, prev.muEst);
              && (r.Err? <==> newMu <= 0.0)
              && (r.Err? ==> features == WithUnit(old(features), unit))
              && (r.Ok? ==> && r.value == Feature(unit, newLambda, newMu, Utilization(newLambda, newMu))
                            && features == Replace(WithUnit(old(features), unit), r.value))
      ensures serviceRate > 0.0 ==> r.Ok?
      ensures FindUnit(old(features), unit).Some? && r.Err? ==> features == old(features)
    {
      ghost var table0 := features;
      var got := GetOrCreateFeature(unit, DefaultInitialLambda, DefaultInitialMu);
      var f := got.value;
      assert f == RecordOf(table0, unit) && features == WithUnit(table0, unit);
      var newLambda := Ewma(alpha, arrivalRate, f.lambdaEst);
      var newMu := Ewma(alpha, serviceRate, f.muEst);
      assert WellFormed(f) by {
        if FindUnit(table0, unit).Some? { assert f == table0[FindUnit(table0, unit).value]; }
      }
      if serviceRate > 0.0 {
        EwmaPositive(alpha, serviceRate, f.muEst);
      }
      var rho := CalculateRho(newLambda, newMu);
      if rho.Err? {
        return Err(rho.error);
      }
      var updated := Feature(unit, newLambda, newMu, rho.value);
      WithUnitHasUnit(table0, unit);
      var i := FindUnit(features, unit).value;
      ReplaceAt(features, i, updated);
      features := features[i := updated];
      r := Ok(updated);
    }

    /** `get_protection_level`: get-or-create with the defaults, then the
        level under the global settings thresholds (not this service's
        own `thresholdLow`/`thresholdHigh`). */
    method GetProtectionLevel(unit: string) returns (level: ProtectionLevel)
      requires Valid()
      modifies this
      ensures Valid()
      ensures features == WithUnit(old(features), unit)
      ensures level == FeatureModel.GetProtectionLevel(RecordOf(old(features), unit), settings)
      ensures FindUnit(old(features), unit).None? ==> (level == Permissive <==> 0.1 < settings.queueThresholdLow)
    {
      var got := GetOrCreateFeature(unit, DefaultInitialLambda, DefaultInitialMu);
      level := FeatureModel.GetProtectionLevel(got.value, settings);
    }

    /** `should_auto_relax`: only for a tracked unit, hard-coded at 0.5. */
    function ShouldAutoRelax(unit: string): (r: bool)
      reads this
      ensures GetFeature(unit).None? ==> !r
      ensures GetFeature(unit).Some? ==> (r <==> GetFeature(unit).value.rho < AutoRelaxThreshold)
    {
      match GetFeature(unit)
      case None => false
      case Some(f) => f.rho < AutoRelaxThreshold
    }

    /** With the low settings threshold at 0.5 or above (0.6 by default)
        auto-relaxation is only ever signalled for a unit that is already
        at the permissive level, and never for one at a stricter level. */
    lemma AutoRelaxOnlyWhenPermissive(unit: string)
      requires Valid() && settings.queueThresholdLow >= AutoRelaxThreshold
      requires ShouldAutoRelax(unit)
      ensures GetFeature(unit).Some?
      ensures FeatureModel.GetProtectionLevel(GetFeature(unit).value, settings) == Permissive
    {
    }

    /** `get_all_features`: every row, highest ρ first. */
    function GetAllFeatures(): (r: seq<Feature>)
      reads this
      ensures multiset(r) == multiset(features)
      ensures forall i, j :: 0 <= i < j < |r| ==> r[i].rho >= r[j].rho
    {
      var key := (f: Feature) => f.rho;
      var le := (a: real, b: real) => a >= b;
      assert IsTotalPreorder(le);
      var r := SortBy(features, key, le);
      assert SortedBy(r, key, le);
      r
    }
  }

  /** The constructor's defaults and validation: α, low and high fall back
      to the settings, then 0 < α < 1 and 0 < low < high < 1 are checked. */
  method NewQueueingService(alpha: Option<real>, thresholdLow: Option<real>,
                            thresholdHigh: Option<real>, settings: Settings)
    returns (r: Result<QueueingService>)
    requires settings.Valid()
    ensures var a := if alpha.Some? then alpha.value else settings.queueAlpha;
            var lo := if thresholdLow.Some? then thresholdLow.value else settings.queueThresholdLow;
            var hi := if thresholdHigh.Some? then thresholdHigh.value else settings.queueThresholdHigh;
            && (r.Ok? <==> 0.0 < a < 1.0 && 0.0 < lo < hi < 1.0)
            && (r.Ok? ==> && fresh(r.value) && r.value.Valid() && r.value.features == []
                          && r.value.alpha == a && r.value.thresholdLow == lo
                          && r.value.thresholdHigh == hi && r.value.settings == settings)
  {
    var a := if alpha.Some? then alpha.value else settings.queueAlpha;
    var lo := if thresholdLow.Some? then thresholdLow.value else settings.queueThresholdLow;
    var hi := if thresholdHigh.Some? then thresholdHigh.value else settings.queueThresholdHigh;
    if !(0.0 < a < 1.0) {
      return Err(ValueError("Alpha must be between 0 and 1"));
    }
    if !(0.0 < lo < hi < 1.0) {
      return Err(ValueError("Thresholds must satisfy 0 < low < high < 1"));
    }
    var s := new QueueingService(a, lo, hi, settings);
    r := Ok(s);
  }
}
