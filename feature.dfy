/** The Feature record (utc/models/feature.py): per-unit load estimates and
    the protection level they imply under the global settings. */
module FeatureModel {

  /** One row of the features table: λ, μ and ρ for a unit. */
  datatype Feature = Feature(unit: string, lambdaEst: real, muEst: real, rho: real)

  datatype ProtectionLevel = Permissive | RequireApproval | ReadOnly
  {
    function Value(): string
    {
      match this
      case Permissive => "permissive"
      case RequireApproval => "require_approval"
      case ReadOnly => "read_only"
    }

    /** Strictness order of the levels. */
    function Rank(): nat
    {
      match this
      case Permissive => 0
      case RequireApproval => 1
      case ReadOnly => 2
    }
  }

  /** The queue fields of the process-wide settings object. Its loader
      enforces `Valid` before anything reads it. */
  datatype Settings = Settings(queueAlpha: real, queueThresholdLow: real, queueThresholdHigh: real)
  {
    predicate Valid()
    {
      && 0.0 < queueAlpha < 1.0
      && 0.0 < queueThresholdLow < 1.0
      && 0.0 < queueThresholdHigh < 1.0
      && queueThresholdLow < queueThresholdHigh
    }
  }

  const DefaultSettings: Settings := Settings(0.3, 0.6, 0.9)

  predicate IsCritical(f: Feature, settings: Settings)
  {
    f.rho >= settings.queueThresholdHigh
  }

  predicate IsElevated(f: Feature, settings: Settings)
  {
    f.rho >= settings.queueThresholdLow
  }

  /** The level is read from the *global settings* thresholds. The three
      levels partition the ρ axis for any thresholds. */
  function GetProtectionLevel(f: Feature, settings: Settings): (r: ProtectionLevel)
    ensures r == ReadOnly <==> f.rho >= settings.queueThresholdHigh
    ensures r == RequireApproval <==> settings.queueThresholdLow <= f.rho < settings.queueThresholdHigh
    ensures r == Permissive <==> f.rho < settings.queueThresholdLow && f.rho < settings.queueThresholdHigh
  {
    if IsCritical(f, settings) then ReadOnly
    else if IsElevated(f, settings) then RequireApproval
    else Permissive
  }

  /** Under ordered thresholds a critical feature is also elevated, and
      ρ below the low threshold alone means permissive. */
  lemma CriticalImpliesElevated(f: Feature, settings: Settings)
    requires settings.queueThresholdLow < settings.queueThresholdHigh
    ensures IsCritical(f, settings) ==> IsElevated(f, settings)
    ensures GetProtectionLevel(f, settings) == Permissive <==> f.rho < settings.queueThresholdLow
  {
  }

  /** A higher utilisation never gives a less strict level. */
  lemma ProtectionLevelMonotone(f: Feature, g: Feature, settings: Settings)
    requires settings.queueThresholdLow < settings.queueThresholdHigh
    requires f.rho <= g.rho
    ensures GetProtectionLevel(f, settings).Rank() <= GetProtectionLevel(g, settings).Rank()
  {
  }
}
