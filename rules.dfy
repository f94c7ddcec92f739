/**
 * The cohort rules: DailySpendRule, MidSpendRule and the anonymous rule that
 * CohortRuleFactory.createCustomRule builds. A rule has a name, the cohort
 * type it assigns, and an evaluation of a (possibly null) customer. Spend is
 * compared only, so it is modelled as a real.
 */
module Rules {
  import opened Wrappers
  import opened Types
  import opened Customers

  const DefaultDailySpendThreshold: real := 5000.0
  const MidSpendMinThreshold: real := 3000.0
  const MidSpendMaxThreshold: real := 5000.0

  /**
   * DailySpend: DailySpendRule with its immutable threshold; it always assigns PREMIUM.
   * MidSpend: MidSpendRule with the cohort type it assigns; its thresholds are constants.
   * Custom: the custom rule with its type, optional bounds and optional
   * PAID requirement (a Java Boolean, which may be null).
   */
  datatype Rule =
    | DailySpend(threshold: real)
    | MidSpend(target: CohortType)
    | Custom(target: CohortType, minThreshold: Option<real>, maxThreshold: Option<real>, requirePaidUser: Option<bool>)
  {
    /** getName. */
    function Name(): (s: string)
      ensures |s| > 0 && '_' !in s
    {
      match this
      case DailySpend(_) => "DailySpend"
      case MidSpend(_) => "MidSpend"
      case Custom(t, _, _, _) => "CustomRule-" + CohortTypeName(t)
    }

    /** getCohortType. */
    function CohortTypeOf(): (t: CohortType)
      ensures DailySpend? ==> t == Premium
      ensures !DailySpend? ==> t == target
    {
      match this
      case DailySpend(_) => Premium
      case MidSpend(t) => t
      case Custom(t, _, _, _) => t
    }

    /**
     * evaluate. The built-in rules never throw; the custom rule unboxes a
     * null dailySpend when it has a bound, which throws NullPointerException.
     */
    function Evaluate(c: Option<CustomerRecord>): (r: Result<bool, Exception>)
      ensures c.None? ==> r == Success(false)
      ensures r.Failure? <==> Custom? && c.Some? && c.value.dailySpend.None? && (minThreshold.Some? || maxThreshold.Some?)
      ensures r.Failure? ==> r.error == NullPointerException
    {
      match this
      case DailySpend(threshold) =>
        if c.None? || c.value.dailySpend.None? then Success(false)
        else Success(c.value.dailySpend.value > threshold)
      case MidSpend(t) =>
        if c.None? || c.value.dailySpend.None? then Success(false)
        else
          var spend := c.value.dailySpend.value;
          var isInMidRange := spend > MidSpendMinThreshold && spend < MidSpendMaxThreshold;
          if !isInMidRange then Success(false)
          else if t == Premium then Success(c.value.userType == Some(Paid))
          else Success(true)
      case Custom(_, minT, maxT, paid) =>
        if c.None? then Success(false)
        else if minT.Some? && c.value.dailySpend.None? then Failure(NullPointerException)
        else if minT.Some? && c.value.dailySpend.value < minT.value then Success(false)
        else if maxT.Some? && c.value.dailySpend.None? then Failure(NullPointerException)
        else if maxT.Some? && c.value.dailySpend.value > maxT.value then Success(false)
        else if paid == Some(true) && c.value.userType != Some(Paid) then Success(false)
        else Success(true)
    }

    /** The rule evaluates to true (and does not throw). */
    predicate Fires(c: Option<CustomerRecord>)
    {
      Evaluate(c) == Success(true)
    }

    /** DailySpendRule.getThreshold. */
    function Threshold(): (t: real)
      requires DailySpend?
      ensures DailySpend(t) == this
    {
      threshold
    }

    /** MidSpendRule.getMinThreshold. */
    function MinThreshold(): (t: real)
      requires MidSpend?
      ensures t == 3000.0
    {
      MidSpendMinThreshold
    }

    /** MidSpendRule.getMaxThreshold. */
    function MaxThreshold(): (t: real)
      requires MidSpend?
      ensures t == 5000.0
    {
      MidSpendMaxThreshold
    }
  }

  /** new DailySpendRule(): this(5000.0). */
  function NewDefaultDailySpend(): (r: Rule)
    ensures r.DailySpend? && r.Threshold() == 5000.0
  {
    DailySpend(DefaultDailySpendThreshold)
  }

  /** new MidSpendRule(): this(NORMAL). */
  function NewDefaultMidSpend(): (r: Rule)
    ensures r.MidSpend? && r.CohortTypeOf() == Normal
  {
    MidSpend(Normal)
  }

  function SampleCustomer(spend: real, u: UserType): CustomerRecord
  {
    CustomerRecord(Some("customer"), Some(spend), Some(u))
  }

  // ---------------------------------------------------------------------
  // DailySpendRule

  /** A null customer or a null dailySpend never matches. */
  lemma DailySpendNullIsFalse(threshold: real, c: CustomerRecord)
    requires c.dailySpend.None?
    ensures DailySpend(threshold).Evaluate(None) == Success(false)
    ensures DailySpend(threshold).Evaluate(Some(c)) == Success(false)
  {
  }

  /** It matches exactly when the spend is strictly above the threshold. */
  lemma DailySpendFiresIff(threshold: real, c: CustomerRecord)
    ensures DailySpend(threshold).Fires(Some(c)) <==> c.dailySpend.Some? && c.dailySpend.value > threshold
  {
  }

  /** The default threshold is a strict boundary. */
  lemma DailySpendBoundary(u: UserType)
    ensures !NewDefaultDailySpend().Fires(Some(SampleCustomer(5000.0, u)))
    ensures NewDefaultDailySpend().Fires(Some(SampleCustomer(5000.01, u)))
    ensures !NewDefaultDailySpend().Fires(Some(SampleCustomer(4999.99, u)))
  {
  }

  /** Whatever the threshold, the name is DailySpend and the type PREMIUM; the threshold is returned unchanged. */
  lemma DailySpendIdentity(threshold: real)
    ensures DailySpend(threshold).Name() == "DailySpend"
    ensures DailySpend(threshold).CohortTypeOf() == Premium
    ensures DailySpend(threshold).Threshold() == threshold
  {
  }

  /** Monotone: a higher spend still matches. */
  lemma DailySpendMonotone(threshold: real, c: CustomerRecord, higher: real)
    requires DailySpend(threshold).Fires(Some(c))
    requires higher > c.dailySpend.value
    ensures DailySpend(threshold).Fires(Some(c.(dailySpend := Some(higher))))
  {
  }

  /** Only the spend matters, not the id or the user type. */
  lemma DailySpendIgnoresIdAndUserType(threshold: real, c: CustomerRecord, d: CustomerRecord)
    requires c.dailySpend == d.dailySpend
    ensures DailySpend(threshold).Evaluate(Some(c)) == DailySpend(threshold).Evaluate(Some(d))
  {
  }

  // ---------------------------------------------------------------------
  // MidSpendRule

  /** A null customer or a null dailySpend never matches. */
  lemma MidSpendNullIsFalse(t: CohortType, c: CustomerRecord)
    requires c.dailySpend.None?
    ensures MidSpend(t).Evaluate(None) == Success(false)
    ensures MidSpend(t).Evaluate(Some(c)) == Success(false)
  {
  }

  /** Outside the open range (3000, 5000) no variant matches; both bounds are excluded. */
  lemma MidSpendOutOfRange(t: CohortType, c: CustomerRecord)
    requires c.dailySpend.Some? && (c.dailySpend.value <= 3000.0 || c.dailySpend.value >= 5000.0)
    ensures MidSpend(t).Evaluate(Some(c)) == Success(false)
  {
  }

  /** In range, the PREMIUM variant matches exactly the PAID customers. */
  lemma MidSpendPremiumGate(c: CustomerRecord)
    requires c.dailySpend.Some? && 3000.0 < c.dailySpend.value < 5000.0
    ensures MidSpend(Premium).Fires(Some(c)) <==> c.userType == Some(Paid)
  {
  }

  lemma MidSpendPremiumExamples()
    ensures MidSpend(Premium).Fires(Some(SampleCustomer(4000.0, Paid)))
    ensures !MidSpend(Premium).Fires(Some(SampleCustomer(4000.0, Free)))
  {
  }

  /** In range, every variant other than PREMIUM matches whatever the user type. */
  lemma MidSpendOtherVariants(t: CohortType, c: CustomerRecord)
    requires t != Premium
    requires c.dailySpend.Some? && 3000.0 < c.dailySpend.value < 5000.0
    ensures MidSpend(t).Fires(Some(c))
  {
  }

  /** A PREMIUM match implies a NORMAL match for the same customer. */
  lemma MidSpendPremiumImpliesNormal(c: Option<CustomerRecord>)
    requires MidSpend(Premium).Fires(c)
    ensures MidSpend(Normal).Fires(c)
  {
  }

  /** The name is MidSpend for every variant; the thresholds are 3000 and 5000; the default is NORMAL. */
  lemma MidSpendIdentity(t: CohortType)
    ensures MidSpend(t).Name() == "MidSpend"
    ensures MidSpend(t).CohortTypeOf() == t
    ensures MidSpend(t).MinThreshold() == 3000.0 && MidSpend(t).MaxThreshold() == 5000.0
    ensures NewDefaultMidSpend() == MidSpend(Normal)
  {
  }

  // ---------------------------------------------------------------------
  // The custom rule

  /** The conditions of the custom rule, as a formula: inclusive bounds, then the PAID gate. */
  predicate CustomConditions(minT: Option<real>, maxT: Option<real>, paid: Option<bool>, c: CustomerRecord)
    requires (minT.Some? || maxT.Some?) ==> c.dailySpend.Some?
  {
    && (minT.None? || minT.value <= c.dailySpend.value)
    && (maxT.None? || c.dailySpend.value <= maxT.value)
    && (paid != Some(true) || c.userType == Some(Paid))
  }

  /**
   * The sequential guards of the custom evaluate are the conjunction of its
   * conditions; the only failure is a null spend with a bound present.
   */
  lemma CustomEvaluateIff(t: CohortType, minT: Option<real>, maxT: Option<real>, paid: Option<bool>, c: CustomerRecord)
    ensures var r := Custom(t, minT, maxT, paid).Evaluate(Some(c));
      if (minT.Some? || maxT.Some?) && c.dailySpend.None? then r == Failure(NullPointerException)
      else r == Success(CustomConditions(minT, maxT, paid, c))
  {
  }

  /** Both bounds are inclusive. */
  lemma CustomBoundsInclusive(t: CohortType, lo: real, hi: real, u: UserType)
    requires lo <= hi
    ensures Custom(t, Some(lo), Some(hi), None).Fires(Some(SampleCustomer(lo, u)))
    ensures Custom(t, Some(lo), Some(hi), None).Fires(Some(SampleCustomer(hi, u)))
  {
  }

  /** A custom rule with no bounds and no PAID requirement matches every non-null customer, even with a null spend. */
  lemma CustomUnconstrained(t: CohortType, paid: Option<bool>, c: CustomerRecord)
    requires paid != Some(true)
    ensures Custom(t, None, None, paid).Fires(Some(c))
  {
  }

  /** The custom rule is named after its type and assigns that type. */
  lemma CustomIdentity(t: CohortType, minT: Option<real>, maxT: Option<real>, paid: Option<bool>)
    ensures Custom(t, minT, maxT, paid).Name() == "CustomRule-" + CohortTypeName(t)
    ensures Custom(t, minT, maxT, paid).CohortTypeOf() == t
    ensures Custom(t, minT, maxT, paid).Evaluate(None) == Success(false)
  {
  }
}
