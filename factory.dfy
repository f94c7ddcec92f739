/**
 * CohortRuleFactory: turns the rule configuration (CohortRuleProperties)
 * into an ordered list of rules, falling back to the three default rules.
 */
module RuleFactory {
  import opened Wrappers
  import opened Types
  import opened JavaStrings
  import opened Customers
  import opened Rules

  /** CohortRuleProperties.RuleConfig; every field may be null. */
  datatype RuleConfig = RuleConfig(
    ruleType: JString,
    cohortType: Option<CohortType>,
    minThreshold: Option<real>,
    maxThreshold: Option<real>,
    requirePaidUser: Option<bool>)

  /** CohortRuleProperties: a null list, or a list whose entries may be null. */
  datatype RuleProperties = RuleProperties(enabled: bool, configurations: Option<seq<Option<RuleConfig>>>)

  /** getDefaultRules: DailySpend(5000) for PREMIUM, MidSpend for NORMAL, MidSpend for PREMIUM. */
  function DefaultRules(): (rules: seq<Rule>)
    ensures |rules| == 3
    ensures rules[0].DailySpend? && rules[0].Threshold() == 5000.0
    ensures rules[0].Name() == "DailySpend" && rules[0].CohortTypeOf() == Premium
    ensures rules[1].MidSpend? && rules[1].Name() == "MidSpend" && rules[1].CohortTypeOf() == Normal
    ensures rules[2].MidSpend? && rules[2].Name() == "MidSpend" && rules[2].CohortTypeOf() == Premium
  {
    [NewDefaultDailySpend(), NewDefaultMidSpend(), MidSpend(Premium)]
  }

  /**
   * createCustomRule. Its only caller has already checked that the
   * cohort type is present.
   */
  function CreateCustomRule(config: RuleConfig): (r: Rule)
    requires config.cohortType.Some?
    ensures r.Custom? && r.CohortTypeOf() == config.cohortType.value
    ensures r.Name() == "CustomRule-" + CohortTypeName(config.cohortType.value)
    ensures r.minThreshold == config.minThreshold && r.maxThreshold == config.maxThreshold
    ensures r.requirePaidUser == config.requirePaidUser
  {
    Custom(config.cohortType.value, config.minThreshold, config.maxThreshold, config.requirePaidUser)
  }

  /** createRule: the rule a configuration describes, or None (Java null) when it is invalid. */
  function CreateRule(config: RuleConfig): (r: Option<Rule>)
    ensures r.Some? ==> config.ruleType.Some?
  {
    if config.ruleType.None? then None
    else
      var kind := ToLower(config.ruleType.value);
      if kind == "daily-spend" then
        Some(if config.maxThreshold.None? then NewDefaultDailySpend() else DailySpend(config.maxThreshold.value))
      else if kind == "mid-spend" then
        Some(if config.cohortType.None? then NewDefaultMidSpend() else MidSpend(config.cohortType.value))
      else if kind == "custom-rule" then
        if config.cohortType.None? then None else Some(CreateCustomRule(config))
      else None
  }

  /** What one list entry contributes: nothing for a null entry (its NullPointerException is caught) or an invalid one. */
  function Contribution(entry: Option<RuleConfig>): (rs: seq<Rule>)
    ensures |rs| <= 1
  {
    match entry
    case None => []
    case Some(config) => match CreateRule(config) case Some(r) => [r] case None => []
  }

  /** The rules the loop of createRules appends, in list order. */
  function CreatedRules(entries: seq<Option<RuleConfig>>): (rules: seq<Rule>)
    ensures |rules| <= |entries|
  {
    if entries == [] then []
    else CreatedRules(entries[..|entries| - 1]) + Contribution(entries[|entries| - 1])
  }

  /**
   * createRules: the defaults when disabled; a NullPointerException when
   * the list itself is null; the created rules, or the defaults if none.
   */
  function RulesFor(props: RuleProperties): Result<seq<Rule>, Exception>
  {
    if !props.enabled then Success(DefaultRules())
    else if props.configurations.None? then Failure(NullPointerException)
    else
      var created := CreatedRules(props.configurations.value);
      if created == [] then Success(DefaultRules()) else Success(created)
  }

  /** getDefaultRules, appending to a fresh list. */
  method GetDefaultRules() returns (rules: seq<Rule>)
    ensures rules == DefaultRules()
  {
    rules := [];
    rules := rules + [DailySpend(DefaultDailySpendThreshold)];
    rules := rules + [MidSpend(Normal)];
    rules := rules + [MidSpend(Premium)];
  }

  /** createRules: the loop over the configuration list. */
  method CreateRules(props: RuleProperties) returns (result: Result<seq<Rule>, Exception>)
    ensures result == RulesFor(props)
  {
    if !props.enabled {
      var defaults := GetDefaultRules();
      return Success(defaults);
    }
    if props.configurations.None? {
      return Failure(NullPointerException);
    }
    var entries := props.configurations.value;
    var rules: seq<Rule> := [];
    var i := 0;
    while i < |entries|
      invariant 0 <= i <= |entries|
      invariant rules == CreatedRules(entries[..i])
    {
      assert entries[..i + 1][..i] == entries[..i];
      match entries[i] {
        case None =>
        case Some(config) =>
          var rule := CreateRule(config);
          if rule.Some? {
            rules := rules + [rule.value];
          }
      }
      i := i + 1;
    }
    assert entries[..|entries|] == entries;
    if rules == [] {
      var defaults := GetDefaultRules();
      return Success(defaults);
    }
    return Success(rules);
  }

  // ---------------------------------------------------------------------
  // Properties of the factory

  /** The defaults, in order: (DailySpend, PREMIUM, threshold 5000), (MidSpend, NORMAL), (MidSpend, PREMIUM). */
  lemma DefaultRulesShape()
    ensures DefaultRules()[0].Name() == "DailySpend" && DefaultRules()[0].CohortTypeOf() == Premium
    ensures DefaultRules()[0].Threshold() == 5000.0
    ensures DefaultRules()[1].Name() == "MidSpend" && DefaultRules()[1].CohortTypeOf() == Normal
    ensures DefaultRules()[2].Name() == "MidSpend" && DefaultRules()[2].CohortTypeOf() == Premium
  {
  }

  /** Disabled configuration: exactly the defaults, whatever the list holds. */
  lemma DisabledGivesDefaults(props: RuleProperties)
    requires !props.enabled
    ensures RulesFor(props) == Success(DefaultRules())
  {
  }

  /** The result is never empty. */
  lemma RulesNeverEmpty(props: RuleProperties)
    ensures RulesFor(props).Success? ==> |RulesFor(props).value| >= 1
  {
  }

  /** The loop is a homomorphism over concatenation: valid entries keep their list order. */
  lemma {:induction false} CreatedRulesAppend(a: seq<Option<RuleConfig>>, b: seq<Option<RuleConfig>>)
    ensures CreatedRules(a + b) == CreatedRules(a) + CreatedRules(b)
    decreases |b|
  {
    if b == [] {
      assert a + b == a;
    } else {
      var b' := b[..|b| - 1];
      assert (a + b)[..|a + b| - 1] == a + b';
      assert (a + b)[|a + b| - 1] == b[|b| - 1];
      CreatedRulesAppend(a, b');
    }
  }

  /** A single entry contributes exactly its own rule, if any. */
  lemma CreatedRulesSingle(e: Option<RuleConfig>)
    ensures CreatedRules([e]) == Contribution(e)
  {
    assert [e][..0] == [];
  }

  /** Every created rule comes from an entry of the list. */
  lemma {:induction false} CreatedRuleEntry(entries: seq<Option<RuleConfig>>, r: Rule) returns (i: nat)
    requires r in CreatedRules(entries)
    ensures i < |entries| && entries[i].Some? && CreateRule(entries[i].value) == Some(r)
  {
    var init := entries[..|entries| - 1];
    if r in CreatedRules(init) {
      i := CreatedRuleEntry(init, r);
      assert entries[i] == init[i];
    } else {
      i := |entries| - 1;
    }
  }

  /** The rule of every valid entry is created. */
  lemma {:induction false} EntryRuleCreated(entries: seq<Option<RuleConfig>>, i: nat, r: Rule)
    requires i < |entries| && entries[i].Some? && CreateRule(entries[i].value) == Some(r)
    ensures r in CreatedRules(entries)
  {
    var init := entries[..|entries| - 1];
    if i < |init| {
      assert init[i] == entries[i];
      EntryRuleCreated(init, i, r);
    } else {
      assert r in Contribution(entries[i]);
    }
  }

  /** A rule is in the result iff some non-null entry of the list creates it. */
  lemma CreatedRulesMembership(entries: seq<Option<RuleConfig>>, r: Rule)
    ensures r in CreatedRules(entries) <==>
      exists i :: 0 <= i < |entries| && entries[i].Some? && CreateRule(entries[i].value) == Some(r)
  {
    if r in CreatedRules(entries) {
      var i := CreatedRuleEntry(entries, r);
    }
    if exists i :: 0 <= i < |entries| && entries[i].Some? && CreateRule(entries[i].value) == Some(r) {
      var i :| 0 <= i < |entries| && entries[i].Some? && CreateRule(entries[i].value) == Some(r);
      EntryRuleCreated(entries, i, r);
    }
  }

  /** Invalid entries (null, null type, unknown type, custom-rule without cohort type) contribute nothing. */
  lemma InvalidEntriesAreSkipped(a: seq<Option<RuleConfig>>, e: Option<RuleConfig>, b: seq<Option<RuleConfig>>)
    requires e.None? || CreateRule(e.value).None?
    ensures CreatedRules(a + [e] + b) == CreatedRules(a + b)
  {
    CreatedRulesAppend(a + [e], b);
    CreatedRulesAppend(a, [e]);
    CreatedRulesSingle(e);
    CreatedRulesAppend(a, b);
  }

  /** A configuration without a rule type, or with a type that is none of the three, creates no rule. */
  lemma SkippedConfigurations(config: RuleConfig)
    ensures config.ruleType.None? ==> CreateRule(config).None?
    ensures config.ruleType.Some? && ToLower(config.ruleType.value) !in {"daily-spend", "mid-spend", "custom-rule"}
      ==> CreateRule(config).None?
  {
  }

  /** A custom-rule configuration without a cohort type creates no rule. */
  lemma CustomRuleNeedsCohortType(config: RuleConfig)
    requires config.ruleType.Some? && ToLower(config.ruleType.value) == "custom-rule"
    ensures config.cohortType.None? <==> CreateRule(config).None?
  {
  }

  /** The rule type is matched case-insensitively. */
  lemma CreateRuleCaseInsensitive(config: RuleConfig, other: string)
    requires config.ruleType.Some? && ToLower(other) == ToLower(config.ruleType.value)
    ensures CreateRule(config.(ruleType := Some(other))) == CreateRule(config)
  {
  }

  /**
   * daily-spend (in any letter case) takes its threshold from maxThreshold,
   * defaulting to 5000; mid-spend takes the cohort type, defaulting to
   * NORMAL; custom-rule with a cohort type copies the bounds and the PAID flag.
   */
  lemma BuiltInConfigurations(config: RuleConfig)
    requires config.ruleType.Some?
    ensures ToLower(config.ruleType.value) == "daily-spend" ==>
      CreateRule(config) == Some(DailySpend(config.maxThreshold.GetOr(5000.0)))
    ensures ToLower(config.ruleType.value) == "mid-spend" ==>
      CreateRule(config) == Some(MidSpend(config.cohortType.GetOr(Normal)))
    ensures ToLower(config.ruleType.value) == "custom-rule" && config.cohortType.Some? ==>
      CreateRule(config) == Some(Custom(config.cohortType.value, config.minThreshold, config.maxThreshold, config.requirePaidUser))
  {
  }

  /** The mid-spend configuration ignores the thresholds. */
  lemma MidSpendIgnoresThresholds(config: RuleConfig, lo: Option<real>, hi: Option<real>)
    requires config.ruleType.Some? && ToLower(config.ruleType.value) == "mid-spend"
    ensures CreateRule(config.(minThreshold := lo, maxThreshold := hi)) == CreateRule(config)
  {
  }

  /** Which default rules fire for four sample customers. */
  lemma DefaultRulesScenarios()
    ensures var c := Some(SampleCustomer(6000.0, Paid));
      DefaultRules()[0].Fires(c) && !DefaultRules()[1].Fires(c) && !DefaultRules()[2].Fires(c)
    ensures var c := Some(SampleCustomer(4000.0, Free));
      !DefaultRules()[0].Fires(c) && DefaultRules()[1].Fires(c) && !DefaultRules()[2].Fires(c)
    ensures var c := Some(SampleCustomer(4000.0, Paid));
      !DefaultRules()[0].Fires(c) && DefaultRules()[1].Fires(c) && DefaultRules()[2].Fires(c)
    ensures var c := Some(SampleCustomer(1000.0, Paid));
      !DefaultRules()[0].Fires(c) && !DefaultRules()[1].Fires(c) && !DefaultRules()[2].Fires(c)
  {
  }
}
