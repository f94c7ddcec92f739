# Cohort Management Service, modelled in Dafny

The Cohort Management Service sorts customers into cohorts (FRAUD, PREMIUM,
NORMAL, VIP). Each cohort belongs to a rule and has the id `RuleName_TYPE`.
A rule looks at a customer's daily spend and user type (PAID or FREE). When a
rule matches, the customer id is added to that rule's cohort in a cohort
repository. The repository is either an in-memory mock or a DynamoDB table
that holds one item per put: customer id, fresh uuid, cohort type name and
description, so one (customer, cohort type) pair can have several items. Customers reach the
classifier through three paths: a periodic scan of the customers table, a
DynamoDB stream listener, and an SQS queue consumer.

The model is a set of Dafny modules, one per part of the program:

- `Wrappers`, `Types`, `JavaStrings`: Option and Result, the two enums, Java's
  exceptions, and the pieces of `java.lang.String` that the code relies on
  (`split("_")`, ASCII `toLowerCase`, `hashCode` wrapped to 32 bits).
- `Customers`, `Cohorts`: the `Customer` and `Cohort` beans as classes with
  setters, plus the value records (`CustomerRecord`, `CohortData`) that
  repositories store.
- `Rules`: `DailySpendRule`, `MidSpendRule` and the anonymous custom rule of
  `CohortRuleFactory`, as one datatype with `Evaluate`.
- `RuleFactory`: `CohortRuleFactory`, covering configuration parsing, the
  defaults, and the fallback to defaults.
- `MemoryRepositories`: the mock customer and cohort repositories of
  `TestConfig`, as classes over maps.
- `DynamoRepository`: `DynamoDBCohortRepository` as a class over a sequence of
  table items (the scan order). It includes the id parsing, the self-id
  exclusion and the first-match lookup by customer.
- `CohortStore`: the `CohortRepository` interface, dispatching to either
  store.
- `Service`, `ServiceProperties`: `CohortServiceImpl` (initialization,
  classification, queries) together with the properties proved about it.
- `CustomerItems`, `StreamProcessing`, `TriggerHandler`, `StreamListener`,
  `QueueProcessing`: the ingestion paths. Each one returns the customers it
  hands to `classifyCustomer`, together with its own new state (the dedup
  map, the shard cursors, the per-message outcomes).
- `Ingestion`: the store after a sequence of handed customers.

Java `null` is `None` throughout (a `JString` is an `Option<string>`). An
exception is the `Failure` branch of a `Result`. A `try`/`catch` around a
loop is modelled by an "aborted" flag in the loop's specification function.
The answers of AWS calls, the clock and the database scans are parameters.
On the cohort table, the outcome of each `putItem` call is a parameter
(`DynamoRepository.Env`): the call either stores its item at some position
of the scan order or throws.
State-changing code is written as methods with loops. Each method's
`ensures` ties its result and new state to a specification function, and
the lemmas state the program's promises about those functions.

Some behaviour is modelled exactly as the code has it, even where the code
and its documentation disagree:

- `classifyCustomer` is declared to return `Set<String>`, but its callers
  assign the result to a `Set<CohortType>`. Only the cohort ids that
  `classifyCustomer` computes are modelled.
- `isCustomerInCohortType` on DynamoDB sees only the first item of the
  customer in the scan. A customer enrolled in two cohort types is
  therefore reported in only one of them: the type of whichever item the
  scan meets first (`ServiceProperties.DynamoDefaultsReportOneType`).
- `addCustomerToCohort` on DynamoDB writes a new item on every call, even
  for an existing member. The member queries stay the same
  (`DynamoRepository.DuplicateAddKeepsQueries`).
- The mock cohort repository's `addCustomerToCohort` answers `true` for a
  customer who is already a member.

## Model

| member | source | states |
|---|---|---|
| Types.CohortTypeName | src/main/java/com/cohortmgmt/model/CohortType.java:6-26 | A type's name is non-empty and has no "_", so a cohort id made from it splits back into two parts. |
| Types.CohortTypeValueOf | src/main/java/com/cohortmgmt/model/CohortType.java:6-26 | valueOf(s) answers t exactly when s is t's name, matched case-sensitively; no answer where Java throws. |
| Types.UserTypeName | src/main/java/com/cohortmgmt/model/UserType.java:6-16 | A user type's name is non-empty. |
| Types.UserTypeValueOf | src/main/java/com/cohortmgmt/model/UserType.java:6-16 | valueOf(s) answers u exactly when s is u's name; no answer where Java throws. |
| Types.CohortTypeNameInjective | src/main/java/com/cohortmgmt/model/CohortType.java:6-26 | Distinct cohort types have distinct names. |
| Rules.Rule.Name | src/main/java/com/cohortmgmt/service/rule/DailySpendRule.java:33-35 | Every rule name is non-empty and has no "_". |
| Rules.Rule.CohortTypeOf | src/main/java/com/cohortmgmt/service/rule/DailySpendRule.java:38-40 | DailySpend always assigns PREMIUM; the other rules assign the type they were built with. |
| Rules.Rule.Evaluate | src/main/java/com/cohortmgmt/config/CohortRuleFactory.java:132-155 | A null customer gives false. The only exception is NullPointerException, and it happens exactly for a custom rule with a bound, given a customer whose spend is null. |
| Rules.Rule.Threshold | src/main/java/com/cohortmgmt/service/rule/DailySpendRule.java:55-57 | getThreshold returns the threshold the rule was built with. |
| Rules.Rule.MinThreshold | src/main/java/com/cohortmgmt/service/rule/MidSpendRule.java:75-77 | getMinThreshold is 3000. |
| Rules.Rule.MaxThreshold | src/main/java/com/cohortmgmt/service/rule/MidSpendRule.java:84-86 | getMaxThreshold is 5000. |
| Rules.NewDefaultDailySpend | src/main/java/com/cohortmgmt/service/rule/DailySpendRule.java:19-21 | The no-argument DailySpendRule has threshold 5000. |
| Rules.NewDefaultMidSpend | src/main/java/com/cohortmgmt/service/rule/MidSpendRule.java:23-25 | The no-argument MidSpendRule assigns NORMAL. |
| Rules.DailySpendNullIsFalse | src/main/java/com/cohortmgmt/service/rule/DailySpendRule.java:44-46 | A null customer or a null spend evaluates to false. |
| Rules.DailySpendFiresIff | src/main/java/com/cohortmgmt/service/rule/DailySpendRule.java:47 | The rule matches iff the spend is present and strictly above the threshold. |
| Rules.DailySpendBoundary | src/main/java/com/cohortmgmt/service/rule/DailySpendRule.java:47 | With the default rule, 5000.0 and 4999.99 do not match and 5000.01 does. |
| Rules.DailySpendIdentity | src/main/java/com/cohortmgmt/service/rule/DailySpendRule.java:28-57 | For any threshold the name is "DailySpend", the type is PREMIUM, and getThreshold returns the threshold unchanged. |
| Rules.DailySpendMonotone | src/main/java/com/cohortmgmt/service/rule/DailySpendRule.java:47 | If a spend matches, every higher spend matches. |
| Rules.DailySpendIgnoresIdAndUserType | src/main/java/com/cohortmgmt/service/rule/DailySpendRule.java:43-48 | Two customers with the same spend evaluate alike, whatever their ids and user types. |
| Rules.MidSpendNullIsFalse | src/main/java/com/cohortmgmt/service/rule/MidSpendRule.java:48-50 | A null customer or a null spend evaluates to false, for every variant. |
| Rules.MidSpendOutOfRange | src/main/java/com/cohortmgmt/service/rule/MidSpendRule.java:55-59 | A spend at or below 3000, or at or above 5000, gives false for every variant; both bounds are excluded. |
| Rules.MidSpendPremiumGate | src/main/java/com/cohortmgmt/service/rule/MidSpendRule.java:62-64 | For a spend strictly inside (3000, 5000), the PREMIUM variant matches iff the user is PAID. |
| Rules.MidSpendPremiumExamples | src/main/java/com/cohortmgmt/service/rule/MidSpendRule.java:62-64 | With the PREMIUM variant, 4000/PAID matches and 4000/FREE does not. |
| Rules.MidSpendOtherVariants | src/main/java/com/cohortmgmt/service/rule/MidSpendRule.java:66-67 | Any variant other than PREMIUM matches every in-range spend, whatever the user type. |
| Rules.MidSpendPremiumImpliesNormal | src/main/java/com/cohortmgmt/service/rule/MidSpendRule.java:55-67 | A customer matched by the PREMIUM variant is matched by the NORMAL variant. |
| Rules.MidSpendIdentity | src/main/java/com/cohortmgmt/service/rule/MidSpendRule.java:14-86 | Every variant is named "MidSpend" and assigns its own type. The thresholds are 3000 and 5000, and the default variant is NORMAL. |
| Rules.CustomEvaluateIff | src/main/java/com/cohortmgmt/config/CohortRuleFactory.java:132-155 | The custom rule throws exactly when it has a bound and the spend is null. Otherwise it answers: min absent or spend >= min, and max absent or spend <= max, and requirePaidUser not true or user PAID. |
| Rules.CustomBoundsInclusive | src/main/java/com/cohortmgmt/config/CohortRuleFactory.java:137-145 | A spend equal to the minimum, or equal to the maximum, matches. |
| Rules.CustomUnconstrained | src/main/java/com/cohortmgmt/config/CohortRuleFactory.java:132-155 | With no bounds and no PAID requirement, every non-null customer matches, even one whose spend is null. |
| Rules.CustomIdentity | src/main/java/com/cohortmgmt/config/CohortRuleFactory.java:120-135 | The custom rule is named "CustomRule-" followed by its type, assigns that type, and gives false for a null customer. |
| RuleFactory.DefaultRules | src/main/java/com/cohortmgmt/config/CohortRuleFactory.java:164-170 | Three rules, in order: DailySpend with threshold 5000 and type PREMIUM, MidSpend with type NORMAL, MidSpend with type PREMIUM. |
| RuleFactory.CreateCustomRule | src/main/java/com/cohortmgmt/config/CohortRuleFactory.java:113-157 | The rule carries the configuration's type, bounds and PAID flag, and is named "CustomRule-" followed by the type. |
| RuleFactory.CreateRule | src/main/java/com/cohortmgmt/config/CohortRuleFactory.java:63-105 | A configuration with a null type creates no rule. The full case split is in the lemmas below. |
| RuleFactory.Contribution | src/main/java/com/cohortmgmt/config/CohortRuleFactory.java:36-46 | A list entry adds at most one rule. |
| RuleFactory.CreatedRules | src/main/java/com/cohortmgmt/config/CohortRuleFactory.java:36-46 | The loop creates at most one rule per entry. |
| RuleFactory.GetDefaultRules | src/main/java/com/cohortmgmt/config/CohortRuleFactory.java:164-170 | The list appended step by step is exactly the default rules. |
| RuleFactory.CreateRules | src/main/java/com/cohortmgmt/config/CohortRuleFactory.java:28-55 | Disabled configuration gives the defaults. A null list throws NullPointerException. Otherwise the result is the created rules in list order, or the defaults when none was created. |
| RuleFactory.DefaultRulesShape | src/main/java/com/cohortmgmt/config/CohortRuleFactory.java:164-170 | The defaults, in order, are DailySpend(5000)/PREMIUM, MidSpend/NORMAL and MidSpend/PREMIUM. |
| RuleFactory.DisabledGivesDefaults | src/main/java/com/cohortmgmt/config/CohortRuleFactory.java:31-34 | When disabled, the result is exactly the defaults, whatever the list holds. |
| RuleFactory.RulesNeverEmpty | src/main/java/com/cohortmgmt/config/CohortRuleFactory.java:49-52 | A successful result is never empty. |
| RuleFactory.CreatedRulesAppend | src/main/java/com/cohortmgmt/config/CohortRuleFactory.java:36-46 | The rules from two lists placed end to end are the rules of the first, then those of the second. |
| RuleFactory.CreatedRulesSingle | src/main/java/com/cohortmgmt/config/CohortRuleFactory.java:36-46 | A one-entry list contributes exactly that entry's rule, if any. |
| RuleFactory.CreatedRuleEntry | src/main/java/com/cohortmgmt/config/CohortRuleFactory.java:36-46 | Every created rule is the rule of some non-null entry. |
| RuleFactory.EntryRuleCreated | src/main/java/com/cohortmgmt/config/CohortRuleFactory.java:36-46 | The rule of every valid entry is in the result. |
| RuleFactory.CreatedRulesMembership | src/main/java/com/cohortmgmt/config/CohortRuleFactory.java:36-46 | A rule is created iff some non-null entry of the list creates it. |
| RuleFactory.InvalidEntriesAreSkipped | src/main/java/com/cohortmgmt/config/CohortRuleFactory.java:36-46 | Removing a null or invalid entry from anywhere in the list leaves the created rules unchanged. |
| RuleFactory.SkippedConfigurations | src/main/java/com/cohortmgmt/config/CohortRuleFactory.java:63-105 | A null type, or a type that lower-cases to none of the three names, creates no rule. |
| RuleFactory.CustomRuleNeedsCohortType | src/main/java/com/cohortmgmt/config/CohortRuleFactory.java:89-99 | A "custom-rule" configuration creates no rule iff its cohort type is null. |
| RuleFactory.CreateRuleCaseInsensitive | src/main/java/com/cohortmgmt/config/CohortRuleFactory.java:71 | Two types that agree once lower-cased create the same rule. |
| RuleFactory.BuiltInConfigurations | src/main/java/com/cohortmgmt/config/CohortRuleFactory.java:72-99 | "daily-spend" takes maxThreshold, or 5000 when null. "mid-spend" takes the cohort type, or NORMAL when null. "custom-rule" with a type gives the custom rule. |
| RuleFactory.MidSpendIgnoresThresholds | src/main/java/com/cohortmgmt/config/CohortRuleFactory.java:81-87 | The thresholds play no part in a "mid-spend" configuration. |
| RuleFactory.DefaultRulesScenarios | src/main/java/com/cohortmgmt/config/CohortRuleFactory.java:164-170 | On the defaults: 6000/PAID matches DailySpend only, 4000/FREE matches MidSpend-NORMAL only, 4000/PAID matches both MidSpend rules, and 1000/PAID matches none. |
| JavaStrings.ToLower | src/main/java/com/cohortmgmt/config/CohortRuleFactory.java:71 | Lower-casing keeps the length and maps each character on its own. |
| JavaStrings.ToLowerIdempotent | src/main/java/com/cohortmgmt/config/CohortRuleFactory.java:71 | Lower-casing twice is the same as lower-casing once. |
| JavaStrings.SplitTwoParts | src/main/java/com/cohortmgmt/repository/DynamoDBCohortRepository.java:95-99 | name + "_" + type, with neither part containing "_" and a non-empty type, splits into exactly those two parts. |
| JavaStrings.SplitTwoPartsWithTrail | src/main/java/com/cohortmgmt/repository/DynamoDBCohortRepository.java:95-99 | Trailing "_" characters after the second part are dropped, as Java's split drops trailing empty strings. |
| JavaStrings.SplitTwoPartsShape | src/main/java/com/cohortmgmt/repository/DynamoDBCohortRepository.java:95-99 | A two-part split gives an id that is its first part, a "_", its second part and possibly trailing "_" characters, with a non-empty second part. |
| JavaStrings.StringHashCode | src/main/java/com/cohortmgmt/model/Customer.java:94-97 | String.hashCode is a 32-bit int. |
| JavaStrings.ToInt32 | src/main/java/com/cohortmgmt/model/Customer.java:94-97 | The wrapped value is a 32-bit int congruent to its argument modulo 2^32. |
| JavaStrings.SingleFieldHash | src/main/java/com/cohortmgmt/model/Cohort.java:156-159 | Objects.hash of one field is a 32-bit int. |
| Customers.NullableStringHash | src/main/java/com/cohortmgmt/model/Customer.java:94-97 | Objects.hash of a nullable string is a 32-bit int, and 31 for null. |
| Customers.Customer.Record | src/main/java/com/cohortmgmt/model/Customer.java:37-75 | The getters answer the current fields. |
| Customers.Customer.Empty | src/main/java/com/cohortmgmt/model/Customer.java:16-17 | The no-argument constructor leaves every field null. |
| Customers.Customer.constructor | src/main/java/com/cohortmgmt/model/Customer.java:26-30 | The three-argument constructor stores its arguments unchanged; the spend may be null. |
| Customers.Customer.SetCustomerId | src/main/java/com/cohortmgmt/model/Customer.java:46-48 | Only the id changes. |
| Customers.Customer.SetDailySpend | src/main/java/com/cohortmgmt/model/Customer.java:64-66 | Only the spend changes. |
| Customers.Customer.SetUserType | src/main/java/com/cohortmgmt/model/Customer.java:82-84 | Only the user type changes. |
| Customers.Customer.Equals | src/main/java/com/cohortmgmt/model/Customer.java:86-92 | Equal iff the other object is a non-null customer with an equal id, where null equals null. |
| Customers.Customer.HashCode | src/main/java/com/cohortmgmt/model/Customer.java:94-97 | The hash is a 32-bit int computed from the id alone. |
| Customers.EqualsIgnoresSpendAndType | src/main/java/com/cohortmgmt/model/Customer.java:86-92 | Customers with the same id are equal both ways, whatever their spends and user types. |
| Customers.EqualCustomersHashAlike | src/main/java/com/cohortmgmt/model/Customer.java:86-97 | Equal customers have equal hashes. |
| Customers.EqualsIsEquivalence | src/main/java/com/cohortmgmt/model/Customer.java:86-92 | Equality is reflexive, symmetric and transitive. |
| Cohorts.CohortData.AddCustomer | src/main/java/com/cohortmgmt/model/Cohort.java:43-45 | The answer is true iff the id was absent. The members become the old ones plus the id, and the other fields do not change. |
| Cohorts.CohortData.RemoveCustomer | src/main/java/com/cohortmgmt/model/Cohort.java:53-55 | The answer is true iff the id was present. The members become the old ones minus the id, and the other fields do not change. |
| Cohorts.NewCohortData | src/main/java/com/cohortmgmt/model/Cohort.java:30-35 | A new cohort has the given fields and no members. |
| Cohorts.Cohort.Snapshot | src/main/java/com/cohortmgmt/model/Cohort.java:81-119 | The getters answer the current fields. |
| Cohorts.Cohort.Empty | src/main/java/com/cohortmgmt/model/Cohort.java:19-21 | The no-argument constructor gives null fields and no members. |
| Cohorts.Cohort.constructor | src/main/java/com/cohortmgmt/model/Cohort.java:30-35 | The three-argument constructor stores the given fields and starts with no members. |
| Cohorts.Cohort.AddCustomer | src/main/java/com/cohortmgmt/model/Cohort.java:43-45 | The answer is true iff the id was absent, and afterwards the id is a member. A false answer leaves the set unchanged. The count grows by one exactly when the answer is true. |
| Cohorts.Cohort.RemoveCustomer | src/main/java/com/cohortmgmt/model/Cohort.java:53-55 | The answer is true iff the id was present, and afterwards it is absent. Other members are unchanged. The count drops by one exactly when the answer is true. |
| Cohorts.Cohort.ContainsCustomer | src/main/java/com/cohortmgmt/model/Cohort.java:63-65 | containsCustomer is set membership, and a member makes the count positive. |
| Cohorts.Cohort.GetCustomerCount | src/main/java/com/cohortmgmt/model/Cohort.java:72-74 | The count is the number of members, so it is zero iff there are none. |
| Cohorts.Cohort.GetCustomerIds | src/main/java/com/cohortmgmt/model/Cohort.java:135-137 | The returned set holds exactly the members. |
| Cohorts.Cohort.SetCustomerIds | src/main/java/com/cohortmgmt/model/Cohort.java:144-146 | The members become the given set; no other field changes. |
| Cohorts.Cohort.SetId | src/main/java/com/cohortmgmt/model/Cohort.java:90-92 | Only the id changes. |
| Cohorts.Cohort.SetType | src/main/java/com/cohortmgmt/model/Cohort.java:108-110 | Only the type changes. |
| Cohorts.Cohort.SetDescription | src/main/java/com/cohortmgmt/model/Cohort.java:126-128 | Only the description changes. |
| Cohorts.Cohort.Equals | src/main/java/com/cohortmgmt/model/Cohort.java:148-154 | Equal iff the other object is a non-null cohort with an equal id. |
| Cohorts.Cohort.HashCode | src/main/java/com/cohortmgmt/model/Cohort.java:156-159 | The hash is a 32-bit int computed from the id alone. |
| Cohorts.EqualCohortsHashAlike | src/main/java/com/cohortmgmt/model/Cohort.java:148-159 | Cohorts with equal ids are equal and hash alike, whatever their members. |
| MemoryRepositories.SaveOf | src/test/java/com/cohortmgmt/config/TestConfig.java:89-92 | Saving keeps every cohort stored under its own id. |
| MemoryRepositories.FindByIdOf | src/test/java/com/cohortmgmt/config/TestConfig.java:95-97 | findById finds a cohort iff the id is a key. |
| MemoryRepositories.FindAllOf | src/test/java/com/cohortmgmt/config/TestConfig.java:100-102 | Every stored cohort is in findAll; on a store keyed by id, each one is found under its own id. |
| MemoryRepositories.FindByTypeOf | src/test/java/com/cohortmgmt/config/TestConfig.java:105-109 | findByType(t) is part of findAll, holds only cohorts of type t, and holds every stored cohort of type t. |
| MemoryRepositories.GetCustomerIdsOf | src/test/java/com/cohortmgmt/config/TestConfig.java:131-134 | The members of the cohort found under the id, or empty when none is found. |
| MemoryRepositories.FindByCustomerIdOf | src/test/java/com/cohortmgmt/config/TestConfig.java:137-141 | findByCustomerId(c) is part of findAll, holds only cohorts listing c, and holds every stored cohort listing c. |
| MemoryRepositories.ExistsByIdOf | src/test/java/com/cohortmgmt/config/TestConfig.java:149-151 | existsById holds exactly when findById finds a cohort. |
| MemoryRepositories.AddCustomerOf | src/test/java/com/cohortmgmt/config/TestConfig.java:112-119 | Adding keeps the keys and keeps every cohort under its own id. |
| MemoryRepositories.RemoveCustomerOf | src/test/java/com/cohortmgmt/config/TestConfig.java:122-128 | Removing keeps the keys and keeps every cohort under its own id. |
| MemoryRepositories.DeleteByIdOf | src/test/java/com/cohortmgmt/config/TestConfig.java:144-146 | Deleting keeps every cohort under its own id. |
| MemoryRepositories.MockCohortRepository.constructor | src/test/java/com/cohortmgmt/config/TestConfig.java:86 | The store starts empty. |
| MemoryRepositories.MockCohortRepository.Save | src/test/java/com/cohortmgmt/config/TestConfig.java:89-92 | The new map and the answer are those of put under getId(); a null cohort or a null id throws. |
| MemoryRepositories.MockCohortRepository.AddCustomerToCohort | src/test/java/com/cohortmgmt/config/TestConfig.java:112-119 | The new map and the answer follow addCustomerToCohort. |
| MemoryRepositories.MockCohortRepository.RemoveCustomerFromCohort | src/test/java/com/cohortmgmt/config/TestConfig.java:122-128 | The new map and the answer follow removeCustomerFromCohort. |
| MemoryRepositories.MockCohortRepository.DeleteById | src/test/java/com/cohortmgmt/config/TestConfig.java:144-146 | The key is removed. |
| MemoryRepositories.MockCohortRepository.FindById | src/test/java/com/cohortmgmt/config/TestConfig.java:95-97 | A cohort is found iff the id is a key; in a valid store it carries that id. |
| MemoryRepositories.MockCohortRepository.FindAll | src/test/java/com/cohortmgmt/config/TestConfig.java:100-102 | Every stored cohort is listed; in a valid store each one is found under its own id. |
| MemoryRepositories.MockCohortRepository.FindByType | src/test/java/com/cohortmgmt/config/TestConfig.java:105-109 | Part of findAll, and only cohorts of the asked type. |
| MemoryRepositories.MockCohortRepository.GetCustomerIds | src/test/java/com/cohortmgmt/config/TestConfig.java:131-134 | The members of the found cohort, or empty when none is found. |
| MemoryRepositories.MockCohortRepository.FindByCustomerId | src/test/java/com/cohortmgmt/config/TestConfig.java:137-141 | Part of findAll, and only cohorts listing the customer. |
| MemoryRepositories.MockCohortRepository.ExistsById | src/test/java/com/cohortmgmt/config/TestConfig.java:149-151 | existsById holds exactly when findById finds a cohort. |
| MemoryRepositories.SaveThenFindById | src/test/java/com/cohortmgmt/config/TestConfig.java:89-97 | After a save, findById returns the saved cohort and existsById holds. Every other key keeps its cohort. |
| MemoryRepositories.SaveNullId | src/test/java/com/cohortmgmt/config/TestConfig.java:89-92 | A null cohort or a null id throws NullPointerException and stores nothing. |
| MemoryRepositories.LastSaveWins | src/test/java/com/cohortmgmt/config/TestConfig.java:89-92 | Saving two cohorts with the same id leaves the store as saving only the second. |
| MemoryRepositories.AddToUnknownCohort | src/test/java/com/cohortmgmt/config/TestConfig.java:112-116 | Adding to an unknown id answers false and changes nothing. |
| MemoryRepositories.AddToKnownCohort | src/test/java/com/cohortmgmt/config/TestConfig.java:112-119 | Adding to a known id answers true, even for an existing member, and makes the customer a member. Other cohorts are unchanged. |
| MemoryRepositories.MembershipKeepsTypes | src/test/java/com/cohortmgmt/config/TestConfig.java:105-128 | Adding or removing a member changes no cohort's id, type or description. |
| MemoryRepositories.FindByTypeSelects | src/test/java/com/cohortmgmt/config/TestConfig.java:105-109 | findByType(t) holds exactly the stored cohorts of type t. |
| MemoryRepositories.FindByCustomerIdSelects | src/test/java/com/cohortmgmt/config/TestConfig.java:137-141 | findByCustomerId(c) holds exactly the stored cohorts whose members include c. |
| MemoryRepositories.RemoveFromCohort | src/test/java/com/cohortmgmt/config/TestConfig.java:122-128 | False and no change for an unknown id. Otherwise the answer is whether the customer was a member, and afterwards it is not. |
| MemoryRepositories.AddThenRemove | src/test/java/com/cohortmgmt/config/TestConfig.java:112-128 | Adding then removing a customer who was not a member restores the cohort, and both calls answer true. |
| MemoryRepositories.UnknownCohortHasNoMembers | src/test/java/com/cohortmgmt/config/TestConfig.java:131-134 | getCustomerIds of an unknown id is empty, and findById finds nothing. |
| MemoryRepositories.DeleteRemovesOnlyThatKey | src/test/java/com/cohortmgmt/config/TestConfig.java:144-151 | After deleteById the id does not exist, and every other key exists and is found as before. |
| MemoryRepositories.MockCustomerRepository.constructor | src/test/java/com/cohortmgmt/config/TestConfig.java:52 | The store starts empty. |
| MemoryRepositories.MockCustomerRepository.Save | src/test/java/com/cohortmgmt/config/TestConfig.java:55-58 | The new map and the answer are those of put under getCustomerId(). |
| MemoryRepositories.MockCustomerRepository.DeleteById | src/test/java/com/cohortmgmt/config/TestConfig.java:71-73 | Exactly that key is removed. |
| MemoryRepositories.SaveCustomerOf | src/test/java/com/cohortmgmt/config/TestConfig.java:55-58 | A null customer or id throws NullPointerException and changes nothing. Otherwise the customer is returned and stored under its id, every other entry is kept, and a store keyed by customer id stays so. |
| MemoryRepositories.MockCustomerRepository.FindById | src/test/java/com/cohortmgmt/config/TestConfig.java:61-63 | A customer is found iff it exists; in a valid store it carries the asked id. |
| MemoryRepositories.MockCustomerRepository.FindAll | src/test/java/com/cohortmgmt/config/TestConfig.java:66-68 | Every stored customer is listed; in a valid store each one is found under its own id. |
| MemoryRepositories.MockCustomerRepository.ExistsById | src/test/java/com/cohortmgmt/config/TestConfig.java:76-78 | In a valid store an id exists iff some stored customer has that id. |
| MemoryRepositories.SaveCustomerThenFind | src/test/java/com/cohortmgmt/config/TestConfig.java:55-63 | After a save, findById returns the saved customer; two saves under one id leave the second. |
| MemoryRepositories.SaveThenFindCustomer | src/test/java/com/cohortmgmt/config/TestConfig.java:55-78 | On the class, findById after save returns the saved customer, and existsById holds. |
| DynamoRepository.ParseCohortId | src/main/java/com/cohortmgmt/repository/DynamoDBCohortRepository.java:95-101 | The id is accepted iff split("_") gives exactly two parts, and the answer is those two parts. |
| DynamoRepository.FindByIdOf | src/main/java/com/cohortmgmt/repository/DynamoDBCohortRepository.java:86-137 | A found cohort has the asked id and a type. Its members include neither null nor the id itself. |
| DynamoRepository.GetCustomerIdsOf | src/main/java/com/cohortmgmt/repository/DynamoDBCohortRepository.java:177-217 | The answer includes neither null nor the asked id. |
| DynamoRepository.FirstMatch | src/main/java/com/cohortmgmt/repository/DynamoDBCohortRepository.java:245-247 | The answer is the index of the first item in scan order with the customer id, or none when no item has it. |
| DynamoRepository.FindByCustomerIdOf | src/main/java/com/cohortmgmt/repository/DynamoDBCohortRepository.java:220-266 | At most one cohort, whose members are exactly the asked id and whose type is set. |
| DynamoRepository.ItemsFor | src/main/java/com/cohortmgmt/repository/DynamoDBCohortRepository.java:60-72 | One item per member id, in the order written, with consecutive uuids, the cohort's type and its description. |
| DynamoRepository.StoredFromExtend | src/main/java/com/cohortmgmt/repository/DynamoDBCohortRepository.java:60-72 | One more put that stores extends a run of puts that store. |
| DynamoRepository.Insert | src/main/java/com/cohortmgmt/repository/DynamoDBCohortRepository.java:165 | A stored item lands at its chosen position (or at the end): the table grows by exactly that item and every other item keeps its relative order. |
| DynamoRepository.AddOf | src/main/java/com/cohortmgmt/repository/DynamoDBCohortRepository.java:141-173 | A null argument or malformed id answers false with no call. Otherwise one put is made; the answer is true iff it stores, and then the multiset of items grows by exactly the customer's item with the next uuid. |
| DynamoRepository.ExistsByIdOf | src/main/java/com/cohortmgmt/repository/DynamoDBCohortRepository.java:270-296 | existsById holds exactly when findById finds a cohort on an empty table: the table is not read. |
| DynamoRepository.MembersOfType | src/main/java/com/cohortmgmt/repository/DynamoDBCohortRepository.java:177-217 | The members are non-null and exclude the cohort id; every item of the type contributes its customer, and every member has an item of the type. |
| DynamoRepository.InsertFreshItem | src/main/java/com/cohortmgmt/repository/DynamoDBCohortRepository.java:154-168 | Storing an item with the next uuid, anywhere in the scan, keeps uuids fresh. |
| DynamoRepository.PlaceAllFresh | src/main/java/com/cohortmgmt/repository/DynamoDBCohortRepository.java:60-72 | Puts of items with consecutive fresh uuids keep uuids fresh, whichever of them store or throw. |
| DynamoRepository.PlaceAllContents | src/main/java/com/cohortmgmt/repository/DynamoDBCohortRepository.java:60-72 | When every put stores, the multiset of items grows by exactly the new items. |
| DynamoRepository.SaveAdds | src/main/java/com/cohortmgmt/repository/DynamoDBCohortRepository.java:59-77 | The puts of save that stored add exactly their items; when every member was written, the table grows by one item per member and gains exactly the members' pairs with the type name. |
| DynamoRepository.DynamoDBCohortRepository.constructor | src/main/java/com/cohortmgmt/repository/DynamoDBCohortRepository.java:40-48 | The table starts empty and no uuid has been issued. |
| DynamoRepository.DynamoDBCohortRepository.Save | src/main/java/com/cohortmgmt/repository/DynamoDBCohortRepository.java:51-83 | A null cohort or id throws IllegalArgumentException and writes nothing. A cohort without members is returned and writes nothing. Otherwise it succeeds, returning the cohort, iff no member is null and every one of its puts stores its item; any other failure is a RuntimeException. The new table is exactly the old one with the items of the members written, each at the position its put chooses; the puts before a failure all stored their items, and a throwing put is the one after them. |
| DynamoRepository.DynamoDBCohortRepository.SaveMembers | src/main/java/com/cohortmgmt/repository/DynamoDBCohortRepository.java:51-83 | With an id, a type, a description and members: success, returning the cohort, iff no member is null and every put stores; otherwise RuntimeException. The new table is the old one with the written items placed by their puts. |
| DynamoRepository.DynamoDBCohortRepository.PutItems | src/main/java/com/cohortmgmt/repository/DynamoDBCohortRepository.java:60-72 | The loop writes distinct members, each with the next uuid at the position its put chooses. It writes all members iff none is null and every put stores; it stops at a null member or at the first put that throws. |
| DynamoRepository.DynamoDBCohortRepository.ScanMembers | src/main/java/com/cohortmgmt/repository/DynamoDBCohortRepository.java:107-125 | The forEach collects exactly the ids of the type's items, leaving out the cohort id itself. |
| DynamoRepository.DynamoDBCohortRepository.FindById | src/main/java/com/cohortmgmt/repository/DynamoDBCohortRepository.java:86-137 | The answer is findById on the current table. |
| DynamoRepository.DynamoDBCohortRepository.AddCustomerToCohort | src/main/java/com/cohortmgmt/repository/DynamoDBCohortRepository.java:141-173 | The new table, the uuid counter and the answer follow addCustomerToCohort. |
| DynamoRepository.DynamoDBCohortRepository.GetCustomerIds | src/main/java/com/cohortmgmt/repository/DynamoDBCohortRepository.java:177-217 | The answer is getCustomerIds on the current table. |
| DynamoRepository.DynamoDBCohortRepository.FindByCustomerId | src/main/java/com/cohortmgmt/repository/DynamoDBCohortRepository.java:220-266 | At most one cohort, whose members are exactly the asked id and whose type is one the customer has an item of. |
| DynamoRepository.DynamoDBCohortRepository.ExistsById | src/main/java/com/cohortmgmt/repository/DynamoDBCohortRepository.java:270-296 | Only a two-part id with a known type exists, whatever the table holds. |
| DynamoRepository.MembersDependOnPairs | src/main/java/com/cohortmgmt/repository/DynamoDBCohortRepository.java:203-210 | A type's members depend only on the table's set of (customer id, type name) pairs. |
| DynamoRepository.FirstItemInsert | src/main/java/com/cohortmgmt/repository/DynamoDBCohortRepository.java:245-259 | Storing an item anywhere in the scan makes it the customer's first item exactly when it is the customer's and lands no later than the old first item; otherwise the first item stays. |
| DynamoRepository.FindByCustomerIdInsert | src/main/java/com/cohortmgmt/repository/DynamoDBCohortRepository.java:220-259 | After an item is stored, findByCustomerId answers as on that item alone when it became the customer's first item, and as before otherwise. |
| DynamoRepository.InsertKnownPairKeepsQueries | src/main/java/com/cohortmgmt/repository/DynamoDBCohortRepository.java:159-165 | Storing, at any position, an item whose (customer, type) pair is already present keeps the pairs, getCustomerIds and findById; findByCustomerId then names a type the customer already had. |
| DynamoRepository.FindByCustomerIdOfFirstItem | src/main/java/com/cohortmgmt/repository/DynamoDBCohortRepository.java:220-259 | Two tables with the same first item of the customer answer findByCustomerId alike. |
| DynamoRepository.FindByCustomerIdReportsOwnPair | src/main/java/com/cohortmgmt/repository/DynamoDBCohortRepository.java:220-259 | findByCustomerId names a type the customer has an item of. |
| DynamoRepository.SamePairsSameMemberQueries | src/main/java/com/cohortmgmt/repository/DynamoDBCohortRepository.java:86-217 | Tables with the same (customer, type) pairs answer getCustomerIds and findById alike for every id. |
| DynamoRepository.ParseComposedId | src/main/java/com/cohortmgmt/repository/DynamoDBCohortRepository.java:95-101 | name + "_" + type, with neither part containing "_" and a non-empty type, parses back into the two parts. |
| DynamoRepository.SplitExamples | src/main/java/com/cohortmgmt/repository/DynamoDBCohortRepository.java:95-99 | "a_b_" splits into two parts, "a_" into one and "_b" into two, so only "a_" is rejected. |
| DynamoRepository.AddRejects | src/main/java/com/cohortmgmt/repository/DynamoDBCohortRepository.java:141-152 | A null argument, or an id that does not split into two parts, answers false and writes nothing. |
| DynamoRepository.AddStoresFreshItem | src/main/java/com/cohortmgmt/repository/DynamoDBCohortRepository.java:141-173 | A valid id makes one put with the next uuid. The answer is true iff the put stores; then the table gains one item (the customer, a uuid no item has, the second part of the id, the standard description) at the position the put chose, and getCustomerIds of the id contains the customer unless it is the id itself. When the put throws the table is unchanged. |
| DynamoRepository.DuplicateAddKeepsQueries | src/main/java/com/cohortmgmt/repository/DynamoDBCohortRepository.java:154-168 | A second add of the same customer makes another put with a new uuid and answers true iff that put stores. Once the first add stored, the second keeps the pairs, getCustomerIds and findById, and findByCustomerId names a type the customer had after the first. |
| DynamoRepository.GetCustomerIdsIgnoresRuleName | src/main/java/com/cohortmgmt/repository/DynamoDBCohortRepository.java:184-210 | Two ids with the same type part give the same members, apart from each id's self-exclusion. |
| DynamoRepository.ExistsIffFound | src/main/java/com/cohortmgmt/repository/DynamoDBCohortRepository.java:269-296 | existsById holds exactly when findById finds a cohort, whatever the table holds. |
| DynamoRepository.FoundWithoutMembers | src/main/java/com/cohortmgmt/repository/DynamoDBCohortRepository.java:95-132 | A valid id of a known type is found on an empty table, with no members. |
| DynamoRepository.UnknownTypeNotFound | src/main/java/com/cohortmgmt/repository/DynamoDBCohortRepository.java:113-136 | An id whose second part names no cohort type is neither found nor exists. |
| DynamoRepository.FindByCustomerIdFirstItem | src/main/java/com/cohortmgmt/repository/DynamoDBCohortRepository.java:220-259 | Empty for null, for an id containing "_", or when no item has the id. Otherwise the first matching item decides: exactly one cohort when its type name is a cohort type, and none when it is not. The cohort has the id "Rule_" + type and the item's description. |
| DynamoRepository.SaveEmptyCohort | src/main/java/com/cohortmgmt/repository/DynamoDBCohortRepository.java:60-78 | Saving a cohort with no members returns it and writes nothing. |
| CohortStore.AddOf | src/main/java/com/cohortmgmt/repository/CohortRepository.java:41 | Adding never switches the kind of store. |
| CohortStore.SaveEmptyOf | src/main/java/com/cohortmgmt/repository/CohortRepository.java:24 | Saving an empty cohort never switches the kind of store. |
| CohortStore.CohortRepository.Save | src/main/java/com/cohortmgmt/repository/CohortRepository.java:24 | The answer is the store's save answer. In memory the map is updated as put does. On the table the multiset of items only grows, also when a put throws; a successful save of members adds one item per member and exactly their (customer, type) pairs. An empty cohort gives the empty-save state. |
| CohortStore.CohortRepository.FindById | src/main/java/com/cohortmgmt/repository/CohortRepository.java:32 | findById of whichever store is behind the interface. |
| CohortStore.CohortRepository.AddCustomerToCohort | src/main/java/com/cohortmgmt/repository/CohortRepository.java:41 | The new state and the answer follow that store's addCustomerToCohort. |
| CohortStore.CohortRepository.GetCustomerIds | src/main/java/com/cohortmgmt/repository/CohortRepository.java:49 | getCustomerIds of that store. |
| CohortStore.CohortRepository.FindByCustomerId | src/main/java/com/cohortmgmt/repository/CohortRepository.java:57 | The listed cohorts are exactly that store's cohorts for the customer; on the table it is the table's list itself. |
| CohortStore.CohortRepository.ExistsById | src/main/java/com/cohortmgmt/repository/CohortRepository.java:65 | existsById of that store. |
| CohortStore.Listed | src/test/java/com/cohortmgmt/config/TestConfig.java:137-141 | The list of a set holds exactly its elements, each once. |
| CohortStore.AddKeepsCohortIds | src/main/java/com/cohortmgmt/repository/CohortRepository.java:41 | Adding a member never changes which ids are found or exist. |
| CohortStore.AddPreservesValid | src/main/java/com/cohortmgmt/repository/CohortRepository.java:41 | Adding keeps the store valid: in memory cohorts stay under their own ids, and on the table uuids stay fresh. |
| CohortStore.SaveEmptyPreservesValid | src/main/java/com/cohortmgmt/repository/CohortRepository.java:24 | Saving an empty cohort keeps the store valid. |
| CohortStore.ExistsIffFound | src/main/java/com/cohortmgmt/repository/CohortRepository.java:32-65 | In both stores, existsById holds exactly when findById finds. |
| Service.CohortId | src/main/java/com/cohortmgmt/service/CohortServiceImpl.java:58 | A rule's cohort id name_TYPE parses back into the rule's name and type name. |
| Service.NewCohortFor | src/main/java/com/cohortmgmt/service/CohortServiceImpl.java:60-61 | The created cohort has the rule's id and type, the standard description, and no members. |
| Service.InitStep | src/main/java/com/cohortmgmt/service/CohortServiceImpl.java:58-63 | One rule of initialization keeps the kind of store and leaves the rule's id existing. |
| Service.InitOf | src/main/java/com/cohortmgmt/service/CohortServiceImpl.java:56-65 | Initialization never switches the kind of store. |
| Service.ClassifyStep | src/main/java/com/cohortmgmt/service/CohortServiceImpl.java:92-104 | One rule reports at most its own id, and only when that cohort is found; the kind of store is kept. |
| Service.ClassifyOf | src/main/java/com/cohortmgmt/service/CohortServiceImpl.java:89-107 | Classification never switches the kind of store. |
| Service.FoundOfType | src/main/java/com/cohortmgmt/service/CohortServiceImpl.java:151-159 | At most one found cohort per rule. |
| Service.InCohortTypeOf | src/main/java/com/cohortmgmt/service/CohortServiceImpl.java:111-127 | A customer in a cohort type has some cohort listed. |
| Service.CohortServiceImpl.constructor | src/main/java/com/cohortmgmt/service/CohortServiceImpl.java:36-42 | A null rule list gives no rules; otherwise the list is copied. |
| Service.CohortServiceImpl.InitializeCohorts | src/main/java/com/cohortmgmt/service/CohortServiceImpl.java:56-65 | The store becomes initialization over the rules in order, and stays valid. |
| Service.CohortServiceImpl.AddRule | src/main/java/com/cohortmgmt/service/CohortServiceImpl.java:72-80 | The rule is appended. The store is unchanged if the rule's id exists; otherwise the rule's empty cohort is saved. |
| Service.CohortServiceImpl.ClassifyCustomer | src/main/java/com/cohortmgmt/service/CohortServiceImpl.java:83-108 | A null customer gives the empty set and leaves the store unchanged. Otherwise the answer and the new store are those of classification. |
| Service.CohortServiceImpl.IsCustomerInCohortType | src/main/java/com/cohortmgmt/service/CohortServiceImpl.java:111-127 | True iff both arguments are non-null and some cohort listed for the customer has the type. |
| Service.CohortServiceImpl.GetCustomerCohorts | src/main/java/com/cohortmgmt/service/CohortServiceImpl.java:130-136 | Empty for null; otherwise exactly the store's cohorts for the customer. |
| Service.CohortServiceImpl.GetCohortCustomerIdsByType | src/main/java/com/cohortmgmt/service/CohortServiceImpl.java:139-167 | Empty for null; otherwise the union of the members of the found cohorts of the rules of that type. |
| Service.InitializeWith | src/main/java/com/cohortmgmt/service/CohortServiceImpl.java:57-64 | The loop's store is initialization over the rules. |
| Service.EnsureCohort | src/main/java/com/cohortmgmt/service/CohortServiceImpl.java:58-63 | The store is unchanged if the id exists; otherwise the rule's empty cohort is saved. |
| Service.ClassifyWith | src/main/java/com/cohortmgmt/service/CohortServiceImpl.java:89-107 | The loop's ids and store are those of classification over the rules. |
| Service.ApplyRule | src/main/java/com/cohortmgmt/service/CohortServiceImpl.java:92-104 | One rule adds the customer and reports the id only if it evaluates to true and its cohort is found. |
| Service.InCohortTypeWith | src/main/java/com/cohortmgmt/service/CohortServiceImpl.java:111-127 | The scan answers true iff some listed cohort has the type. |
| Service.CollectCohortsOfType | src/main/java/com/cohortmgmt/service/CohortServiceImpl.java:151-159 | The collected list is the found cohorts of the rules of the type, in rule order. |
| ServiceProperties.ClassifyKeepsCohortIds | src/main/java/com/cohortmgmt/service/CohortServiceImpl.java:91-105 | Classification never changes which cohort ids are found. |
| ServiceProperties.ClassifyPreservesValid | src/main/java/com/cohortmgmt/service/CohortServiceImpl.java:91-105 | Classification keeps the store valid. |
| ServiceProperties.FiringIdsMeaning | src/main/java/com/cohortmgmt/service/CohortServiceImpl.java:93-94 | An id is a firing id iff some rule of the list evaluates to true and has that id. |
| ServiceProperties.ClassifyReportsFiringRules | src/main/java/com/cohortmgmt/service/CohortServiceImpl.java:91-100 | An id is reported iff its cohort is found and some rule with that id evaluates to true. Rules that throw or answer false contribute nothing, and the rules after them still run. |
| ServiceProperties.NoFiringRuleNoChange | src/main/java/com/cohortmgmt/service/CohortServiceImpl.java:93 | A customer no rule matches gives the empty set and leaves the store unchanged. |
| ServiceProperties.MemoryClassifyClosedForm | src/test/java/com/cohortmgmt/config/TestConfig.java:112-119 | In memory, classification adds the customer id to exactly the reported cohorts. |
| ServiceProperties.MemoryClassifyIdempotent | src/main/java/com/cohortmgmt/service/CohortServiceImpl.java:91-100 | In memory, classifying twice answers equal sets, and the second run leaves the store as the first left it. |
| ServiceProperties.MemoryClassifyOrderFree | src/main/java/com/cohortmgmt/service/CohortServiceImpl.java:91-105 | In memory, two rule lists with the same rules classify alike. |
| ServiceProperties.MemoryInCohortTypeIff | src/main/java/com/cohortmgmt/service/CohortServiceImpl.java:117-126 | In memory, the customer is in a cohort type iff some stored cohort of that type lists the customer. |
| ServiceProperties.MemoryClassifyThenQuery | src/main/java/com/cohortmgmt/service/CohortServiceImpl.java:91-126 | In memory, a customer matching a rule whose cohort is stored with the rule's type is afterwards in that cohort type. |
| ServiceProperties.DynamoRuleCohortsExist | src/main/java/com/cohortmgmt/service/CohortServiceImpl.java:94-99 | On the table, every rule's cohort exists and is found, whatever the items. |
| ServiceProperties.DynamoClassifyWrites | src/main/java/com/cohortmgmt/service/CohortServiceImpl.java:91-100 | On the table, classification makes one put per firing rule when the customer id is non-null; the multiset of items only grows and the new pairs are among the firing rules' pairs. When all those puts store, the table grows by one item per firing rule and gains exactly their pairs. |
| ServiceProperties.KnownPairsKeepQueries | src/main/java/com/cohortmgmt/service/CohortServiceImpl.java:91-100 | Classification whose pairs are all in the table already keeps the pairs, getCustomerIds and findById, wherever the items land and whichever puts throw; findByCustomerId names a type the customer already had. |
| ServiceProperties.DynamoReclassifyKeepsQueries | src/main/java/com/cohortmgmt/service/CohortServiceImpl.java:91-100 | On the table, after a first classification whose puts all stored, classifying again reports the same ids and keeps the pairs, getCustomerIds and findById, yet makes one more put per firing rule. |
| ServiceProperties.DynamoInCohortTypeIff | src/main/java/com/cohortmgmt/service/CohortServiceImpl.java:117-126 | On the table, only the customer's first item counts. The customer is in type t iff the id has no "_" and that item carries t's name. |
| ServiceProperties.InitStepEstablishes | src/main/java/com/cohortmgmt/service/CohortServiceImpl.java:58-63 | One rule of initialization makes the rule's id exist and removes no id. |
| ServiceProperties.InitPreservesValid | src/main/java/com/cohortmgmt/service/CohortServiceImpl.java:56-65 | Initialization keeps the store valid. |
| ServiceProperties.InitKeepsExisting | src/main/java/com/cohortmgmt/service/CohortServiceImpl.java:56-65 | Initialization never removes an existing id. |
| ServiceProperties.InitCreatesRuleCohorts | src/main/java/com/cohortmgmt/service/CohortServiceImpl.java:56-65 | After initialization every rule's id exists. |
| ServiceProperties.DynamoInitShape | src/main/java/com/cohortmgmt/service/CohortServiceImpl.java:56-65 | On the table, initialization writes nothing, because every valid id already exists. |
| ServiceProperties.InitIdempotent | src/main/java/com/cohortmgmt/service/CohortServiceImpl.java:56-65 | A second initialization changes nothing. |
| ServiceProperties.InitOnExisting | src/main/java/com/cohortmgmt/service/CohortServiceImpl.java:56-65 | When every rule's id exists, initialization changes nothing. |
| ServiceProperties.MemoryInitKeeps | src/main/java/com/cohortmgmt/service/CohortServiceImpl.java:56-65 | In memory, every stored cohort is kept as it was. |
| ServiceProperties.MemoryInitAdds | src/main/java/com/cohortmgmt/service/CohortServiceImpl.java:56-65 | In memory, a cohort that initialization adds is the empty cohort of a rule with that id. |
| ServiceProperties.MemoryInitTypes | src/main/java/com/cohortmgmt/service/CohortServiceImpl.java:56-65 | In memory, starting empty, every rule's cohort ends up stored with the type of the first rule that has its id. |
| ServiceProperties.ByTypeRuleMember | src/main/java/com/cohortmgmt/service/CohortServiceImpl.java:151-164 | A member of the found cohort of a rule of type t is in the answer for t. |
| ServiceProperties.ByTypeMemberRule | src/main/java/com/cohortmgmt/service/CohortServiceImpl.java:151-164 | Every id in the answer for t is a member of the found cohort of some rule of type t. |
| ServiceProperties.ByTypeCollectsMembers | src/main/java/com/cohortmgmt/service/CohortServiceImpl.java:139-167 | An id is in the answer for t iff it is a member of the found cohort of some rule of type t. |
| ServiceProperties.MembersOfAppend | src/main/java/com/cohortmgmt/service/CohortServiceImpl.java:160-164 | The union of the members of two lists placed end to end is the union of each list's members. |
| ServiceProperties.DefaultRulesOnPaidMidSpender | src/main/java/com/cohortmgmt/config/CohortRuleFactory.java:164-170 | A PAID customer spending strictly between 3000 and 5000 matches both MidSpend defaults and not DailySpend. |
| ServiceProperties.DynamoStepFires | src/main/java/com/cohortmgmt/service/CohortServiceImpl.java:92-100 | On the table, a firing rule reports its id and makes one put of its item, which lands where the put places it; the id is reported also when the put throws, and the table is then unchanged. |
| ServiceProperties.DynamoStepWrites | src/main/java/com/cohortmgmt/service/CohortServiceImpl.java:92-104 | One rule on the table makes at most one put, only when it fires and the id is non-null; the multiset of items only grows, and the pairs grow by at most the rule's pair, exactly that pair when the put stores. |
| ServiceProperties.DefaultsFirstPut | src/main/java/com/cohortmgmt/service/CohortServiceImpl.java:91-100 | On an empty table the first two defaults report MidSpend_NORMAL and make the one NORMAL put. |
| ServiceProperties.DynamoDefaultsPuts | src/main/java/com/cohortmgmt/service/CohortServiceImpl.java:91-100 | On an empty table the defaults report both MidSpend ids and make a NORMAL put and then a PREMIUM put, whatever the puts do. |
| ServiceProperties.TwoPutsTable | src/main/java/com/cohortmgmt/repository/DynamoDBCohortRepository.java:165 | Two puts into an empty table give the two items, the second in front iff it is placed at 0; two throwing puts leave it empty. |
| ServiceProperties.ItemListed | src/main/java/com/cohortmgmt/repository/DynamoDBCohortRepository.java:184-210 | An item of the customer with the rule's type puts the customer among the members of the rule's cohort. |
| ServiceProperties.TwoItemMembers | src/main/java/com/cohortmgmt/repository/DynamoDBCohortRepository.java:184-210 | A table holding the NORMAL and the PREMIUM item, in either order, lists the customer in both cohorts. |
| ServiceProperties.TwoItemTypes | src/main/java/com/cohortmgmt/service/CohortServiceImpl.java:117-126 | On such a table isCustomerInCohortType holds for the type of the item in front only. |
| ServiceProperties.UnderscoreInCohortId | src/main/java/com/cohortmgmt/service/CohortServiceImpl.java:58 | Every cohort id holds "_", so findByCustomerId never accepts one. |
| ServiceProperties.DynamoDefaultsTable | src/main/java/com/cohortmgmt/service/CohortServiceImpl.java:91-100 | On an empty table, when both default puts store, the table is the NORMAL and PREMIUM items, PREMIUM first exactly when its put places it at the front; when both throw, the table stays empty. |
| ServiceProperties.DynamoDefaultsReportOneType | src/main/java/com/cohortmgmt/service/CohortServiceImpl.java:117-126 | On that table, with both puts stored, the NORMAL and PREMIUM cohorts both list the customer, yet isCustomerInCohortType holds for exactly one of the two types: PREMIUM iff its item was placed in front. |
| ServiceProperties.ReportsAllFiringRules | src/main/java/com/cohortmgmt/service/CohortServiceImpl.java:91-100 | When every rule's cohort exists, the reported ids are exactly the firing ids. |
| ServiceProperties.DefaultsFiringIds | src/main/java/com/cohortmgmt/config/CohortRuleFactory.java:164-170 | For such a customer, the firing default ids are MidSpend_NORMAL and MidSpend_PREMIUM. |
| ServiceProperties.MemoryDefaultsIds | src/main/java/com/cohortmgmt/service/CohortServiceImpl.java:91-107 | In memory, after initialization with the defaults, such a customer is reported in those two cohorts. |
| ServiceProperties.MemoryDefaultsFindPremium | src/main/java/com/cohortmgmt/service/CohortServiceImpl.java:111-127 | In memory, after initialization and classification, such a customer is in a PREMIUM cohort. |
| CustomerItems.ExtractCustomer | src/main/java/com/cohortmgmt/service/DynamoDBStreamProcessingService.java:91-96 | Succeeds iff the three attributes are present, dailySpend has a number that parses, and userType names a user type. The customer then holds those values; its id is the S value of customerId, which `getS()` answers as null when the attribute has none. A missing customerId throws NullPointerException. |
| CustomerItems.ExtractIgnoresOtherAttributes | src/main/java/com/cohortmgmt/service/DynamoDBStreamProcessingService.java:91-93 | Attributes other than the three play no part. |
| CustomerItems.ExtractCustomerItem | src/main/java/com/cohortmgmt/service/DynamoDBStreamProcessingService.java:91-96 | A complete item yields exactly the customer it describes. |
| CustomerItems.ExtractRejectsLowerCaseType | src/main/java/com/cohortmgmt/service/DynamoDBStreamProcessingService.java:93 | "paid" is rejected with IllegalArgumentException. |
| CustomerItems.ExtractedCustomersNeverThrow | src/main/java/com/cohortmgmt/service/DynamoDBStreamProcessingService.java:91-99 | No rule throws on an extracted customer, since its spend is never null. |
| StreamProcessing.ProcessInsertOrModify | src/main/java/com/cohortmgmt/service/DynamoDBStreamProcessingService.java:83-105 | A customer is handed iff the image is non-null and the extraction succeeds, and it is the extracted customer. |
| StreamProcessing.ProcessRecord | src/main/java/com/cohortmgmt/service/DynamoDBStreamProcessingService.java:55-76 | A customer is handed iff the dynamodb part is non-null, the event is INSERT or MODIFY, and the image gives one. A null event name hands nothing, and nothing escapes. |
| StreamProcessing.Handed | src/main/java/com/cohortmgmt/service/DynamoDBStreamListener.java:217-220 | Processing a batch hands at most one customer per record. |
| StreamProcessing.InsertAndModifyAlike | src/main/java/com/cohortmgmt/service/DynamoDBStreamProcessingService.java:66-69 | INSERT and MODIFY with the same dynamodb part are processed identically. |
| StreamProcessing.RemoveIgnored | src/main/java/com/cohortmgmt/service/DynamoDBStreamProcessingService.java:70-71 | REMOVE hands nothing, even with a complete image. |
| StreamProcessing.InsertClassifies | src/main/java/com/cohortmgmt/service/DynamoDBStreamProcessingService.java:65-99 | INSERT with a complete image hands exactly Customer(customerId, dailySpend, userType). |
| StreamProcessing.HandedAreComplete | src/main/java/com/cohortmgmt/service/DynamoDBStreamProcessingService.java:91-99 | Every handed customer has a spend and a user type. |
| StreamProcessing.HandedAppend | src/main/java/com/cohortmgmt/service/DynamoDBStreamListener.java:217-220 | A batch split in two hands the first part's customers, then the second part's. |
| TriggerHandler.DynamoDBTriggerHandler.constructor | src/main/java/com/cohortmgmt/service/DynamoDBTriggerHandler.java:38 | The processed-items map starts empty. |
| TriggerHandler.DynamoDBTriggerHandler.PollCustomersTable | src/main/java/com/cohortmgmt/service/DynamoDBTriggerHandler.java:55-86 | The new map and the handed customers are those of the poll over the scan answer at the given time. |
| TriggerHandler.ProcessItem | src/main/java/com/cohortmgmt/service/DynamoDBTriggerHandler.java:93-112 | Hands the extracted customer, or nothing when the extraction throws. |
| TriggerHandler.AbortedStaysAborted | src/main/java/com/cohortmgmt/service/DynamoDBTriggerHandler.java:66-83 | Once the loop has thrown, the remaining items change nothing. |
| TriggerHandler.NewIdProcessed | src/main/java/com/cohortmgmt/service/DynamoDBTriggerHandler.java:66-81 | An id never seen is recorded with the current time, and its customer is handed when the item parses. |
| TriggerHandler.RecentIdSkipped | src/main/java/com/cohortmgmt/service/DynamoDBTriggerHandler.java:70-75 | An id processed less than 60 000 ms ago is skipped, and its time is not refreshed. |
| TriggerHandler.ElapsedIdReprocessed | src/main/java/com/cohortmgmt/service/DynamoDBTriggerHandler.java:72-81 | 60 000 ms or more later, the id is processed again and its time updated. |
| TriggerHandler.DedupBoundary | src/main/java/com/cohortmgmt/service/DynamoDBTriggerHandler.java:72 | The check is strict: 59 999 ms later the id is skipped, 60 000 ms later it is processed. |
| TriggerHandler.FailedItemRecorded | src/main/java/com/cohortmgmt/service/DynamoDBTriggerHandler.java:78-81 | An item whose attributes fail to parse is still recorded as processed, and hands nothing. |
| TriggerHandler.MissingIdAbortsBatch | src/main/java/com/cohortmgmt/service/DynamoDBTriggerHandler.java:67-83 | An item without customerId ends the poll. Earlier items stay recorded, and later ones are not looked at. |
| TriggerHandler.KeysOnlyGrow | src/main/java/com/cohortmgmt/service/DynamoDBTriggerHandler.java:66-81 | A poll never removes an id, and a recorded time only changes to the current time. |
| TriggerHandler.HandedRecorded | src/main/java/com/cohortmgmt/service/DynamoDBTriggerHandler.java:78-81 | Every customer handed in a poll is recorded with the poll's time. |
| TriggerHandler.SecondSightingSkipped | src/main/java/com/cohortmgmt/service/DynamoDBTriggerHandler.java:70-81 | Within one poll, an id recorded at the current time is skipped, so it is handed at most once. |
| TriggerHandler.HandedBounded | src/main/java/com/cohortmgmt/service/DynamoDBTriggerHandler.java:66-82 | A poll hands at most one customer per scanned item. |
| TriggerHandler.NoAbortWithIds | src/main/java/com/cohortmgmt/service/DynamoDBTriggerHandler.java:66-82 | A scan whose items all have a customerId runs to the end. |
| TriggerHandler.NewKeysAtNow | src/main/java/com/cohortmgmt/service/DynamoDBTriggerHandler.java:81 | An id the poll added carries the poll's time. |
| TriggerHandler.ScannedIdsRecorded | src/main/java/com/cohortmgmt/service/DynamoDBTriggerHandler.java:66-82 | After a poll that runs to the end, every scanned id is in the map. |
| TriggerHandler.AllRecentNoop | src/main/java/com/cohortmgmt/service/DynamoDBTriggerHandler.java:70-75 | A scan whose ids are all recent changes nothing and hands no one. |
| TriggerHandler.RepollWithinWindowIsNoop | src/main/java/com/cohortmgmt/service/DynamoDBTriggerHandler.java:66-82 | A second poll of the same new ids within a minute hands no one and leaves the map as the first poll left it. |
| TriggerHandler.ScanFailureChangesNothing | src/main/java/com/cohortmgmt/service/DynamoDBTriggerHandler.java:56-85 | A failing scan hands no one and leaves the map unchanged. |
| StreamListener.DynamoDBStreamListener.constructor | src/main/java/com/cohortmgmt/service/DynamoDBStreamListener.java:46-47 | The stream ARN starts null and the cursor map empty. |
| StreamListener.DynamoDBStreamListener.InitializeStreamListener | src/main/java/com/cohortmgmt/service/DynamoDBStreamListener.java:97-133 | A retry is scheduled iff listStreams fails or finds no stream, and then nothing changes. Otherwise the first ARN is taken and the cursors are set up. |
| StreamListener.DynamoDBStreamListener.InitializeShardIterators | src/main/java/com/cohortmgmt/service/DynamoDBStreamListener.java:154-180 | The cursor map becomes the setup over the described shards; the ARN is unchanged. |
| StreamListener.DynamoDBStreamListener.PollStream | src/main/java/com/cohortmgmt/service/DynamoDBStreamListener.java:187-228 | The poll visits the keys of the cursor map, each exactly once (`KeyOrder`). The new cursors and the handed customers are those of the poll over the shards' answers. The ARN is unchanged. |
| StreamListener.PollReadsEveryVisit | src/main/java/com/cohortmgmt/service/DynamoDBStreamListener.java:197-223 | Over distinct known shards, the loop runs to the end iff every getRecords answers a batch with a next iterator. In that case every visited shard's cursor becomes its batch's next iterator, and the customers of all batches are handed in shard order. |
| StreamListener.FullPollAdvancesEveryShard | src/main/java/com/cohortmgmt/service/DynamoDBStreamListener.java:187-224 | A poll over every key exactly once does not abort iff every read succeeds. The keys are kept. A poll that does not abort maps every key to the next iterator of that shard's batch and hands every batch's customers in order. |
| StreamListener.ProcessRecords | src/main/java/com/cohortmgmt/service/DynamoDBStreamListener.java:217-220 | The record loop hands exactly the customers of the records, in order. |
| StreamListener.SetupStaysAborted | src/main/java/com/cohortmgmt/service/DynamoDBStreamListener.java:162-179 | Once setup has thrown, the remaining shards change nothing. |
| StreamListener.PollStaysAborted | src/main/java/com/cohortmgmt/service/DynamoDBStreamListener.java:197-227 | Once a poll has thrown, the remaining shards change nothing. |
| StreamListener.PollKeepsShards | src/main/java/com/cohortmgmt/service/DynamoDBStreamListener.java:197-223 | Polling never adds or removes a shard key. |
| StreamListener.UnvisitedShardKeepsCursor | src/main/java/com/cohortmgmt/service/DynamoDBStreamListener.java:197-223 | A shard that no visit of a run of the loop names keeps its cursor, as `put` touches only the shard read. |
| StreamListener.SuccessfulReadAdvances | src/main/java/com/cohortmgmt/service/DynamoDBStreamListener.java:211-223 | After a successful read, the records are handed in order and the cursor becomes the returned iterator. |
| StreamListener.EmptyBatchMovesCursor | src/main/java/com/cohortmgmt/service/DynamoDBStreamListener.java:211-223 | An empty batch still moves the cursor, and hands nothing. |
| StreamListener.FailedReadAborts | src/main/java/com/cohortmgmt/service/DynamoDBStreamListener.java:211-227 | A failing read ends the poll, with that shard's cursor unchanged. |
| StreamListener.NullNextIteratorAborts | src/main/java/com/cohortmgmt/service/DynamoDBStreamListener.java:217-227 | With a null next iterator the records are still handed, but put throws, so the cursor stays and the poll ends. |
| StreamListener.AbortStopsPoll | src/main/java/com/cohortmgmt/service/DynamoDBStreamListener.java:197-227 | The shards after the one that ends the poll are not read. |
| StreamListener.PollHandsRecordsInOrder | src/main/java/com/cohortmgmt/service/DynamoDBStreamListener.java:217-223 | A poll's customers are those of the shards read, in shard order. |
| StreamListener.PollWithoutCursors | src/main/java/com/cohortmgmt/service/DynamoDBStreamListener.java:188-191 | A poll with no cursors changes nothing and hands no one. |
| StreamListener.SetupRecordsEveryShard | src/main/java/com/cohortmgmt/service/DynamoDBStreamListener.java:162-176 | When every shard answers an iterator, each shard's TRIM_HORIZON iterator is recorded under its id. |
| StreamListener.SetupNeverAborts | src/main/java/com/cohortmgmt/service/DynamoDBStreamListener.java:162-176 | When every shard answers an iterator, setup does not throw, and the keys become the old ones plus every shard id. |
| StreamListener.StuckAfterSetupFailure | src/main/java/com/cohortmgmt/service/DynamoDBStreamListener.java:154-191 | If setup fails after the ARN is set, the map stays empty and every later poll is skipped. |
| QueueProcessing.ParseMessage | src/main/java/com/cohortmgmt/service/CustomerDataProcessingService.java:120-128 | Succeeds iff the body parses, the three fields are present, and userType names a user type. The customer then holds the fields' values. A body that does not parse throws JsonProcessingException. |
| QueueProcessing.OutcomeOf | src/main/java/com/cohortmgmt/service/CustomerDataProcessingService.java:73-80 | Saved iff parsed. Classified iff parsed and saved. Deleted iff parsed, saved and the delete succeeded, under the message's receipt handle. |
| QueueProcessing.ClassifiedOf | src/main/java/com/cohortmgmt/service/CustomerDataProcessingService.java:73-80 | A batch classifies at most one customer per message. |
| QueueProcessing.CustomerDataProcessingService.constructor | src/main/java/com/cohortmgmt/service/CustomerDataProcessingService.java:38-49 | The queue name and endpoint are stored. |
| QueueProcessing.CustomerDataProcessingService.EnsureQueueExists | src/main/java/com/cohortmgmt/service/CustomerDataProcessingService.java:92-112 | The existing URL, else the created URL, else endpoint + "/000000000000/" + queueName; never null. |
| QueueProcessing.CustomerDataProcessingService.ProcessCustomerData | src/main/java/com/cohortmgmt/service/CustomerDataProcessingService.java:56-85 | The request asks for at most 10 messages with a 5 s wait. A failing receive processes nothing. Otherwise each message has its own outcome, so a failing message does not stop the later ones. |
| QueueProcessing.BadMessageUntouched | src/main/java/com/cohortmgmt/service/CustomerDataProcessingService.java:120-128 | A message that fails to parse is not saved, classified or deleted. |
| QueueProcessing.SaveFailureStopsMessage | src/main/java/com/cohortmgmt/service/CustomerDataProcessingService.java:131-134 | A failing save means no classification and no delete. |
| QueueProcessing.GoodMessageAcknowledged | src/main/java/com/cohortmgmt/service/CustomerDataProcessingService.java:73-137 | A well-formed message whose save and delete succeed is saved, classified and deleted. |
| QueueProcessing.FallbackQueueUrl | src/main/java/com/cohortmgmt/service/CustomerDataProcessingService.java:106-111 | Without a queue service answer, the URL is http://localhost:4566/000000000000/customer-data for the local endpoint. |
| QueueProcessing.ClassifiedOfAppend | src/main/java/com/cohortmgmt/service/CustomerDataProcessingService.java:73-80 | A batch split in two classifies the first part's customers, then the second part's. |
| QueueProcessing.ClassifiedComeFromMessages | src/main/java/com/cohortmgmt/service/CustomerDataProcessingService.java:73-80 | Every classified customer comes from a message of the batch that parsed and whose save succeeded. |
| Ingestion.ClassifyAllAppend | src/main/java/com/cohortmgmt/service/CohortServiceImpl.java:83-108 | Two deliveries in a row are one delivery of both: the second starts from the store the first left. |
| Ingestion.ClassifyAllPreservesValid | src/main/java/com/cohortmgmt/service/CohortServiceImpl.java:83-108 | Ingestion keeps the store valid. |
| Ingestion.MemoryIngestClosedForm | src/test/java/com/cohortmgmt/config/TestConfig.java:112-119 | In memory, ingestion adds each delivered customer's id to the cohorts of the rules it matches, and nothing else. |
| Ingestion.MemoryIngestOrderFree | src/main/java/com/cohortmgmt/service/CohortServiceImpl.java:91-100 | In memory, the store after ingestion depends only on which customers were delivered, not on order or repetition. |
| Ingestion.MemoryRedeliveryChangesNothing | src/main/java/com/cohortmgmt/service/CohortServiceImpl.java:91-100 | In memory, delivering the same customers again leaves the store as the first delivery left it. |
| Ingestion.MemoryIngestKeepsCohorts | src/test/java/com/cohortmgmt/config/TestConfig.java:112-119 | In memory, ingestion never creates or removes a cohort. |

## Left out

- AWS SDK clients: the stream, trigger and queue paths take each remote call's answer as a parameter (a value, or a `ServiceException`). On the cohort table only `putItem` has an outcome parameter (stored at a position, or thrown); its scans always answer with the items. Request details other than the ones the code sets (table names, limits, iterator type) are not modelled.
- Cohort objects handed to a repository are stored as value snapshots (`CohortData`), so aliasing between a saved `Cohort` and the caller's object is not modelled.
- Ids in the mock repositories are `string`, not nullable, because `ConcurrentHashMap` throws `NullPointerException` on a null key. `Save` states that error path; the other mock operations take non-null ids.
- `String.toLowerCase` is modelled on ASCII letters only, and `String.hashCode` over `char` code points. Locale rules and Unicode case mappings are not modelled.
- Daily spend is a mathematical `real`. Double rounding, NaN and infinities are not modelled. `Double.parseDouble` is modelled only as far as saying whether a number attribute's text is a numeral (then its value) or malformed (then `NumberFormatException`).
- Threads and timing are not modelled: `Thread.sleep`, `@Scheduled`, `@PostConstruct` and the retry thread of `scheduleRetry`. The retry is the `retry` result of `InitializeStreamListener`.
- `onApplicationEvent` and `DataInitializer` are not modelled. `DataInitializer` calls `initializeCohortTypes`, a method the service does not declare.
- DynamoDB does not promise a scan order. The model keeps the items in one sequence, the scan order, and the position at which each put lands in it is part of the `Env` parameter, not the order of the writes. The iteration order of Java's `HashMap`, `values()` and `keySet()` is not modelled: the in-memory queries are stated as sets, and the stream listener takes the key order as its `visits` parameter, which the poll requires to list every key of the cursor map exactly once (`KeyOrder`): which of those orders keySet() picks is left open.
- Logging is not modelled.
- The `Set<String>`/`Set<CohortType>` mismatch between `classifyCustomer` and its callers is not modelled, because the callers only log the value.
- `DynamoRepository.DynamoDBCohortRepository.FindById`: an SDK exception inside `findById`'s scan is not modelled, so the catch that answers empty (DynamoDBCohortRepository.java:133-136) is reached only through an unknown type name.
- `DynamoRepository.FindByIdOf`: as for the method, a failing scan is not modelled.
- `DynamoRepository.GetCustomerIdsOf`: an SDK exception inside the scan is not modelled, so the catch that answers the empty set (DynamoDBCohortRepository.java:213-216) is never taken.
- `DynamoRepository.FindByCustomerIdOf`: an SDK exception inside the scan is not modelled; the catch that answers the empty list (DynamoDBCohortRepository.java:262-265) is reached only through an unknown type name.
- `DynamoRepository.DynamoDBCohortRepository.GetCustomerIds`: as for `GetCustomerIdsOf`, a failing scan is not modelled.
- `DynamoRepository.DynamoDBCohortRepository.FindByCustomerId`: as for `FindByCustomerIdOf`, a failing scan is not modelled.
- `Cohorts.Cohort.SetCustomerIds` takes a set, not a nullable one: `new HashSet<>(null)` throws NullPointerException in the source, and no caller passes null.
- `getCustomerIds` and `setCustomerIds` of the `Cohort` bean copy the set. Members are value sets here, so a copy and the original cannot be told apart and the independence of the copies is not stated.
- `DynamoRepository.DynamoDBCohortRepository.Save` states the exact new table through `PlaceAll`; the growth of the multiset of items and the pairs a successful save adds are proved separately in `DynamoRepository.SaveAdds` and stated on `CohortStore.CohortRepository.Save`.
- `Service.MembersOf` carries no contract of its own; what it means is proved in `ServiceProperties.MembersOfAppend` and `ServiceProperties.ByTypeCollectsMembers`.
- A null element inside a stream's record list is not modelled.
- The `withLimit(100)` on `getRecords` is not enforced: the shard's answer is taken as given.
- `TriggerHandler.DynamoDBTriggerHandler.PollCustomersTable` uses one `now` per poll: the two `currentTimeMillis` reads of one item are collapsed into one.
- JSON parsing is not modelled: a message body is the map of `JsonNode`s that `readTree` yields, or nothing when it throws. Each node carries its `asText` and `asDouble` readings.
- Whether `customerRepository.save` and `deleteMessage` throw is a per-message parameter.
- `QueueProcessing.CustomerDataProcessingService.ProcessCustomerData`: the URLs returned by `getQueueUrl` and `createQueue` are non-null strings, so the skip on a null queue URL is never taken.
- `StreamListener.DynamoDBStreamListener.PollStream`: the skip for a null iterator in the key loop cannot happen, because `ConcurrentHashMap` holds no null values. The model keeps a skip for a visited shard id that has no cursor, and under `KeyOrder` it is never taken either.
- The calls to `classifyCustomer` made by the ingestion paths are returned as sequences of customers. They are composed with the service through `Ingestion.ClassifyAll`, not called in place.
- `DynamoDBCustomerRepository`, `AwsConfig`, `AwsResourceInitializer`, the REST controller, the exception classes and the Spring application class are not part of this model.
