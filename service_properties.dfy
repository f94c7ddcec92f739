/**
 * What the cohort service does to each store: which ids classification
 * reports, what it writes, what initialization creates, and what the queries
 * answer afterwards. The in-memory store behaves like a set of memberships;
 * the table gains an item per match whose put stores it, wherever that item
 * lands in the scan, and answers findByCustomerId from the customer's first
 * item only.
 */
module ServiceProperties {
  import opened Wrappers
  import opened Types
  import opened Customers
  import opened Cohorts
  import opened Rules
  import opened CohortStore
  import opened Service
  import opened RuleFactory
  import M = MemoryRepositories
  import D = DynamoRepository

  // ---------------------------------------------------------------------
  // Rule lists split at their last rule

  lemma InInit(rules: seq<Rule>, r: Rule)
    requires r in rules && r != rules[|rules| - 1]
    ensures r in rules[..|rules| - 1]
  {
    var i :| 0 <= i < |rules| && rules[i] == r;
    assert rules[..|rules| - 1][i] == r;
  }

  lemma InWhole(rules: seq<Rule>, r: Rule)
    requires rules != [] && r in rules[..|rules| - 1]
    ensures r in rules
  {
    var i :| 0 <= i < |rules| - 1 && rules[..|rules| - 1][i] == r;
    assert rules[i] == r;
  }

  // ---------------------------------------------------------------------
  // Classification on either store

  /** Classification with one more rule at the end is one more step. */
  lemma ClassifyOfSnoc(rules: seq<Rule>, r: Rule, c: CustomerRecord, s: StoreState)
    ensures var (ids, s1) := ClassifyOf(rules, c, s);
      var (more, s2) := ClassifyStep(r, c, s1);
      ClassifyOf(rules + [r], c, s) == (ids + more, s2)
  {
    assert (rules + [r])[..|rules|] == rules;
  }

  /** Classification never changes which cohort ids are found. */
  lemma {:induction false} ClassifyKeepsCohortIds(rules: seq<Rule>, c: CustomerRecord, s: StoreState, x: string)
    ensures FindOf(ClassifyOf(rules, c, s).1, x).Some? <==> FindOf(s, x).Some?
  {
    if rules != [] {
      var init := rules[..|rules| - 1];
      ClassifyKeepsCohortIds(init, c, s, x);
      var s1 := ClassifyOf(init, c, s).1;
      AddKeepsCohortIds(s1, CohortId(rules[|rules| - 1]), c.customerId, x);
    }
  }

  /** Classification keeps the store valid. */
  lemma {:induction false} ClassifyPreservesValid(rules: seq<Rule>, c: CustomerRecord, s: StoreState)
    requires StateValid(s)
    ensures StateValid(ClassifyOf(rules, c, s).1)
  {
    if rules != [] {
      var init := rules[..|rules| - 1];
      ClassifyPreservesValid(init, c, s);
      AddPreservesValid(ClassifyOf(init, c, s).1, CohortId(rules[|rules| - 1]), c.customerId);
    }
  }

  /** The cohort ids of the rules that fire for the customer. */
  function FiringIds(rules: seq<Rule>, c: CustomerRecord): set<string>
  {
    if rules == [] then {}
    else
      var last := rules[|rules| - 1];
      FiringIds(rules[..|rules| - 1], c) + (if last.Fires(Some(c)) then {CohortId(last)} else {})
  }

  /** A rule of the list that fires contributes its id. */
  lemma {:induction false} FiringIdOfRule(rules: seq<Rule>, c: CustomerRecord, r: Rule)
    requires r in rules && r.Fires(Some(c))
    ensures CohortId(r) in FiringIds(rules, c)
  {
    if r != rules[|rules| - 1] {
      InInit(rules, r);
      FiringIdOfRule(rules[..|rules| - 1], c, r);
    }
  }

  /** Every firing id comes from a rule of the list that fires. */
  lemma {:induction false} FiringIdHasRule(rules: seq<Rule>, c: CustomerRecord, id: string) returns (r: Rule)
    requires id in FiringIds(rules, c)
    ensures r in rules && r.Fires(Some(c)) && CohortId(r) == id
  {
    var init := rules[..|rules| - 1];
    if id in FiringIds(init, c) {
      r := FiringIdHasRule(init, c, id);
      InWhole(rules, r);
    } else {
      r := rules[|rules| - 1];
    }
  }

  /** An id is a firing id exactly when some rule of the list fires and has that id. */
  lemma FiringIdsMeaning(rules: seq<Rule>, c: CustomerRecord, id: string)
    ensures id in FiringIds(rules, c) <==> exists r :: r in rules && r.Fires(Some(c)) && CohortId(r) == id
  {
    if id in FiringIds(rules, c) {
      var r := FiringIdHasRule(rules, c, id);
    }
    if exists r :: r in rules && r.Fires(Some(c)) && CohortId(r) == id {
      var r :| r in rules && r.Fires(Some(c)) && CohortId(r) == id;
      FiringIdOfRule(rules, c, r);
    }
  }

  /** The reported ids are exactly the found cohort ids of the rules that fire. */
  lemma {:induction false} ClassifyReportsFiringRules(rules: seq<Rule>, c: CustomerRecord, s: StoreState, id: string)
    ensures id in ClassifyOf(rules, c, s).0 <==> FindOf(s, id).Some? && id in FiringIds(rules, c)
  {
    if rules != [] {
      var init := rules[..|rules| - 1];
      ClassifyReportsFiringRules(init, c, s, id);
      ClassifyKeepsCohortIds(init, c, s, id);
    }
  }

  /** A customer no rule matches is reported nowhere and changes nothing. */
  lemma {:induction false} NoFiringRuleNoChange(rules: seq<Rule>, c: CustomerRecord, s: StoreState)
    requires forall r :: r in rules ==> !r.Fires(Some(c))
    ensures ClassifyOf(rules, c, s) == ({}, s)
  {
    if rules != [] {
      var init := rules[..|rules| - 1];
      forall r | r in init ensures r in rules {
        InWhole(rules, r);
      }
      NoFiringRuleNoChange(init, c, s);
      var last := rules[|rules| - 1];
      assert last in rules;
      assert ClassifyStep(last, c, s) == ({}, s);
      var e: set<string> := {};
      assert e + e == e;
    }
  }

  // ---------------------------------------------------------------------
  // Classification on the in-memory store

  /** The store m with x added to the members of every cohort whose id is in ids. */
  function Joined(m: map<string, CohortData>, ids: set<string>, x: JString): map<string, CohortData>
  {
    map k | k in m :: if k in ids then m[k].(customerIds := m[k].customerIds + {x}) else m[k]
  }

  /** Adding x to one more cohort of a joined store. */
  lemma JoinedAdd(m: map<string, CohortData>, ids: set<string>, id: string, x: JString)
    requires id in m
    ensures var j := Joined(m, ids, x);
      j[id := j[id].(customerIds := j[id].customerIds + {x})] == Joined(m, ids + {id}, x)
  {
  }

  /** One rule of classification on the in-memory store. */
  lemma MemoryStep(r: Rule, c: CustomerRecord, m: map<string, CohortData>)
    ensures var id := CohortId(r);
      ClassifyStep(r, c, MemoryState(m)) ==
        if r.Fires(Some(c)) && id in m
        then ({id}, MemoryState(m[id := m[id].(customerIds := m[id].customerIds + {c.customerId})]))
        else ({}, MemoryState(m))
  {
  }

  /** In memory, classification adds the customer id to the members of exactly the reported cohorts. */
  lemma {:induction false} MemoryClassifyClosedForm(rules: seq<Rule>, c: CustomerRecord, m: map<string, CohortData>)
    ensures ClassifyOf(rules, c, MemoryState(m)).1 == MemoryState(Joined(m, ClassifyOf(rules, c, MemoryState(m)).0, c.customerId))
  {
    var x := c.customerId;
    if rules == [] {
      assert Joined(m, {}, x) == m;
    } else {
      var init := rules[..|rules| - 1];
      var r := rules[|rules| - 1];
      MemoryClassifyClosedForm(init, c, m);
      var ids := ClassifyOf(init, c, MemoryState(m)).0;
      var j := Joined(m, ids, x);
      MemoryStep(r, c, j);
      if r.Fires(Some(c)) && CohortId(r) in j {
        JoinedAdd(m, ids, CohortId(r), x);
      } else {
        assert ids + {} == ids;
      }
    }
  }

  /** In memory, classifying the same customer twice answers the same ids and leaves the store as after the first time. */
  lemma MemoryClassifyIdempotent(rules: seq<Rule>, c: CustomerRecord, m: map<string, CohortData>)
    ensures var (ids, s1) := ClassifyOf(rules, c, MemoryState(m));
      ClassifyOf(rules, c, s1) == (ids, s1)
  {
    var (ids, s1) := ClassifyOf(rules, c, MemoryState(m));
    MemoryClassifyClosedForm(rules, c, m);
    var m1 := s1.cohorts;
    MemoryClassifyClosedForm(rules, c, m1);
    var (ids2, s2) := ClassifyOf(rules, c, s1);
    forall id ensures id in ids2 <==> id in ids {
      ClassifyReportsFiringRules(rules, c, MemoryState(m), id);
      ClassifyReportsFiringRules(rules, c, s1, id);
      ClassifyKeepsCohortIds(rules, c, MemoryState(m), id);
    }
    assert ids2 == ids;
    assert Joined(m1, ids, c.customerId) == m1;
  }

  /** In memory, the order of the rules does not matter; only which rules there are. */
  lemma MemoryClassifyOrderFree(rules1: seq<Rule>, rules2: seq<Rule>, c: CustomerRecord, m: map<string, CohortData>)
    requires forall r :: r in rules1 <==> r in rules2
    ensures ClassifyOf(rules1, c, MemoryState(m)) == ClassifyOf(rules2, c, MemoryState(m))
  {
    var ids1 := ClassifyOf(rules1, c, MemoryState(m)).0;
    var ids2 := ClassifyOf(rules2, c, MemoryState(m)).0;
    forall id ensures id in ids1 <==> id in ids2 {
      ClassifyReportsFiringRules(rules1, c, MemoryState(m), id);
      ClassifyReportsFiringRules(rules2, c, MemoryState(m), id);
      FiringIdsMeaning(rules1, c, id);
      FiringIdsMeaning(rules2, c, id);
    }
    assert ids1 == ids2;
    MemoryClassifyClosedForm(rules1, c, m);
    MemoryClassifyClosedForm(rules2, c, m);
  }

  /** In memory, isCustomerInCohortType asks whether some stored cohort of that type lists the customer. */
  lemma MemoryInCohortTypeIff(m: map<string, CohortData>, customerId: string, t: CohortType)
    ensures InCohortTypeOf(MemoryState(m), customerId, t) <==>
      exists k :: k in m && Some(customerId) in m[k].customerIds && m[k].cohortType == Some(t)
  {
    if exists k :: k in m && Some(customerId) in m[k].customerIds && m[k].cohortType == Some(t) {
      var k :| k in m && Some(customerId) in m[k].customerIds && m[k].cohortType == Some(t);
      assert m[k] in M.FindByCustomerIdOf(m, Some(customerId));
    }
  }

  /**
   * In memory, a customer matching a rule whose cohort is stored with the
   * rule's type is afterwards in a cohort of that type.
   */
  lemma MemoryClassifyThenQuery(rules: seq<Rule>, c: CustomerRecord, m: map<string, CohortData>, r: Rule)
    requires r in rules && r.Fires(Some(c)) && c.customerId.Some?
    requires CohortId(r) in m && m[CohortId(r)].cohortType == Some(r.CohortTypeOf())
    ensures InCohortTypeOf(ClassifyOf(rules, c, MemoryState(m)).1, c.customerId.value, r.CohortTypeOf())
  {
    MemoryClassifyClosedForm(rules, c, m);
    ClassifyReportsFiringRules(rules, c, MemoryState(m), CohortId(r));
    FiringIdOfRule(rules, c, r);
    var m1 := ClassifyOf(rules, c, MemoryState(m)).1.cohorts;
    MemoryInCohortTypeIff(m1, c.customerId.value, r.CohortTypeOf());
    assert Some(c.customerId.value) in m1[CohortId(r)].customerIds;
  }

  // ---------------------------------------------------------------------
  // Classification on the table

  /** A rule's cohort always exists in the table and is always found, whatever the items. */
  lemma DynamoRuleCohortsExist(items: seq<D.CohortItem>, issued: nat, env: D.Env, r: Rule)
    ensures ExistsOf(DynamoState(items, issued, env), CohortId(r))
    ensures FindOf(DynamoState(items, issued, env), CohortId(r)).Some?
  {
    assert CohortTypeValueOf(CohortTypeName(r.CohortTypeOf())) == Some(r.CohortTypeOf());
  }

  /** A table that keeps all its items keeps all its pairs. */
  lemma PairsGrow(a: seq<D.CohortItem>, b: seq<D.CohortItem>)
    requires multiset(a) <= multiset(b)
    ensures D.Pairs(a) <= D.Pairs(b)
  {
    forall p | p in D.Pairs(a) ensures p in D.Pairs(b) {
      var i :| i in a && p == (i.customerId, i.cohortType);
      assert i in multiset(a);
      assert i in multiset(b);
    }
  }

  /** The number of rules that fire for the customer. */
  function FiringCount(rules: seq<Rule>, c: CustomerRecord): nat
  {
    if rules == [] then 0
    else FiringCount(rules[..|rules| - 1], c) + (if rules[|rules| - 1].Fires(Some(c)) then 1 else 0)
  }

  /** The (customer, type) pairs of the rules that fire for a customer with an id. */
  function FiringPairs(rules: seq<Rule>, c: CustomerRecord): set<(string, string)>
  {
    set r | r in rules && r.Fires(Some(c)) && c.customerId.Some? :: (c.customerId.value, CohortTypeName(r.CohortTypeOf()))
  }

  lemma FiringPairsSnoc(rules: seq<Rule>, c: CustomerRecord)
    requires rules != []
    ensures var last := rules[|rules| - 1];
      FiringPairs(rules, c) == FiringPairs(rules[..|rules| - 1], c) +
        (if last.Fires(Some(c)) && c.customerId.Some? then {(c.customerId.value, CohortTypeName(last.CohortTypeOf()))} else {})
  {
    var init := rules[..|rules| - 1];
    forall r | r in init ensures r in rules {
      InWhole(rules, r);
    }
    forall r | r in rules && r != rules[|rules| - 1] ensures r in init {
      InInit(rules, r);
    }
  }

  /** The pairs one rule's put may add for the customer. */
  function StepPairs(r: Rule, c: CustomerRecord): set<(string, string)>
  {
    if r.Fires(Some(c)) && c.customerId.Some? then {(c.customerId.value, CohortTypeName(r.CohortTypeOf()))} else {}
  }

  /** One rule on the table: at most one put, which adds at most the rule's pair. */
  lemma DynamoStepWrites(r: Rule, c: CustomerRecord, items: seq<D.CohortItem>, issued: nat, env: D.Env)
    ensures var s' := ClassifyStep(r, c, DynamoState(items, issued, env)).1;
      && s'.DynamoState? && s'.env == env
      && s'.issued == issued + (if r.Fires(Some(c)) && c.customerId.Some? then 1 else 0)
      && multiset(items) <= multiset(s'.items)
      && D.Pairs(s'.items) <= D.Pairs(items) + StepPairs(r, c)
      && (r.Fires(Some(c)) && c.customerId.Some? && D.OutcomeOf(env, issued).Stored? ==>
            |s'.items| == |items| + 1 && D.Pairs(s'.items) == D.Pairs(items) + StepPairs(r, c))
  {
    var s' := ClassifyStep(r, c, DynamoState(items, issued, env)).1;
    if r.Fires(Some(c)) && c.customerId.Some? {
      var item := RuleItem(r, c.customerId.value, issued);
      DynamoStepFires(r, c, items, issued, env);
      if D.OutcomeOf(env, issued).Stored? {
        D.PairsOfUnion(s'.items, items, [item]);
        assert D.Pairs([item]) == StepPairs(r, c) by {
          assert item in [item];
        }
      }
    }
  }

  /**
   * On the table, classification only adds items: one put per rule that
   * fires (when the customer id is not null), carrying the customer and the
   * type of the rule, even when the customer already has that pair. A put
   * that throws is caught and its id still reported, so the table gains a
   * pair only from a rule that fires, and gains every such pair when all
   * the puts store their items.
   */
  lemma {:induction false} DynamoClassifyWrites(rules: seq<Rule>, c: CustomerRecord, items: seq<D.CohortItem>, issued: nat, env: D.Env)
    ensures var s' := ClassifyOf(rules, c, DynamoState(items, issued, env)).1;
      && s'.DynamoState? && s'.env == env
      && s'.issued == issued + (if c.customerId.Some? then FiringCount(rules, c) else 0)
      && multiset(items) <= multiset(s'.items)
      && D.Pairs(s'.items) <= D.Pairs(items) + FiringPairs(rules, c)
      && (c.customerId.Some? && D.StoredFrom(env, issued, FiringCount(rules, c)) ==>
            && |s'.items| == |items| + FiringCount(rules, c)
            && D.Pairs(s'.items) == D.Pairs(items) + FiringPairs(rules, c))
  {
    if rules != [] {
      var init := rules[..|rules| - 1];
      var last := rules[|rules| - 1];
      assert rules == init + [last];
      DynamoClassifyWrites(init, c, items, issued, env);
      FiringPairsSnoc(rules, c);
      ClassifyOfSnoc(init, last, c, DynamoState(items, issued, env));
      var s1 := ClassifyOf(init, c, DynamoState(items, issued, env)).1;
      DynamoStepWrites(last, c, s1.items, s1.issued, env);
      if c.customerId.Some? && D.StoredFrom(env, issued, FiringCount(rules, c)) {
        assert D.StoredFrom(env, issued, FiringCount(init, c));
        if last.Fires(Some(c)) {
          assert D.OutcomeOf(env, s1.issued).Stored?;
        }
      }
    }
  }

  /**
   * Classification whose pairs are all in the table already changes no
   * member query, and findByCustomerId then names a type the customer
   * already had, wherever the new items land and whichever puts throw.
   */
  lemma KnownPairsKeepQueries(rules: seq<Rule>, c: CustomerRecord, items: seq<D.CohortItem>, issued: nat, env: D.Env)
    requires FiringPairs(rules, c) <= D.Pairs(items)
    ensures var s' := ClassifyOf(rules, c, DynamoState(items, issued, env)).1;
      && s'.DynamoState? && D.Pairs(s'.items) == D.Pairs(items) && D.SameMemberQueries(items, s'.items)
      && (forall x :: D.FindByCustomerIdOf(s'.items, x) != [] ==>
            x.Some? && (x.value, CohortTypeName(D.FindByCustomerIdOf(s'.items, x)[0].cohortType.value)) in D.Pairs(items))
  {
    DynamoClassifyWrites(rules, c, items, issued, env);
    var s' := ClassifyOf(rules, c, DynamoState(items, issued, env)).1;
    PairsGrow(items, s'.items);
    D.SamePairsSameMemberQueries(items, s'.items);
    forall x ensures D.FindByCustomerIdOf(s'.items, x) != [] ==>
      x.Some? && (x.value, CohortTypeName(D.FindByCustomerIdOf(s'.items, x)[0].cohortType.value)) in D.Pairs(items)
    {
      D.FindByCustomerIdReportsOwnPair(s'.items, x);
    }
  }

  /**
   * On the table, classifying the same customer again, after a first
   * classification whose puts all stored their items, reports the same ids
   * and changes no member query; findByCustomerId names a type the customer
   * had after the first round. The second round still makes one put per
   * rule that fires.
   */
  lemma DynamoReclassifyKeepsQueries(rules: seq<Rule>, c: CustomerRecord, items: seq<D.CohortItem>, issued: nat, env: D.Env)
    requires c.customerId.Some? ==> D.StoredFrom(env, issued, FiringCount(rules, c))
    ensures var (ids1, s1) := ClassifyOf(rules, c, DynamoState(items, issued, env));
      var (ids2, s2) := ClassifyOf(rules, c, s1);
      && ids2 == ids1 && s1.DynamoState? && s2.DynamoState?
      && D.Pairs(s2.items) == D.Pairs(s1.items) && D.SameMemberQueries(s1.items, s2.items)
      && (forall x :: D.FindByCustomerIdOf(s2.items, x) != [] ==>
            x.Some? && (x.value, CohortTypeName(D.FindByCustomerIdOf(s2.items, x)[0].cohortType.value)) in D.Pairs(s1.items))
      && s2.issued == s1.issued + (if c.customerId.Some? then FiringCount(rules, c) else 0)
  {
    var (ids1, s1) := ClassifyOf(rules, c, DynamoState(items, issued, env));
    DynamoClassifyWrites(rules, c, items, issued, env);
    assert s1 == DynamoState(s1.items, s1.issued, env);
    if c.customerId.None? {
      assert FiringPairs(rules, c) == {};
    }
    KnownPairsKeepQueries(rules, c, s1.items, s1.issued, env);
    DynamoClassifyWrites(rules, c, s1.items, s1.issued, env);
    var ids2 := ClassifyOf(rules, c, s1).0;
    forall id ensures id in ids2 <==> id in ids1 {
      ClassifyReportsFiringRules(rules, c, DynamoState(items, issued, env), id);
      ClassifyReportsFiringRules(rules, c, s1, id);
      ClassifyKeepsCohortIds(rules, c, DynamoState(items, issued, env), id);
    }
  }

  /**
   * On the table, isCustomerInCohortType looks at the customer's first item
   * only: true iff the id has no "_" and that item carries the type's name.
   */
  lemma DynamoInCohortTypeIff(items: seq<D.CohortItem>, issued: nat, env: D.Env, customerId: string, t: CohortType)
    ensures InCohortTypeOf(DynamoState(items, issued, env), customerId, t) <==>
      '_' !in customerId && D.FirstMatch(items, customerId).Some? &&
      items[D.FirstMatch(items, customerId).value].cohortType == CohortTypeName(t)
  {
    var r := D.FindByCustomerIdOf(items, Some(customerId));
    if '_' !in customerId && D.FirstMatch(items, customerId).Some? {
      var k := D.FirstMatch(items, customerId).value;
      if items[k].cohortType == CohortTypeName(t) {
        assert CohortTypeValueOf(items[k].cohortType) == Some(t);
        assert r[0] in r;
      }
    }
  }

  // ---------------------------------------------------------------------
  // Initialization

  /** One step of initialization creates the rule's cohort id and removes none. */
  lemma InitStepEstablishes(s: StoreState, r: Rule, id: string)
    ensures ExistsOf(InitStep(s, r), CohortId(r))
    ensures ExistsOf(s, id) ==> ExistsOf(InitStep(s, r), id)
  {
    if s.DynamoState? {
      DynamoRuleCohortsExist(s.items, s.issued, s.env, r);
    }
  }

  /** Initialization keeps the store valid. */
  lemma {:induction false} InitPreservesValid(s: StoreState, rules: seq<Rule>)
    requires StateValid(s)
    ensures StateValid(InitOf(s, rules))
  {
    if rules != [] {
      var init := rules[..|rules| - 1];
      InitPreservesValid(s, init);
      SaveEmptyPreservesValid(InitOf(s, init), NewCohortFor(rules[|rules| - 1]));
    }
  }

  /** Initialization never removes a cohort id. */
  lemma {:induction false} InitKeepsExisting(s: StoreState, rules: seq<Rule>, id: string)
    requires ExistsOf(s, id)
    ensures ExistsOf(InitOf(s, rules), id)
  {
    if rules != [] {
      InitKeepsExisting(s, rules[..|rules| - 1], id);
      InitStepEstablishes(InitOf(s, rules[..|rules| - 1]), rules[|rules| - 1], id);
    }
  }

  /** After initialization every rule's cohort id exists. */
  lemma {:induction false} InitCreatesRuleCohorts(s: StoreState, rules: seq<Rule>, r: Rule)
    requires r in rules
    ensures ExistsOf(InitOf(s, rules), CohortId(r))
  {
    var init := rules[..|rules| - 1];
    var last := rules[|rules| - 1];
    if r != last {
      InInit(rules, r);
      InitCreatesRuleCohorts(s, init, r);
    }
    InitStepEstablishes(InitOf(s, init), last, CohortId(r));
  }

  /** Initialization keeps the table variant of the store. */
  lemma {:induction false} DynamoInitShape(s: StoreState, rules: seq<Rule>)
    requires s.DynamoState?
    ensures InitOf(s, rules) == s
  {
    if rules != [] {
      DynamoInitShape(s, rules[..|rules| - 1]);
      DynamoRuleCohortsExist(s.items, s.issued, s.env, rules[|rules| - 1]);
    }
  }

  /** Initialization may be repeated: the second run changes nothing. */
  lemma {:induction false} InitIdempotent(s: StoreState, rules: seq<Rule>)
    ensures InitOf(InitOf(s, rules), rules) == InitOf(s, rules)
  {
    forall r | r in rules ensures ExistsOf(InitOf(s, rules), CohortId(r)) {
      InitCreatesRuleCohorts(s, rules, r);
    }
    InitOnExisting(InitOf(s, rules), rules);
  }

  lemma {:induction false} InitOnExisting(s: StoreState, rules: seq<Rule>)
    requires forall r :: r in rules ==> ExistsOf(s, CohortId(r))
    ensures InitOf(s, rules) == s
  {
    if rules != [] {
      var init := rules[..|rules| - 1];
      forall r | r in init ensures r in rules {
        InWhole(rules, r);
      }
      InitOnExisting(s, init);
      assert rules[|rules| - 1] in rules;
    }
  }

  /** In memory, initialization keeps every stored cohort as it was. */
  lemma {:induction false} MemoryInitKeeps(m: map<string, CohortData>, rules: seq<Rule>, k: string)
    requires k in m
    ensures InitOf(MemoryState(m), rules).MemoryState?
    ensures k in InitOf(MemoryState(m), rules).cohorts && InitOf(MemoryState(m), rules).cohorts[k] == m[k]
  {
    if rules != [] {
      var init := rules[..|rules| - 1];
      MemoryInitKeeps(m, init, k);
      var last := rules[|rules| - 1];
      var s1 := InitOf(MemoryState(m), init);
      assert InitOf(MemoryState(m), rules) == InitStep(s1, last);
      if !ExistsOf(s1, CohortId(last)) {
        assert CohortId(last) != k by { assert ExistsOf(s1, k); }
        assert InitStep(s1, last).cohorts == s1.cohorts[CohortId(last) := NewCohortFor(last)];
      }
    }
  }

  /** In memory, a cohort that initialization adds is the empty cohort of a rule with that id. */
  lemma {:induction false} MemoryInitAdds(m: map<string, CohortData>, rules: seq<Rule>, k: string)
    ensures InitOf(MemoryState(m), rules).MemoryState?
    ensures k in InitOf(MemoryState(m), rules).cohorts && k !in m ==>
      exists r :: r in rules && CohortId(r) == k && InitOf(MemoryState(m), rules).cohorts[k] == NewCohortFor(r)
  {
    if rules != [] {
      var init := rules[..|rules| - 1];
      var last := rules[|rules| - 1];
      MemoryInitAdds(m, init, k);
      var s1 := InitOf(MemoryState(m), init);
      var m1 := s1.cohorts;
      var m2 := InitOf(MemoryState(m), rules).cohorts;
      assert InitOf(MemoryState(m), rules) == InitStep(s1, last);
      var grows := !ExistsOf(s1, CohortId(last));
      assert m2 == if grows then m1[CohortId(last) := NewCohortFor(last)] else m1;
      if k in m2 && k !in m {
        if k in m1 {
          var r :| r in init && CohortId(r) == k && m1[k] == NewCohortFor(r);
          assert r in rules;
          assert m2[k] == m1[k] by { assert ExistsOf(s1, k); }
        } else {
          assert last in rules && CohortId(last) == k;
        }
      }
    }
  }

  /** In memory, from an empty store, each rule's cohort ends up with the rule's type. */
  lemma MemoryInitTypes(rules: seq<Rule>, r: Rule)
    requires r in rules
    ensures InitOf(MemoryState(map[]), rules).MemoryState?
    ensures var m' := InitOf(MemoryState(map[]), rules).cohorts;
      CohortId(r) in m' && m'[CohortId(r)].cohortType == Some(r.CohortTypeOf())
  {
    MemoryInitAdds(map[], rules, CohortId(r));
    InitCreatesRuleCohorts(MemoryState(map[]), rules, r);
    var m' := InitOf(MemoryState(map[]), rules).cohorts;
    var q :| q in rules && CohortId(q) == CohortId(r) && m'[CohortId(r)] == NewCohortFor(q);
    CohortTypeNameInjective(q.CohortTypeOf(), r.CohortTypeOf());
  }

  // ---------------------------------------------------------------------
  // getCohortCustomerIdsByType

  lemma {:induction false} MembersOfAppend(a: seq<CohortData>, b: seq<CohortData>)
    ensures MembersOf(a + b) == MembersOf(a) + MembersOf(b)
    decreases |b|
  {
    if b == [] {
      assert a + b == a;
    } else {
      assert (a + b)[..|a + b| - 1] == a + b[..|b| - 1];
      MembersOfAppend(a, b[..|b| - 1]);
    }
  }

  /** The members collected for the rules of a list, one rule further. */
  lemma FoundOfTypeStep(rules: seq<Rule>, s: StoreState, t: CohortType, x: JString)
    requires rules != []
    ensures var r := rules[|rules| - 1];
      x in MembersOf(FoundOfType(rules, s, t)) <==>
        x in MembersOf(FoundOfType(rules[..|rules| - 1], s, t)) ||
        (r.CohortTypeOf() == t && FindOf(s, CohortId(r)).Some? && x in FindOf(s, CohortId(r)).value.customerIds)
  {
    var r := rules[|rules| - 1];
    var extra := if r.CohortTypeOf() == t && FindOf(s, CohortId(r)).Some? then [FindOf(s, CohortId(r)).value] else [];
    MembersOfAppend(FoundOfType(rules[..|rules| - 1], s, t), extra);
    if extra != [] {
      assert extra[..0] == [];
    }
  }

  /** A rule of type t whose cohort is found contributes that cohort's members. */
  lemma {:induction false} ByTypeRuleMember(rules: seq<Rule>, s: StoreState, t: CohortType, x: JString, r: Rule)
    requires r in rules && r.CohortTypeOf() == t && FindOf(s, CohortId(r)).Some? && x in FindOf(s, CohortId(r)).value.customerIds
    ensures x in MembersOf(FoundOfType(rules, s, t))
  {
    if r != rules[|rules| - 1] {
      InInit(rules, r);
      ByTypeRuleMember(rules[..|rules| - 1], s, t, x, r);
    }
    FoundOfTypeStep(rules, s, t, x);
  }

  /** Every collected member comes from the found cohort of a rule of type t. */
  lemma {:induction false} ByTypeMemberRule(rules: seq<Rule>, s: StoreState, t: CohortType, x: JString) returns (r: Rule)
    requires x in MembersOf(FoundOfType(rules, s, t))
    ensures r in rules && r.CohortTypeOf() == t && FindOf(s, CohortId(r)).Some? && x in FindOf(s, CohortId(r)).value.customerIds
  {
    FoundOfTypeStep(rules, s, t, x);
    var init := rules[..|rules| - 1];
    if x in MembersOf(FoundOfType(init, s, t)) {
      r := ByTypeMemberRule(init, s, t, x);
      InWhole(rules, r);
    } else {
      r := rules[|rules| - 1];
    }
  }

  /** The ids answered for a type are the members of the found cohorts of the rules with that type. */
  lemma ByTypeCollectsMembers(rules: seq<Rule>, s: StoreState, t: CohortType, x: JString)
    ensures x in MembersOf(FoundOfType(rules, s, t)) <==>
      exists r :: r in rules && r.CohortTypeOf() == t && FindOf(s, CohortId(r)).Some? && x in FindOf(s, CohortId(r)).value.customerIds
  {
    if x in MembersOf(FoundOfType(rules, s, t)) {
      var r := ByTypeMemberRule(rules, s, t, x);
    }
    if exists r :: r in rules && r.CohortTypeOf() == t && FindOf(s, CohortId(r)).Some? && x in FindOf(s, CohortId(r)).value.customerIds {
      var r :| r in rules && r.CohortTypeOf() == t && FindOf(s, CohortId(r)).Some? && x in FindOf(s, CohortId(r)).value.customerIds;
      ByTypeRuleMember(rules, s, t, x, r);
    }
  }

  // ---------------------------------------------------------------------
  // The default rules on the two stores

  /**
   * A PAID customer spending strictly between 3000 and 5000 matches the
   * NORMAL and the PREMIUM MidSpend rules of the defaults, and nothing else.
   */
  lemma DefaultRulesOnPaidMidSpender(c: CustomerRecord)
    requires c.dailySpend.Some? && 3000.0 < c.dailySpend.value < 5000.0 && c.userType == Some(Paid)
    ensures !DefaultRules()[0].Fires(Some(c))
    ensures DefaultRules()[1] == MidSpend(Normal) && DefaultRules()[1].Fires(Some(c))
    ensures DefaultRules()[2] == MidSpend(Premium) && DefaultRules()[2].Fires(Some(c))
  {
    DailySpendFiresIff(5000.0, c);
    MidSpendPremiumGate(c);
    MidSpendOtherVariants(Normal, c);
  }

  /** The item that classification writes to the table for a customer matching a rule. */
  function RuleItem(r: Rule, customerId: string, uuid: nat): D.CohortItem
  {
    D.CohortItem(customerId, uuid, CohortTypeName(r.CohortTypeOf()), D.CohortDescription(r.Name(), CohortTypeName(r.CohortTypeOf())))
  }

  /**
   * On the table, a rule that fires for a customer with an id reports its
   * cohort and makes one put of the rule's item, which lands where the put
   * places it; the id is reported also when the put throws.
   */
  lemma DynamoStepFires(r: Rule, c: CustomerRecord, items: seq<D.CohortItem>, issued: nat, env: D.Env)
    requires r.Fires(Some(c)) && c.customerId.Some?
    ensures ClassifyStep(r, c, DynamoState(items, issued, env)) ==
      ({CohortId(r)}, DynamoState(D.Put(items, D.OutcomeOf(env, issued), RuleItem(r, c.customerId.value, issued)), issued + 1, env))
    ensures D.OutcomeOf(env, issued).PutFails? ==>
      ClassifyStep(r, c, DynamoState(items, issued, env)) == ({CohortId(r)}, DynamoState(items, issued + 1, env))
  {
    DynamoRuleCohortsExist(items, issued, env, r);
  }

  /**
   * On an empty table the defaults make a NORMAL put and then a PREMIUM put
   * for such a customer and report both ids, whatever the puts do.
   */
  lemma DynamoDefaultsPuts(c: CustomerRecord, env: D.Env)
    requires c.dailySpend.Some? && 3000.0 < c.dailySpend.value < 5000.0 && c.userType == Some(Paid)
    requires c.customerId.Some?
    ensures var first := RuleItem(MidSpend(Normal), c.customerId.value, 0);
      var second := RuleItem(MidSpend(Premium), c.customerId.value, 1);
      ClassifyOf(DefaultRules(), c, DynamoState([], 0, env)) ==
        ({CohortId(MidSpend(Normal)), CohortId(MidSpend(Premium))},
         DynamoState(D.Put(D.Put([], D.OutcomeOf(env, 0), first), D.OutcomeOf(env, 1), second), 2, env))
  {
    var x := c.customerId.value;
    DefaultRulesOnPaidMidSpender(c);
    var r2 := MidSpend(Premium);
    var init := DefaultRules()[..2];
    assert DefaultRules() == init + [r2];
    var t1 := D.Put([], D.OutcomeOf(env, 0), RuleItem(MidSpend(Normal), x, 0));
    DefaultsFirstPut(c, env);
    ClassifyOfSnoc(init, r2, c, DynamoState([], 0, env));
    DynamoStepFires(r2, c, t1, 1, env);
    assert {CohortId(MidSpend(Normal))} + {CohortId(r2)} == {CohortId(MidSpend(Normal)), CohortId(r2)};
  }

  /** The first two default rules on an empty table: no put for the daily-spend rule, one NORMAL put. */
  lemma DefaultsFirstPut(c: CustomerRecord, env: D.Env)
    requires c.dailySpend.Some? && 3000.0 < c.dailySpend.value < 5000.0 && c.userType == Some(Paid)
    requires c.customerId.Some?
    ensures ClassifyOf(DefaultRules()[..2], c, DynamoState([], 0, env)) ==
      ({CohortId(MidSpend(Normal))}, DynamoState(D.Put([], D.OutcomeOf(env, 0), RuleItem(MidSpend(Normal), c.customerId.value, 0)), 1, env))
  {
    DefaultRulesOnPaidMidSpender(c);
    var r0, r1 := DefaultRules()[0], MidSpend(Normal);
    assert DefaultRules()[..2] == [r0] + [r1];
    assert [r0] == [] + [r0];
    var s0 := DynamoState([], 0, env);
    var none: set<string> := {};
    ClassifyOfSnoc([], r0, c, s0);
    assert none + none == none;
    assert ClassifyOf([r0], c, s0) == (none, s0);
    ClassifyOfSnoc([r0], r1, c, s0);
    DynamoStepFires(r1, c, [], 0, env);
    assert none + {CohortId(r1)} == {CohortId(r1)};
  }

  /**
   * The table those two puts leave: when both store, the PREMIUM item comes
   * first in the scan exactly when its put places it at the front; when
   * both throw, the table stays empty.
   */
  lemma DynamoDefaultsTable(c: CustomerRecord, env: D.Env)
    requires c.dailySpend.Some? && 3000.0 < c.dailySpend.value < 5000.0 && c.userType == Some(Paid)
    requires c.customerId.Some?
    ensures ClassifyOf(DefaultRules(), c, DynamoState([], 0, env)).1.DynamoState?
    ensures var s' := ClassifyOf(DefaultRules(), c, DynamoState([], 0, env)).1;
      D.OutcomeOf(env, 0).Stored? && D.OutcomeOf(env, 1).Stored? ==>
        s'.items == if D.OutcomeOf(env, 1).at == 0
          then [RuleItem(MidSpend(Premium), c.customerId.value, 1), RuleItem(MidSpend(Normal), c.customerId.value, 0)]
          else [RuleItem(MidSpend(Normal), c.customerId.value, 0), RuleItem(MidSpend(Premium), c.customerId.value, 1)]
    ensures var s' := ClassifyOf(DefaultRules(), c, DynamoState([], 0, env)).1;
      D.OutcomeOf(env, 0).PutFails? && D.OutcomeOf(env, 1).PutFails? ==> s'.items == []
  {
    DynamoDefaultsPuts(c, env);
    TwoPutsTable(RuleItem(MidSpend(Normal), c.customerId.value, 0), RuleItem(MidSpend(Premium), c.customerId.value, 1), D.OutcomeOf(env, 0), D.OutcomeOf(env, 1));
  }

  /** The table that two puts leave when it was empty. */
  lemma TwoPutsTable(first: D.CohortItem, second: D.CohortItem, o0: D.PutOutcome, o1: D.PutOutcome)
    ensures o0.Stored? && o1.Stored? ==>
      D.Put(D.Put([], o0, first), o1, second) == if o1.at == 0 then [second, first] else [first, second]
    ensures o0.PutFails? && o1.PutFails? ==> D.Put(D.Put([], o0, first), o1, second) == []
  {
    if o0.Stored? && o1.Stored? {
      InsertIntoEmpty(first, o0.at);
      InsertIntoSingle(first, second, o1.at);
    }
  }

  /** A put into an empty table stores the item wherever it places it. */
  lemma InsertIntoEmpty(a: D.CohortItem, at: nat)
    ensures D.Insert([], at, a) == [a]
  {
    var none: seq<D.CohortItem> := [];
    assert D.Slot(none, at) == 0;
    assert none[..0] + [a] + none[0..] == [a];
  }

  /** A put into a one-item table lands before the item at position 0 and after it otherwise. */
  lemma InsertIntoSingle(a: D.CohortItem, b: D.CohortItem, at: nat)
    ensures D.Insert([a], at, b) == if at == 0 then [b, a] else [a, b]
  {
    var t := D.Insert([a], at, b);
    if at == 0 {
      assert t[0] == b && t[1] == a;
    } else {
      assert t[0] == a && t[1] == b;
    }
  }

  /**
   * On that table, once both puts have stored their items, the NORMAL and
   * the PREMIUM cohorts both list the customer, yet isCustomerInCohortType
   * answers true for exactly one of the two types: the type of whichever
   * item the scan meets first.
   */
  lemma DynamoDefaultsReportOneType(c: CustomerRecord, env: D.Env)
    requires c.dailySpend.Some? && 3000.0 < c.dailySpend.value < 5000.0 && c.userType == Some(Paid)
    requires c.customerId.Some? && '_' !in c.customerId.value
    requires D.OutcomeOf(env, 0).Stored? && D.OutcomeOf(env, 1).Stored?
    ensures var s' := ClassifyOf(DefaultRules(), c, DynamoState([], 0, env)).1;
      && c.customerId in GetCustomerIdsOf(s', CohortId(MidSpend(Normal)))
      && c.customerId in GetCustomerIdsOf(s', CohortId(MidSpend(Premium)))
      && (InCohortTypeOf(s', c.customerId.value, Normal) <==> !InCohortTypeOf(s', c.customerId.value, Premium))
      && (InCohortTypeOf(s', c.customerId.value, Premium) <==> D.OutcomeOf(env, 1).at == 0)
  {
    DynamoDefaultsTable(c, env);
    TwoItemMembers(c.customerId.value, D.OutcomeOf(env, 1).at == 0, env);
    TwoItemTypes(c.customerId.value, D.OutcomeOf(env, 1).at == 0, env);
  }

  /** A cohort id holds "_", so it is never an id findByCustomerId accepts. */
  lemma UnderscoreInCohortId(r: Rule)
    ensures '_' in CohortId(r)
  {
    assert CohortId(r)[|r.Name()|] == '_';
  }

  /** An item of the customer with the rule's type puts the customer among the members of the rule's cohort. */
  lemma ItemListed(items: seq<D.CohortItem>, issued: nat, env: D.Env, k: nat, r: Rule)
    requires k < |items| && items[k].cohortType == CohortTypeName(r.CohortTypeOf()) && '_' !in items[k].customerId
    ensures Some(items[k].customerId) in GetCustomerIdsOf(DynamoState(items, issued, env), CohortId(r))
  {
    UnderscoreInCohortId(r);
  }

  /** A table holding the customer's NORMAL and PREMIUM items, in either order, lists the customer in both cohorts. */
  lemma TwoItemMembers(x: string, premiumFirst: bool, env: D.Env)
    requires '_' !in x
    ensures var first := RuleItem(MidSpend(Normal), x, 0);
      var second := RuleItem(MidSpend(Premium), x, 1);
      var s := DynamoState(if premiumFirst then [second, first] else [first, second], 2, env);
      && Some(x) in GetCustomerIdsOf(s, CohortId(MidSpend(Normal)))
      && Some(x) in GetCustomerIdsOf(s, CohortId(MidSpend(Premium)))
  {
    var first := RuleItem(MidSpend(Normal), x, 0);
    var second := RuleItem(MidSpend(Premium), x, 1);
    var items := if premiumFirst then [second, first] else [first, second];
    var n, p := if premiumFirst then 1 else 0, if premiumFirst then 0 else 1;
    assert items[n] == first && items[p] == second;
    ItemListed(items, 2, env, n, MidSpend(Normal));
    ItemListed(items, 2, env, p, MidSpend(Premium));
  }

  /** On such a table, isCustomerInCohortType answers true for the type of the item in front only. */
  lemma TwoItemTypes(x: string, premiumFirst: bool, env: D.Env)
    requires '_' !in x
    ensures var first := RuleItem(MidSpend(Normal), x, 0);
      var second := RuleItem(MidSpend(Premium), x, 1);
      var s := DynamoState(if premiumFirst then [second, first] else [first, second], 2, env);
      && (InCohortTypeOf(s, x, Normal) <==> !premiumFirst)
      && (InCohortTypeOf(s, x, Premium) <==> premiumFirst)
  {
    var first := RuleItem(MidSpend(Normal), x, 0);
    var second := RuleItem(MidSpend(Premium), x, 1);
    var items := if premiumFirst then [second, first] else [first, second];
    assert items[0] == (if premiumFirst then second else first);
    assert D.FirstMatch(items, x) == Some(0);
    assert CohortTypeName(Normal) != CohortTypeName(Premium);
    DynamoInCohortTypeIff(items, 2, env, x, Normal);
    DynamoInCohortTypeIff(items, 2, env, x, Premium);
  }

  /** When every rule's cohort exists, the reported ids are exactly those of the rules that fire. */
  lemma {:induction false} ReportsAllFiringRules(rules: seq<Rule>, c: CustomerRecord, s: StoreState)
    requires forall r :: r in rules ==> ExistsOf(s, CohortId(r))
    ensures ClassifyOf(rules, c, s).0 == FiringIds(rules, c)
  {
    if rules != [] {
      var init := rules[..|rules| - 1];
      var last := rules[|rules| - 1];
      forall r | r in init ensures ExistsOf(s, CohortId(r)) {
        InWhole(rules, r);
      }
      ReportsAllFiringRules(init, c, s);
      assert last in rules;
      ExistsIffFound(s, CohortId(last));
      ClassifyKeepsCohortIds(init, c, s, CohortId(last));
    }
  }

  /** For such a customer the firing default rules are the NORMAL and the PREMIUM MidSpend rules. */
  lemma DefaultsFiringIds(c: CustomerRecord)
    requires c.dailySpend.Some? && 3000.0 < c.dailySpend.value < 5000.0 && c.userType == Some(Paid)
    ensures FiringIds(DefaultRules(), c) == {CohortId(MidSpend(Normal)), CohortId(MidSpend(Premium))}
  {
    var rules := DefaultRules();
    DefaultRulesOnPaidMidSpender(c);
    assert rules[..1][..0] == [] && rules[..2][..1] == rules[..1] && rules[..3][..2] == rules[..2] && rules[..3] == rules;
    assert rules[..1][0] == rules[0] && rules[..2][1] == rules[1];
    var none: set<string> := {};
    assert FiringIds(rules[..1], c) == none;
    var normalId := CohortId(MidSpend(Normal));
    var premiumId := CohortId(MidSpend(Premium));
    assert FiringIds(rules[..2], c) == {normalId};
    assert FiringIds(rules, c) == {normalId} + {premiumId};
  }

  /**
   * In memory, after initialization with the default rules, the same
   * customer is reported in the same two cohorts.
   */
  lemma MemoryDefaultsIds(c: CustomerRecord)
    requires c.dailySpend.Some? && 3000.0 < c.dailySpend.value < 5000.0 && c.userType == Some(Paid)
    ensures ClassifyOf(DefaultRules(), c, InitOf(MemoryState(map[]), DefaultRules())).0 ==
      {CohortId(MidSpend(Normal)), CohortId(MidSpend(Premium))}
  {
    var rules := DefaultRules();
    var s0 := InitOf(MemoryState(map[]), rules);
    forall r | r in rules ensures ExistsOf(s0, CohortId(r)) {
      InitCreatesRuleCohorts(MemoryState(map[]), rules, r);
    }
    ReportsAllFiringRules(rules, c, s0);
    DefaultsFiringIds(c);
  }

  /** In memory, after initialization with the default rules, such a customer is in a PREMIUM cohort. */
  lemma MemoryDefaultsFindPremium(c: CustomerRecord)
    requires c.dailySpend.Some? && 3000.0 < c.dailySpend.value < 5000.0 && c.userType == Some(Paid)
    requires c.customerId.Some?
    ensures var s' := ClassifyOf(DefaultRules(), c, InitOf(MemoryState(map[]), DefaultRules())).1;
      InCohortTypeOf(s', c.customerId.value, Normal) && InCohortTypeOf(s', c.customerId.value, Premium)
  {
    var rules := DefaultRules();
    DefaultRulesOnPaidMidSpender(c);
    assert rules[1] in rules && rules[2] in rules;
    MemoryInitTypes(rules, MidSpend(Normal));
    MemoryInitTypes(rules, MidSpend(Premium));
    var m := InitOf(MemoryState(map[]), rules).cohorts;
    MemoryClassifyThenQuery(rules, c, m, MidSpend(Normal));
    MemoryClassifyThenQuery(rules, c, m, MidSpend(Premium));
  }
}
