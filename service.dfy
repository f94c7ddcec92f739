/**
 * CohortServiceImpl (service/CohortServiceImpl.java): the rule list, the
 * creation of one cohort per rule, classification of a customer into the
 * cohorts of the rules it satisfies, and the three queries. Each loop of the
 * service is specified by a function of the rule list and the store state.
 */
module Service {
  import opened Wrappers
  import opened Types
  import opened Customers
  import opened Cohorts
  import opened Rules
  import opened CohortStore
  import M = MemoryRepositories
  import D = DynamoRepository

  /** The id of a rule's cohort: name, "_", type name. It splits back into the two. */
  function CohortId(r: Rule): (id: string)
    ensures D.ParseCohortId(id) == Some((r.Name(), CohortTypeName(r.CohortTypeOf())))
  {
    D.ParseComposedId(r.Name(), CohortTypeName(r.CohortTypeOf()));
    r.Name() + "_" + CohortTypeName(r.CohortTypeOf())
  }

  /** The cohort created for a rule: its id, its type, the standard description, no members. */
  function NewCohortFor(r: Rule): (d: CohortData)
    ensures d.id == Some(CohortId(r)) && d.cohortType == Some(r.CohortTypeOf()) && d.customerIds == {}
    ensures d.description == Some(D.CohortDescription(r.Name(), CohortTypeName(r.CohortTypeOf())))
  {
    NewCohortData(Some(CohortId(r)), Some(r.CohortTypeOf()),
      Some("Cohort for " + r.Name() + " rule with type " + CohortTypeName(r.CohortTypeOf())))
  }

  /** One rule of initializeCohorts (and of addRule): save its cohort unless its id exists. */
  function InitStep(s: StoreState, r: Rule): (s': StoreState)
    ensures s'.MemoryState? == s.MemoryState?
    ensures ExistsOf(s', CohortId(r))
  {
    if ExistsOf(s, CohortId(r)) then s else SaveEmptyOf(s, NewCohortFor(r))
  }

  /** initializeCohorts: the rules in list order. */
  function InitOf(s: StoreState, rules: seq<Rule>): (s': StoreState)
    ensures s'.MemoryState? == s.MemoryState?
  {
    if rules == [] then s else InitStep(InitOf(s, rules[..|rules| - 1]), rules[|rules| - 1])
  }

  /**
   * One rule of classifyCustomer: nothing unless the rule evaluates to true
   * (a false answer and a caught exception alike) and its cohort is found;
   * then the customer is added and the id reported, whatever add answers.
   */
  function ClassifyStep(r: Rule, c: CustomerRecord, s: StoreState): (res: (set<string>, StoreState))
    ensures res.0 <= {CohortId(r)}
    ensures res.0 != {} ==> FindOf(s, CohortId(r)).Some?
    ensures res.1.MemoryState? == s.MemoryState?
  {
    if !r.Fires(Some(c)) then ({}, s)
    else
      var id := CohortId(r);
      if FindOf(s, id).None? then ({}, s)
      else ({id}, AddOf(s, id, c.customerId).0)
  }

  /** classifyCustomer for a non-null customer: the reported ids and the new store. */
  function ClassifyOf(rules: seq<Rule>, c: CustomerRecord, s: StoreState): (res: (set<string>, StoreState))
    ensures res.1.MemoryState? == s.MemoryState?
  {
    if rules == [] then ({}, s)
    else
      var (ids, s1) := ClassifyOf(rules[..|rules| - 1], c, s);
      var (more, s2) := ClassifyStep(rules[|rules| - 1], c, s1);
      (ids + more, s2)
  }

  /** The cohorts that getCohortCustomerIdsByType collects: those of the rules of type t that are found. */
  function FoundOfType(rules: seq<Rule>, s: StoreState, t: CohortType): (r: seq<CohortData>)
    ensures |r| <= |rules|
  {
    if rules == [] then []
    else
      var r := rules[|rules| - 1];
      FoundOfType(rules[..|rules| - 1], s, t) +
        (if r.CohortTypeOf() == t && FindOf(s, CohortId(r)).Some? then [FindOf(s, CohortId(r)).value] else [])
  }

  /** The union of the members of a list of cohorts. */
  function MembersOf(cohorts: seq<CohortData>): set<JString>
  {
    if cohorts == [] then {} else MembersOf(cohorts[..|cohorts| - 1]) + cohorts[|cohorts| - 1].customerIds
  }

  /** isCustomerInCohortType: some cohort listed for the customer has the type. */
  predicate InCohortTypeOf(s: StoreState, customerId: string, t: CohortType)
    ensures InCohortTypeOf(s, customerId, t) ==> CohortsOfCustomer(s, customerId) != {}
  {
    exists d :: d in CohortsOfCustomer(s, customerId) && d.cohortType == Some(t)
  }

  class CohortServiceImpl {
    var rules: seq<Rule>
    const repo: CohortRepository

    /** A null rule list leaves the service without rules; the cohorts are not created here. */
    constructor (rules: Option<seq<Rule>>, repo: CohortRepository)
      ensures this.rules == (if rules.None? then [] else rules.value)
      ensures this.repo == repo
    {
      this.repo := repo;
      this.rules := if rules.None? then [] else rules.value;
    }

    /** initializeCohorts. */
    method InitializeCohorts()
      requires repo.Valid()
      modifies repo.Repr()
      ensures repo.Valid()
      ensures repo.State() == InitOf(old(repo.State()), rules)
    {
      var rs := rules;
      assert this !in repo.Repr();
      InitializeWith(repo, rs);
      assert rules == rs;
    }

    /** addRule: append the rule, then create its cohort unless its id exists. */
    method AddRule(rule: Rule)
      requires repo.Valid()
      modifies this, repo.Repr()
      ensures rules == old(rules) + [rule]
      ensures repo.Valid()
      ensures repo.State() == InitStep(old(repo.State()), rule)
    {
      var rs := rules + [rule];
      rules := rs;
      assert this !in repo.Repr();
      EnsureCohort(repo, rule);
      assert rules == rs;
    }

    /** classifyCustomer: empty and no change for a null customer. */
    method ClassifyCustomer(customer: Customer?) returns (ids: set<string>)
      requires repo.Valid()
      modifies repo.Repr()
      ensures repo.Valid()
      ensures customer == null ==> ids == {} && repo.State() == old(repo.State())
      ensures customer != null ==> (ids, repo.State()) == ClassifyOf(rules, customer.Record(), old(repo.State()))
    {
      if customer == null {
        return {};
      }
      var rs := rules;
      var c := customer.Record();
      assert this !in repo.Repr() && customer !in repo.Repr();
      ids := ClassifyWith(repo, rs, c);
      assert rules == rs && customer.Record() == c;
    }

    /** isCustomerInCohortType. */
    method IsCustomerInCohortType(customerId: JString, t: Option<CohortType>) returns (b: bool)
      ensures b <==> customerId.Some? && t.Some? && InCohortTypeOf(repo.State(), customerId.value, t.value)
    {
      b := InCohortTypeWith(repo, customerId, t);
    }

    /** getCustomerCohorts: empty for null; otherwise findByCustomerId. */
    method GetCustomerCohorts(customerId: JString) returns (r: seq<CohortData>)
      ensures customerId.None? ==> r == []
      ensures customerId.Some? ==> forall d :: d in r <==> d in CohortsOfCustomer(repo.State(), customerId.value)
    {
      if customerId.None? {
        return [];
      }
      r := repo.FindByCustomerId(customerId.value);
    }

    /** getCohortCustomerIdsByType: empty for null; otherwise the members of the found cohorts of the rules of that type. */
    method GetCohortCustomerIdsByType(t: Option<CohortType>) returns (ids: set<JString>)
      ensures t.None? ==> ids == {}
      ensures t.Some? ==> ids == MembersOf(FoundOfType(rules, repo.State(), t.value))
    {
      if t.None? {
        return {};
      }
      var all := CollectCohortsOfType(repo, rules, t.value);
      ids := {};
      for i := 0 to |all|
        invariant ids == MembersOf(all[..i])
      {
        assert all[..i + 1][..i] == all[..i];
        ids := ids + all[i].customerIds;
      }
      assert all[..|all|] == all;
    }
  }

  // ---------------------------------------------------------------------
  // The loops of the service, over the repository behind the interface

  /** The loop of initializeCohorts. */
  method InitializeWith(repo: CohortRepository, rules: seq<Rule>)
    requires repo.Valid()
    modifies repo.Repr()
    ensures repo.Valid()
    ensures repo.State() == InitOf(old(repo.State()), rules)
  {
    for i := 0 to |rules|
      invariant repo.Valid()
      invariant repo.State() == InitOf(old(repo.State()), rules[..i])
    {
      assert rules[..i + 1][..i] == rules[..i];
      EnsureCohort(repo, rules[i]);
    }
    assert rules[..|rules|] == rules;
  }

  /** The body shared by initializeCohorts and addRule: save the rule's cohort unless its id exists. */
  method EnsureCohort(repo: CohortRepository, rule: Rule)
    requires repo.Valid()
    modifies repo.Repr()
    ensures repo.Valid()
    ensures repo.State() == InitStep(old(repo.State()), rule)
  {
    var cohortId := CohortId(rule);
    var present := repo.ExistsById(cohortId);
    if !present {
      var _ := repo.Save(Some(NewCohortFor(rule)));
    }
  }

  /** The loop of classifyCustomer for a non-null customer. */
  method ClassifyWith(repo: CohortRepository, rules: seq<Rule>, c: CustomerRecord) returns (ids: set<string>)
    requires repo.Valid()
    modifies repo.Repr()
    ensures repo.Valid()
    ensures (ids, repo.State()) == ClassifyOf(rules, c, old(repo.State()))
  {
    ids := {};
    for i := 0 to |rules|
      invariant repo.Valid()
      invariant (ids, repo.State()) == ClassifyOf(rules[..i], c, old(repo.State()))
    {
      assert rules[..i + 1][..i] == rules[..i];
      var more := ApplyRule(repo, rules[i], c);
      ids := ids + more;
    }
    assert rules[..|rules|] == rules;
  }

  /** The body of the classification loop, inside its try: the id reported for one rule. */
  method ApplyRule(repo: CohortRepository, rule: Rule, c: CustomerRecord) returns (more: set<string>)
    requires repo.Valid()
    modifies repo.Repr()
    ensures repo.Valid()
    ensures (more, repo.State()) == ClassifyStep(rule, c, old(repo.State()))
  {
    more := {};
    var outcome := rule.Evaluate(Some(c));
    if outcome == Success(true) {
      var cohortId := CohortId(rule);
      var found := repo.FindById(cohortId);
      if found.Some? {
        var _ := repo.AddCustomerToCohort(cohortId, c.customerId);
        more := {cohortId};
      }
    }
  }

  /** isCustomerInCohortType: false for a null argument; otherwise a scan of the customer's cohorts. */
  method InCohortTypeWith(repo: CohortRepository, customerId: JString, t: Option<CohortType>) returns (b: bool)
    ensures b <==> customerId.Some? && t.Some? && InCohortTypeOf(repo.State(), customerId.value, t.value)
  {
    if customerId.None? || t.None? {
      return false;
    }
    var cohorts := repo.FindByCustomerId(customerId.value);
    var i := 0;
    while i < |cohorts|
      invariant 0 <= i <= |cohorts|
      invariant forall j :: 0 <= j < i ==> cohorts[j].cohortType != t
    {
      if cohorts[i].cohortType == t {
        return true;
      }
      i := i + 1;
    }
    return false;
  }

  /** The first loop of getCohortCustomerIdsByType: the found cohorts of the rules of type t. */
  method CollectCohortsOfType(repo: CohortRepository, rules: seq<Rule>, t: CohortType) returns (all: seq<CohortData>)
    ensures all == FoundOfType(rules, repo.State(), t)
  {
    all := [];
    for i := 0 to |rules|
      invariant all == FoundOfType(rules[..i], repo.State(), t)
    {
      assert rules[..i + 1][..i] == rules[..i];
      if rules[i].CohortTypeOf() == t {
        var found := repo.FindById(CohortId(rules[i]));
        if found.Some? {
          all := all + [found.value];
        }
      }
    }
    assert rules[..|rules|] == rules;
  }
}
