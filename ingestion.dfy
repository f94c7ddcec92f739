/**
 * The three ingestion paths (the trigger handler's table scan, the stream
 * listener and the queue consumer) each hand a sequence of customers to
 * classifyCustomer. ClassifyAll is the cohort store after those calls.
 * Every path delivers at least once: an id is classified again once the
 * dedup window has passed, a cursor that was not moved is read again, and
 * a message that was not deleted is received again. On the in-memory store
 * the result depends only on which customers were delivered, so a repeated
 * delivery changes nothing.
 */
module Ingestion {
  import opened Wrappers
  import opened Types
  import opened Customers
  import opened Cohorts
  import opened Rules
  import opened CohortStore
  import opened Service
  import opened ServiceProperties

  /** The store after classifyCustomer on each customer of cs in turn. */
  function ClassifyAll(rules: seq<Rule>, cs: seq<CustomerRecord>, s: StoreState): StoreState
  {
    if cs == [] then s else ClassifyOf(rules, cs[|cs| - 1], ClassifyAll(rules, cs[..|cs| - 1], s)).1
  }

  /** Two deliveries one after the other: the second starts from the store the first left. */
  lemma {:induction false} ClassifyAllAppend(rules: seq<Rule>, a: seq<CustomerRecord>, b: seq<CustomerRecord>, s: StoreState)
    ensures ClassifyAll(rules, a + b, s) == ClassifyAll(rules, b, ClassifyAll(rules, a, s))
  {
    if b == [] {
      assert a + b == a;
    } else {
      var init := b[..|b| - 1];
      assert (a + b)[..|a + b| - 1] == a + init;
      assert (a + b)[|a + b| - 1] == b[|b| - 1];
      ClassifyAllAppend(rules, a, init, s);
    }
  }

  /** Ingestion keeps the store valid. */
  lemma {:induction false} ClassifyAllPreservesValid(rules: seq<Rule>, cs: seq<CustomerRecord>, s: StoreState)
    requires StateValid(s)
    ensures StateValid(ClassifyAll(rules, cs, s))
  {
    if cs != [] {
      ClassifyAllPreservesValid(rules, cs[..|cs| - 1], s);
      ClassifyPreservesValid(rules, cs[|cs| - 1], ClassifyAll(rules, cs[..|cs| - 1], s));
    }
  }

  // ---------------------------------------------------------------------
  // On the in-memory store

  /** The ids of the delivered customers that some rule with cohort id k matches. */
  function Enrolled(rules: seq<Rule>, cs: seq<CustomerRecord>, k: string): set<JString>
  {
    set c | c in cs && k in FiringIds(rules, c) :: c.customerId
  }

  /** The store m with every cohort joined by its enrolled customers. */
  function Enroll(m: map<string, CohortData>, rules: seq<Rule>, cs: seq<CustomerRecord>): map<string, CohortData>
  {
    map k | k in m :: m[k].(customerIds := m[k].customerIds + Enrolled(rules, cs, k))
  }

  /** One more delivered customer adds its id to the cohorts it is enrolled in. */
  lemma EnrolledSnoc(rules: seq<Rule>, cs: seq<CustomerRecord>, c: CustomerRecord, k: string)
    ensures Enrolled(rules, cs + [c], k) == Enrolled(rules, cs, k) + (if k in FiringIds(rules, c) then {c.customerId} else {})
  {
    var e := set d | d in cs + [c] && k in FiringIds(rules, d) :: d.customerId;
    forall x | x in e ensures x in Enrolled(rules, cs, k) + (if k in FiringIds(rules, c) then {c.customerId} else {}) {
      var d :| d in cs + [c] && k in FiringIds(rules, d) && d.customerId == x;
      if d != c { assert d in cs; }
    }
  }

  /** One more customer on an enrolled store: the store of the longer delivery. */
  lemma EnrollStep(m: map<string, CohortData>, rules: seq<Rule>, cs: seq<CustomerRecord>, c: CustomerRecord)
    ensures ClassifyOf(rules, c, MemoryState(Enroll(m, rules, cs))).1 == MemoryState(Enroll(m, rules, cs + [c]))
  {
    var e := Enroll(m, rules, cs);
    var ids := ClassifyOf(rules, c, MemoryState(e)).0;
    MemoryClassifyClosedForm(rules, c, e);
    forall k ensures k in ids <==> k in m && k in FiringIds(rules, c) {
      ClassifyReportsFiringRules(rules, c, MemoryState(e), k);
    }
    JoinedEnroll(m, rules, cs, c, ids);
  }

  /** Joining the reported cohorts of an enrolled store enrolls one more customer. */
  lemma JoinedEnroll(m: map<string, CohortData>, rules: seq<Rule>, cs: seq<CustomerRecord>, c: CustomerRecord, ids: set<string>)
    requires forall k :: k in ids <==> k in m && k in FiringIds(rules, c)
    ensures Joined(Enroll(m, rules, cs), ids, c.customerId) == Enroll(m, rules, cs + [c])
  {
    var j := Joined(Enroll(m, rules, cs), ids, c.customerId);
    forall k | k in m ensures j[k] == Enroll(m, rules, cs + [c])[k] {
      EnrolledSnoc(rules, cs, c, k);
    }
  }

  /** In memory, ingestion adds each delivered customer's id to the cohorts of the rules it matches, and nothing else. */
  lemma {:induction false} MemoryIngestClosedForm(rules: seq<Rule>, cs: seq<CustomerRecord>, m: map<string, CohortData>)
    ensures ClassifyAll(rules, cs, MemoryState(m)) == MemoryState(Enroll(m, rules, cs))
  {
    if cs == [] {
      assert Enroll(m, rules, cs) == m by {
        forall k | k in m ensures Enroll(m, rules, cs)[k] == m[k] {
          assert Enrolled(rules, cs, k) == {};
          assert m[k].customerIds + {} == m[k].customerIds;
        }
      }
    } else {
      var init := cs[..|cs| - 1];
      var c := cs[|cs| - 1];
      MemoryIngestClosedForm(rules, init, m);
      EnrollStep(m, rules, init, c);
      assert init + [c] == cs;
    }
  }

  /** In memory, the store after ingestion depends only on which customers were delivered, not on order or repetition. */
  lemma MemoryIngestOrderFree(rules: seq<Rule>, cs1: seq<CustomerRecord>, cs2: seq<CustomerRecord>, m: map<string, CohortData>)
    requires forall c :: c in cs1 <==> c in cs2
    ensures ClassifyAll(rules, cs1, MemoryState(m)) == ClassifyAll(rules, cs2, MemoryState(m))
  {
    MemoryIngestClosedForm(rules, cs1, m);
    MemoryIngestClosedForm(rules, cs2, m);
    forall k | k in m ensures Enrolled(rules, cs1, k) == Enrolled(rules, cs2, k) {
    }
    assert Enroll(m, rules, cs1) == Enroll(m, rules, cs2);
  }

  /** In memory, delivering the same customers a second time leaves the store as the first delivery left it. */
  lemma MemoryRedeliveryChangesNothing(rules: seq<Rule>, cs: seq<CustomerRecord>, m: map<string, CohortData>)
    ensures ClassifyAll(rules, cs, ClassifyAll(rules, cs, MemoryState(m))) == ClassifyAll(rules, cs, MemoryState(m))
  {
    ClassifyAllAppend(rules, cs, cs, MemoryState(m));
    MemoryIngestOrderFree(rules, cs + cs, cs, m);
  }

  /** In memory, ingestion never creates or removes a cohort. */
  lemma MemoryIngestKeepsCohorts(rules: seq<Rule>, cs: seq<CustomerRecord>, m: map<string, CohortData>)
    ensures ClassifyAll(rules, cs, MemoryState(m)).MemoryState?
    ensures ClassifyAll(rules, cs, MemoryState(m)).cohorts.Keys == m.Keys
  {
    MemoryIngestClosedForm(rules, cs, m);
  }
}
