/**
 * The in-memory stores of the test configuration (config/TestConfig.java):
 * MockCohortRepository, a map from cohort id to cohort, and
 * MockCustomerRepository, a map from customer id to customer. Each store's
 * behaviour is stated once as a function on the map; the classes hold the
 * map and reassign it.
 */
module MemoryRepositories {
  import opened Wrappers
  import opened Types
  import opened Customers
  import opened Cohorts

  // ---------------------------------------------------------------------
  // MockCohortRepository, on the value of its map

  /** Every cohort is stored under its own id. */
  predicate KeyedById(m: map<string, CohortData>)
  {
    forall k :: k in m ==> m[k].id == Some(k)
  }

  /** save: put under getId(); a null cohort or a null id makes ConcurrentHashMap throw. */
  function SaveOf(m: map<string, CohortData>, cohort: Option<CohortData>): (r: (map<string, CohortData>, Result<CohortData, Exception>))
    ensures KeyedById(m) ==> KeyedById(r.0)
  {
    if cohort.None? || cohort.value.id.None? then (m, Failure(NullPointerException))
    else (m[cohort.value.id.value := cohort.value], Success(cohort.value))
  }

  /** findById: Optional.ofNullable(get). */
  function FindByIdOf(m: map<string, CohortData>, id: string): (r: Option<CohortData>)
    ensures r.Some? <==> id in m
  {
    if id in m then Some(m[id]) else None
  }

  /** findAll: the stored cohorts (the order of values() is not modelled). */
  function FindAllOf(m: map<string, CohortData>): (r: set<CohortData>)
    ensures forall k :: k in m ==> m[k] in r
    ensures KeyedById(m) ==> forall d :: d in r ==> d.id.Some? && FindByIdOf(m, d.id.value) == Some(d)
  {
    set k | k in m :: m[k]
  }

  /** findByType: the stored cohorts whose type is t (t may be null). */
  function FindByTypeOf(m: map<string, CohortData>, t: Option<CohortType>): (r: set<CohortData>)
    ensures r <= FindAllOf(m)
    ensures forall d :: d in r ==> d.cohortType == t
    ensures forall k :: k in m && m[k].cohortType == t ==> m[k] in r
  {
    set k | k in m && m[k].cohortType == t :: m[k]
  }

  /** addCustomerToCohort: false for an unknown id; otherwise add the member and answer true, even if it was present. */
  function AddCustomerOf(m: map<string, CohortData>, id: string, customerId: JString): (r: (map<string, CohortData>, bool))
    ensures KeyedById(m) ==> KeyedById(r.0)
    ensures r.0.Keys == m.Keys
  {
    if id !in m then (m, false)
    else (m[id := m[id].AddCustomer(customerId).0], true)
  }

  /** removeCustomerFromCohort: false for an unknown id; otherwise Cohort.removeCustomer's answer. */
  function RemoveCustomerOf(m: map<string, CohortData>, id: string, customerId: JString): (r: (map<string, CohortData>, bool))
    ensures KeyedById(m) ==> KeyedById(r.0)
    ensures r.0.Keys == m.Keys
  {
    if id !in m then (m, false)
    else
      var (d, removed) := m[id].RemoveCustomer(customerId);
      (m[id := d], removed)
  }

  /** getCustomerIds: the member set, or the empty set for an unknown id. */
  function GetCustomerIdsOf(m: map<string, CohortData>, id: string): (r: set<JString>)
    ensures FindByIdOf(m, id).Some? ==> r == FindByIdOf(m, id).value.customerIds
    ensures FindByIdOf(m, id).None? ==> r == {}
  {
    if id in m then m[id].customerIds else {}
  }

  /** findByCustomerId: the stored cohorts whose member set contains the id. */
  function FindByCustomerIdOf(m: map<string, CohortData>, customerId: JString): (r: set<CohortData>)
    ensures r <= FindAllOf(m)
    ensures forall d :: d in r ==> customerId in d.customerIds
    ensures forall k :: k in m && customerId in m[k].customerIds ==> m[k] in r
  {
    set k | k in m && customerId in m[k].customerIds :: m[k]
  }

  /** deleteById: ConcurrentHashMap.remove. */
  function DeleteByIdOf(m: map<string, CohortData>, id: string): (r: map<string, CohortData>)
    ensures KeyedById(m) ==> KeyedById(r)
  {
    m - {id}
  }

  /** existsById: containsKey. */
  predicate ExistsByIdOf(m: map<string, CohortData>, id: string)
    ensures ExistsByIdOf(m, id) <==> FindByIdOf(m, id).Some?
  {
    id in m
  }

  class MockCohortRepository {
    var cohorts: map<string, CohortData>

    predicate Valid()
      reads this
    {
      KeyedById(cohorts)
    }

    constructor ()
      ensures cohorts == map[] && Valid()
    {
      cohorts := map[];
    }

    method Save(cohort: Option<CohortData>) returns (r: Result<CohortData, Exception>)
      requires Valid()
      modifies this
      ensures Valid()
      ensures (cohorts, r) == SaveOf(old(cohorts), cohort)
    {
      if cohort.None? || cohort.value.id.None? {
        return Failure(NullPointerException);
      }
      cohorts := cohorts[cohort.value.id.value := cohort.value];
      return Success(cohort.value);
    }

    function FindById(id: string): (r: Option<CohortData>)
      reads this
      ensures r.Some? <==> id in cohorts
      ensures Valid() && r.Some? ==> r.value.id == Some(id)
    {
      FindByIdOf(cohorts, id)
    }

    function FindAll(): (r: set<CohortData>)
      reads this
      ensures forall k :: k in cohorts ==> cohorts[k] in r
      ensures Valid() ==> forall d :: d in r ==> d.id.Some? && FindById(d.id.value) == Some(d)
    {
      FindAllOf(cohorts)
    }

    function FindByType(t: Option<CohortType>): (r: set<CohortData>)
      reads this
      ensures r <= FindAll()
      ensures forall d :: d in r ==> d.cohortType == t
    {
      FindByTypeOf(cohorts, t)
    }

    method AddCustomerToCohort(id: string, customerId: JString) returns (added: bool)
      requires Valid()
      modifies this
      ensures Valid()
      ensures (cohorts, added) == AddCustomerOf(old(cohorts), id, customerId)
    {
      if id !in cohorts {
        return false;
      }
      var (d, _) := cohorts[id].AddCustomer(customerId);
      cohorts := cohorts[id := d];
      return true;
    }

    method RemoveCustomerFromCohort(id: string, customerId: JString) returns (removed: bool)
      requires Valid()
      modifies this
      ensures Valid()
      ensures (cohorts, removed) == RemoveCustomerOf(old(cohorts), id, customerId)
    {
      if id !in cohorts {
        return false;
      }
      var (d, wasMember) := cohorts[id].RemoveCustomer(customerId);
      cohorts := cohorts[id := d];
      removed := wasMember;
    }

    function GetCustomerIds(id: string): (r: set<JString>)
      reads this
      ensures FindById(id).Some? ==> r == FindById(id).value.customerIds
      ensures FindById(id).None? ==> r == {}
    {
      GetCustomerIdsOf(cohorts, id)
    }

    function FindByCustomerId(customerId: JString): (r: set<CohortData>)
      reads this
      ensures r <= FindAll()
      ensures forall d :: d in r ==> customerId in d.customerIds
    {
      FindByCustomerIdOf(cohorts, customerId)
    }

    method DeleteById(id: string)
      requires Valid()
      modifies this
      ensures Valid()
      ensures cohorts == DeleteByIdOf(old(cohorts), id)
    {
      cohorts := cohorts - {id};
    }

    predicate ExistsById(id: string)
      reads this
      ensures ExistsById(id) <==> FindById(id).Some?
    {
      ExistsByIdOf(cohorts, id)
    }
  }

  // ---------------------------------------------------------------------
  // Properties of the in-memory cohort store

  /** After a save, findById returns the saved cohort; every other key keeps its cohort. */
  lemma SaveThenFindById(m: map<string, CohortData>, cohort: CohortData, other: string)
    requires cohort.id.Some? && other != cohort.id.value
    ensures FindByIdOf(SaveOf(m, Some(cohort)).0, cohort.id.value) == Some(cohort)
    ensures FindByIdOf(SaveOf(m, Some(cohort)).0, other) == FindByIdOf(m, other)
    ensures ExistsByIdOf(SaveOf(m, Some(cohort)).0, cohort.id.value)
  {
  }

  /** A null cohort or id throws and stores nothing. */
  lemma SaveNullId(m: map<string, CohortData>, cohort: Option<CohortData>)
    requires cohort.None? || cohort.value.id.None?
    ensures SaveOf(m, cohort) == (m, Failure(NullPointerException))
  {
  }

  /** Saving replaces the previous cohort with that id: the last save wins. */
  lemma LastSaveWins(m: map<string, CohortData>, a: CohortData, b: CohortData)
    requires a.id.Some? && a.id == b.id
    ensures SaveOf(SaveOf(m, Some(a)).0, Some(b)).0 == SaveOf(m, Some(b)).0
  {
  }

  /** Adding to an unknown cohort answers false and changes nothing. */
  lemma AddToUnknownCohort(m: map<string, CohortData>, id: string, customerId: JString)
    requires id !in m
    ensures AddCustomerOf(m, id, customerId) == (m, false)
  {
  }

  /**
   * Adding to a known cohort answers true, even when the customer is
   * already a member; afterwards the customer is a member, the cohort is
   * found by customer, no other cohort changes, and repeating the add
   * changes nothing.
   */
  lemma AddToKnownCohort(m: map<string, CohortData>, id: string, customerId: JString)
    requires id in m
    ensures var (m', added) := AddCustomerOf(m, id, customerId);
      && added
      && customerId in GetCustomerIdsOf(m', id)
      && GetCustomerIdsOf(m', id) == GetCustomerIdsOf(m, id) + {customerId}
      && m'[id] in FindByCustomerIdOf(m', customerId)
      && (forall k :: k in m && k != id ==> m'[k] == m[k])
      && AddCustomerOf(m', id, customerId) == (m', true)
  {
    var m' := AddCustomerOf(m, id, customerId).0;
    assert m'[id].AddCustomer(customerId).0 == m'[id];
    assert m'[id := m'[id]] == m';
  }

  /** Membership updates change no cohort's id, type or description, so findByType selects the same ids. */
  lemma MembershipKeepsTypes(m: map<string, CohortData>, id: string, customerId: JString)
    ensures var m' := AddCustomerOf(m, id, customerId).0;
      forall k :: k in m ==>
        m'[k].id == m[k].id && m'[k].cohortType == m[k].cohortType && m'[k].description == m[k].description
    ensures var m' := RemoveCustomerOf(m, id, customerId).0;
      forall k :: k in m ==>
        m'[k].id == m[k].id && m'[k].cohortType == m[k].cohortType && m'[k].description == m[k].description
  {
  }

  /** findByType selects exactly the stored cohorts of the given type. */
  lemma FindByTypeSelects(m: map<string, CohortData>, d: CohortData, t: Option<CohortType>)
    ensures d in FindByTypeOf(m, t) <==> d in FindAllOf(m) && d.cohortType == t
  {
  }

  /** findByCustomerId selects exactly the stored cohorts that contain the customer. */
  lemma FindByCustomerIdSelects(m: map<string, CohortData>, d: CohortData, customerId: JString)
    ensures d in FindByCustomerIdOf(m, customerId) <==> d in FindAllOf(m) && customerId in d.customerIds
  {
  }

  /** removeCustomerFromCohort answers false for an unknown cohort, otherwise whether the customer was a member; afterwards it is not. */
  lemma RemoveFromCohort(m: map<string, CohortData>, id: string, customerId: JString)
    ensures id !in m ==> RemoveCustomerOf(m, id, customerId) == (m, false)
    ensures id in m ==>
      var (m', removed) := RemoveCustomerOf(m, id, customerId);
      && (removed <==> customerId in GetCustomerIdsOf(m, id))
      && customerId !in GetCustomerIdsOf(m', id)
      && GetCustomerIdsOf(m', id) == GetCustomerIdsOf(m, id) - {customerId}
  {
  }

  /** An add followed by a remove of the same customer answers true and restores a non-member's cohort. */
  lemma AddThenRemove(m: map<string, CohortData>, id: string, customerId: JString)
    requires id in m && customerId !in m[id].customerIds
    ensures var m1 := AddCustomerOf(m, id, customerId).0;
      RemoveCustomerOf(m1, id, customerId) == (m, true)
  {
    var m1 := AddCustomerOf(m, id, customerId).0;
    var m2 := RemoveCustomerOf(m1, id, customerId).0;
    assert m1[id].customerIds - {customerId} == m[id].customerIds;
    assert m2[id] == m[id];
    assert m2 == m;
  }

  /** getCustomerIds of an unknown cohort is empty. */
  lemma UnknownCohortHasNoMembers(m: map<string, CohortData>, id: string)
    requires !ExistsByIdOf(m, id)
    ensures GetCustomerIdsOf(m, id) == {}
    ensures FindByIdOf(m, id) == None
  {
  }

  /** deleteById removes exactly that key. */
  lemma DeleteRemovesOnlyThatKey(m: map<string, CohortData>, id: string, other: string)
    requires other != id
    ensures !ExistsByIdOf(DeleteByIdOf(m, id), id)
    ensures ExistsByIdOf(DeleteByIdOf(m, id), other) <==> ExistsByIdOf(m, other)
    ensures FindByIdOf(DeleteByIdOf(m, id), other) == FindByIdOf(m, other)
  {
  }

  // ---------------------------------------------------------------------
  // MockCustomerRepository

  /** Every customer is stored under its own id. */
  predicate KeyedByCustomerId(m: map<string, CustomerRecord>)
  {
    forall k :: k in m ==> m[k].customerId == Some(k)
  }

  /** save: put under getCustomerId(); a null customer or id makes ConcurrentHashMap throw. */
  function SaveCustomerOf(m: map<string, CustomerRecord>, customer: Option<CustomerRecord>): (r: (map<string, CustomerRecord>, Result<CustomerRecord, Exception>))
    ensures r.1.Success? <==> customer.Some? && customer.value.customerId.Some?
    ensures r.1.Failure? ==> r.0 == m && r.1.error == NullPointerException
    ensures r.1.Success? ==>
      && r.1.value == customer.value
      && r.0.Keys == m.Keys + {customer.value.customerId.value}
      && r.0[customer.value.customerId.value] == customer.value
      && (forall k :: k in m && k != customer.value.customerId.value ==> r.0[k] == m[k])
    ensures KeyedByCustomerId(m) ==> KeyedByCustomerId(r.0)
  {
    if customer.None? || customer.value.customerId.None? then (m, Failure(NullPointerException))
    else (m[customer.value.customerId.value := customer.value], Success(customer.value))
  }

  class MockCustomerRepository {
    var customers: map<string, CustomerRecord>

    predicate Valid()
      reads this
    {
      KeyedByCustomerId(customers)
    }

    constructor ()
      ensures customers == map[] && Valid()
    {
      customers := map[];
    }

    method Save(customer: Option<CustomerRecord>) returns (r: Result<CustomerRecord, Exception>)
      requires Valid()
      modifies this
      ensures Valid()
      ensures (customers, r) == SaveCustomerOf(old(customers), customer)
    {
      if customer.None? || customer.value.customerId.None? {
        return Failure(NullPointerException);
      }
      customers := customers[customer.value.customerId.value := customer.value];
      return Success(customer.value);
    }

    /** findById: Optional.ofNullable(get). */
    function FindById(id: string): (r: Option<CustomerRecord>)
      reads this
      ensures r.Some? <==> ExistsById(id)
      ensures Valid() && r.Some? ==> r.value.customerId == Some(id)
    {
      if id in customers then Some(customers[id]) else None
    }

    /** findAll: the stored customers (order not modelled). */
    function FindAll(): (r: set<CustomerRecord>)
      reads this
      ensures forall k :: k in customers ==> customers[k] in r
      ensures Valid() ==> forall c :: c in r ==> c.customerId.Some? && FindById(c.customerId.value) == Some(c)
    {
      set k | k in customers :: customers[k]
    }

    method DeleteById(id: string)
      requires Valid()
      modifies this
      ensures Valid()
      ensures customers == old(customers) - {id}
    {
      customers := customers - {id};
    }

    predicate ExistsById(id: string)
      reads this
      ensures Valid() ==> (ExistsById(id) <==> exists k :: k in customers && customers[k].customerId == Some(id))
    {
      id in customers
    }
  }

  /** save then findById returns the saved customer; the last save wins. */
  lemma SaveCustomerThenFind(m: map<string, CustomerRecord>, a: CustomerRecord, b: CustomerRecord)
    requires a.customerId.Some? && b.customerId == a.customerId
    ensures var m1 := SaveCustomerOf(m, Some(a)).0;
      m1[a.customerId.value] == a
    ensures var m2 := SaveCustomerOf(SaveCustomerOf(m, Some(a)).0, Some(b)).0;
      m2[a.customerId.value] == b && m2.Keys == m.Keys + {a.customerId.value}
  {
  }

  /** The class answers through its map: findById after save. */
  method SaveThenFindCustomer(repo: MockCustomerRepository, c: CustomerRecord) returns (found: Option<CustomerRecord>)
    requires c.customerId.Some? && repo.Valid()
    modifies repo
    ensures found == Some(c)
    ensures repo.ExistsById(c.customerId.value)
  {
    var _ := repo.Save(Some(c));
    found := repo.FindById(c.customerId.value);
  }
}
