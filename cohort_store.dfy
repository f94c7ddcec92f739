/**
 * The CohortRepository interface (repository/CohortRepository.java) and its
 * two implementations: the in-memory mock of the test configuration and the
 * DynamoDB table. StoreState is the value of either store; the functions on
 * it say what each interface operation answers and how it changes the store,
 * and CohortRepository dispatches to the object behind the interface.
 */
module CohortStore {
  import opened Wrappers
  import opened Types
  import opened Cohorts
  import M = MemoryRepositories
  import D = DynamoRepository

  /** The contents of a cohort store. */
  datatype StoreState =
    | MemoryState(cohorts: map<string, CohortData>)
    | DynamoState(items: seq<D.CohortItem>, issued: nat, env: D.Env)

  predicate StateValid(s: StoreState)
  {
    match s
    case MemoryState(m) => M.KeyedById(m)
    case DynamoState(items, issued, _) => D.UuidsFresh(items, issued)
  }

  /** findById. */
  function FindOf(s: StoreState, id: string): Option<CohortData>
  {
    match s
    case MemoryState(m) => M.FindByIdOf(m, id)
    case DynamoState(items, _, _) => D.FindByIdOf(items, Some(id))
  }

  /** existsById. */
  predicate ExistsOf(s: StoreState, id: string)
  {
    match s
    case MemoryState(m) => M.ExistsByIdOf(m, id)
    case DynamoState(_, _, _) => D.ExistsByIdOf(Some(id))
  }

  /** addCustomerToCohort: the new store and the answer. */
  function AddOf(s: StoreState, id: string, customerId: JString): (r: (StoreState, bool))
    ensures r.0.MemoryState? == s.MemoryState?
  {
    match s
    case MemoryState(m) =>
      var (m', added) := M.AddCustomerOf(m, id, customerId);
      (MemoryState(m'), added)
    case DynamoState(items, issued, env) =>
      var (items', issued', added) := D.AddOf(items, issued, env, Some(id), customerId);
      (DynamoState(items', issued', env), added)
  }

  /** getCustomerIds. */
  function GetCustomerIdsOf(s: StoreState, id: string): set<JString>
  {
    match s
    case MemoryState(m) => M.GetCustomerIdsOf(m, id)
    case DynamoState(items, _, _) => D.GetCustomerIdsOf(items, Some(id))
  }

  /** findByCustomerId, as the set of cohorts in the returned list. */
  function CohortsOfCustomer(s: StoreState, customerId: string): set<CohortData>
  {
    match s
    case MemoryState(m) => M.FindByCustomerIdOf(m, Some(customerId))
    case DynamoState(items, _, _) => set d | d in D.FindByCustomerIdOf(items, Some(customerId))
  }

  /** The answer of save. */
  function SaveResultOf(s: StoreState, cohort: Option<CohortData>): Result<CohortData, Exception>
  {
    match s
    case MemoryState(m) => M.SaveOf(m, cohort).1
    case DynamoState(_, issued, env) =>
      if D.SaveSucceeds(cohort) && D.StoredFrom(env, issued, |cohort.value.customerIds|) then Success(cohort.value)
      else if cohort.None? || cohort.value.id.None? then Failure(IllegalArgumentException)
      else Failure(RuntimeException)
  }

  /** The store after saving a cohort without members: put in memory, nothing written to the table. */
  function SaveEmptyOf(s: StoreState, cohort: CohortData): (r: StoreState)
    requires cohort.customerIds == {}
    ensures r.MemoryState? == s.MemoryState?
  {
    match s
    case MemoryState(m) => MemoryState(M.SaveOf(m, Some(cohort)).0)
    case DynamoState(_, _, _) => s
  }

  /** The object behind the CohortRepository interface. */
  datatype CohortRepository =
    | InMemory(memory: M.MockCohortRepository)
    | DynamoDB(table: D.DynamoDBCohortRepository)
  {
    function Repr(): set<object>
    {
      match this
      case InMemory(m) => {m}
      case DynamoDB(t) => {t}
    }

    /** The contents of the store behind the interface. */
    function State(): (s: StoreState)
      reads Repr()
      ensures s.MemoryState? <==> InMemory?
    {
      match this
      case InMemory(m) => MemoryState(m.cohorts)
      case DynamoDB(t) => DynamoState(t.items, t.issued, t.env)
    }

    predicate Valid()
      reads Repr()
      ensures Valid() <==> StateValid(State())
    {
      match this
      case InMemory(m) => m.Valid()
      case DynamoDB(t) => t.Valid()
    }

    /**
     * save. A cohort without members is put in memory and writes nothing
     * to the table. The table only ever gains items, also when a put throws
     * part way; a save that succeeds adds one item per member, which gives
     * each member the cohort's type.
     */
    method Save(cohort: Option<CohortData>) returns (r: Result<CohortData, Exception>)
      requires Valid()
      modifies Repr()
      ensures Valid()
      ensures r == SaveResultOf(old(State()), cohort)
      ensures InMemory? ==> State() == MemoryState(M.SaveOf(old(State()).cohorts, cohort).0)
      ensures DynamoDB? ==> multiset(old(State()).items) <= multiset(State().items)
      ensures DynamoDB? && r.Success? && cohort.value.customerIds != {} ==>
        && |State().items| == |old(State()).items| + |cohort.value.customerIds|
        && D.Pairs(State().items) == D.Pairs(old(State()).items) + D.MemberPairs(cohort.value.customerIds, CohortTypeName(cohort.value.cohortType.value))
      ensures cohort.Some? && cohort.value.customerIds == {} ==> State() == SaveEmptyOf(old(State()), cohort.value)
    {
      match this
      case InMemory(m) =>
        r := m.Save(cohort);
      case DynamoDB(t) =>
        ghost var written, failedPut;
        r, written, failedPut := t.Save(cohort);
        if written != [] {
          var c := cohort.value;
          D.SaveAdds(old(t.items), old(t.issued), written, CohortTypeName(c.cohortType.value), c.description.value, t.env, c.customerIds, r.Success?);
        }
    }

    /** findById. */
    method FindById(id: string) returns (r: Option<CohortData>)
      ensures r == FindOf(State(), id)
    {
      match this
      case InMemory(m) =>
        r := m.FindById(id);
      case DynamoDB(t) =>
        r := t.FindById(Some(id));
    }

    /** addCustomerToCohort. */
    method AddCustomerToCohort(id: string, customerId: JString) returns (added: bool)
      requires Valid()
      modifies Repr()
      ensures Valid()
      ensures (State(), added) == AddOf(old(State()), id, customerId)
    {
      match this
      case InMemory(m) =>
        added := m.AddCustomerToCohort(id, customerId);
      case DynamoDB(t) =>
        added := t.AddCustomerToCohort(Some(id), customerId);
    }

    /** getCustomerIds. */
    method GetCustomerIds(id: string) returns (ids: set<JString>)
      ensures ids == GetCustomerIdsOf(State(), id)
    {
      match this
      case InMemory(m) =>
        ids := m.GetCustomerIds(id);
      case DynamoDB(t) =>
        ids := t.GetCustomerIds(Some(id));
    }

    /**
     * findByCustomerId: a list holding each cohort of the customer once; the
     * table answers at most one, in memory the order of values() is not
     * specified.
     */
    method FindByCustomerId(customerId: string) returns (r: seq<CohortData>)
      ensures forall d :: d in r <==> d in CohortsOfCustomer(State(), customerId)
      ensures DynamoDB? ==> r == D.FindByCustomerIdOf(State().items, Some(customerId))
    {
      match this
      case InMemory(m) =>
        r := Listed(m.FindByCustomerId(Some(customerId)));
      case DynamoDB(t) =>
        r := t.FindByCustomerId(Some(customerId));
    }

    /** existsById. */
    method ExistsById(id: string) returns (b: bool)
      ensures b == ExistsOf(State(), id)
    {
      match this
      case InMemory(m) =>
        b := m.ExistsById(id);
      case DynamoDB(t) =>
        b := t.ExistsById(Some(id));
    }
  }

  /** The elements of a set as a list without repetitions, in no particular order. */
  method Listed(s: set<CohortData>) returns (r: seq<CohortData>)
    ensures forall d :: d in r <==> d in s
    ensures |r| == |s|
  {
    r := [];
    var rest := s;
    while rest != {}
      invariant forall d :: d in s <==> d in r || d in rest
      invariant forall d :: d in r ==> d !in rest
      invariant |r| + |rest| == |s|
      decreases |rest|
    {
      var d :| d in rest;
      r := r + [d];
      rest := rest - {d};
    }
  }

  // ---------------------------------------------------------------------
  // Properties of the interface

  /** addCustomerToCohort never changes which ids are found or exist. */
  lemma AddKeepsCohortIds(s: StoreState, id: string, customerId: JString, other: string)
    ensures FindOf(AddOf(s, id, customerId).0, other).Some? <==> FindOf(s, other).Some?
    ensures ExistsOf(AddOf(s, id, customerId).0, other) <==> ExistsOf(s, other)
  {
  }

  /** addCustomerToCohort keeps the store valid: ids stay keys in memory, uuids stay fresh in the table. */
  lemma AddPreservesValid(s: StoreState, id: string, customerId: JString)
    requires StateValid(s)
    ensures StateValid(AddOf(s, id, customerId).0)
  {
    if s.DynamoState? {
      var env := s.env;
      var added := D.AddOf(s.items, s.issued, env, Some(id), customerId).2;
      if added {
        var (ruleName, typeName) := D.ParseCohortId(id).value;
        D.InsertFreshItem(s.items, s.issued, D.OutcomeOf(env, s.issued).at, D.CohortItem(customerId.value, s.issued, typeName, D.CohortDescription(ruleName, typeName)));
      }
    }
  }

  /** Saving a cohort without members keeps the store valid. */
  lemma SaveEmptyPreservesValid(s: StoreState, cohort: CohortData)
    requires cohort.customerIds == {} && StateValid(s)
    ensures StateValid(SaveEmptyOf(s, cohort))
  {
  }

  /** In both stores, exists is the same as being found. */
  lemma ExistsIffFound(s: StoreState, id: string)
    ensures ExistsOf(s, id) <==> FindOf(s, id).Some?
  {
    if s.DynamoState? {
      D.ExistsIffFound(s.items, Some(id));
    }
  }
}
