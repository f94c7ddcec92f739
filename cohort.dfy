/** A cohort and its member set (model/Cohort.java). */
module Cohorts {
  import opened Wrappers
  import opened Types
  import opened JavaStrings
  import Customers

  /** The fields of a Cohort at one moment. Member ids may include null. */
  datatype CohortData = CohortData(id: JString, cohortType: Option<CohortType>, description: JString, customerIds: set<JString>)
  {
    /** The cohort after HashSet.add(x); the flag is add's return value. */
    function AddCustomer(x: JString): (r: (CohortData, bool))
      ensures r.1 <==> x !in customerIds
      ensures r.0.customerIds == customerIds + {x}
      ensures r.0.id == id && r.0.cohortType == cohortType && r.0.description == description
    {
      (this.(customerIds := customerIds + {x}), x !in customerIds)
    }

    /** The cohort after HashSet.remove(x); the flag is remove's return value. */
    function RemoveCustomer(x: JString): (r: (CohortData, bool))
      ensures r.1 <==> x in customerIds
      ensures r.0.customerIds == customerIds - {x}
      ensures r.0.id == id && r.0.cohortType == cohortType && r.0.description == description
    {
      (this.(customerIds := customerIds - {x}), x in customerIds)
    }
  }

  /** A cohort with no members. */
  function NewCohortData(id: JString, t: Option<CohortType>, description: JString): (d: CohortData)
    ensures d.customerIds == {} && d.id == id && d.cohortType == t && d.description == description
  {
    CohortData(id, t, description, {})
  }

  class Cohort {
    var id: JString
    var cohortType: Option<CohortType>
    var description: JString
    var customerIds: set<JString>

    /** The current field values. */
    function Snapshot(): (d: CohortData)
      reads this
      ensures d.id == id && d.cohortType == cohortType && d.description == description && d.customerIds == customerIds
    {
      CohortData(id, cohortType, description, customerIds)
    }

    /** The no-argument constructor: null fields, no members. */
    constructor Empty()
      ensures Snapshot() == NewCohortData(None, None, None)
    {
      id, cohortType, description, customerIds := None, None, None, {};
    }

    /** The three-argument constructor: the given fields, no members. */
    constructor (id: JString, t: Option<CohortType>, description: JString)
      ensures Snapshot() == NewCohortData(id, t, description)
    {
      this.id := id;
      this.cohortType := t;
      this.description := description;
      this.customerIds := {};
    }

    /** Adds a member; true iff it was absent. A second add of the same id changes nothing. */
    method AddCustomer(x: JString) returns (added: bool)
      modifies this
      ensures added <==> x !in old(customerIds)
      ensures ContainsCustomer(x)
      ensures !added ==> customerIds == old(customerIds)
      ensures GetCustomerCount() == old(GetCustomerCount()) + (if added then 1 else 0)
      ensures (Snapshot(), added) == old(Snapshot()).AddCustomer(x)
    {
      added := x !in customerIds;
      customerIds := customerIds + {x};
    }

    /** Removes a member; true iff it was present. Other members stay. */
    method RemoveCustomer(x: JString) returns (removed: bool)
      modifies this
      ensures removed <==> x in old(customerIds)
      ensures !ContainsCustomer(x)
      ensures forall y :: y != x ==> (y in customerIds <==> y in old(customerIds))
      ensures GetCustomerCount() == old(GetCustomerCount()) - (if removed then 1 else 0)
      ensures (Snapshot(), removed) == old(Snapshot()).RemoveCustomer(x)
    {
      removed := x in customerIds;
      customerIds := customerIds - {x};
    }

    /** containsCustomer: membership. A member makes the count positive. */
    predicate ContainsCustomer(x: JString)
      reads this
      ensures ContainsCustomer(x) ==> GetCustomerCount() > 0
    {
      x in customerIds
    }

    /** getCustomerCount: the number of distinct members. */
    function GetCustomerCount(): (n: nat)
      reads this
      ensures n == |customerIds|
      ensures n == 0 <==> customerIds == {}
    {
      |customerIds|
    }

    /** getCustomerIds returns a copy; a set value is never shared with the field. */
    function GetCustomerIds(): (s: set<JString>)
      reads this
      ensures forall x :: x in s <==> ContainsCustomer(x)
    {
      customerIds
    }

    /** setCustomerIds stores a copy of the given set. */
    method SetCustomerIds(s: set<JString>)
      modifies this
      ensures Snapshot() == old(Snapshot()).(customerIds := s)
    {
      customerIds := s;
    }

    method SetId(newId: JString)
      modifies this
      ensures Snapshot() == old(Snapshot()).(id := newId)
    {
      id := newId;
    }

    method SetType(t: Option<CohortType>)
      modifies this
      ensures Snapshot() == old(Snapshot()).(cohortType := t)
    {
      cohortType := t;
    }

    method SetDescription(d: JString)
      modifies this
      ensures Snapshot() == old(Snapshot()).(description := d)
    {
      description := d;
    }

    /** equals compares ids only. */
    predicate Equals(other: Cohort?)
      reads this, other
      ensures Equals(other) <==> other != null && other.id == id
    {
      if other == this then true
      else if other == null then false
      else id == other.id
    }

    /** hashCode is Objects.hash(id). */
    function HashCode(): (h: int)
      reads this
      ensures -TwoTo31 <= h < TwoTo31
    {
      Customers.NullableStringHash(id)
    }
  }

  /** Cohorts with equal ids are equal and hash alike, whatever their members. */
  lemma EqualCohortsHashAlike(a: Cohort, b: Cohort)
    requires a.id == b.id
    ensures a.Equals(b) && a.HashCode() == b.HashCode()
  {
  }
}
