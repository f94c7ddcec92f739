/** A customer record (model/Customer.java). */
module Customers {
  import opened Wrappers
  import opened Types
  import opened JavaStrings

  /** The three fields of a Customer at one moment; every field may be null. */
  datatype CustomerRecord = CustomerRecord(customerId: JString, dailySpend: Option<real>, userType: Option<UserType>)

  /** Objects.hash(s) for a nullable string: 31 + (0 for null, else s.hashCode()). */
  function NullableStringHash(s: JString): (h: int)
    ensures -TwoTo31 <= h < TwoTo31
    ensures s.None? ==> h == 31
  {
    SingleFieldHash(match s case None => 0 case Some(v) => StringHashCode(v))
  }

  class Customer {
    var customerId: JString
    var dailySpend: Option<real>
    var userType: Option<UserType>

    /** The current field values. */
    function Record(): (r: CustomerRecord)
      reads this
      ensures r.customerId == customerId && r.dailySpend == dailySpend && r.userType == userType
    {
      CustomerRecord(customerId, dailySpend, userType)
    }

    /** The no-argument constructor leaves every field null. */
    constructor Empty()
      ensures Record() == CustomerRecord(None, None, None)
    {
      customerId, dailySpend, userType := None, None, None;
    }

    /** The three-argument constructor stores its arguments unchanged; dailySpend may be null. */
    constructor (customerId: JString, dailySpend: Option<real>, userType: Option<UserType>)
      ensures Record() == CustomerRecord(customerId, dailySpend, userType)
    {
      this.customerId := customerId;
      this.dailySpend := dailySpend;
      this.userType := userType;
    }

    method SetCustomerId(id: JString)
      modifies this
      ensures Record() == old(Record()).(customerId := id)
    {
      customerId := id;
    }

    method SetDailySpend(spend: Option<real>)
      modifies this
      ensures Record() == old(Record()).(dailySpend := spend)
    {
      dailySpend := spend;
    }

    method SetUserType(u: Option<UserType>)
      modifies this
      ensures Record() == old(Record()).(userType := u)
    {
      userType := u;
    }

    /** equals: the same object, or another Customer with an equal (possibly null) id. */
    predicate Equals(other: Customer?)
      reads this, other
      ensures Equals(other) <==> other != null && other.customerId == customerId
    {
      if other == this then true
      else if other == null then false
      else customerId == other.customerId
    }

    /** hashCode is Objects.hash(customerId). */
    function HashCode(): (h: int)
      reads this
      ensures -TwoTo31 <= h < TwoTo31
    {
      NullableStringHash(customerId)
    }
  }

  /** Equality ignores the spend and the user type. */
  lemma EqualsIgnoresSpendAndType(a: Customer, b: Customer)
    requires a.customerId == b.customerId
    ensures a.Equals(b) && b.Equals(a)
  {
  }

  /** Equal customers have equal hash codes. */
  lemma EqualCustomersHashAlike(a: Customer, b: Customer)
    requires a.Equals(b)
    ensures a.HashCode() == b.HashCode()
  {
  }

  /** Equality is an equivalence on customers: symmetric and transitive. */
  lemma EqualsIsEquivalence(a: Customer, b: Customer, c: Customer)
    ensures a.Equals(a)
    ensures a.Equals(b) ==> b.Equals(a)
    ensures a.Equals(b) && b.Equals(c) ==> a.Equals(c)
  {
  }
}
