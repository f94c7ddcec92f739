/**
 * DynamoDBStreamProcessingService (service/DynamoDBStreamProcessingService.java):
 * the dispatch of one stream record on its event name. The service never
 * throws; what it does is hand at most one customer to classifyCustomer,
 * and ProcessRecord is that customer.
 */
module StreamProcessing {
  import opened Wrappers
  import opened Types
  import opened Customers
  import opened CustomerItems

  /** The dynamodb part of a stream record; the new image may be null. */
  datatype StreamRecord = StreamRecord(newImage: Option<Item>)

  /** A stream record: the event name and the dynamodb part, either of which may be null. */
  datatype Record = Record(eventName: JString, dynamodb: Option<StreamRecord>)

  /** The event names that the switch sends to processInsertOrModify. */
  predicate IsInsertOrModify(eventName: JString)
  {
    eventName == Some("INSERT") || eventName == Some("MODIFY")
  }

  /**
   * processInsertOrModify: nothing for a null image; otherwise the extracted
   * customer, or nothing when the extraction throws (the exception is caught).
   */
  function ProcessInsertOrModify(newImage: Option<Item>): (c: Option<CustomerRecord>)
    ensures c.Some? <==> newImage.Some? && ExtractCustomer(newImage.value).Success?
    ensures c.Some? ==> Success(c.value) == ExtractCustomer(newImage.value)
  {
    if newImage.None? then None
    else
      match ExtractCustomer(newImage.value)
      case Failure(_) => None
      case Success(customer) => Some(customer)
  }

  /**
   * processRecord: the customer handed to classifyCustomer, if any. A null
   * dynamodb part returns early; a null event name makes the switch throw,
   * which the method catches; INSERT and MODIFY share one branch; every
   * other event name is ignored.
   */
  function ProcessRecord(record: Record): (c: Option<CustomerRecord>)
    ensures c.Some? <==>
      record.dynamodb.Some? && IsInsertOrModify(record.eventName) && ProcessInsertOrModify(record.dynamodb.value.newImage).Some?
    ensures c.Some? ==> c == ProcessInsertOrModify(record.dynamodb.value.newImage)
  {
    if record.dynamodb.None? || record.eventName.None? then None
    else if record.eventName.value == "INSERT" || record.eventName.value == "MODIFY" then
      ProcessInsertOrModify(record.dynamodb.value.newImage)
    else None
  }

  /** The customers handed to classifyCustomer by processing records in order. */
  function Handed(records: seq<Record>): (cs: seq<CustomerRecord>)
    ensures |cs| <= |records|
  {
    if records == [] then []
    else
      var last := ProcessRecord(records[|records| - 1]);
      Handed(records[..|records| - 1]) + (if last.Some? then [last.value] else [])
  }

  // ---------------------------------------------------------------------
  // Properties

  /** INSERT and MODIFY records with the same dynamodb part are processed identically. */
  lemma InsertAndModifyAlike(sr: Option<StreamRecord>)
    ensures ProcessRecord(Record(Some("INSERT"), sr)) == ProcessRecord(Record(Some("MODIFY"), sr))
  {
  }

  /** A REMOVE event classifies nothing, even with a complete image. */
  lemma RemoveIgnored(customerId: string, spend: real, u: UserType)
    ensures ProcessRecord(Record(Some("REMOVE"), Some(StreamRecord(Some(CustomerItem(customerId, spend, u)))))) == None
  {
    assert !IsInsertOrModify(Some("REMOVE"));
  }

  /** An INSERT event with a complete image hands exactly the customer it describes. */
  lemma InsertClassifies(customerId: string, spend: real, u: UserType)
    ensures ProcessRecord(Record(Some("INSERT"), Some(StreamRecord(Some(CustomerItem(customerId, spend, u)))))) ==
      Some(CustomerRecord(Some(customerId), Some(spend), Some(u)))
  {
    ExtractCustomerItem(customerId, spend, u);
  }

  /** Every handed customer has a spend and a user type. */
  lemma {:induction false} HandedAreComplete(records: seq<Record>, i: nat)
    requires i < |Handed(records)|
    ensures Handed(records)[i].dailySpend.Some? && Handed(records)[i].userType.Some?
  {
    var init := records[..|records| - 1];
    var last := ProcessRecord(records[|records| - 1]);
    if i < |Handed(init)| {
      HandedAreComplete(init, i);
    } else {
      assert last.Some?;
      var image := records[|records| - 1].dynamodb.value.newImage.value;
      assert Success(last.value) == ExtractCustomer(image);
    }
  }

  /** Processing a batch in two parts hands the customers of the first part, then those of the second. */
  lemma {:induction false} HandedAppend(a: seq<Record>, b: seq<Record>)
    ensures Handed(a + b) == Handed(a) + Handed(b)
  {
    if b == [] {
      assert a + b == a;
    } else {
      var init := b[..|b| - 1];
      assert (a + b)[..|a + b| - 1] == a + init;
      assert (a + b)[|a + b| - 1] == b[|b| - 1];
      HandedAppend(a, init);
    }
  }
}
