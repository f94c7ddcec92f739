/**
 * A customer as it arrives from the Customers table: an item (a scanned row
 * or the new image of a stream record) mapping attribute names to DynamoDB
 * attribute values, and the extraction of a Customer from it that the
 * trigger handler and the stream processing service both perform.
 */
module CustomerItems {
  import opened Wrappers
  import opened Types
  import opened Customers
  import opened Rules

  /**
   * The text of a number attribute as Double.parseDouble reads it: either a
   * numeral denoting a value or a string it rejects.
   */
  datatype NumberText = Numeral(value: real) | Malformed(text: string)

  /** An AttributeValue: getS() and getN() answer null unless the value has that kind. */
  datatype AttributeValue = AttributeValue(s: JString, n: Option<NumberText>)

  /** A table item or stream image: Map<String, AttributeValue>; get answers null for a missing name. */
  type Item = map<string, AttributeValue>

  /** The string attribute of a text value. */
  function Text(s: string): AttributeValue
  {
    AttributeValue(Some(s), None)
  }

  /** The number attribute of a value. */
  function Number(v: real): AttributeValue
  {
    AttributeValue(None, Some(Numeral(v)))
  }

  /** An item with the three customer attributes. */
  function CustomerItem(customerId: string, spend: real, u: UserType): Item
  {
    map["customerId" := Text(customerId), "dailySpend" := Number(spend), "userType" := Text(UserTypeName(u))]
  }

  /**
   * The customer built from an item, or the exception thrown on the way:
   * the customerId string (null when it is not a string value), the parsed
   * dailySpend, and UserType.valueOf of the userType string, read in that
   * order. A missing attribute, a null number text or a null type name
   * throws NullPointerException; a malformed number NumberFormatException;
   * an unknown type name IllegalArgumentException.
   */
  function ExtractCustomer(item: Item): (r: Result<CustomerRecord, Exception>)
    ensures r.Success? <==>
      && "customerId" in item
      && "dailySpend" in item && item["dailySpend"].n.Some? && item["dailySpend"].n.value.Numeral?
      && "userType" in item && item["userType"].s.Some? && UserTypeValueOf(item["userType"].s.value).Some?
    ensures r.Success? ==>
      && r.value.customerId == item["customerId"].s
      && r.value.dailySpend == Some(item["dailySpend"].n.value.value)
      && r.value.userType == UserTypeValueOf(item["userType"].s.value)
    ensures "customerId" !in item ==> r == Failure(NullPointerException)
  {
    if "customerId" !in item || "dailySpend" !in item || item["dailySpend"].n.None? then Failure(NullPointerException)
    else
      match item["dailySpend"].n.value
      case Malformed(_) => Failure(NumberFormatException)
      case Numeral(spend) =>
        if "userType" !in item || item["userType"].s.None? then Failure(NullPointerException)
        else
          match UserTypeValueOf(item["userType"].s.value)
          case None => Failure(IllegalArgumentException)
          case Some(u) => Success(CustomerRecord(item["customerId"].s, Some(spend), Some(u)))
  }

  /** Attributes other than the three customer attributes play no part in the extraction. */
  lemma ExtractIgnoresOtherAttributes(item: Item, extra: Item)
    requires forall k :: k in extra ==> k != "customerId" && k != "dailySpend" && k != "userType"
    ensures ExtractCustomer(item + extra) == ExtractCustomer(item)
  {
    var whole := item + extra;
    assert "customerId" in whole <==> "customerId" in item;
    assert "dailySpend" in whole <==> "dailySpend" in item;
    assert "userType" in whole <==> "userType" in item;
    if "customerId" in item { assert whole["customerId"] == item["customerId"]; }
    if "dailySpend" in item { assert whole["dailySpend"] == item["dailySpend"]; }
    if "userType" in item { assert whole["userType"] == item["userType"]; }
  }

  /** A complete item yields exactly the customer it describes. */
  lemma ExtractCustomerItem(customerId: string, spend: real, u: UserType)
    ensures ExtractCustomer(CustomerItem(customerId, spend, u)) == Success(CustomerRecord(Some(customerId), Some(spend), Some(u)))
  {
    var item := CustomerItem(customerId, spend, u);
    assert item["userType"].s == Some(UserTypeName(u));
    assert UserTypeValueOf(UserTypeName(u)) == Some(u);
  }

  /** User type names are case-sensitive: "paid" is rejected with IllegalArgumentException. */
  lemma ExtractRejectsLowerCaseType(customerId: string, spend: real)
    ensures ExtractCustomer(CustomerItem(customerId, spend, Paid)["userType" := Text("paid")]) == Failure(IllegalArgumentException)
  {
    var item := CustomerItem(customerId, spend, Paid)["userType" := Text("paid")];
    assert item["dailySpend"] == Number(spend);
    assert UserTypeValueOf("paid").None?;
  }

  /**
   * An extracted customer always has a spend and a user type, so no rule
   * throws on it: the custom rule's null unboxing cannot happen on this path.
   */
  lemma ExtractedCustomersNeverThrow(item: Item, r: Rule)
    requires ExtractCustomer(item).Success?
    ensures r.Evaluate(Some(ExtractCustomer(item).value)).Success?
  {
  }
}
