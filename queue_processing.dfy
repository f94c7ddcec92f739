/**
 * CustomerDataProcessingService (service/CustomerDataProcessingService.java):
 * a scheduled consumer of the customer queue. It finds or creates the
 * queue, receives a batch of messages, and for each message parses the
 * customer, saves it, classifies it and deletes the message; a message is
 * deleted only when all of that returned normally. The answers of the
 * queue service, of save and of delete are parameters; each message's
 * outcome records what was handed to save, to classifyCustomer and to
 * deleteMessage.
 */
module QueueProcessing {
  import opened Wrappers
  import opened Types
  import opened Customers

  /** The most messages one receive asks for. */
  const MaxNumberOfMessages: int := 10
  /** The long-poll wait of one receive, in seconds. */
  const WaitTimeSeconds: int := 5
  /** The account id in the queue URL built when the queue service does not answer. */
  const LocalAccountId: string := "000000000000"

  /** A field of the parsed body, as Jackson's asText() and asDouble() read it. */
  datatype JsonNode = JsonNode(asText: string, asDouble: real)

  /** A message: its body as objectMapper.readTree reads it (None when readTree throws) and its receipt handle. */
  datatype Message = Message(body: Option<map<string, JsonNode>>, receiptHandle: string)

  /** A received message, with whether customerRepository.save and deleteMessage throw on it. */
  datatype Delivery = Delivery(message: Message, saveThrows: bool, deleteThrows: bool)

  datatype ReceiveMessageRequest = ReceiveMessageRequest(queueUrl: string, maxNumberOfMessages: int, waitTimeSeconds: int)

  /** A completed deleteMessage(queueUrl, receiptHandle). */
  datatype Deletion = Deletion(queueUrl: string, receiptHandle: string)

  /** What one message led to: the customer handed to save, the customer classified, the message deleted. */
  datatype Outcome = Outcome(saved: Option<CustomerRecord>, classified: Option<CustomerRecord>, deleted: Option<Deletion>)

  /**
   * The parsing part of processMessage: a body readTree rejects throws; a
   * missing field makes get answer null and throws NullPointerException;
   * an unknown user type name throws IllegalArgumentException. The spend
   * and the user type of a parsed customer are never null.
   */
  function ParseMessage(m: Message): (r: Result<CustomerRecord, Exception>)
    ensures r.Success? <==>
      && m.body.Some? && "customerId" in m.body.value && "dailySpend" in m.body.value && "userType" in m.body.value
      && UserTypeValueOf(m.body.value["userType"].asText).Some?
    ensures r.Success? ==> r.value == CustomerRecord(
      Some(m.body.value["customerId"].asText), Some(m.body.value["dailySpend"].asDouble),
      UserTypeValueOf(m.body.value["userType"].asText))
    ensures m.body.None? ==> r == Failure(JsonProcessingException)
  {
    if m.body.None? then Failure(JsonProcessingException)
    else
      var json := m.body.value;
      if "customerId" !in json || "dailySpend" !in json || "userType" !in json then Failure(NullPointerException)
      else
        match UserTypeValueOf(json["userType"].asText)
        case None => Failure(IllegalArgumentException)
        case Some(u) => Success(CustomerRecord(Some(json["customerId"].asText), Some(json["dailySpend"].asDouble), Some(u)))
  }

  /**
   * The body of the message loop: processMessage (parse, save, classify),
   * then deleteMessage. An exception anywhere is caught and ends this
   * message only; what happened before it stands.
   */
  function OutcomeOf(queueUrl: string, d: Delivery): (o: Outcome)
    ensures o.deleted.Some? <==> ParseMessage(d.message).Success? && !d.saveThrows && !d.deleteThrows
    ensures o.deleted.Some? ==> o.deleted.value == Deletion(queueUrl, d.message.receiptHandle)
    ensures o.classified.Some? <==> ParseMessage(d.message).Success? && !d.saveThrows
    ensures o.saved.Some? <==> ParseMessage(d.message).Success?
    ensures o.saved.Some? ==> o.saved.value == ParseMessage(d.message).value
    ensures o.classified.Some? ==> o.classified == o.saved
  {
    match ParseMessage(d.message)
    case Failure(_) => Outcome(None, None, None)
    case Success(c) =>
      if d.saveThrows then Outcome(Some(c), None, None)
      else if d.deleteThrows then Outcome(Some(c), Some(c), None)
      else Outcome(Some(c), Some(c), Some(Deletion(queueUrl, d.message.receiptHandle)))
  }

  /** The customers handed to classifyCustomer by a batch, in message order. */
  function ClassifiedOf(outcomes: seq<Outcome>): (cs: seq<CustomerRecord>)
    ensures |cs| <= |outcomes|
  {
    if outcomes == [] then []
    else
      var last := outcomes[|outcomes| - 1].classified;
      ClassifiedOf(outcomes[..|outcomes| - 1]) + (if last.Some? then [last.value] else [])
  }

  class CustomerDataProcessingService {
    const queueName: string
    const endpoint: string

    constructor (queueName: string, endpoint: string)
      ensures this.queueName == queueName && this.endpoint == endpoint
    {
      this.queueName := queueName;
      this.endpoint := endpoint;
    }

    /**
     * ensureQueueExists, given what getQueueUrl and createQueue answer: the
     * existing queue's URL, else the created queue's URL, else a URL built
     * from the endpoint, the local account id and the queue name. It never
     * answers null, so processCustomerData's skip on a null URL never runs.
     */
    function EnsureQueueExists(getQueueUrl: Result<string, Exception>, createQueue: Result<string, Exception>): (url: string)
      ensures getQueueUrl.Success? ==> url == getQueueUrl.value
      ensures getQueueUrl.Failure? && createQueue.Success? ==> url == createQueue.value
      ensures getQueueUrl.Failure? && createQueue.Failure? ==> url == endpoint + "/" + LocalAccountId + "/" + queueName
    {
      match getQueueUrl
      case Success(existing) => existing
      case Failure(_) =>
        match createQueue
        case Success(created) => created
        case Failure(_) => endpoint + "/000000000000/" + queueName
    }

    /**
     * processCustomerData, given the answers of getQueueUrl, createQueue and
     * receiveMessage. Returns the receive request and each received
     * message's outcome; a failing receive processes nothing.
     */
    method ProcessCustomerData(getQueueUrl: Result<string, Exception>, createQueue: Result<string, Exception>,
                               receive: Result<seq<Delivery>, Exception>)
      returns (request: ReceiveMessageRequest, outcomes: seq<Outcome>)
      ensures request == ReceiveMessageRequest(EnsureQueueExists(getQueueUrl, createQueue), MaxNumberOfMessages, WaitTimeSeconds)
      ensures receive.Failure? ==> outcomes == []
      ensures receive.Success? ==> |outcomes| == |receive.value|
      ensures receive.Success? ==> forall i :: 0 <= i < |outcomes| ==> outcomes[i] == OutcomeOf(request.queueUrl, receive.value[i])
    {
      var queueUrl := EnsureQueueExists(getQueueUrl, createQueue);
      request := ReceiveMessageRequest(queueUrl, 10, 5);
      outcomes := [];
      if receive.Failure? {
        return;
      }
      var messages := receive.value;
      for i := 0 to |messages|
        invariant |outcomes| == i
        invariant forall j :: 0 <= j < i ==> outcomes[j] == OutcomeOf(queueUrl, messages[j])
      {
        outcomes := outcomes + [OutcomeOf(queueUrl, messages[i])];
      }
    }
  }

  // ---------------------------------------------------------------------
  // Properties

  /** A message that fails at parsing is neither saved, nor classified, nor deleted. */
  lemma BadMessageUntouched(queueUrl: string, d: Delivery)
    requires ParseMessage(d.message).Failure?
    ensures OutcomeOf(queueUrl, d) == Outcome(None, None, None)
  {
  }

  /** A failing save means no classification and no delete: the message stays in the queue. */
  lemma SaveFailureStopsMessage(queueUrl: string, d: Delivery)
    requires d.saveThrows
    ensures OutcomeOf(queueUrl, d).classified.None? && OutcomeOf(queueUrl, d).deleted.None?
  {
  }

  /** A well-formed message whose save and delete succeed is classified and deleted. */
  lemma GoodMessageAcknowledged(queueUrl: string, customerId: string, spend: real, u: UserType, handle: string)
    ensures var body := map["customerId" := JsonNode(customerId, 0.0), "dailySpend" := JsonNode("", spend),
                           "userType" := JsonNode(UserTypeName(u), 0.0)];
      OutcomeOf(queueUrl, Delivery(Message(Some(body), handle), false, false)) ==
        var c := CustomerRecord(Some(customerId), Some(spend), Some(u));
        Outcome(Some(c), Some(c), Some(Deletion(queueUrl, handle)))
  {
    var body := map["customerId" := JsonNode(customerId, 0.0), "dailySpend" := JsonNode("", spend),
                    "userType" := JsonNode(UserTypeName(u), 0.0)];
    assert body["userType"].asText == UserTypeName(u);
    assert UserTypeValueOf(UserTypeName(u)) == Some(u);
  }

  /** Without a queue service answer the consumer uses the LocalStack-style URL. */
  lemma FallbackQueueUrl(service: CustomerDataProcessingService, e1: Exception, e2: Exception)
    requires service.endpoint == "http://localhost:4566" && service.queueName == "customer-data"
    ensures service.EnsureQueueExists(Failure(e1), Failure(e2)) == "http://localhost:4566/000000000000/customer-data"
  {
  }

  /** Splitting a batch splits its classified customers: those of the first part come first. */
  lemma {:induction false} ClassifiedOfAppend(a: seq<Outcome>, b: seq<Outcome>)
    ensures ClassifiedOf(a + b) == ClassifiedOf(a) + ClassifiedOf(b)
  {
    if b == [] {
      assert a + b == a;
    } else {
      var init := b[..|b| - 1];
      assert (a + b)[..|a + b| - 1] == a + init;
      assert (a + b)[|a + b| - 1] == b[|b| - 1];
      ClassifiedOfAppend(a, init);
    }
  }

  /** Every classified customer of a batch comes from a message of the batch that parsed and was saved. */
  lemma {:induction false} ClassifiedComeFromMessages(queueUrl: string, deliveries: seq<Delivery>, outcomes: seq<Outcome>, k: nat)
    requires |outcomes| == |deliveries|
    requires forall i :: 0 <= i < |outcomes| ==> outcomes[i] == OutcomeOf(queueUrl, deliveries[i])
    requires k < |ClassifiedOf(outcomes)|
    ensures exists i :: (0 <= i < |deliveries| && !deliveries[i].saveThrows &&
                         ParseMessage(deliveries[i].message) == Success(ClassifiedOf(outcomes)[k]))
  {
    var n := |outcomes| - 1;
    var init := outcomes[..n];
    if k < |ClassifiedOf(init)| {
      ClassifiedComeFromMessages(queueUrl, deliveries[..n], init, k);
      var i :| 0 <= i < n && !deliveries[..n][i].saveThrows &&
        ParseMessage(deliveries[..n][i].message) == Success(ClassifiedOf(init)[k]);
      assert deliveries[..n][i] == deliveries[i];
    } else {
      assert outcomes[n] == OutcomeOf(queueUrl, deliveries[n]);
      assert !deliveries[n].saveThrows && ParseMessage(deliveries[n].message) == Success(ClassifiedOf(outcomes)[k]);
    }
  }
}
