/**
 * DynamoDBCohortRepository (repository/DynamoDBCohortRepository.java). The
 * cohort table is a sequence of items (customerId, uuid, cohortType,
 * description) in scan order; a cohort is not stored as such but
 * reconstructed from the items whose cohortType is the part of the cohort
 * id after "_".
 *
 * The DynamoDB service is an oracle `env`: the n-th putItem call either
 * throws or stores its item at a position of the scan order that the
 * model does not choose. The table is keyed by (customerId, random uuid),
 * so a new item may land anywhere in a scan. The uuid of an item is the
 * number of the putItem call that wrote it, which makes it unique.
 */
module DynamoRepository {
  import opened Wrappers
  import opened Types
  import opened JavaStrings
  import opened Cohorts

  /** One item of the cohort table; customerId is the hash key and uuid the range key. */
  datatype CohortItem = CohortItem(customerId: string, uuid: nat, cohortType: string, description: string)

  /** What one putItem call does: store the item at a position of the scan order, or throw. */
  datatype PutOutcome = Stored(at: nat) | PutFails

  /** The table service as the repository meets it: the outcome of its n-th putItem call. */
  type Env = nat -> PutOutcome

  /** The outcome of the n-th putItem call. */
  function OutcomeOf(env: Env, n: nat): PutOutcome
  {
    env(n)
  }

  /** The putItem calls numbered first .. first + count - 1 all store their item. */
  predicate StoredFrom(env: Env, first: nat, count: nat)
  {
    forall n: nat :: first <= n < first + count ==> OutcomeOf(env, n).Stored?
  }

  /** One more put that stores extends a run of puts that store. */
  lemma StoredFromExtend(env: Env, first: nat, count: nat)
    requires StoredFrom(env, first, count) && OutcomeOf(env, first + count).Stored?
    ensures StoredFrom(env, first, count + 1)
  {
    forall n: nat | first <= n < first + count + 1 ensures OutcomeOf(env, n).Stored? {
      if n < first + count {
        assert first <= n < first + count;
      }
    }
  }

  /** The index at which an item stored at position `at` lands: `at`, or the end when `at` is past it. */
  function Slot(items: seq<CohortItem>, at: nat): (p: nat)
    ensures p <= |items|
    ensures at <= |items| ==> p == at
  {
    if at <= |items| then at else |items|
  }

  /** The table after an item is stored at position `at` of the scan order; every other item keeps its relative order. */
  function Insert(items: seq<CohortItem>, at: nat, item: CohortItem): (r: seq<CohortItem>)
    ensures |r| == |items| + 1
    ensures multiset(r) == multiset(items) + multiset{item}
    ensures r[Slot(items, at)] == item
    ensures forall k :: 0 <= k < Slot(items, at) ==> r[k] == items[k]
    ensures forall k :: Slot(items, at) < k < |r| ==> r[k] == items[k - 1]
  {
    var p := Slot(items, at);
    assert items == items[..p] + items[p..];
    items[..p] + [item] + items[p..]
  }

  /** The table after one putItem of item with the given outcome. */
  function Put(items: seq<CohortItem>, o: PutOutcome, item: CohortItem): seq<CohortItem>
  {
    match o
    case Stored(at) => Insert(items, at, item)
    case PutFails => items
  }

  /** The table after the putItem calls of news, in order, each item's uuid naming its call. */
  function PlaceAll(items: seq<CohortItem>, news: seq<CohortItem>, env: Env): seq<CohortItem>
  {
    if news == [] then items
    else
      var last := news[|news| - 1];
      Put(PlaceAll(items, news[..|news| - 1], env), OutcomeOf(env, last.uuid), last)
  }

  /** The description given to a cohort of a rule name and a type name. */
  function CohortDescription(ruleName: string, typeName: string): string
  {
    "Cohort for " + ruleName + " rule with type " + typeName
  }

  /**
   * cohortId.split("_") when it has exactly two parts: the rule name and
   * the type name. The id is then the two parts around one "_", followed by
   * nothing but underscores (which split drops).
   */
  function ParseCohortId(id: string): (r: Option<(string, string)>)
    ensures r.Some? <==> |Split(id, '_')| == 2
    ensures r.Some? ==>
      && '_' !in r.value.0 && '_' !in r.value.1 && r.value.1 != ""
      && |id| >= |r.value.0| + 1 + |r.value.1|
      && id == r.value.0 + "_" + r.value.1 + Repeat('_', |id| - |r.value.0| - 1 - |r.value.1|)
  {
    var parts := Split(id, '_');
    if |parts| == 2 then
      SplitTwoPartsShape(id, '_');
      Some((parts[0], parts[1]))
    else None
  }

  /** The customer ids of the items with the given type, leaving out an id equal to exclude. */
  function MembersOfType(items: seq<CohortItem>, typeName: string, exclude: string): (r: set<JString>)
    ensures None !in r && Some(exclude) !in r
    ensures forall k :: 0 <= k < |items| && items[k].cohortType == typeName && items[k].customerId != exclude ==>
      Some(items[k].customerId) in r
    ensures forall c :: Some(c) in r ==> (c, typeName) in Pairs(items)
  {
    set i | i in items && i.cohortType == typeName && i.customerId != exclude :: Some(i.customerId)
  }

  /** findById: for a valid id of a known type, a cohort built from the scan, even with no members. */
  function FindByIdOf(items: seq<CohortItem>, id: JString): (r: Option<CohortData>)
    ensures r.Some? ==> r.value.id == id && r.value.cohortType.Some?
    ensures r.Some? ==> None !in r.value.customerIds && id !in r.value.customerIds
  {
    if id.None? then None
    else match ParseCohortId(id.value)
      case None => None
      case Some((ruleName, typeName)) =>
        match CohortTypeValueOf(typeName)
        case None => None
        case Some(t) => Some(CohortData(id, Some(t), Some(CohortDescription(ruleName, typeName)), MembersOfType(items, typeName, id.value)))
  }

  /** getCustomerIds: the members of the id's type, or empty for a null or malformed id. */
  function GetCustomerIdsOf(items: seq<CohortItem>, id: JString): (r: set<JString>)
    ensures None !in r && id !in r
  {
    if id.None? then {}
    else match ParseCohortId(id.value)
      case None => {}
      case Some((_, typeName)) => MembersOfType(items, typeName, id.value)
  }

  /** existsById: the id splits into two parts and the second names a cohort type; the table is not read. */
  predicate ExistsByIdOf(id: JString)
    ensures ExistsByIdOf(id) <==> FindByIdOf([], id).Some?
  {
    id.Some? && ParseCohortId(id.value).Some? && CohortTypeValueOf(ParseCohortId(id.value).value.1).Some?
  }

  /** The index of the first item, in scan order, with the given customer id. */
  function FirstMatch(items: seq<CohortItem>, customerId: string): (r: Option<nat>)
    ensures r.Some? ==> r.value < |items| && items[r.value].customerId == customerId
    ensures r.Some? ==> forall j :: 0 <= j < r.value ==> items[j].customerId != customerId
    ensures r.None? ==> forall j :: 0 <= j < |items| ==> items[j].customerId != customerId
  {
    if items == [] then None
    else if items[0].customerId == customerId then Some(0)
    else match FirstMatch(items[1..], customerId)
      case None => None
      case Some(k) => Some(k + 1)
  }

  /** The first item of the customer in scan order, if any. */
  function FirstItem(items: seq<CohortItem>, customerId: string): Option<CohortItem>
  {
    match FirstMatch(items, customerId)
    case None => None
    case Some(k) => Some(items[k])
  }

  /**
   * findByCustomerId: empty for null or for an id containing "_";
   * otherwise at most one cohort, "Rule_<type>", built from the first
   * matching item; an unknown type throws inside the try and gives empty.
   */
  function FindByCustomerIdOf(items: seq<CohortItem>, customerId: JString): (r: seq<CohortData>)
    ensures |r| <= 1
    ensures r != [] ==> r[0].customerIds == {customerId} && r[0].cohortType.Some?
  {
    if customerId.None? || '_' in customerId.value then []
    else match FirstMatch(items, customerId.value)
      case None => []
      case Some(k) =>
        var item := items[k];
        match CohortTypeValueOf(item.cohortType)
        case None => []
        case Some(t) => [CohortData(Some("Rule_" + item.cohortType), Some(t), Some(item.description), {customerId})]
  }

  /**
   * addCustomerToCohort: false without a call for a null argument or a
   * malformed id; otherwise one putItem call, answered true when it stores
   * the new item and false when it throws. The type name is not checked
   * against the enumeration.
   */
  function AddOf(items: seq<CohortItem>, issued: nat, env: Env, id: JString, customerId: JString): (r: (seq<CohortItem>, nat, bool))
    ensures !r.2 ==> r.0 == items
    ensures r.1 == if id.Some? && customerId.Some? && ParseCohortId(id.value).Some? then issued + 1 else issued
    ensures r.2 <==> id.Some? && customerId.Some? && ParseCohortId(id.value).Some? && OutcomeOf(env, issued).Stored?
    ensures r.2 ==>
      var (ruleName, typeName) := ParseCohortId(id.value).value;
      multiset(r.0) == multiset(items) + multiset{CohortItem(customerId.value, issued, typeName, CohortDescription(ruleName, typeName))}
  {
    if id.None? || customerId.None? then (items, issued, false)
    else match ParseCohortId(id.value)
      case None => (items, issued, false)
      case Some((ruleName, typeName)) =>
        match OutcomeOf(env, issued)
        case PutFails => (items, issued + 1, false)
        case Stored(at) =>
          (Insert(items, at, CohortItem(customerId.value, issued, typeName, CohortDescription(ruleName, typeName))), issued + 1, true)
  }

  /** The items save writes for the given customer ids, in the order written, with consecutive uuids. */
  function ItemsFor(ids: seq<string>, firstUuid: nat, typeName: string, description: string): (r: seq<CohortItem>)
    ensures |r| == |ids|
    ensures forall k :: 0 <= k < |r| ==> r[k] == CohortItem(ids[k], firstUuid + k, typeName, description)
  {
    if ids == [] then []
    else ItemsFor(ids[..|ids| - 1], firstUuid, typeName, description) + [CohortItem(ids[|ids| - 1], firstUuid + |ids| - 1, typeName, description)]
  }

  /**
   * The checks save makes before its first putItem: a non-null cohort
   * with an id that either has no members or has a type, a description
   * and no null member.
   */
  predicate SaveSucceeds(cohort: Option<CohortData>)
  {
    && cohort.Some? && cohort.value.id.Some?
    && (cohort.value.customerIds == {}
        || (cohort.value.cohortType.Some? && cohort.value.description.Some? && None !in cohort.value.customerIds))
  }

  /** The (member, type) pairs a save of the given members under the given type name adds. */
  function MemberPairs(members: set<JString>, typeName: string): set<(string, string)>
  {
    set x | x in members && x.Some? :: (x.value, typeName)
  }

  /** Every uuid is below the counter, and no two items share one. */
  predicate UuidsFresh(items: seq<CohortItem>, issued: nat)
  {
    && (forall k {:trigger items[k].uuid} :: 0 <= k < |items| ==> items[k].uuid < issued)
    && (forall j, k {:trigger items[j].uuid, items[k].uuid} :: 0 <= j < k < |items| ==> items[j].uuid != items[k].uuid)
  }

  /** Storing an item with the next uuid, wherever it lands, keeps uuids fresh. */
  lemma InsertFreshItem(items: seq<CohortItem>, issued: nat, at: nat, item: CohortItem)
    requires UuidsFresh(items, issued) && item.uuid == issued
    ensures UuidsFresh(Insert(items, at, item), issued + 1)
  {
    var r := Insert(items, at, item);
    var p := Slot(items, at);
    forall k | 0 <= k < |r| ensures r[k].uuid < issued + 1 {
      if k > p {
        assert r[k] == items[k - 1];
      }
    }
    forall j, k | 0 <= j < k < |r| ensures r[j].uuid != r[k].uuid {
      if k < p {
        assert r[j] == items[j] && r[k] == items[k];
      } else if k == p {
        assert r[j] == items[j];
      } else if j < p {
        assert r[j] == items[j] && r[k] == items[k - 1];
      } else if j == p {
        assert r[k] == items[k - 1];
      } else {
        assert r[j] == items[j - 1] && r[k] == items[k - 1];
      }
    }
  }

  /** Puts of items with the next uuids in turn keep uuids fresh, whether each put stores its item or throws. */
  lemma {:induction false} PlaceAllFresh(items: seq<CohortItem>, issued: nat, news: seq<CohortItem>, env: Env, upTo: nat)
    requires UuidsFresh(items, issued)
    requires forall k :: 0 <= k < |news| ==> news[k].uuid == issued + k
    requires issued + |news| <= upTo
    ensures UuidsFresh(PlaceAll(items, news, env), upTo)
  {
    if news != [] {
      var init, last := news[..|news| - 1], news[|news| - 1];
      PlaceAllFresh(items, issued, init, env, issued + |init|);
      var placed := PlaceAll(items, init, env);
      match OutcomeOf(env, last.uuid)
      case Stored(at) => InsertFreshItem(placed, issued + |init|, at, last);
      case PutFails =>
    }
  }

  /** The customer ids of the written items, as nullable strings. */
  function Written(ws: seq<string>): (r: set<JString>)
    ensures None !in r
    ensures forall w :: Some(w) in r <==> w in ws
  {
    if ws == [] then {} else Written(ws[..|ws| - 1]) + {Some(ws[|ws| - 1])}
  }

  lemma WrittenAppend(ws: seq<string>, x: string)
    ensures Written(ws + [x]) == Written(ws) + {Some(x)}
  {
    assert (ws + [x])[..|ws|] == ws;
  }

  lemma ItemsForAppend(ids: seq<string>, x: string, firstUuid: nat, typeName: string, description: string)
    ensures ItemsFor(ids + [x], firstUuid, typeName, description) ==
      ItemsFor(ids, firstUuid, typeName, description) + [CohortItem(x, firstUuid + |ids|, typeName, description)]
  {
    assert (ids + [x])[..|ids|] == ids;
  }

  /** Puts that all store their items only add them: the multiset of items grows by exactly the new ones. */
  lemma {:induction false} PlaceAllContents(items: seq<CohortItem>, news: seq<CohortItem>, env: Env)
    requires forall i :: i in news ==> OutcomeOf(env, i.uuid).Stored?
    ensures multiset(PlaceAll(items, news, env)) == multiset(items) + multiset(news)
    ensures |PlaceAll(items, news, env)| == |items| + |news|
  {
    if news != [] {
      var init := news[..|news| - 1];
      var last := news[|news| - 1];
      assert news == init + [last];
      forall i | i in init ensures OutcomeOf(env, i.uuid).Stored? {
        assert i in news;
      }
      PlaceAllContents(items, init, env);
      assert last in news;
    }
  }

  /** Tables with the given multisets of items hold the union of their pairs. */
  lemma PairsOfUnion(a: seq<CohortItem>, b: seq<CohortItem>, c: seq<CohortItem>)
    requires multiset(a) == multiset(b) + multiset(c)
    ensures Pairs(a) == Pairs(b) + Pairs(c)
  {
    forall i ensures i in a <==> i in b || i in c {
      assert i in a <==> i in multiset(a);
      assert i in b <==> i in multiset(b);
      assert i in c <==> i in multiset(c);
    }
  }

  /** The pairs of the items written for distinct members are the members with the type name. */
  lemma ItemsForPairs(written: seq<string>, members: set<JString>, firstUuid: nat, typeName: string, description: string)
    requires Written(written) == members
    ensures Pairs(ItemsFor(written, firstUuid, typeName, description)) == MemberPairs(members, typeName)
  {
    var news := ItemsFor(written, firstUuid, typeName, description);
    forall p | p in Pairs(news) ensures p in MemberPairs(members, typeName) {
      var i :| i in news && p == (i.customerId, i.cohortType);
      var k :| 0 <= k < |news| && news[k] == i;
      assert Some(written[k]) in members;
    }
    forall p | p in MemberPairs(members, typeName) ensures p in Pairs(news) {
      var x :| x in members && x.Some? && p == (x.value, typeName);
      var k :| 0 <= k < |written| && written[k] == x.value;
      assert news[k] in news;
    }
  }

  /**
   * What the puts of save that stored their items add to the table:
   * exactly those items, and when every member was written, one pair per
   * member with the type name.
   */
  lemma SaveAdds(base: seq<CohortItem>, baseIssued: nat, written: seq<string>, typeName: string, description: string,
                 env: Env, members: set<JString>, ok: bool)
    requires StoredFrom(env, baseIssued, |written|)
    requires ok ==> Written(written) == members && |Written(written)| == |written|
    ensures multiset(PlaceAll(base, ItemsFor(written, baseIssued, typeName, description), env)) ==
      multiset(base) + multiset(ItemsFor(written, baseIssued, typeName, description))
    ensures ok ==>
      && |PlaceAll(base, ItemsFor(written, baseIssued, typeName, description), env)| == |base| + |members|
      && Pairs(PlaceAll(base, ItemsFor(written, baseIssued, typeName, description), env)) == Pairs(base) + MemberPairs(members, typeName)
  {
    var news := ItemsFor(written, baseIssued, typeName, description);
    forall i | i in news ensures OutcomeOf(env, i.uuid).Stored? {
      var k :| 0 <= k < |news| && news[k] == i;
    }
    PlaceAllContents(base, news, env);
    if ok {
      ItemsForPairs(written, members, baseIssued, typeName, description);
      PairsOfUnion(PlaceAll(base, news, env), base, news);
    }
  }

  /**
   * After writing `written` on a table that was `base`: every one of
   * those puts stored its item, and the counter counts them.
   */
  predicate PutProgress(base: seq<CohortItem>, baseIssued: nat, written: seq<string>, its: seq<CohortItem>, n: nat, typeName: string, description: string, env: Env)
  {
    && n == baseIssued + |written|
    && StoredFrom(env, baseIssued, |written|)
    && its == PlaceAll(base, ItemsFor(written, baseIssued, typeName, description), env)
  }

  /** The members split into the distinct ones written and the ones remaining. */
  predicate Partition(members: set<JString>, written: seq<string>, remaining: set<JString>)
  {
    && Written(written) + remaining == members
    && Written(written) !! remaining
    && |Written(written)| == |written|
    && |written| + |remaining| == |members|
  }

  /**
   * What the save loop has done when it stops: `written` holds distinct
   * members whose puts all stored their items, `failedPut` says that the
   * next put threw, and `ok` that every member was written.
   */
  predicate LoopOutcome(env: Env, first: nat, members: set<JString>, ok: bool, written: seq<string>, failedPut: bool)
  {
    && (ok <==> None !in members && StoredFrom(env, first, |members|))
    && StoredFrom(env, first, |written|)
    && (failedPut ==> !ok && OutcomeOf(env, first + |written|).PutFails? && |written| < |members|)
    && Written(written) <= members
    && |Written(written)| == |written| && |written| <= |members|
    && (ok ==> Written(written) == members)
  }

  /** Where the save loop stops: at a null member, at a put that throws, or after the last member. */
  lemma PutExit(baseIssued: nat, written: seq<string>, n: nat, env: Env, members: set<JString>, remaining: set<JString>, ok: bool, failedPut: bool)
    requires n == baseIssued + |written| && StoredFrom(env, baseIssued, |written|)
    requires Partition(members, written, remaining)
    requires ok ==> remaining == {} && !failedPut
    requires !ok && !failedPut ==> None in remaining
    requires failedPut ==> !ok && remaining != {} && OutcomeOf(env, n).PutFails?
    ensures LoopOutcome(env, baseIssued, members, ok, written, failedPut)
  {
    assert |written| + |remaining| == |members|;
    if failedPut {
      assert |remaining| != 0;
      assert |written| < |members|;
    }
  }

  /** Moving a chosen non-null member from the remaining ones to the written ones. */
  lemma PartitionStep(members: set<JString>, written: seq<string>, remaining: set<JString>, x: JString)
    requires Partition(members, written, remaining)
    requires x in remaining && x.Some?
    ensures Partition(members, written + [x.value], remaining - {x})
  {
    WrittenAppend(written, x.value);
  }

  /** One step of the save loop: the put of a chosen non-null member stores its item at position `at`. */
  lemma PutStep(base: seq<CohortItem>, baseIssued: nat, written: seq<string>, its: seq<CohortItem>, n: nat, typeName: string, description: string,
                env: Env, members: set<JString>, remaining: set<JString>, x: JString, at: nat)
    requires PutProgress(base, baseIssued, written, its, n, typeName, description, env)
    requires Partition(members, written, remaining)
    requires x in remaining && x.Some? && OutcomeOf(env, n) == Stored(at)
    ensures PutProgress(base, baseIssued, written + [x.value], Insert(its, at, CohortItem(x.value, n, typeName, description)), n + 1, typeName, description, env)
    ensures Partition(members, written + [x.value], remaining - {x})
  {
    StoredFromExtend(env, baseIssued, |written|);
    var item := CohortItem(x.value, n, typeName, description);
    PartitionStep(members, written, remaining, x);
    ItemsForAppend(written, x.value, baseIssued, typeName, description);
    var news := ItemsFor(written + [x.value], baseIssued, typeName, description);
    assert news[..|news| - 1] == ItemsFor(written, baseIssued, typeName, description);
    assert news[|news| - 1] == item;
    assert PlaceAll(base, news, env) == Put(its, OutcomeOf(env, n), item);
  }

  /**
   * The puts save made, from call number `first`: those of `written` all
   * stored their items, and when `failedPut` the next one threw and the
   * save failed.
   */
  predicate PutTrace(env: Env, first: nat, written: seq<string>, failedPut: bool, failed: bool)
  {
    && StoredFrom(env, first, |written|)
    && (failedPut ==> failed && OutcomeOf(env, first + |written|).PutFails?)
  }

  /** The pairs (customer id, type name) present in the table. */
  function Pairs(items: seq<CohortItem>): set<(string, string)>
  {
    set i | i in items :: (i.customerId, i.cohortType)
  }

  class DynamoDBCohortRepository {
    var items: seq<CohortItem>
    var issued: nat
    const env: Env

    /** Every uuid was handed out, and no two items share one. */
    predicate Valid()
      reads this
    {
      UuidsFresh(items, issued)
    }

    constructor (env: Env)
      ensures items == [] && issued == 0 && this.env == env && Valid()
    {
      items := [];
      issued := 0;
      this.env := env;
    }

    /**
     * save: IllegalArgumentException for a null cohort or id; nothing
     * written for no members; otherwise one putItem per member, in the
     * HashSet's (unspecified) order. `written` reports the ids whose put
     * stored its item, `failedPut` whether a put then threw. A null type
     * or description fails on the first member, a null member when it is
     * reached, a throwing put at once; each is rethrown as
     * RuntimeException and leaves the items already stored in the table.
     */
    method Save(cohort: Option<CohortData>) returns (r: Result<CohortData, Exception>, ghost written: seq<string>, ghost failedPut: bool)
      requires Valid()
      modifies this
      ensures Valid()
      ensures r.Success? <==> SaveSucceeds(cohort) && StoredFrom(env, old(issued), |cohort.value.customerIds|)
      ensures r.Success? ==> r.value == cohort.value
      ensures cohort.None? || cohort.value.id.None? ==> r == Failure(IllegalArgumentException)
      ensures r.Failure? && cohort.Some? && cohort.value.id.Some? ==> r.error == RuntimeException
      ensures issued == old(issued) + |written| + (if failedPut then 1 else 0)
      ensures PutTrace(env, old(issued), written, failedPut, r.Failure?)
      ensures failedPut ==> cohort.Some? && |written| < |cohort.value.customerIds|
      ensures written == [] ==> items == old(items)
      ensures written != [] ==>
        && cohort.Some? && cohort.value.cohortType.Some? && cohort.value.description.Some?
        && Written(written) <= cohort.value.customerIds
        && items == PlaceAll(old(items), ItemsFor(written, old(issued), CohortTypeName(cohort.value.cohortType.value), cohort.value.description.value), env)
      ensures |Written(written)| == |written|
      ensures cohort.Some? ==> |written| <= |cohort.value.customerIds|
      ensures r.Success? ==> Written(written) == cohort.value.customerIds
    {
      written, failedPut := [], false;
      if cohort.None? || cohort.value.id.None? {
        r := Failure(IllegalArgumentException);
      } else if cohort.value.customerIds == {} {
        r := Success(cohort.value);
      } else if cohort.value.cohortType.None? || cohort.value.description.None? {
        // getType().name() and withString(description) fail on the first
        // member already, before any put.
        r := Failure(RuntimeException);
      } else {
        r, written, failedPut := SaveMembers(cohort.value);
      }
    }

    /** save of a cohort with an id, a type, a description and members: the puts, and the rethrow of a failure. */
    method SaveMembers(c: CohortData) returns (r: Result<CohortData, Exception>, ghost written: seq<string>, ghost failedPut: bool)
      requires Valid()
      requires c.id.Some? && c.customerIds != {} && c.cohortType.Some? && c.description.Some?
      modifies this
      ensures Valid()
      ensures r.Success? <==> None !in c.customerIds && StoredFrom(env, old(issued), |c.customerIds|)
      ensures r == if r.Success? then Success(c) else Failure(RuntimeException)
      ensures issued == old(issued) + |written| + (if failedPut then 1 else 0)
      ensures PutTrace(env, old(issued), written, failedPut, r.Failure?)
      ensures failedPut ==> |written| < |c.customerIds|
      ensures items == PlaceAll(old(items), ItemsFor(written, old(issued), CohortTypeName(c.cohortType.value), c.description.value), env)
      ensures Written(written) <= c.customerIds && |Written(written)| == |written| && |written| <= |c.customerIds|
      ensures r.Success? ==> Written(written) == c.customerIds
    {
      var ok;
      ok, written, failedPut := PutItems(c.customerIds, CohortTypeName(c.cohortType.value), c.description.value);
      r := if ok then Success(c) else Failure(RuntimeException);
    }

    /**
     * The loop of save over the member set, in an unspecified order; it
     * stops at a null member, whose withPrimaryKey throws before the put,
     * and at the first put that throws.
     */
    method PutItems(members: set<JString>, typeName: string, description: string) returns (ok: bool, ghost written: seq<string>, ghost failedPut: bool)
      requires Valid()
      modifies this
      ensures Valid()
      ensures issued == old(issued) + |written| + (if failedPut then 1 else 0)
      ensures items == PlaceAll(old(items), ItemsFor(written, old(issued), typeName, description), env)
      ensures LoopOutcome(env, old(issued), members, ok, written, failedPut)
    {
      written, ok := [], true;
      var threw := false;
      var remaining := members;
      var its := items;
      var n := issued;
      while remaining != {}
        invariant PutProgress(old(items), old(issued), written, its, n, typeName, description, env)
        invariant Partition(members, written, remaining)
        decreases |remaining|
      {
        var x :| x in remaining;
        if x.None? {
          ok := false;
          break;
        }
        match OutcomeOf(env, n)
        case PutFails =>
          ok, threw := false, true;
          break;
        case Stored(at) =>
          PutStep(old(items), old(issued), written, its, n, typeName, description, env, members, remaining, x, at);
          its := Insert(its, at, CohortItem(x.value, n, typeName, description));
        n := n + 1;
        written := written + [x.value];
        remaining := remaining - {x};
      }
      failedPut := threw;
      PlaceAllFresh(old(items), old(issued), ItemsFor(written, old(issued), typeName, description), env, if threw then n + 1 else n);
      PutExit(old(issued), written, n, env, members, remaining, ok, failedPut);
      items, issued := its, if threw then n + 1 else n;
    }

    /** The table scan with forEach: the member ids of a type, leaving out the cohort id itself. */
    method ScanMembers(typeName: string, exclude: string) returns (ids: set<JString>)
      ensures ids == MembersOfType(items, typeName, exclude)
    {
      ids := {};
      var k := 0;
      while k < |items|
        invariant 0 <= k <= |items|
        invariant ids == MembersOfType(items[..k], typeName, exclude)
      {
        MembersOfTypeAppend(items[..k], items[k], typeName, exclude);
        assert items[..k + 1] == items[..k] + [items[k]];
        if items[k].cohortType == typeName && items[k].customerId != exclude {
          ids := ids + {Some(items[k].customerId)};
        }
        k := k + 1;
      }
      assert items[..|items|] == items;
    }

    method FindById(id: JString) returns (r: Option<CohortData>)
      ensures r == FindByIdOf(items, id)
    {
      if id.None? {
        return None;
      }
      var parsed := ParseCohortId(id.value);
      if parsed.None? {
        return None;
      }
      var (ruleName, typeName) := parsed.value;
      var t := CohortTypeValueOf(typeName);
      if t.None? {
        // CohortType.valueOf throws; the catch answers empty
        return None;
      }
      var customerIds := ScanMembers(typeName, id.value);
      return Some(CohortData(id, t, Some(CohortDescription(ruleName, typeName)), customerIds));
    }

    method AddCustomerToCohort(id: JString, customerId: JString) returns (added: bool)
      requires Valid()
      modifies this
      ensures Valid()
      ensures (items, issued, added) == AddOf(old(items), old(issued), env, id, customerId)
    {
      if id.None? || customerId.None? {
        return false;
      }
      var parsed := ParseCohortId(id.value);
      if parsed.None? {
        return false;
      }
      var (ruleName, typeName) := parsed.value;
      var item := CohortItem(customerId.value, issued, typeName, CohortDescription(ruleName, typeName));
      match OutcomeOf(env, issued)
      case PutFails =>
        // the exception is caught and answered with false
        issued := issued + 1;
        return false;
      case Stored(at) =>
        InsertFreshItem(items, issued, at, item);
        items := Insert(items, at, item);
        issued := issued + 1;
        return true;
    }

    method GetCustomerIds(id: JString) returns (ids: set<JString>)
      ensures ids == GetCustomerIdsOf(items, id)
    {
      if id.None? {
        return {};
      }
      var parsed := ParseCohortId(id.value);
      if parsed.None? {
        return {};
      }
      ids := ScanMembers(parsed.value.1, id.value);
    }

    /** findByCustomerId on the current table: at most one cohort, named after one of the customer's own items. */
    function FindByCustomerId(customerId: JString): (r: seq<CohortData>)
      reads this
      ensures |r| <= 1
      ensures r != [] ==> r[0].customerIds == {customerId} && r[0].cohortType.Some?
      ensures r != [] ==> customerId.Some? && (customerId.value, CohortTypeName(r[0].cohortType.value)) in Pairs(items)
    {
      FindByCustomerIdReportsOwnPair(items, customerId);
      FindByCustomerIdOf(items, customerId)
    }

    /** existsById reads no item: only a two-part id with a known type exists. */
    predicate ExistsById(id: JString)
      ensures ExistsById(id) ==> id.Some? && ParseCohortId(id.value).Some?
      ensures ExistsById(id) <==> FindByIdOf([], id).Some?
    {
      ExistsByIdOf(id)
    }
  }

  // ---------------------------------------------------------------------
  // Properties of the item table

  lemma MembersOfTypeAppend(a: seq<CohortItem>, item: CohortItem, typeName: string, exclude: string)
    ensures MembersOfType(a + [item], typeName, exclude) ==
      MembersOfType(a, typeName, exclude) + (if item.cohortType == typeName && item.customerId != exclude then {Some(item.customerId)} else {})
  {
    forall x | x in MembersOfType(a + [item], typeName, exclude)
      ensures x in MembersOfType(a, typeName, exclude) || (item.cohortType == typeName && item.customerId != exclude && x == Some(item.customerId))
    {
      var i :| i in a + [item] && i.cohortType == typeName && i.customerId != exclude && x == Some(i.customerId);
      if i != item {
        assert i in a;
      }
    }
  }

  /** Membership of a type depends only on the (customer id, type name) pairs of the table. */
  lemma MembersDependOnPairs(a: seq<CohortItem>, b: seq<CohortItem>, typeName: string, exclude: string)
    requires Pairs(a) == Pairs(b)
    ensures MembersOfType(a, typeName, exclude) == MembersOfType(b, typeName, exclude)
  {
    forall x | x in MembersOfType(a, typeName, exclude) ensures x in MembersOfType(b, typeName, exclude) {
      var i :| i in a && i.cohortType == typeName && i.customerId != exclude && x == Some(i.customerId);
      assert (i.customerId, i.cohortType) in Pairs(b);
      var j :| j in b && (j.customerId, j.cohortType) == (i.customerId, i.cohortType);
      assert x == Some(j.customerId);
    }
    forall x | x in MembersOfType(b, typeName, exclude) ensures x in MembersOfType(a, typeName, exclude) {
      var i :| i in b && i.cohortType == typeName && i.customerId != exclude && x == Some(i.customerId);
      assert (i.customerId, i.cohortType) in Pairs(a);
      var j :| j in a && (j.customerId, j.cohortType) == (i.customerId, i.cohortType);
      assert x == Some(j.customerId);
    }
  }

  /** k is the first index of the customer when it matches and nothing before it does. */
  lemma FirstMatchIs(items: seq<CohortItem>, customerId: string, k: nat)
    requires k < |items| && items[k].customerId == customerId
    requires forall j :: 0 <= j < k ==> items[j].customerId != customerId
    ensures FirstMatch(items, customerId) == Some(k)
  {
  }

  /**
   * Storing an item somewhere in the scan: the customer's first item becomes
   * the new one exactly when it is the customer's and lands no later than
   * the old first item; otherwise it stays what it was.
   */
  lemma FirstItemInsert(a: seq<CohortItem>, at: nat, item: CohortItem, customerId: string)
    ensures FirstItem(Insert(a, at, item), customerId) ==
      if item.customerId == customerId && (FirstMatch(a, customerId).None? || Slot(a, at) <= FirstMatch(a, customerId).value)
      then Some(item)
      else FirstItem(a, customerId)
  {
    var r := Insert(a, at, item);
    var p := Slot(a, at);
    var m := FirstMatch(a, customerId);
    if item.customerId == customerId && (m.None? || p <= m.value) {
      forall j | 0 <= j < p ensures r[j].customerId != customerId {
        assert r[j] == a[j];
      }
      FirstMatchIs(r, customerId, p);
    } else if m.Some? && m.value < p {
      var k := m.value;
      forall j | 0 <= j < k ensures r[j].customerId != customerId {
        assert r[j] == a[j];
      }
      assert r[k] == a[k];
      FirstMatchIs(r, customerId, k);
    } else if m.Some? {
      var k := m.value;
      assert item.customerId != customerId;
      forall j | 0 <= j < k + 1 ensures r[j].customerId != customerId {
        if j < p {
          assert r[j] == a[j];
        } else if j > p {
          assert r[j] == a[j - 1];
        }
      }
      assert r[k + 1] == a[k];
      FirstMatchIs(r, customerId, k + 1);
    } else {
      forall j | 0 <= j < |r| ensures r[j].customerId != customerId {
        if j < p {
          assert r[j] == a[j];
        } else if j > p {
          assert r[j] == a[j - 1];
        }
      }
      assert FirstMatch(r, customerId).None?;
    }
  }

  /** findByCustomerId reads only the customer's first item. */
  lemma FindByCustomerIdOfFirstItem(a: seq<CohortItem>, b: seq<CohortItem>, customerId: string)
    requires FirstItem(a, customerId) == FirstItem(b, customerId)
    ensures FindByCustomerIdOf(a, Some(customerId)) == FindByCustomerIdOf(b, Some(customerId))
  {
  }

  /**
   * Storing an item somewhere in the scan: findByCustomerId answers as on
   * the new item alone when it becomes the customer's first item, and as
   * before otherwise.
   */
  lemma FindByCustomerIdInsert(a: seq<CohortItem>, at: nat, item: CohortItem, customerId: string)
    ensures item.customerId == customerId && (FirstMatch(a, customerId).None? || Slot(a, at) <= FirstMatch(a, customerId).value) ==>
      FindByCustomerIdOf(Insert(a, at, item), Some(customerId)) == FindByCustomerIdOf([item], Some(customerId))
    ensures !(item.customerId == customerId && (FirstMatch(a, customerId).None? || Slot(a, at) <= FirstMatch(a, customerId).value)) ==>
      FindByCustomerIdOf(Insert(a, at, item), Some(customerId)) == FindByCustomerIdOf(a, Some(customerId))
  {
    FirstItemInsert(a, at, item, customerId);
    var r := Insert(a, at, item);
    if item.customerId == customerId && (FirstMatch(a, customerId).None? || Slot(a, at) <= FirstMatch(a, customerId).value) {
      FirstMatchIs([item], customerId, 0);
      FindByCustomerIdOfFirstItem(r, [item], customerId);
    } else {
      FindByCustomerIdOfFirstItem(r, a, customerId);
    }
  }

  /** findByCustomerId names a type the customer has an item of. */
  lemma FindByCustomerIdReportsOwnPair(items: seq<CohortItem>, customerId: JString)
    ensures FindByCustomerIdOf(items, customerId) != [] ==>
      customerId.Some? && (customerId.value, CohortTypeName(FindByCustomerIdOf(items, customerId)[0].cohortType.value)) in Pairs(items)
  {
    if FindByCustomerIdOf(items, customerId) != [] {
      var k := FirstMatch(items, customerId.value).value;
      assert items[k] in items;
    }
  }

  /** The member views of the table: getCustomerIds and findById. */
  ghost predicate SameMemberQueries(a: seq<CohortItem>, b: seq<CohortItem>)
  {
    && (forall id :: GetCustomerIdsOf(a, id) == GetCustomerIdsOf(b, id))
    && (forall id :: FindByIdOf(a, id) == FindByIdOf(b, id))
  }

  /** Tables with the same pairs answer getCustomerIds and findById alike. */
  lemma SamePairsSameMemberQueries(a: seq<CohortItem>, b: seq<CohortItem>)
    requires Pairs(a) == Pairs(b)
    ensures SameMemberQueries(a, b)
  {
    forall id ensures GetCustomerIdsOf(a, id) == GetCustomerIdsOf(b, id) {
      if id.Some? && ParseCohortId(id.value).Some? {
        MembersDependOnPairs(a, b, ParseCohortId(id.value).value.1, id.value);
      }
    }
    forall id ensures FindByIdOf(a, id) == FindByIdOf(b, id) {
      if id.Some? && ParseCohortId(id.value).Some? {
        MembersDependOnPairs(a, b, ParseCohortId(id.value).value.1, id.value);
      }
    }
  }

  /**
   * Storing, anywhere in the scan, an item whose (customer, type) pair is
   * already present changes no member query, and findByCustomerId then
   * still names a type the customer had before.
   */
  lemma InsertKnownPairKeepsQueries(a: seq<CohortItem>, at: nat, item: CohortItem)
    requires (item.customerId, item.cohortType) in Pairs(a)
    ensures Pairs(Insert(a, at, item)) == Pairs(a)
    ensures SameMemberQueries(a, Insert(a, at, item))
    ensures forall c :: FindByCustomerIdOf(Insert(a, at, item), c) != [] ==>
      c.Some? && (c.value, CohortTypeName(FindByCustomerIdOf(Insert(a, at, item), c)[0].cohortType.value)) in Pairs(a)
  {
    var b := Insert(a, at, item);
    PairsOfUnion(b, a, [item]);
    SamePairsSameMemberQueries(a, b);
    forall c ensures FindByCustomerIdOf(b, c) != [] ==>
      c.Some? && (c.value, CohortTypeName(FindByCustomerIdOf(b, c)[0].cohortType.value)) in Pairs(a)
    {
      FindByCustomerIdReportsOwnPair(b, c);
    }
  }

  /** name + "_" + type parses back into its two halves. */
  lemma ParseComposedId(ruleName: string, typeName: string)
    requires '_' !in ruleName && '_' !in typeName && typeName != ""
    ensures ParseCohortId(ruleName + "_" + typeName) == Some((ruleName, typeName))
  {
    SplitTwoParts(ruleName, typeName, '_');
  }

  /** Java's split drops trailing empty strings: "a_b_" has two parts, "a_" one, "_b" two. */
  lemma SplitExamples()
    ensures Split("a_b_", '_') == ["a", "b"]
    ensures Split("a_", '_') == ["a"]
    ensures Split("_b", '_') == ["", "b"]
    ensures ParseCohortId("a_b_") == Some(("a", "b"))
    ensures ParseCohortId("a_") == None
    ensures ParseCohortId("_b") == Some(("", "b"))
  {
    SplitTwoPartsWithTrail("a", "b", 1, '_');
    assert "a" + ['_'] + "b" + Repeat('_', 1) == "a_b_";
    SplitTwoParts("", "b", '_');
    assert "" + ['_'] + "b" == "_b";
    PiecesAfterSeparator("a", "", '_');
    assert "a" + ['_'] + "" == "a_";
    assert DropTrailingEmpty(["a", ""]) == ["a"];
  }

  /** addCustomerToCohort makes no call, writes nothing and answers false on a null argument or a malformed id. */
  lemma AddRejects(items: seq<CohortItem>, issued: nat, env: Env, id: JString, customerId: JString)
    requires id.None? || customerId.None? || ParseCohortId(id.value).None?
    ensures AddOf(items, issued, env, id, customerId) == (items, issued, false)
  {
  }

  /**
   * A valid add makes one put. When it stores, the table gains exactly one
   * item, at the position the put chose, with a uuid no existing item has,
   * and getCustomerIds of the id then contains the customer unless the
   * customer id is the cohort id itself. When it throws, nothing is
   * written and the answer is false.
   */
  lemma AddStoresFreshItem(items: seq<CohortItem>, issued: nat, env: Env, id: string, customerId: string)
    requires UuidsFresh(items, issued)
    requires ParseCohortId(id).Some?
    ensures var (items', issued', added) := AddOf(items, issued, env, Some(id), Some(customerId));
      && issued' == issued + 1 && UuidsFresh(items', issued')
      && (added <==> OutcomeOf(env, issued).Stored?)
      && (!added ==> items' == items)
      && (added ==>
        && |items'| == |items| + 1
        && items'[Slot(items, OutcomeOf(env, issued).at)] == CohortItem(customerId, issued, ParseCohortId(id).value.1, CohortDescription(ParseCohortId(id).value.0, ParseCohortId(id).value.1))
        && (forall k :: 0 <= k < |items| ==> items[k].uuid != issued)
        && (customerId != id ==> Some(customerId) in GetCustomerIdsOf(items', Some(id))))
  {
    var (ruleName, typeName) := ParseCohortId(id).value;
    var item := CohortItem(customerId, issued, typeName, CohortDescription(ruleName, typeName));
    if OutcomeOf(env, issued).Stored? {
      var items' := Insert(items, OutcomeOf(env, issued).at, item);
      InsertFreshItem(items, issued, OutcomeOf(env, issued).at, item);
      assert items'[Slot(items, OutcomeOf(env, issued).at)] in items';
    }
  }

  /**
   * Adding the same customer to the same cohort twice makes two puts with
   * distinct uuids. Whatever the scan positions, once the first add has
   * stored its item the second changes no member query, and
   * findByCustomerId still names a type the customer had after the first.
   */
  lemma DuplicateAddKeepsQueries(items: seq<CohortItem>, issued: nat, env: Env, id: string, customerId: string)
    requires UuidsFresh(items, issued)
    requires ParseCohortId(id).Some?
    ensures var (items1, issued1, added1) := AddOf(items, issued, env, Some(id), Some(customerId));
      var (items2, issued2, added2) := AddOf(items1, issued1, env, Some(id), Some(customerId));
      && issued1 == issued + 1 && issued2 == issued + 2
      && (added2 <==> OutcomeOf(env, issued + 1).Stored?)
      && (added1 && added2 ==> |items2| == |items1| + 1)
      && (added1 ==> Pairs(items2) == Pairs(items1) && SameMemberQueries(items1, items2))
      && (added1 ==> forall c :: FindByCustomerIdOf(items2, c) != [] ==>
            c.Some? && (c.value, CohortTypeName(FindByCustomerIdOf(items2, c)[0].cohortType.value)) in Pairs(items1))
  {
    var (ruleName, typeName) := ParseCohortId(id).value;
    var item1 := CohortItem(customerId, issued, typeName, CohortDescription(ruleName, typeName));
    var item2 := CohortItem(customerId, issued + 1, typeName, CohortDescription(ruleName, typeName));
    var (items1, issued1, added1) := AddOf(items, issued, env, Some(id), Some(customerId));
    if added1 {
      assert item1 in multiset(items1);
      assert (item2.customerId, item2.cohortType) in Pairs(items1);
      if OutcomeOf(env, issued + 1).Stored? {
        InsertKnownPairKeepsQueries(items1, OutcomeOf(env, issued + 1).at, item2);
      } else {
        SamePairsSameMemberQueries(items1, items1);
        forall c ensures FindByCustomerIdOf(items1, c) != [] ==>
          c.Some? && (c.value, CohortTypeName(FindByCustomerIdOf(items1, c)[0].cohortType.value)) in Pairs(items1)
        {
          FindByCustomerIdReportsOwnPair(items1, c);
        }
      }
    }
  }

  /**
   * getCustomerIds reads only the type half of the id: two ids with the
   * same type and different rule names answer the same set, apart from
   * each excluding itself.
   */
  lemma GetCustomerIdsIgnoresRuleName(items: seq<CohortItem>, id1: string, id2: string)
    requires ParseCohortId(id1).Some? && ParseCohortId(id2).Some?
    requires ParseCohortId(id1).value.1 == ParseCohortId(id2).value.1
    ensures GetCustomerIdsOf(items, Some(id1)) - {Some(id2)} == GetCustomerIdsOf(items, Some(id2)) - {Some(id1)}
  {
  }

  /** existsById answers exactly when findById finds a cohort, whatever the table holds. */
  lemma ExistsIffFound(items: seq<CohortItem>, id: JString)
    ensures ExistsByIdOf(id) <==> FindByIdOf(items, id).Some?
  {
  }

  /** findById needs no items: a valid id of a known type is found on an empty table, with no members. */
  lemma FoundWithoutMembers(ruleName: string, t: CohortType)
    requires '_' !in ruleName
    ensures var id := ruleName + "_" + CohortTypeName(t);
      FindByIdOf([], Some(id)) == Some(CohortData(Some(id), Some(t), Some(CohortDescription(ruleName, CohortTypeName(t))), {}))
  {
    ParseComposedId(ruleName, CohortTypeName(t));
    assert CohortTypeValueOf(CohortTypeName(t)) == Some(t);
    assert MembersOfType([], CohortTypeName(t), ruleName + "_" + CohortTypeName(t)) == {};
  }

  /** An id whose second half names no cohort type is not found and does not exist. */
  lemma UnknownTypeNotFound(items: seq<CohortItem>, id: string)
    requires ParseCohortId(id).Some? && CohortTypeValueOf(ParseCohortId(id).value.1).None?
    ensures FindByIdOf(items, Some(id)) == None && !ExistsByIdOf(Some(id))
  {
  }

  /**
   * findByCustomerId reports the first item of the customer in scan order,
   * under the reconstructed id "Rule_<type>"; it is empty for null, for an
   * id containing "_", for a customer without items, and when the first
   * item's type name is not a cohort type.
   */
  lemma FindByCustomerIdFirstItem(items: seq<CohortItem>, customerId: JString)
    ensures customerId.None? ==> FindByCustomerIdOf(items, customerId) == []
    ensures customerId.Some? && '_' in customerId.value ==> FindByCustomerIdOf(items, customerId) == []
    ensures customerId.Some? && (forall k :: 0 <= k < |items| ==> items[k].customerId != customerId.value) ==>
      FindByCustomerIdOf(items, customerId) == []
    ensures FindByCustomerIdOf(items, customerId) != [] ==>
      exists k :: 0 <= k < |items| && Some(items[k].customerId) == customerId
        && (forall j :: 0 <= j < k ==> Some(items[j].customerId) != customerId)
        && FindByCustomerIdOf(items, customerId)[0].id == Some("Rule_" + items[k].cohortType)
        && FindByCustomerIdOf(items, customerId)[0].description == Some(items[k].description)
    ensures customerId.Some? && '_' !in customerId.value && FirstMatch(items, customerId.value).Some? ==>
      (|FindByCustomerIdOf(items, customerId)| == 1 <==> CohortTypeValueOf(items[FirstMatch(items, customerId.value).value].cohortType).Some?)
  {
    if customerId.Some? && '_' !in customerId.value && FirstMatch(items, customerId.value).Some? {
      var k := FirstMatch(items, customerId.value).value;
      assert Some(items[k].customerId) == customerId;
    }
  }

  /** save of a cohort without members makes no call and writes nothing, whatever its type and description. */
  method SaveEmptyCohort(repo: DynamoDBCohortRepository, id: string, t: Option<CohortType>, description: JString) returns (r: Result<CohortData, Exception>)
    requires repo.Valid()
    modifies repo
    ensures repo.Valid()
    ensures r == Success(NewCohortData(Some(id), t, description))
    ensures repo.items == old(repo.items) && repo.issued == old(repo.issued)
  {
    ghost var written, failedPut;
    r, written, failedPut := repo.Save(Some(NewCohortData(Some(id), t, description)));
  }
}
