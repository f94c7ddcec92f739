/**
 * DynamoDBTriggerHandler (service/DynamoDBTriggerHandler.java): a scheduled
 * scan of the Customers table that classifies each customer at most once a
 * minute. The handler remembers, per customerId, the time it last processed
 * it. The scan answer and the clock are the parameters of a poll; the
 * customers handed to classifyCustomer are its result.
 */
module TriggerHandler {
  import opened Wrappers
  import opened Types
  import opened Customers
  import opened CustomerItems

  /** An id processed less than this many milliseconds ago is skipped. */
  const DedupWindowMillis: int := 60000

  /** The progress of one poll: the processed-items map, the customers handed so far, whether the scan loop threw. */
  datatype Poll = Poll(seen: map<JString, int>, handed: seq<CustomerRecord>, aborted: bool)

  /** The item was processed recently: its id is in the map with a time less than a minute before now. */
  predicate Recent(seen: map<JString, int>, id: JString, now: int)
  {
    id in seen && now - seen[id] < DedupWindowMillis
  }

  /**
   * One iteration of the scan loop. An item without a customerId attribute
   * throws, which ends the loop (the whole poll is inside one try). A recent
   * id is skipped; any other item is processed, handing its customer to
   * classifyCustomer when the extraction succeeds, and its id is recorded
   * with the current time in either case.
   */
  function ItemStep(p: Poll, item: Item, now: int): (p': Poll)
  {
    if p.aborted then p
    else if "customerId" !in item then p.(aborted := true)
    else
      var id := item["customerId"].s;
      if Recent(p.seen, id, now) then p
      else
        var more := match ExtractCustomer(item) case Success(c) => [c] case Failure(_) => [];
        Poll(p.seen[id := now], p.handed + more, false)
  }

  /** The scan loop over the items in scan order. */
  function ScanLoop(p: Poll, items: seq<Item>, now: int): (p': Poll)
  {
    if items == [] then p else ItemStep(ScanLoop(p, items[..|items| - 1], now), items[|items| - 1], now)
  }

  /** A poll from the handler's map: a failed scan changes nothing. */
  function PollOf(seen: map<JString, int>, scan: Result<seq<Item>, Exception>, now: int): (p: Poll)
  {
    match scan
    case Failure(_) => Poll(seen, [], false)
    case Success(items) => ScanLoop(Poll(seen, [], false), items, now)
  }

  class DynamoDBTriggerHandler {
    /** processedItems: Map<String, Long>; a HashMap, so a null id is a key like any other. */
    var processedItems: map<JString, int>

    constructor ()
      ensures processedItems == map[]
    {
      processedItems := map[];
    }

    /**
     * pollCustomersTable, given the answer of the table scan and the current
     * time. Returns the customers handed to classifyCustomer, in order.
     */
    method PollCustomersTable(scan: Result<seq<Item>, Exception>, now: int) returns (handed: seq<CustomerRecord>)
      modifies this
      ensures processedItems == PollOf(old(processedItems), scan, now).seen
      ensures handed == PollOf(old(processedItems), scan, now).handed
    {
      handed := [];
      if scan.Failure? {
        return;
      }
      var items := scan.value;
      ghost var start := Poll(processedItems, [], false);
      for i := 0 to |items|
        invariant ScanLoop(start, items[..i], now) == Poll(processedItems, handed, false)
      {
        assert items[..i + 1][..i] == items[..i];
        var item := items[i];
        if "customerId" !in item {
          // item.get("customerId").getS() throws; the outer catch ends the poll.
          assert ScanLoop(start, items[..i + 1], now).aborted;
          AbortedStaysAborted(start, items, i + 1, now);
          return;
        }
        var customerId := item["customerId"].s;
        if customerId in processedItems && now - processedItems[customerId] < DedupWindowMillis {
          continue;
        }
        var more := ProcessItem(item);
        handed := handed + more;
        processedItems := processedItems[customerId := now];
      }
      assert items[..|items|] == items;
    }
  }

  /** processItem: the customer handed to classifyCustomer, none when the extraction throws (it is caught). */
  method ProcessItem(item: Item) returns (more: seq<CustomerRecord>)
    ensures ExtractCustomer(item).Success? ==> more == [ExtractCustomer(item).value]
    ensures ExtractCustomer(item).Failure? ==> more == []
  {
    var r := ExtractCustomer(item);
    if r.Failure? {
      return [];
    }
    return [r.value];
  }

  /** Once the loop has thrown, the remaining items change nothing. */
  lemma {:induction false} AbortedStaysAborted(p: Poll, items: seq<Item>, i: nat, now: int)
    requires i <= |items| && ScanLoop(p, items[..i], now).aborted
    ensures ScanLoop(p, items, now) == ScanLoop(p, items[..i], now)
    decreases |items| - i
  {
    if i < |items| {
      assert items[..i + 1][..i] == items[..i];
      AbortedStaysAborted(p, items, i + 1, now);
    } else {
      assert items[..i] == items;
    }
  }

  // ---------------------------------------------------------------------
  // Properties of a poll

  /** An id never seen before is processed and recorded with the current time. */
  lemma NewIdProcessed(p: Poll, item: Item, now: int)
    requires !p.aborted && "customerId" in item && item["customerId"].s !in p.seen
    ensures var p' := ItemStep(p, item, now);
      && p'.seen == p.seen[item["customerId"].s := now]
      && p'.handed == p.handed + (if ExtractCustomer(item).Success? then [ExtractCustomer(item).value] else [])
  {
  }

  /** An id processed less than a minute ago is skipped, and its time is not refreshed. */
  lemma RecentIdSkipped(p: Poll, item: Item, now: int)
    requires "customerId" in item && Recent(p.seen, item["customerId"].s, now)
    ensures ItemStep(p, item, now) == p
  {
  }

  /** A minute or more after it was processed, an id is processed again and its time updated. */
  lemma ElapsedIdReprocessed(p: Poll, item: Item, now: int)
    requires !p.aborted && "customerId" in item
    requires item["customerId"].s in p.seen && now - p.seen[item["customerId"].s] >= DedupWindowMillis
    ensures ItemStep(p, item, now).seen == p.seen[item["customerId"].s := now]
    ensures ExtractCustomer(item).Success? ==> ItemStep(p, item, now).handed == p.handed + [ExtractCustomer(item).value]
  {
  }

  /** The window is exact: 59 999 ms later the id is skipped, 60 000 ms later it is processed. */
  lemma DedupBoundary(customerId: string, spend: real, u: UserType, t: int)
    ensures var item := CustomerItem(customerId, spend, u);
      var p := Poll(map[Some(customerId) := t], [], false);
      && ItemStep(p, item, t + 59999) == p
      && ItemStep(p, item, t + 60000) == Poll(map[Some(customerId) := t + 60000], [CustomerRecord(Some(customerId), Some(spend), Some(u))], false)
  {
    var item := CustomerItem(customerId, spend, u);
    assert item["customerId"].s == Some(customerId);
    ExtractCustomerItem(customerId, spend, u);
  }

  /** An item whose attributes cannot be parsed is still recorded as processed. */
  lemma FailedItemRecorded(p: Poll, item: Item, now: int)
    requires !p.aborted && "customerId" in item && !Recent(p.seen, item["customerId"].s, now)
    requires ExtractCustomer(item).Failure?
    ensures ItemStep(p, item, now) == p.(seen := p.seen[item["customerId"].s := now])
  {
  }

  /** An item without a customerId ends the poll: the items after it are not looked at. */
  lemma {:induction false} MissingIdAbortsBatch(p: Poll, before: seq<Item>, bad: Item, after: seq<Item>, now: int)
    requires !p.aborted && "customerId" !in bad
    ensures var q := ScanLoop(p, before + [bad] + after, now);
      q.seen == ScanLoop(p, before, now).seen && q.handed == ScanLoop(p, before, now).handed && q.aborted
  {
    var items := before + [bad] + after;
    var i := |before| + 1;
    assert items[..i] == before + [bad];
    assert (before + [bad])[..|before|] == before;
    var q := ScanLoop(p, before, now);
    if !q.aborted {
      assert ScanLoop(p, items[..i], now) == q.(aborted := true);
    } else {
      assert ScanLoop(p, items[..i], now) == q;
    }
    AbortedStaysAborted(p, items, i, now);
  }

  /** A poll never forgets an id, and a recorded time only ever becomes the current time. */
  lemma {:induction false} KeysOnlyGrow(p: Poll, items: seq<Item>, now: int, id: JString)
    requires id in p.seen
    ensures id in ScanLoop(p, items, now).seen
    ensures ScanLoop(p, items, now).seen[id] == p.seen[id] || ScanLoop(p, items, now).seen[id] == now
  {
    if items != [] {
      KeysOnlyGrow(p, items[..|items| - 1], now, id);
    }
  }

  /** Every customer handed in a poll is recorded in the map with the poll's time. */
  lemma {:induction false} HandedRecorded(p: Poll, items: seq<Item>, now: int, i: nat)
    requires forall j :: 0 <= j < |p.handed| ==> p.handed[j].customerId in p.seen && p.seen[p.handed[j].customerId] == now
    requires i < |ScanLoop(p, items, now).handed|
    ensures var q := ScanLoop(p, items, now);
      q.handed[i].customerId in q.seen && q.seen[q.handed[i].customerId] == now
  {
    var q := ScanLoop(p, items, now);
    if items == [] {
    } else {
      var init := ScanLoop(p, items[..|items| - 1], now);
      var item := items[|items| - 1];
      if i < |init.handed| {
        HandedRecorded(p, items[..|items| - 1], now, i);
        KeysOnlyGrow(init, [item], now, init.handed[i].customerId);
        assert ScanLoop(init, [item], now) == q by {
          assert [item][..0] == [];
        }
      } else {
        assert !init.aborted && "customerId" in item;
        assert q.handed[i] == ExtractCustomer(item).value;
      }
    }
  }

  /** Within one poll an id is handed at most once: a repeated item is inside the window it just opened. */
  lemma SecondSightingSkipped(p: Poll, item: Item, now: int)
    requires "customerId" in item && item["customerId"].s in p.seen && p.seen[item["customerId"].s] == now
    ensures ItemStep(p, item, now) == p
  {
  }

  /** A poll hands at most one customer per scanned item. */
  lemma {:induction false} HandedBounded(p: Poll, items: seq<Item>, now: int)
    ensures |ScanLoop(p, items, now).handed| <= |p.handed| + |items|
  {
    if items != [] {
      HandedBounded(p, items[..|items| - 1], now);
    }
  }

  /** Every item of the scan carries a customerId attribute. */
  predicate AllHaveIds(items: seq<Item>)
  {
    forall j :: 0 <= j < |items| ==> "customerId" in items[j]
  }

  /** A scan whose items all carry a customerId runs to the end. */
  lemma {:induction false} NoAbortWithIds(p: Poll, items: seq<Item>, now: int)
    requires !p.aborted && AllHaveIds(items)
    ensures !ScanLoop(p, items, now).aborted
  {
    if items != [] {
      var init := items[..|items| - 1];
      assert AllHaveIds(init) by {
        forall j | 0 <= j < |init| ensures "customerId" in init[j] {
          assert init[j] == items[j];
        }
      }
      NoAbortWithIds(p, init, now);
    }
  }

  /** An id the poll added to the map carries the poll's time. */
  lemma {:induction false} NewKeysAtNow(p: Poll, items: seq<Item>, now: int, id: JString)
    requires id !in p.seen && id in ScanLoop(p, items, now).seen
    ensures ScanLoop(p, items, now).seen[id] == now
  {
    if items != [] {
      var init := items[..|items| - 1];
      if id in ScanLoop(p, init, now).seen {
        NewKeysAtNow(p, init, now, id);
      }
    }
  }

  /** After a poll that runs to the end, the id of every scanned item is in the map. */
  lemma {:induction false} ScannedIdsRecorded(p: Poll, items: seq<Item>, now: int, i: nat)
    requires !p.aborted && AllHaveIds(items) && i < |items|
    ensures items[i]["customerId"].s in ScanLoop(p, items, now).seen
  {
    var n := |items| - 1;
    var init := items[..n];
    assert AllHaveIds(init) by {
      forall j | 0 <= j < |init| ensures "customerId" in init[j] {
        assert init[j] == items[j];
      }
    }
    var q := ScanLoop(p, init, now);
    if i < n {
      ScannedIdsRecorded(p, init, now, i);
      assert init[i] == items[i];
      KeysOnlyGrow(q, [items[n]], now, items[i]["customerId"].s);
      assert [items[n]][..0] == [];
    } else {
      NoAbortWithIds(p, init, now);
    }
  }

  /** A scan all of whose ids are recent changes nothing and hands no one. */
  lemma {:induction false} AllRecentNoop(p: Poll, items: seq<Item>, now: int)
    requires forall j :: 0 <= j < |items| ==> "customerId" in items[j] && Recent(p.seen, items[j]["customerId"].s, now)
    ensures ScanLoop(p, items, now) == p
  {
    if items != [] {
      var init: seq<Item> := items[..|items| - 1];
      forall j | 0 <= j < |init| ensures "customerId" in init[j] && Recent(p.seen, init[j]["customerId"].s, now) {
        assert init[j] == items[j];
      }
      AllRecentNoop(p, init, now);
    }
  }

  /**
   * A poll over ids never seen before, repeated less than a minute later
   * over the same items, skips them all: nothing is handed and the map is
   * unchanged.
   */
  lemma RepollWithinWindowIsNoop(seen: map<JString, int>, items: seq<Item>, now: int, later: int)
    requires AllHaveIds(items)
    requires forall j :: 0 <= j < |items| ==> items[j]["customerId"].s !in seen
    requires later - now < DedupWindowMillis
    ensures var first := ScanLoop(Poll(seen, [], false), items, now);
      ScanLoop(Poll(first.seen, [], false), items, later) == Poll(first.seen, [], false)
  {
    var p := Poll(seen, [], false);
    var first := ScanLoop(p, items, now);
    forall j | 0 <= j < |items| ensures "customerId" in items[j] && Recent(first.seen, items[j]["customerId"].s, later) {
      ScannedIdsRecorded(p, items, now, j);
      NewKeysAtNow(p, items, now, items[j]["customerId"].s);
    }
    AllRecentNoop(Poll(first.seen, [], false), items, later);
  }

  /** A failed scan hands no one and leaves the map as it was. */
  lemma ScanFailureChangesNothing(seen: map<JString, int>, e: Exception, now: int)
    ensures PollOf(seen, Failure(e), now) == Poll(seen, [], false)
  {
  }
}
