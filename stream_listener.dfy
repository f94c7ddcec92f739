/**
 * DynamoDBStreamListener (service/DynamoDBStreamListener.java): finds the
 * stream of the Customers table, keeps one cursor (shard iterator) per
 * shard, and on each poll reads every shard from its cursor, hands the
 * records to the stream processing service, and moves the cursor on. The
 * answers of the streams client are parameters; the customers handed to
 * classifyCustomer are the result of a poll.
 */
module StreamListener {
  import opened Wrappers
  import opened Types
  import opened Customers
  import opened StreamProcessing

  /** A shard of the stream description, with what getShardIterator answers for a TRIM_HORIZON request on it. */
  datatype Shard = Shard(shardId: JString, trimHorizonIterator: Result<JString, Exception>)

  /** What getRecords answers: the records read and the next shard iterator, which may be null. */
  datatype RecordsBatch = RecordsBatch(records: seq<Record>, nextShardIterator: JString)

  /** One shard id in keySet() order, with what getRecords answers for its current cursor. */
  datatype Visit = Visit(shardId: string, response: Result<RecordsBatch, Exception>)

  /** The progress of a loop over shards: the cursor map, the customers handed so far, whether the loop threw. */
  datatype Progress = Progress(iterators: map<string, string>, handed: seq<CustomerRecord>, aborted: bool)

  /**
   * One shard of initializeShardIterators: put its TRIM_HORIZON iterator
   * under its id. A failing getShardIterator throws, and so does put with
   * a null key or a null value (ConcurrentHashMap); either ends the loop.
   */
  function SetupStep(p: Progress, shard: Shard): (p': Progress)
  {
    if p.aborted then p
    else if shard.trimHorizonIterator.Failure? || shard.shardId.None? || shard.trimHorizonIterator.value.None? then p.(aborted := true)
    else p.(iterators := p.iterators[shard.shardId.value := shard.trimHorizonIterator.value.value])
  }

  /** The loop of initializeShardIterators over the shards in description order. */
  function SetupLoop(p: Progress, shards: seq<Shard>): (p': Progress)
  {
    if shards == [] then p else SetupStep(SetupLoop(p, shards[..|shards| - 1]), shards[|shards| - 1])
  }

  /** initializeShardIterators: a failing describeStream changes nothing (the exception is caught). */
  function ShardSetupOf(m: map<string, string>, describe: Result<seq<Shard>, Exception>): (m': map<string, string>)
  {
    match describe
    case Failure(_) => m
    case Success(shards) => SetupLoop(Progress(m, [], false), shards).iterators
  }

  /**
   * One shard of pollStream. An id without a cursor is skipped; a failing
   * getRecords ends the loop; otherwise every record goes to processRecord
   * in order, and then the cursor becomes the next iterator, unless that is
   * null, when put throws and ends the loop with the cursor unchanged.
   */
  function VisitStep(p: Progress, v: Visit): (p': Progress)
  {
    if p.aborted || v.shardId !in p.iterators then p
    else if v.response.Failure? then p.(aborted := true)
    else
      var batch := v.response.value;
      var handed := p.handed + Handed(batch.records);
      if batch.nextShardIterator.None? then Progress(p.iterators, handed, true)
      else Progress(p.iterators[v.shardId := batch.nextShardIterator.value], handed, false)
  }

  /** The shard loop of pollStream. */
  function PollLoop(p: Progress, visits: seq<Visit>): (p': Progress)
  {
    if visits == [] then p else VisitStep(PollLoop(p, visits[..|visits| - 1]), visits[|visits| - 1])
  }

  /**
   * The shard ids of a poll in keySet() order: every key of the cursor map
   * once. The loop only replaces the cursors of existing keys, so the
   * weakly consistent iterator of the ConcurrentHashMap meets each key
   * exactly once.
   */
  predicate KeyOrder(visits: seq<Visit>, m: map<string, string>)
  {
    && (forall i, j :: 0 <= i < j < |visits| ==> visits[i].shardId != visits[j].shardId)
    && (forall j :: 0 <= j < |visits| ==> visits[j].shardId in m)
    && (forall k :: k in m ==> exists j :: 0 <= j < |visits| && visits[j].shardId == k)
  }

  /** Every getRecords call answers a batch whose next iterator is not null. */
  predicate ReadsSucceed(visits: seq<Visit>)
  {
    forall j :: 0 <= j < |visits| ==> visits[j].response.Success? && visits[j].response.value.nextShardIterator.Some?
  }

  /** The customers of the batches read, in shard order. */
  function BatchesHanded(visits: seq<Visit>): seq<CustomerRecord>
  {
    if visits == [] then []
    else
      var last := visits[|visits| - 1];
      BatchesHanded(visits[..|visits| - 1]) + (if last.response.Success? then Handed(last.response.value.records) else [])
  }

  /** pollStream from the listener's state: nothing while the stream or the cursors are missing. */
  function PollOf(streamArn: JString, m: map<string, string>, visits: seq<Visit>): (p: Progress)
  {
    if streamArn.None? || m == map[] then Progress(m, [], false)
    else PollLoop(Progress(m, [], false), visits)
  }

  class DynamoDBStreamListener {
    var streamArn: JString
    var shardIterators: map<string, string>

    constructor ()
      ensures streamArn == None && shardIterators == map[]
    {
      streamArn, shardIterators := None, map[];
    }

    /**
     * initializeStreamListener, given what listStreams answers (the ARNs of
     * the table's streams) and what describeStream answers for the first
     * one. Returns whether a retry is scheduled: on a failing listStreams
     * and on an empty list, with nothing changed. Otherwise the first
     * stream is taken and the shard iterators are set up; a failure there
     * schedules no retry.
     */
    method InitializeStreamListener(listStreams: Result<seq<JString>, Exception>, describe: Result<seq<Shard>, Exception>)
      returns (retry: bool)
      modifies this
      ensures retry <==> listStreams.Failure? || listStreams.value == []
      ensures retry ==> streamArn == old(streamArn) && shardIterators == old(shardIterators)
      ensures !retry ==> streamArn == listStreams.value[0] && shardIterators == ShardSetupOf(old(shardIterators), describe)
    {
      if listStreams.Failure? || listStreams.value == [] {
        return true;
      }
      streamArn := listStreams.value[0];
      InitializeShardIterators(describe);
      return false;
    }

    /** initializeShardIterators. */
    method InitializeShardIterators(describe: Result<seq<Shard>, Exception>)
      modifies this
      ensures streamArn == old(streamArn)
      ensures shardIterators == ShardSetupOf(old(shardIterators), describe)
    {
      if describe.Failure? {
        return;
      }
      var shards := describe.value;
      ghost var start := Progress(shardIterators, [], false);
      for i := 0 to |shards|
        invariant streamArn == old(streamArn)
        invariant SetupLoop(start, shards[..i]) == Progress(shardIterators, [], false)
      {
        assert shards[..i + 1][..i] == shards[..i];
        var shard := shards[i];
        if shard.trimHorizonIterator.Failure? || shard.shardId.None? || shard.trimHorizonIterator.value.None? {
          SetupStaysAborted(start, shards, i + 1);
          return;
        }
        shardIterators := shardIterators[shard.shardId.value := shard.trimHorizonIterator.value.value];
      }
      assert shards[..|shards|] == shards;
    }

    /**
     * pollStream, given the shard ids in keySet() order with what getRecords
     * answers for each. Returns the customers handed to classifyCustomer.
     * The cursor map holds no null values, so, as in Java, the skip of a
     * shard without a cursor is never taken.
     */
    method PollStream(visits: seq<Visit>) returns (handed: seq<CustomerRecord>)
      requires KeyOrder(visits, shardIterators)
      modifies this
      ensures streamArn == old(streamArn)
      ensures shardIterators == PollOf(old(streamArn), old(shardIterators), visits).iterators
      ensures handed == PollOf(old(streamArn), old(shardIterators), visits).handed
    {
      handed := [];
      if streamArn.None? || shardIterators == map[] {
        return;
      }
      ghost var start := Progress(shardIterators, [], false);
      for i := 0 to |visits|
        invariant streamArn == old(streamArn)
        invariant PollLoop(start, visits[..i]) == Progress(shardIterators, handed, false)
      {
        assert visits[..i + 1][..i] == visits[..i];
        var v := visits[i];
        if v.shardId !in shardIterators {
          continue;
        }
        if v.response.Failure? {
          PollStaysAborted(start, visits, i + 1);
          return;
        }
        var batch := v.response.value;
        var more := ProcessRecords(batch.records);
        handed := handed + more;
        if batch.nextShardIterator.None? {
          PollStaysAborted(start, visits, i + 1);
          return;
        }
        shardIterators := shardIterators[v.shardId := batch.nextShardIterator.value];
      }
      assert visits[..|visits|] == visits;
    }
  }

  /** The record loop of pollStream: processRecord on each record in order. */
  method ProcessRecords(records: seq<Record>) returns (handed: seq<CustomerRecord>)
    ensures handed == Handed(records)
  {
    handed := [];
    for j := 0 to |records|
      invariant handed == Handed(records[..j])
    {
      assert records[..j + 1][..j] == records[..j];
      var c := ProcessRecord(records[j]);
      if c.Some? {
        handed := handed + [c.value];
      }
    }
    assert records[..|records|] == records;
  }

  /** Once the setup loop has thrown, the remaining shards change nothing. */
  lemma {:induction false} SetupStaysAborted(p: Progress, shards: seq<Shard>, i: nat)
    requires i <= |shards| && SetupLoop(p, shards[..i]).aborted
    ensures SetupLoop(p, shards) == SetupLoop(p, shards[..i])
    decreases |shards| - i
  {
    if i < |shards| {
      assert shards[..i + 1][..i] == shards[..i];
      SetupStaysAborted(p, shards, i + 1);
    } else {
      assert shards[..i] == shards;
    }
  }

  /** Once the poll loop has thrown, the remaining shards change nothing. */
  lemma {:induction false} PollStaysAborted(p: Progress, visits: seq<Visit>, i: nat)
    requires i <= |visits| && PollLoop(p, visits[..i]).aborted
    ensures PollLoop(p, visits) == PollLoop(p, visits[..i])
    decreases |visits| - i
  {
    if i < |visits| {
      assert visits[..i + 1][..i] == visits[..i];
      PollStaysAborted(p, visits, i + 1);
    } else {
      assert visits[..i] == visits;
    }
  }

  // ---------------------------------------------------------------------
  // Properties

  /** Polling never adds or removes a shard; only cursors change. */
  lemma {:induction false} PollKeepsShards(p: Progress, visits: seq<Visit>)
    ensures PollLoop(p, visits).iterators.Keys == p.iterators.Keys
  {
    if visits != [] {
      PollKeepsShards(p, visits[..|visits| - 1]);
    }
  }

  /** A shard that no visit of the loop names keeps its cursor. */
  lemma {:induction false} UnvisitedShardKeepsCursor(p: Progress, visits: seq<Visit>, k: string)
    requires k in p.iterators
    requires forall j :: 0 <= j < |visits| ==> visits[j].shardId != k
    ensures k in PollLoop(p, visits).iterators && PollLoop(p, visits).iterators[k] == p.iterators[k]
  {
    if visits != [] {
      var init := visits[..|visits| - 1];
      forall j | 0 <= j < |init| ensures init[j].shardId != k {
        assert init[j] == visits[j];
      }
      UnvisitedShardKeepsCursor(p, init, k);
    }
  }

  /** After a successful read the cursor is the returned iterator, even for an empty batch, and the records were handed in order. */
  lemma SuccessfulReadAdvances(p: Progress, shardId: string, batch: RecordsBatch)
    requires !p.aborted && shardId in p.iterators && batch.nextShardIterator.Some?
    ensures VisitStep(p, Visit(shardId, Success(batch))) ==
      Progress(p.iterators[shardId := batch.nextShardIterator.value], p.handed + Handed(batch.records), false)
  {
  }

  /** An empty batch moves the cursor and hands nothing. */
  lemma EmptyBatchMovesCursor(p: Progress, shardId: string, next: string)
    requires !p.aborted && shardId in p.iterators
    ensures VisitStep(p, Visit(shardId, Success(RecordsBatch([], Some(next))))) == p.(iterators := p.iterators[shardId := next])
  {
    assert Handed([]) == [];
    assert p.handed + [] == p.handed;
  }

  /** A failing read ends the poll with that shard's cursor unchanged. */
  lemma FailedReadAborts(p: Progress, shardId: string, e: Exception)
    requires !p.aborted && shardId in p.iterators
    ensures VisitStep(p, Visit(shardId, Failure(e))) == p.(aborted := true)
  {
  }

  /** A null next iterator: the records are still handed, but put throws, so the cursor stays and the poll ends. */
  lemma NullNextIteratorAborts(p: Progress, shardId: string, records: seq<Record>)
    requires !p.aborted && shardId in p.iterators
    ensures VisitStep(p, Visit(shardId, Success(RecordsBatch(records, None)))) ==
      Progress(p.iterators, p.handed + Handed(records), true)
  {
  }

  /** A shard that ends the poll stops it: the shards after it are not read. */
  lemma {:induction false} AbortStopsPoll(p: Progress, before: seq<Visit>, bad: Visit, after: seq<Visit>)
    requires VisitStep(PollLoop(p, before), bad).aborted
    ensures PollLoop(p, before + [bad] + after) == VisitStep(PollLoop(p, before), bad)
  {
    var visits := before + [bad] + after;
    var i := |before| + 1;
    assert visits[..i] == before + [bad];
    assert (before + [bad])[..|before|] == before;
    PollStaysAborted(p, visits, i);
  }

  /** The customers of one poll are those of the shards read, in shard order. */
  lemma {:induction false} PollHandsRecordsInOrder(p: Progress, visits: seq<Visit>, v: Visit)
    requires !PollLoop(p, visits).aborted && v.shardId in PollLoop(p, visits).iterators && v.response.Success?
    ensures PollLoop(p, visits + [v]).handed == PollLoop(p, visits).handed + Handed(v.response.value.records)
  {
    assert (visits + [v])[..|visits|] == visits;
  }

  /**
   * A loop over distinct shards that all have cursors throws iff some read
   * fails or answers a null next iterator. When none does, each visited
   * cursor becomes its batch's next iterator and the customers are those
   * of all batches in shard order.
   */
  lemma {:induction false} PollReadsEveryVisit(p: Progress, visits: seq<Visit>)
    requires !p.aborted
    requires forall i, j :: 0 <= i < j < |visits| ==> visits[i].shardId != visits[j].shardId
    requires forall j :: 0 <= j < |visits| ==> visits[j].shardId in p.iterators
    ensures !PollLoop(p, visits).aborted <==> ReadsSucceed(visits)
    ensures PollLoop(p, visits).iterators.Keys == p.iterators.Keys
    ensures ReadsSucceed(visits) ==> PollLoop(p, visits).handed == p.handed + BatchesHanded(visits)
    ensures ReadsSucceed(visits) ==> forall j :: 0 <= j < |visits| ==>
      PollLoop(p, visits).iterators[visits[j].shardId] == visits[j].response.value.nextShardIterator.value
  {
    PollKeepsShards(p, visits);
    if visits != [] {
      var init, last := visits[..|visits| - 1], visits[|visits| - 1];
      forall i, j | 0 <= i < j < |init| ensures init[i].shardId != init[j].shardId {
        assert init[i] == visits[i] && init[j] == visits[j];
      }
      forall j | 0 <= j < |init| ensures init[j].shardId in p.iterators {
        assert init[j] == visits[j];
      }
      PollReadsEveryVisit(p, init);
      var q := PollLoop(p, init);
      PollKeepsShards(p, init);
      if q.aborted {
        var j :| 0 <= j < |init| && !(init[j].response.Success? && init[j].response.value.nextShardIterator.Some?);
        assert init[j] == visits[j];
      } else {
        forall j | 0 <= j < |init| ensures visits[j].response.Success? && visits[j].response.value.nextShardIterator.Some? {
          assert visits[j] == init[j];
        }
        assert ReadsSucceed(visits) <==> last.response.Success? && last.response.value.nextShardIterator.Some?;
        if ReadsSucceed(visits) {
          var batch := last.response.value;
          assert visits[..|visits| - 1] == init;
          assert PollLoop(p, visits) == Progress(q.iterators[last.shardId := batch.nextShardIterator.value], q.handed + Handed(batch.records), false);
          assert BatchesHanded(visits) == BatchesHanded(init) + Handed(batch.records);
          forall j | 0 <= j < |init| ensures
            PollLoop(p, visits).iterators[visits[j].shardId] == visits[j].response.value.nextShardIterator.value
          {
            assert init[j] == visits[j];
            assert visits[j].shardId != last.shardId;
          }
        }
      }
    }
  }

  /** In keySet() order, every key of the map is the id of some visit. */
  lemma KeyVisited(visits: seq<Visit>, m: map<string, string>, k: string) returns (j: nat)
    requires KeyOrder(visits, m) && k in m
    ensures j < |visits| && visits[j].shardId == k
  {
    j :| 0 <= j < |visits| && visits[j].shardId == k;
  }

  /**
   * A poll over the keys in keySet() order reads every shard once. It
   * throws iff some read fails or answers a null next iterator; otherwise
   * every cursor of the map becomes the next iterator of its own batch,
   * and the customers handed are those of all batches in key order.
   */
  lemma FullPollAdvancesEveryShard(arn: string, m: map<string, string>, visits: seq<Visit>)
    requires KeyOrder(visits, m)
    ensures var p := PollOf(Some(arn), m, visits);
      && (!p.aborted <==> ReadsSucceed(visits))
      && p.iterators.Keys == m.Keys
      && (ReadsSucceed(visits) ==> p.handed == BatchesHanded(visits))
      && (ReadsSucceed(visits) ==> forall k :: k in m ==>
            exists j :: 0 <= j < |visits| && visits[j].shardId == k && p.iterators[k] == visits[j].response.value.nextShardIterator.value)
  {
    var p := PollOf(Some(arn), m, visits);
    if m != map[] {
      var start := Progress(m, [], false);
      assert p == PollLoop(start, visits);
      PollReadsEveryVisit(start, visits);
      assert start.handed + BatchesHanded(visits) == BatchesHanded(visits);
      if ReadsSucceed(visits) {
        forall k | k in m
          ensures exists j :: 0 <= j < |visits| && visits[j].shardId == k && p.iterators[k] == visits[j].response.value.nextShardIterator.value
        {
          var j := KeyVisited(visits, m, k);
        }
      }
    }
  }

  /** A stream without cursors is never polled. */
  lemma PollWithoutCursors(streamArn: JString, visits: seq<Visit>)
    ensures PollOf(streamArn, map[], visits) == Progress(map[], [], false)
  {
  }

  /** The setup loop records every shard's TRIM_HORIZON iterator when every shard answers one. */
  lemma {:induction false} SetupRecordsEveryShard(p: Progress, shards: seq<Shard>, i: nat)
    requires !p.aborted
    requires forall j :: 0 <= j < |shards| ==> shards[j].shardId.Some? && shards[j].trimHorizonIterator.Success? && shards[j].trimHorizonIterator.value.Some?
    requires i < |shards|
    requires forall j :: 0 <= j < |shards| ==> shards[j].shardId != shards[i].shardId || j == i
    ensures !SetupLoop(p, shards).aborted
    ensures shards[i].shardId.value in SetupLoop(p, shards).iterators
    ensures SetupLoop(p, shards).iterators[shards[i].shardId.value] == shards[i].trimHorizonIterator.value.value
  {
    SetupNeverAborts(p, shards);
    var init := shards[..|shards| - 1];
    if i < |init| {
      forall j | 0 <= j < |init| ensures init[j].shardId != init[i].shardId || j == i {
        assert init[j] == shards[j];
      }
      SetupRecordsEveryShard(p, init, i);
    }
  }

  /** The setup loop does not throw when every shard answers an iterator. */
  lemma {:induction false} SetupNeverAborts(p: Progress, shards: seq<Shard>)
    requires !p.aborted
    requires forall j :: 0 <= j < |shards| ==> shards[j].shardId.Some? && shards[j].trimHorizonIterator.Success? && shards[j].trimHorizonIterator.value.Some?
    ensures !SetupLoop(p, shards).aborted
    ensures SetupLoop(p, shards).iterators.Keys == p.iterators.Keys + set j | 0 <= j < |shards| :: shards[j].shardId.value
  {
    if shards != [] {
      var init := shards[..|shards| - 1];
      forall j | 0 <= j < |init| ensures init[j].shardId.Some? && init[j].trimHorizonIterator.Success? && init[j].trimHorizonIterator.value.Some? {
        assert init[j] == shards[j];
      }
      SetupNeverAborts(p, init);
      var ids := set j | 0 <= j < |shards| :: shards[j].shardId.value;
      var initIds := set j | 0 <= j < |init| :: init[j].shardId.value;
      assert ids == initIds + {shards[|shards| - 1].shardId.value} by {
        forall x | x in ids ensures x in initIds + {shards[|shards| - 1].shardId.value} {
          var j :| 0 <= j < |shards| && shards[j].shardId.value == x;
          if j < |init| { assert init[j] == shards[j]; }
        }
        forall x | x in initIds ensures x in ids {
          var j :| 0 <= j < |init| && init[j].shardId.value == x;
          assert init[j] == shards[j];
        }
      }
    }
  }

  /**
   * When shard setup fails after the stream is chosen, no retry is
   * scheduled and the cursor map stays empty, so every later poll is skipped.
   */
  lemma StuckAfterSetupFailure(arn: string, e: Exception, visits: seq<Visit>)
    ensures ShardSetupOf(map[], Failure(e)) == map[]
    ensures PollOf(Some(arn), ShardSetupOf(map[], Failure(e)), visits) == Progress(map[], [], false)
  {
  }
}
