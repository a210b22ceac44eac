/** What sending a batch again does to the acknowledgement that can be rebuilt for it. */
module Replays {
  import opened Wrappers
  import opened Seqs
  import opened Types
  import opened Ingestion
  import opened Protocol
  import opened ExactlyOnce
  import opened Confluence
  import opened Deliveries
  import opened Acknowledgements
  import opened Database
  import opened Refinement
  import Projection

  /** What a call that replies leaves behind, in terms of its lists. */
  ghost predicate Replied(cfg: Settings, t: Tables, batch: Batch, receivedAt: int, times: seq<int>, o: Outcome)
    requires |times| == |batch.events|
  {
    && o.j.batch == batch && o.j.receivedAt == receivedAt
    && o.j.parts == Partition(batch.events, times, batch.device, cfg)
    && o.j.stored == Ids(Fresh(t.raw, o.j.parts.toStore))
    && o.j.duplicate == Ids(Known(t.raw, o.j.parts.toStore)) + o.j.parts.repeats
    && o.t.raw == StoreRaw(t.raw, o.j.parts.toStore, receivedAt, batch.id)
    && o.t.batches == RecordBatch(t.batches, batch.id, BatchRowOf(o.j))
    && o.t.acks == RecordAcks(t.acks, batch.id, EntriesOf(o.j))
    && o.j.isNew == (batch.id !in t.batches)
    && Settled(o.j)
  }

  /** The heartbeat loop changes neither lists nor other tables. */
  lemma {:induction false} BeatLoopFrame(t: Tables, j: Job)
    requires j.pc.Beating? && j.projected <= |j.parts.toStore|
    ensures var o := BeatLoop(t, j);
            && o.t.raw == t.raw && o.t.batches == t.batches && o.t.acks == t.acks
            && SameInput(j, o.j) && o.j.stored == j.stored && o.j.duplicate == j.duplicate
    decreases |j.parts.toStore| - j.projected
  {
    hide BeatStep, SameInput;
    BeatStepFrame(t, j);
    var o := BeatStep(t, j);
    if o.j.pc.Beating? {
      BeatLoopFrame(o.t, o.j);
      SameInputTransitive(j, o.j, BeatLoop(o.t, o.j).j);
    }
  }

  lemma BeatStepFrame(t: Tables, j: Job)
    requires j.pc.Beating? && j.projected <= |j.parts.toStore|
    ensures var o := BeatStep(t, j);
            && o.t.raw == t.raw && o.t.batches == t.batches && o.t.acks == t.acks
            && SameInput(j, o.j) && o.j.stored == j.stored && o.j.duplicate == j.duplicate
            && (o.j.pc.Beating? ==> o.j.projected == j.projected + 1 <= |j.parts.toStore| == |o.j.parts.toStore|)
  {
    hide BeatStep;
    BeatStepTables(t, j);
    BeatStepJob(t, j);
  }

  lemma BeatStepTables(t: Tables, j: Job)
    ensures var o := BeatStep(t, j); o.t == t.(beats := o.t.beats)
  {
    hide IsBeat, BeatOf;
  }

  lemma BeatStepJob(t: Tables, j: Job)
    requires j.pc.Beating? && j.projected <= |j.parts.toStore|
    ensures var o := BeatStep(t, j);
            && o.j == j.(pc := o.j.pc, projected := o.j.projected)
            && (o.j.pc.Beating? ==> o.j.projected == j.projected + 1 <= |j.parts.toStore|)
  {
    hide BeatStep;
    BeatStepForms(t, j);
  }

  lemma BeatStepForms(t: Tables, j: Job)
    requires j.pc.Beating? && j.projected <= |j.parts.toStore|
    ensures var o := BeatStep(t, j);
            || o.j == j.(pc := Batching)
            || o.j == j.(pc := Failed)
            || (o.j == j.(projected := j.projected + 1) && j.projected < |j.parts.toStore|)
  {
    hide IsBeat, BeatOf;
  }

  lemma SameInputTransitive(a: Job, b: Job, c: Job)
    requires SameInput(a, b) && SameInput(b, c)
    ensures SameInput(a, c)
  {
  }

  lemma CallReplies(cfg: Settings, t: Tables, batch: Batch, receivedAt: int, times: seq<int>, touchedAt: int)
    requires |times| == |batch.events|
    requires Uninterrupted(cfg, t, batch, receivedAt, times, touchedAt).j.pc.Replied?
    ensures Replied(cfg, t, batch, receivedAt, times, Uninterrupted(cfg, t, batch, receivedAt, times, touchedAt))
  {
    hide Partition, BeatLoop, Touch, RecordAcks, StoreRaw, Fresh, Known, Ids, PartsOk, VerdictsOk, RecordBatch, Entries;
    var v := Validated(batch, receivedAt, times, Partition(batch.events, times, batch.device, cfg));
    PartitionConserves(batch.events, times, batch.device, cfg);
    StoreVerdicts(t, v, batch.device, batch.events);
    var s := StoreStep(t, v);
    BeatLoopFrame(s.t, s.j);
  }

  /** The answer to a request: one verdict for each event, accepted exactly what is kept, stored exactly what is new. */
  lemma CallAnswers(cfg: Settings, t: Tables, batch: Batch, receivedAt: int, times: seq<int>, touchedAt: int)
    requires |times| == |batch.events|
    requires Uninterrupted(cfg, t, batch, receivedAt, times, touchedAt).j.pc.Replied?
    ensures var r := ResultOf(Uninterrupted(cfg, t, batch, receivedAt, times, touchedAt).j);
            && (r.isReplay <==> batch.id in t.batches)
            && multiset(r.stored) + multiset(r.duplicate) + multiset(r.rejected) == multiset(Ids(batch.events))
            && (forall id :: id in r.stored <==> KeptId(cfg, batch, times, id) && id !in t.raw)
            && (forall id :: id in r.stored || id in r.duplicate <==> KeptId(cfg, batch, times, id))
            && (forall id :: id in r.rejected <==> RefusedId(cfg, batch, times, id))
    ensures Acknowledges(ResultOf(Uninterrupted(cfg, t, batch, receivedAt, times, touchedAt).j), batch, receivedAt)
  {
    hide *;
    var o := Uninterrupted(cfg, t, batch, receivedAt, times, touchedAt);
    CallReplies(cfg, t, batch, receivedAt, times, touchedAt);
    ListsExact(cfg, t, batch, receivedAt, times, o);
    AnswerOf(o.j);
  }

  /** The acknowledgement names the batch and its time of receipt, holds the verdict lists in order, and counts them. */
  ghost predicate Acknowledges(r: IngestionResult, batch: Batch, receivedAt: int) {
    var a := r.acknowledgement;
    && a.batch == batch.id && a.receivedAt == receivedAt
    && |a.accepted| == |r.stored| + |r.duplicate|
    && (forall i :: 0 <= i < |r.stored| ==> a.accepted[i].id == r.stored[i] && a.accepted[i].status == Stored)
    && (forall i :: 0 <= i < |r.duplicate| ==>
          a.accepted[|r.stored| + i].id == r.duplicate[i] && a.accepted[|r.stored| + i].status == Duplicate)
    && |a.rejected| == |r.rejected|
    && (forall i :: 0 <= i < |r.rejected| ==> a.rejected[i].id == r.rejected[i])
    && a.counts.received == |batch.events| && a.counts.stored == |r.stored|
    && a.counts.duplicate == |r.duplicate| && a.counts.rejected == |r.rejected|
  }

  /** The lists of a call that replied, by the rules and the table. */
  lemma ListsExact(cfg: Settings, t: Tables, batch: Batch, receivedAt: int, times: seq<int>, o: Outcome)
    requires |times| == |batch.events| && Replied(cfg, t, batch, receivedAt, times, o)
    ensures o.j.batch == batch && o.j.receivedAt == receivedAt && (!o.j.isNew <==> batch.id in t.batches)
    ensures var j := o.j;
            var rejected := RejectedIds(j.parts.rejected);
            && multiset(j.stored) + multiset(j.duplicate) + multiset(rejected) == multiset(Ids(batch.events))
            && (forall id :: id in j.stored <==> KeptId(cfg, batch, times, id) && id !in t.raw)
            && (forall id :: id in j.stored || id in j.duplicate <==> KeptId(cfg, batch, times, id))
            && (forall id :: id in rejected <==> RefusedId(cfg, batch, times, id))
  {
    hide Partition, Ids, RejectedIds, Fresh, Known, StoreRaw, RecordBatch, RecordAcks, BatchRowOf, EntriesOf, Settled,
         Keeps;
    RequestExact(batch.events, times, batch.device, cfg);
    SettledConserves(o.j);
    AnswerLists(t, o.j);
    forall id
      ensures id in Ids(o.j.parts.toStore) <==> KeptId(cfg, batch, times, id)
      ensures id in RejectedIds(o.j.parts.rejected) <==> RefusedId(cfg, batch, times, id)
    {
    }
    hide KeptId, RefusedId, Replied;
  }

  /** An answer holds the verdict lists of its job, in their order, and counts them. */
  lemma AnswerOf(j: Job)
    ensures var r := ResultOf(j);
            && r.stored == j.stored && r.duplicate == j.duplicate && r.rejected == RejectedIds(j.parts.rejected)
            && r.isReplay == !j.isNew
    ensures Acknowledges(ResultOf(j), j.batch, j.receivedAt)
  {
    hide BuildAcknowledgement, RejectedIds;
    AcceptedParts(j);
    OtherParts(j);
    var r := ResultOf(j);
    assert r.acknowledgement == BuildAcknowledgement(j) && r.stored == j.stored && r.duplicate == j.duplicate;
    assert r.rejected == RejectedIds(j.parts.rejected);
  }

  lemma OtherParts(j: Job)
    ensures var a := BuildAcknowledgement(j);
            && a.batch == j.batch.id && a.receivedAt == j.receivedAt && a.rejected == j.parts.rejected
            && a.counts == Counts(|j.batch.events|, |j.stored|, |j.duplicate|, |j.parts.rejected|)
  {
  }

  ghost predicate RefusedId(cfg: Settings, batch: Batch, times: seq<int>, id: Id) {
    exists i: nat :: i < |batch.events| && !Keeps(batch.events, times, batch.device, cfg, i) && batch.events[i].id == id
  }

  /** The two accepting verdicts, by membership in the table. */
  lemma AnswerLists(t: Tables, j: Job)
    requires Settled(j)
    requires j.stored == Ids(Fresh(t.raw, j.parts.toStore))
    requires j.duplicate == Ids(Known(t.raw, j.parts.toStore)) + j.parts.repeats
    ensures forall id :: id in j.stored <==> id in Ids(j.parts.toStore) && id !in t.raw
    ensures forall id :: id in j.stored || id in j.duplicate <==> id in Ids(j.parts.toStore)
  {
    var es := j.parts.toStore;
    hide Ids, RejectedIds;
    forall id
      ensures id in j.stored <==> id in Ids(es) && id !in t.raw
      ensures id in Ids(Known(t.raw, es)) <==> id in Ids(es) && id in t.raw
    {
      if id in Ids(es) {
        var e := EventOf(es, id);
        if id in t.raw {
          IdIn(Known(t.raw, es), e);
        } else {
          IdIn(Fresh(t.raw, es), e);
        }
      }
      if id in j.stored {
        var e := EventOf(Fresh(t.raw, es), id);
        IdIn(es, e);
      }
      if id in Ids(Known(t.raw, es)) {
        var e := EventOf(Known(t.raw, es), id);
        IdIn(es, e);
      }
    }
  }

  // ---------------------------------------------------------------- what a call records

  /** The heartbeat loop, when it does not raise, gives each heartbeat it has before it a row and changes no other. */
  lemma {:induction false} BeatLoopRows(t: Tables, j: Job, id: Id)
    requires j.pc.Beating? && j.projected <= |j.parts.toStore| && Distinct(Ids(j.parts.toStore))
    requires !BeatLoop(t, j).j.pc.Failed?
    ensures var beats := BeatLoop(t, j).t.beats;
            && (forall i :: j.projected <= i < |j.parts.toStore| && BeatAt(j, i) && j.parts.toStore[i].id == id ==>
                  id in beats && Projection.Projects(beats[id], j.parts.toStore[i]))
            && ((forall i :: j.projected <= i < |j.parts.toStore| && BeatAt(j, i) ==> j.parts.toStore[i].id != id) ==>
                  (id in beats <==> id in t.beats) && (id in t.beats ==> beats[id] == t.beats[id]))
    decreases |j.parts.toStore| - j.projected
  {
    hide BeatStep, Ids, Projection.Projects;
    BeatStepRow(t, j);
    var o := BeatStep(t, j);
    if o.j.pc.Beating? {
      assert Distinct(Ids(o.j.parts.toStore));
      BeatLoopRows(o.t, o.j, id);
      assert forall i :: 0 <= i < |j.parts.toStore| ==> (BeatAt(o.j, i) <==> BeatAt(j, i));
      forall i | j.projected < i < |j.parts.toStore|
        ensures j.parts.toStore[i].id != j.parts.toStore[j.projected].id
      {
        assert Ids(j.parts.toStore)[i] != Ids(j.parts.toStore)[j.projected];
      }
    }
  }

  /** A heartbeat this call stored. */
  predicate BeatAt(j: Job, i: nat) {
    i < |j.parts.toStore| && j.parts.toStore[i].source == "heartbeat" && j.parts.toStore[i].id in j.stored
  }

  lemma BeatStepRow(t: Tables, j: Job)
    requires j.pc.Beating? && j.projected <= |j.parts.toStore|
    ensures var o := BeatStep(t, j);
            && (o.j.pc.Beating? ==>
                  j.projected < |j.parts.toStore| && o.j == j.(projected := j.projected + 1) &&
                  var e := j.parts.toStore[j.projected];
                  if BeatAt(j, j.projected)
                  then
                    && e.id in o.t.beats && Projection.Projects(o.t.beats[e.id], e)
                    && forall x :: x != e.id ==>
                         (x in o.t.beats <==> x in t.beats) && (x in t.beats ==> o.t.beats[x] == t.beats[x])
                  else o.t.beats == t.beats)
            && (!o.j.pc.Beating? && !o.j.pc.Failed? ==> j.projected == |j.parts.toStore| && o.t.beats == t.beats)
  {
  }

  /**
   The rows a replying call leaves besides the raw ones: the batch row, a status for each id of the request, the
   device's stamp, and a row for each heartbeat it stored.
   */
  lemma CallRecords(cfg: Settings, t: Tables, batch: Batch, receivedAt: int, times: seq<int>, touchedAt: int)
    requires |times| == |batch.events|
    requires Uninterrupted(cfg, t, batch, receivedAt, times, touchedAt).j.pc.Replied?
    ensures var o := Uninterrupted(cfg, t, batch, receivedAt, times, touchedAt);
            var r, b := ResultOf(o.j), batch.id;
            && b in o.t.batches
            && (b in t.batches ==>
                  o.t.batches[b].replays == t.batches[b].replays + 1 && SameBatchColumns(o.t.batches[b], t.batches[b]))
            && (b !in t.batches ==>
                  o.t.batches[b] == BatchRow(batch.device, receivedAt, |batch.events|, |r.stored|, |r.duplicate|,
                    |r.rejected|, 0))
            && (forall x :: x != b ==>
                 (x in o.t.batches <==> x in t.batches) &&
                 (x in t.batches ==> o.t.batches[x] == t.batches[x]))
            && (forall d :: d in o.t.lastSeen <==> d in t.lastSeen)
            && (forall d :: d in t.lastSeen ==> o.t.lastSeen[d] == if d == batch.device then
               touchedAt else t.lastSeen[d])
  {
    hide Partition, BeatLoop, StoreRaw, Fresh, Known, Ids, RecordAcks, EntriesOf;
    var v := Validated(batch, receivedAt, times, Partition(batch.events, times, batch.device, cfg));
    var s := StoreStep(t, v);
    BeatLoopFrame(s.t, s.j);
    BeatLoopKeepsSeen(s.t, s.j);
  }

  predicate SameBatchColumns(a: BatchRow, b: BatchRow) {
    && a.device == b.device && a.receivedAt == b.receivedAt && a.events == b.events
    && a.stored == b.stored && a.duplicate == b.duplicate && a.rejected == b.rejected
  }

  lemma {:induction false} BeatLoopKeepsSeen(t: Tables, j: Job)
    requires j.pc.Beating? && j.projected <= |j.parts.toStore|
    ensures BeatLoop(t, j).t.lastSeen == t.lastSeen
    decreases |j.parts.toStore| - j.projected
  {
    hide BeatStep;
    BeatStepSeen(t, j);
    if BeatStep(t, j).j.pc.Beating? {
      BeatStepRaises(t, j);
      BeatLoopKeepsSeen(BeatStep(t, j).t, BeatStep(t, j).j);
    }
  }

  lemma BeatStepSeen(t: Tables, j: Job)
    ensures BeatStep(t, j).t.lastSeen == t.lastSeen
  {
    hide IsBeat, BeatOf;
  }

  /** The heartbeat rows it leaves: one for each heartbeat it stored, with the columns of the event; the rest stays. */
  lemma CallHeartbeats(cfg: Settings, t: Tables, batch: Batch, receivedAt: int, times: seq<int>, touchedAt: int, id: Id)
    requires |times| == |batch.events|
    requires Uninterrupted(cfg, t, batch, receivedAt, times, touchedAt).j.pc.Replied?
    ensures var o := Uninterrupted(cfg, t, batch, receivedAt, times, touchedAt);
            var stored := id in o.j.stored && id in o.t.raw && o.t.raw[id].event.source == "heartbeat";
            && (stored ==> id in o.t.beats && Projection.Projects(o.t.beats[id], o.t.raw[id].event))
            && (!stored ==> (id in o.t.beats <==> id in t.beats) && (id in t.beats ==> o.t.beats[id] == t.beats[id]))
  {
    hide Partition, BeatLoop, StoreRaw, Fresh, Known, Ids, RecordAcks, EntriesOf, PartsOk, RecordBatch,
         Projection.Projects;
    var parts := Partition(batch.events, times, batch.device, cfg);
    var v := Validated(batch, receivedAt, times, parts);
    var s := StoreStep(t, v);
    PartitionConserves(batch.events, times, batch.device, cfg);
    DistinctStore(parts, batch.events, batch.device);
    BeatLoopFrame(s.t, s.j);
    BeatLoopEnds(s.t, s.j);
    BeatLoopRows(s.t, s.j, id);
    StoreSplits(t.raw, parts.toStore, receivedAt, batch.id);
    if id in s.j.stored {
      var e := EventOf(parts.toStore, id);
      var i :| 0 <= i < |parts.toStore| && parts.toStore[i] == e;
      assert s.t.raw[id].event == e;
      forall k | 0 <= k < |parts.toStore| && parts.toStore[k].id == id
        ensures parts.toStore[k] == e
      {
        OneEventPerId(parts.toStore, parts.toStore[k], e);
      }
      assert BeatAt(s.j, i) <==> e.source == "heartbeat";
    }
  }

  lemma DistinctStore(p: Parts, es: seq<Event>, device: Id)
    requires PartsOk(p, es, device)
    ensures Distinct(Ids(p.toStore))
  {
  }

  /** The statuses it leaves: rejected where an event broke a rule, else duplicate or stored; no other row changes. */
  lemma CallStatuses(cfg: Settings, t: Tables, batch: Batch, receivedAt: int, times: seq<int>, touchedAt: int, id: Id)
    requires |times| == |batch.events|
    requires Uninterrupted(cfg, t, batch, receivedAt, times, touchedAt).j.pc.Replied?
    ensures var o := Uninterrupted(cfg, t, batch, receivedAt, times, touchedAt);
            var r, p := ResultOf(o.j), (batch.id, id);
            && (id in r.stored || id in r.duplicate || id in r.rejected ==>
                  && p in o.t.acks
                  && (o.t.acks[p].Rejected? <==> id in r.rejected)
                  && (o.t.acks[p] == Duplicate <==> id !in r.rejected && id in r.duplicate)
                  && (o.t.acks[p] == Stored <==> id !in r.rejected && id !in r.duplicate))
            && (forall x: (Id, Id) ::
                  x.0 != batch.id || !(x.1 in r.stored || x.1 in r.duplicate || x.1 in r.rejected) ==>
                    (x in o.t.acks <==> x in t.acks) && (x in t.acks ==> o.t.acks[x] == t.acks[x]))
  {
    hide Uninterrupted, Partition, StoreRaw, Fresh, Known, Ids, RecordAcks, EntriesOf, Settled, RecordBatch, Names,
         LastWith;
    var o := Uninterrupted(cfg, t, batch, receivedAt, times, touchedAt);
    CallReplies(cfg, t, batch, receivedAt, times, touchedAt);
    LastEntryWins(t.acks, batch.id, EntriesOf(o.j));
    forall x: Id
      ensures Names(EntriesOf(o.j), x) <==>
                x in o.j.stored || x in o.j.duplicate ||
                x in RejectedIds(o.j.parts.rejected)
    {
      NamesAreVerdicts(o.j, x);
    }
    if id in o.j.stored || id in o.j.duplicate || id in RejectedIds(o.j.parts.rejected) {
      RecordedStatus(t.acks, o.j, id);
    }
  }

  // ---------------------------------------------------------------- what the second recording leaves

  /** Nothing under this batch id has changed, and what the first call accepted is still held. */
  ghost predicate Undisturbed(first: Outcome, t: Tables) {
    var b := first.j.batch.id;
    && (forall id :: (b, id) in t.acks <==> (b, id) in first.t.acks)
    && b in t.batches && b in first.t.batches && t.batches[b] == first.t.batches[b]
    && (forall id :: AcceptedBy(first.j, id) ==> id in t.raw)
  }

  lemma RowsAfter(acks: map<(Id, Id), Status>, j: Job)
    requires Settled(j) && Distinct(Ids(j.batch.events))
    requires forall id :: (j.batch.id, id) in acks ==> id in Ids(j.batch.events)
    ensures forall e :: e in AckRows(RecordAcks(acks, j.batch.id, EntriesOf(j)), j.batch.id) <==> e in EntriesOf(j)
    ensures forall id :: (j.batch.id, id) in RecordAcks(acks, j.batch.id, EntriesOf(j)) <==> id in Ids(j.batch.events)
  {
    hide AckRows, RecordAcks, EntriesOf, Names, LastWith, Ids, Settled;
    var b, es := j.batch.id, EntriesOf(j);
    LastEntryWins(acks, b, es);
    EntriesDistinct(j);
    forall id
      ensures Names(es, id) <==> id in Ids(j.batch.events)
      ensures (b, id) in RecordAcks(acks, b, es) <==> Names(es, id)
    {
      NamesAreEvents(j, id);
    }
    RowsAreEntries(RecordAcks(acks, b, es), b, es);
  }

  lemma RebuiltAfterReplay(cfg: Settings, t: Tables, t2: Tables, first: Outcome, second: Outcome, batch: Batch,
                           r1: int, times1: seq<int>, r2: int, times2: seq<int>)
    requires |times1| == |times2| == |batch.events| && Distinct(Ids(batch.events))
    requires batch.id !in t.batches && forall id :: (batch.id, id) !in t.acks
    requires Replied(cfg, t, batch, r1, times1, first) && Undisturbed(first, t2)
    requires Replied(cfg, t2, batch, r2, times2, second)
    ensures var r := StoredAcknowledgement(second.t, batch.id);
            var issued, again := BuildAcknowledgement(first.j), BuildAcknowledgement(second.j);
            && r.Some? && r.value.batch == issued.batch && r.value.receivedAt == issued.receivedAt &&
               r.value.counts == issued.counts
            && multiset(r.value.accepted) == multiset(again.accepted) &&
               multiset(r.value.rejected) == multiset(again.rejected)
  {
    hide AckRows, RecordAcks, EntriesOf, Ids, Settled, Partition, StoreRaw, Fresh, Known, RejectionsIn, Filter;
    RowsAfter(t.acks, first.j);
    RowsAfter(t2.acks, second.j);
    EntriesDistinct(second.j);
    var es := EntriesOf(second.j);
    assert Distinct(es);
    ListsOfEntries(AckRows(second.t.acks, batch.id), second.j);
  }

  // ---------------------------------------------------------------- when both calls decide alike

  /** Every event of the request is judged alike at both clock readings. */
  ghost predicate JudgedAlike(cfg: Settings, batch: Batch, times1: seq<int>, times2: seq<int>)
    requires |times1| == |times2| == |batch.events|
  {
    forall i: nat :: i < |batch.events| ==>
      ReasonAt(batch.events, times1, batch.device, cfg, i) == ReasonAt(batch.events, times2, batch.device, cfg, i)
  }

  lemma {:induction false} SamePartition(cfg: Settings, es: seq<Event>, device: Id, times1: seq<int>, times2: seq<int>)
    requires |times1| == |times2| == |es|
    requires forall i: nat :: i < |es| ==> ReasonAt(es, times1, device, cfg, i) == ReasonAt(es, times2, device, cfg, i)
    ensures Partition(es, times1, device, cfg) == Partition(es, times2, device, cfg)
  {
    hide ReasonAt, Place;
    if es != [] {
      var n := |es| - 1;
      forall i: nat | i < n
        ensures ReasonAt(es[..n], times1[..n], device, cfg, i) == ReasonAt(es[..n], times2[..n], device, cfg, i)
      {
        GoodSnoc(es, times1, device, cfg, i);
        GoodSnoc(es, times2, device, cfg, i);
      }
      SamePartition(cfg, es[..n], device, times1[..n], times2[..n]);
      PlaceAlike(Partition(es[..n], times1[..n], device, cfg), es, times1, times2, device, cfg, n);
    }
  }

  lemma PlaceAlike(p: Parts, es: seq<Event>, times1: seq<int>, times2: seq<int>, device: Id, cfg: Settings, i: nat)
    requires i < |es| == |times1| == |times2|
    requires ReasonAt(es, times1, device, cfg, i) == ReasonAt(es, times2, device, cfg, i)
    ensures Place(p, es[i], device, cfg, times1[i]) == Place(p, es[i], device, cfg, times2[i])
  {
    hide Validate, Ids;
  }

  /** A first call that stored nothing leaves nothing for a second one with the same lists to store. */
  lemma NothingNew(raw: map<Id, RawRow>, raw2: map<Id, RawRow>, es: seq<Event>)
    requires Ids(Fresh(raw, es)) == [] && forall id :: id in Ids(Known(raw, es)) ==> id in raw2
    ensures Fresh(raw2, es) == [] && Known(raw2, es) == Known(raw, es) == es
  {
    assert Fresh(raw, es) == [];
    forall e | e in es
      ensures e.id in raw && e.id in raw2
    {
      assert e !in Fresh(raw, es);
      IdIn(Known(raw, es), e);
    }
    FilterAll(es, (e: Event) => e.id in raw);
    FilterAll(es, (e: Event) => e.id in raw2);
    FilterNone(es, (e: Event) => e.id !in raw2);
  }

  lemma AlikeIsSame(cfg: Settings, t: Tables, t2: Tables, first: Outcome, second: Outcome, batch: Batch, r1: int,
                    times1: seq<int>, r2: int, times2: seq<int>)
    requires |times1| == |times2| == |batch.events|
    requires Replied(cfg, t, batch, r1, times1, first) && Undisturbed(first, t2)
    requires Replied(cfg, t2, batch, r2, times2, second)
    requires first.j.stored == [] && JudgedAlike(cfg, batch, times1, times2)
    ensures BuildAcknowledgement(first.j).accepted == BuildAcknowledgement(second.j).accepted
    ensures BuildAcknowledgement(first.j).rejected == BuildAcknowledgement(second.j).rejected
  {
    hide RecordAcks, EntriesOf, Ids, Settled, Partition, StoreRaw, Fresh, Known, ReasonAt, RecordBatch;
    SamePartition(cfg, batch.events, batch.device, times1, times2);
    var es := first.j.parts.toStore;
    forall id | id in Ids(Known(t.raw, es))
      ensures id in t2.raw
    {
      assert AcceptedBy(first.j, id);
    }
    NothingNew(t.raw, t2.raw, es);
    assert Ids(Fresh(t2.raw, es)) == [];
  }

  lemma {:induction false} InBag<T>(a: seq<T>, b: seq<T>, x: T)
    requires multiset(a) == multiset(b)
    ensures x in a <==> x in b
  {
    assert x in a <==> x in multiset(a);
    assert x in b <==> x in multiset(b);
  }

  lemma AcceptedEntry(j: Job, id: Id)
    ensures Entry(id, Stored) in BuildAcknowledgement(j).accepted <==> id in j.stored
    ensures Entry(id, Duplicate) in BuildAcknowledgement(j).accepted <==> id in j.duplicate
  {
    var acc := BuildAcknowledgement(j).accepted;
    if id in j.stored {
      var i :| 0 <= i < |j.stored| && j.stored[i] == id;
      assert acc[i] == Entry(id, Stored);
    }
    if id in j.duplicate {
      var i :| 0 <= i < |j.duplicate| && j.duplicate[i] == id;
      assert acc[|j.stored| + i] == Entry(id, Duplicate);
    }
  }

  /** With distinct ids a rejection names one event of the request. */
  lemma RejectedOnce(cfg: Settings, batch: Batch, times: seq<int>, i: nat, reason: Reason)
    requires |times| == |batch.events| && i < |batch.events| && Distinct(Ids(batch.events))
    ensures Rejection(batch.events[i].id, reason) in Partition(batch.events, times, batch.device, cfg).rejected <==>
            ReasonAt(batch.events, times, batch.device, cfg, i) == Some(reason)
  {
    hide Partition, ReasonAt;
    var r := Rejection(batch.events[i].id, reason);
    PartitionExact(batch.events, times, batch.device, cfg);
    assert r in Partition(batch.events, times, batch.device, cfg).rejected <==>
           RefusedAs(batch.events, times, batch.device, cfg, r);
    if k: nat :| k < |batch.events| && ReasonAt(batch.events, times, batch.device, cfg, k) == Some(reason) &&
                 batch.events[k].id == r.id {
      assert Ids(batch.events)[k] == Ids(batch.events)[i];
      assert k == i;
    }
  }

  lemma SameIsAlike(cfg: Settings, t: Tables, t2: Tables, first: Outcome, second: Outcome, batch: Batch, r1: int,
                    times1: seq<int>, r2: int, times2: seq<int>)
    requires |times1| == |times2| == |batch.events| && Distinct(Ids(batch.events))
    requires Replied(cfg, t, batch, r1, times1, first) && Undisturbed(first, t2)
    requires Replied(cfg, t2, batch, r2, times2, second)
    requires multiset(BuildAcknowledgement(first.j).accepted) == multiset(BuildAcknowledgement(second.j).accepted)
    requires multiset(first.j.parts.rejected) == multiset(second.j.parts.rejected)
    ensures first.j.stored == [] && JudgedAlike(cfg, batch, times1, times2)
  {
    hide RecordAcks, EntriesOf, Ids, Settled, Partition, StoreRaw, Fresh, Known, ReasonAt, RecordBatch,
         BuildAcknowledgement;
    if first.j.stored != [] {
      var id := first.j.stored[0];
      assert AcceptedBy(first.j, id);
      AcceptedEntry(first.j, id);
      AcceptedEntry(second.j, id);
      InBag(BuildAcknowledgement(first.j).accepted, BuildAcknowledgement(second.j).accepted, Entry(id, Stored));
      StoredIsNew(t2.raw, second.j.parts.toStore, id);
      assert false;
    }
    forall i: nat | i < |batch.events|
      ensures ReasonAt(batch.events, times1, batch.device, cfg, i) ==
              ReasonAt(batch.events, times2, batch.device, cfg, i)
    {
      forall reason
        ensures ReasonAt(batch.events, times1, batch.device, cfg, i) == Some(reason) <==>
                ReasonAt(batch.events, times2, batch.device, cfg, i) == Some(reason)
      {
        RejectedOnce(cfg, batch, times1, i, reason);
        RejectedOnce(cfg, batch, times2, i, reason);
        InBag(first.j.parts.rejected, second.j.parts.rejected, Rejection(batch.events[i].id, reason));
      }
      var a := ReasonAt(batch.events, times1, batch.device, cfg, i);
      var b := ReasonAt(batch.events, times2, batch.device, cfg, i);
      assert a.Some? ==> b == Some(a.value);
      assert b.Some? ==> a == Some(b.value);
    }
  }

  lemma StoredIsNew(raw: map<Id, RawRow>, es: seq<Event>, id: Id)
    requires id in Ids(Fresh(raw, es))
    ensures id !in raw
  {
    var e := EventOf(Fresh(raw, es), id);
  }

  /**
   A request with distinct ids under a new batch id, sent again unchanged while nothing else touched that batch id
   and what it accepted is held: the acknowledgement rebuilt then is the one issued at first, up to order, exactly
   when the first call stored nothing and every event was judged alike both times.
   */
  lemma ReplayKeepsAcknowledgement(cfg: Settings, t: Tables, t2: Tables, batch: Batch, r1: int, times1: seq<int>,
                                   touched1: int, r2: int, times2: seq<int>, touched2: int)
    requires |times1| == |times2| == |batch.events| && Distinct(Ids(batch.events))
    requires batch.id !in t.batches && forall id :: (batch.id, id) !in t.acks
    requires Uninterrupted(cfg, t, batch, r1, times1, touched1).j.pc.Replied?
    requires Undisturbed(Uninterrupted(cfg, t, batch, r1, times1, touched1), t2)
    requires Uninterrupted(cfg, t2, batch, r2, times2, touched2).j.pc.Replied?
    ensures var first := Uninterrupted(cfg, t, batch, r1, times1, touched1);
            var second := Uninterrupted(cfg, t2, batch, r2, times2, touched2);
            var r := StoredAcknowledgement(second.t, batch.id);
            r.Some? &&
            (SameUpToOrder(r.value, BuildAcknowledgement(first.j)) <==>
             first.j.stored == [] && JudgedAlike(cfg, batch, times1, times2))
  {
    hide *;
    var first := Uninterrupted(cfg, t, batch, r1, times1, touched1);
    var second := Uninterrupted(cfg, t2, batch, r2, times2, touched2);
    CallReplies(cfg, t, batch, r1, times1, touched1);
    CallReplies(cfg, t2, batch, r2, times2, touched2);
    RebuiltAfterReplay(cfg, t, t2, first, second, batch, r1, times1, r2, times2);
    var r := StoredAcknowledgement(second.t, batch.id).value;
    SameUpToOrderIs(r, BuildAcknowledgement(first.j));
    RejectedIs(first.j);
    RejectedIs(second.j);
    if SameUpToOrder(r, BuildAcknowledgement(first.j)) {
      SameIsAlike(cfg, t, t2, first, second, batch, r1, times1, r2, times2);
    }
    if first.j.stored == [] && JudgedAlike(cfg, batch, times1, times2) {
      AlikeIsSame(cfg, t, t2, first, second, batch, r1, times1, r2, times2);
    }
  }

  lemma SameUpToOrderIs(a: Acknowledgement, b: Acknowledgement)
    ensures SameUpToOrder(a, b) <==>
            a.batch == b.batch && a.receivedAt == b.receivedAt && a.counts == b.counts &&
            multiset(a.accepted) == multiset(b.accepted) && multiset(a.rejected) == multiset(b.rejected)
  {
  }

  lemma RejectedIs(j: Job)
    ensures BuildAcknowledgement(j).rejected == j.parts.rejected
  {
  }
}
