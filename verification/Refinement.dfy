/** A call of `ingest_batch` is one run of the protocol, so every theorem about runs applies to it. */
module Refinement {
  import opened Wrappers
  import opened Seqs
  import opened Types
  import opened Ingestion
  import opened Protocol
  import opened Database
  import opened Confluence
  import opened Deliveries

  ghost predicate Reaches(cfg: Settings, s: State, s': State) {
    exists actions :: Run(cfg, s, actions) == s'
  }

  lemma ReachesSelf(cfg: Settings, s: State)
    ensures Reaches(cfg, s, s)
  {
    assert Run(cfg, s, []) == s;
  }

  lemma ReachesNext(cfg: Settings, s: State, s': State, a: Action)
    requires Reaches(cfg, s, s')
    ensures Reaches(cfg, s, Next(cfg, s', a))
  {
    hide Next;
    var actions :| Run(cfg, s, actions) == s';
    assert (actions + [a])[..|actions|] == actions;
    assert Run(cfg, s, actions + [a]) == Next(cfg, s', a);
  }

  /** Let the clock move on to a reading, then let job `k` take one step. */
  lemma StepAt(cfg: Settings, s: State, s': State, now: int, k: nat) returns (r: State)
    requires Reaches(cfg, s, s') && s'.clock <= now && k < |s'.jobs|
    ensures Reaches(cfg, s, r) && r.clock == now
    ensures var o := Advance(cfg, s'.t, s'.jobs[k], now); r.t == o.t && r.jobs == s'.jobs[k := o.j]
  {
    hide Advance, EntriesOf, Run;
    ReachesNext(cfg, s, s', Tick(now - s'.clock));
    var ticked := Next(cfg, s', Tick(now - s'.clock));
    ReachesNext(cfg, s, ticked, Step(k));
    r := Next(cfg, ticked, Step(k));
  }

  function AfterValidating(batch: Batch, receivedAt: int, times: seq<int>, i: nat, cfg: Settings): Job
    requires |times| == |batch.events| && i <= |times|
  {
    Start(batch, receivedAt).(seen := i, readings := times[..i],
      parts := Partition(batch.events[..i], times[..i], batch.device, cfg))
  }

  lemma {:induction false} ValidateAll(cfg: Settings, s: State, batch: Batch, times: seq<int>, i: nat)
    returns (r: State)
    requires |times| == |batch.events| && i <= |times| && Readings(s.clock, times)
    ensures Reaches(cfg, s, r) && r.t == s.t && r.jobs == s.jobs + [AfterValidating(batch, s.clock, times, i, cfg)]
    ensures r.clock == if i == 0 then s.clock else times[i - 1]
  {
    hide Run, Place;
    if i == 0 {
      ReachesSelf(cfg, s);
      ReachesNext(cfg, s, s, Begin(batch));
      r := Next(cfg, s, Begin(batch));
      assert times[..0] == [];
    } else {
      var q := ValidateAll(cfg, s, batch, times, i - 1);
      r := StepAt(cfg, s, q, times[i - 1], |s.jobs|);
      PartitionStep(batch.events, times, batch.device, cfg, i - 1);
      assert times[..i] == times[..i - 1] + [times[i - 1]];
    }
  }

  lemma {:induction false} BeatAll(cfg: Settings, s: State, q: State, k: nat) returns (r: State)
    requires Reaches(cfg, s, q) && k < |q.jobs| && q.jobs[k].pc.Beating? &&
             q.jobs[k].projected <= |q.jobs[k].parts.toStore|
    ensures var b := BeatLoop(q.t, q.jobs[k]);
            Reaches(cfg, s, r) && r.t == b.t && r.jobs == q.jobs[k := b.j] && r.clock == q.clock
    decreases |q.jobs[k].parts.toStore| - q.jobs[k].projected
  {
    hide Run, BeatOf, IsBeat;
    r := StepAt(cfg, s, q, q.clock, k);
    if r.jobs[k].pc.Beating? {
      r := BeatAll(cfg, s, r, k);
    }
  }

  lemma BeatLoopEnds(t: Tables, j: Job)
    requires j.pc.Beating? && j.projected <= |j.parts.toStore|
    ensures var b := BeatLoop(t, j).j; b.pc.Failed? || b.pc.Batching?
    ensures BeatLoop(t, j).j.batch == j.batch
    decreases |j.parts.toStore| - j.projected
  {
    hide IsBeat, BeatOf;
    var o := BeatStep(t, j);
    if o.j.pc.Beating? {
      BeatLoopEnds(o.t, o.j);
    }
  }

  /** The remaining three transactions, once the heartbeat loop has ended without an exception. */
  lemma Finish(cfg: Settings, s: State, q: State, k: nat, touchedAt: int) returns (r: State)
    requires Reaches(cfg, s, q) && k < |q.jobs| && q.jobs[k].pc.Batching? && q.clock <= touchedAt
    ensures var b := BatchStep(q.t, q.jobs[k]);
            && Reaches(cfg, s, r)
            && r.t == b.t.(acks := RecordAcks(b.t.acks, b.j.batch.id, EntriesOf(b.j)),
               lastSeen := Touch(b.t.lastSeen, b.j.batch.device, touchedAt))
            && r.jobs == q.jobs[k := b.j.(pc := Replied, acked := true)]
  {
    hide Run, RecordBatch, RecordAcks, EntriesOf, Touch, BatchRowOf, Reaches;
    r := StepAt(cfg, s, q, q.clock, k);
    r := StepAt(cfg, s, r, r.clock, k);
    r := StepAt(cfg, s, r, touchedAt, k);
  }

  /** From any state, `ingest_batch` left alone does what the protocol does when only this job is scheduled. */
  lemma IngestIsRun(cfg: Settings, s: State, batch: Batch, times: seq<int>, touchedAt: int)
    requires |times| == |batch.events| && Readings(s.clock, times + [touchedAt])
    ensures var o := Uninterrupted(cfg, s.t, batch, s.clock, times, touchedAt);
            exists s' :: Reaches(cfg, s, s') && s'.t == o.t && s'.jobs == s.jobs + [o.j]
  {
    hide Run, Place, Partition, StoreRaw, Fresh, Known, RecordBatch, RecordAcks, EntriesOf, Touch, BatchRowOf,
         Reaches, BeatLoop, Ids;
    var n, k := |times|, |s.jobs|;
    assert forall i :: 0 <= i < n ==> times[i] == (times + [touchedAt])[i];
    assert touchedAt == (times + [touchedAt])[n];
    var r := ValidateAll(cfg, s, batch, times, n);
    assert batch.events[..n] == batch.events && times[..n] == times;
    r := StepAt(cfg, s, r, r.clock, k);
    assert r.jobs[k] == Validated(batch, s.clock, times, Partition(batch.events, times, batch.device, cfg));
    r := StepAt(cfg, s, r, r.clock, k);
    BeatLoopEnds(r.t, r.jobs[k]);
    r := BeatAll(cfg, s, r, k);
    if r.jobs[k].pc.Batching? {
      r := Finish(cfg, s, r, k, touchedAt);
    }
    var o := Uninterrupted(cfg, s.t, batch, s.clock, times, touchedAt);
    assert r.t == o.t && r.jobs == s.jobs + [o.j];
  }

  // ---------------------------------------------------------------- when a call raises

  /** Entry `i` of the store list is a new heartbeat whose queue depth cannot be read. */
  predicate UnreadableAt(j: Job, i: nat) {
    i < |j.parts.toStore| && IsBeat(j.parts.toStore[i]) && j.parts.toStore[i].id in j.stored &&
    j.parts.toStore[i].payload.queuePending.None?
  }

  lemma BeatStepRaises(t: Tables, j: Job)
    requires j.pc.Beating? && j.projected <= |j.parts.toStore|
    ensures var o := BeatStep(t, j);
            && (o.j.pc.Failed? <==> UnreadableAt(j, j.projected))
            && (o.j.pc.Beating? ==> j.projected < |j.parts.toStore| && o.j == j.(projected := j.projected + 1))
            && (!o.j.pc.Failed? && !o.j.pc.Beating? ==> j.projected == |j.parts.toStore|)
  {
    hide IsBeat, BeatOf;
  }

  /** The heartbeat loop raises exactly when such an entry is still ahead of it. */
  lemma {:induction false} BeatLoopRaises(t: Tables, j: Job)
    requires j.pc.Beating? && j.projected <= |j.parts.toStore|
    ensures BeatLoop(t, j).j.pc.Failed? <==> exists i: nat :: j.projected <= i && UnreadableAt(j, i)
    decreases |j.parts.toStore| - j.projected
  {
    hide BeatStep, IsBeat;
    BeatStepRaises(t, j);
    var o := BeatStep(t, j);
    if o.j.pc.Beating? {
      BeatLoopRaises(o.t, o.j);
      assert forall i: nat :: UnreadableAt(o.j, i) <==> UnreadableAt(j, i);
    }
  }

  /** Event `i` of a request is a heartbeat that the call is the first to store, with an unreadable queue depth. */
  ghost predicate NewUnreadable(cfg: Settings, raw: map<Id, RawRow>, batch: Batch, times: seq<int>, i: nat) {
    FirstGood(batch.events, times, batch.device, cfg, i) && IsBeat(batch.events[i]) && batch.events[i].id !in raw &&
    batch.events[i].payload.queuePending.None?
  }

  /**
   A call of `ingest_batch` raises, after its events are committed, exactly when the request holds such a
   heartbeat among the first acceptable copies; otherwise it replies.
   */
  lemma CallRaises(cfg: Settings, t: Tables, batch: Batch, receivedAt: int, times: seq<int>, touchedAt: int)
    requires |times| == |batch.events|
    ensures var o := Uninterrupted(cfg, t, batch, receivedAt, times, touchedAt);
            && (o.j.pc.Failed? <==> exists i: nat :: NewUnreadable(cfg, t.raw, batch, times, i))
            && (o.j.pc.Failed? || o.j.pc.Replied?)
  {
    hide Partition, FirstGood, IsBeat, BatchStep, BeatLoop, Touch, RecordAcks, EntriesOf, StoreRaw, Fresh, Known, Ids;
    var parts := Partition(batch.events, times, batch.device, cfg);
    var s := StoreStep(t, Validated(batch, receivedAt, times, parts));
    BeatLoopEnds(s.t, s.j);
    BeatLoopRaises(s.t, s.j);
    PartitionExact(batch.events, times, batch.device, cfg);
    FreshStored(t.raw, parts.toStore);
    if i: nat :| UnreadableAt(s.j, i) {
      var e := parts.toStore[i];
      assert e in parts.toStore && FirstEvent(batch.events, times, batch.device, cfg, e);
      var k: nat :| FirstGood(batch.events, times, batch.device, cfg, k) && batch.events[k] == e;
      assert NewUnreadable(cfg, t.raw, batch, times, k);
    }
    if k: nat :| NewUnreadable(cfg, t.raw, batch, times, k) {
      assert FirstEvent(batch.events, times, batch.device, cfg, batch.events[k]);
      var i :| 0 <= i < |parts.toStore| && parts.toStore[i] == batch.events[k];
      assert UnreadableAt(s.j, i);
    }
  }

  lemma FreshStored(raw: map<Id, RawRow>, es: seq<Event>)
    ensures forall e :: e in es ==> (e.id in Ids(Fresh(raw, es)) <==> e.id !in raw)
  {
    forall e | e in es
      ensures e.id in Ids(Fresh(raw, es)) <==> e.id !in raw
    {
      if e.id !in raw {
        IdIn(Fresh(raw, es), e);
      } else if e.id in Ids(Fresh(raw, es)) {
        var x := EventOf(Fresh(raw, es), e.id);
      }
    }
  }

  // ---------------------------------------------------------------- what a call stores and answers

  /** The raw table after a call: old rows as they were, and for each new id the first event kept under it. */
  lemma CallStores(cfg: Settings, t: Tables, batch: Batch, receivedAt: int, times: seq<int>, touchedAt: int)
    requires |times| == |batch.events|
    ensures var o := Uninterrupted(cfg, t, batch, receivedAt, times, touchedAt);
            && (forall id :: id in t.raw ==> id in o.t.raw && o.t.raw[id] == t.raw[id])
            && (forall id :: id in o.t.raw && id !in t.raw ==>
                  o.t.raw[id].receivedAt == receivedAt && o.t.raw[id].firstBatch == batch.id &&
                  FirstKept(cfg, batch, times, id, o.t.raw[id].event))
            && (forall id :: id in o.t.raw <==> id in t.raw || KeptId(cfg, batch, times, id))
  {
    hide Partition, BeatLoop, RecordBatch, Touch, RecordAcks, EntriesOf, FirstKept, KeptId, StoreRaw, Fresh, Known, Ids;
    var parts := Partition(batch.events, times, batch.device, cfg);
    var s := StoreStep(t, Validated(batch, receivedAt, times, parts));
    BeatLoopKeepsRaw(s.t, s.j);
    StoredRows(cfg, t, batch, receivedAt, times);
  }

  /** The event is the first of the request that is kept under this id. */
  ghost predicate FirstKept(cfg: Settings, batch: Batch, times: seq<int>, id: Id, e: Event) {
    exists i: nat ::
      Keeps(batch.events, times, batch.device, cfg, i) && batch.events[i] == e && e.id == id &&
      forall k: nat :: k < i && Keeps(batch.events, times, batch.device, cfg, k) ==> batch.events[k].id != id
  }

  ghost predicate KeptId(cfg: Settings, batch: Batch, times: seq<int>, id: Id) {
    exists i: nat :: Keeps(batch.events, times, batch.device, cfg, i) && batch.events[i].id == id
  }

  lemma {:induction false} BeatLoopKeepsRaw(t: Tables, j: Job)
    requires j.pc.Beating? && j.projected <= |j.parts.toStore|
    ensures BeatLoop(t, j).t.raw == t.raw
    decreases |j.parts.toStore| - j.projected
  {
    hide BeatStep;
    BeatStepRaises(t, j);
    BeatStepRaw(t, j);
    var o := BeatStep(t, j);
    if o.j.pc.Beating? {
      BeatLoopKeepsRaw(o.t, o.j);
    }
  }

  lemma BeatStepRaw(t: Tables, j: Job)
    ensures BeatStep(t, j).t.raw == t.raw
  {
    hide IsBeat, BeatOf;
  }

  lemma StoredRows(cfg: Settings, t: Tables, batch: Batch, receivedAt: int, times: seq<int>)
    requires |times| == |batch.events|
    ensures var raw := StoreRaw(t.raw, Partition(batch.events, times, batch.device, cfg).toStore, receivedAt, batch.id);
            && (forall id :: id in t.raw ==> id in raw && raw[id] == t.raw[id])
            && (forall id :: id in raw && id !in t.raw ==>
                  raw[id].receivedAt == receivedAt && raw[id].firstBatch == batch.id &&
                  FirstKept(cfg, batch, times, id, raw[id].event))
            && (forall id :: id in raw <==> id in t.raw || KeptId(cfg, batch, times, id))
  {
    hide Partition, Keeps, Ids;
    var es := Partition(batch.events, times, batch.device, cfg).toStore;
    var f := Fresh(t.raw, es);
    RequestExact(batch.events, times, batch.device, cfg);
    InsertOrIgnoreRows(t.raw, f, receivedAt, batch.id);
    hide InsertOrIgnore;
    FreshIds(t.raw, es);
    BagIds(es);
    var raw := StoreRaw(t.raw, es, receivedAt, batch.id);
    forall id | id in raw && id !in t.raw
      ensures FirstKept(cfg, batch, times, id, raw[id].event)
    {
      var e := raw[id].event;
      assert e in f && e in es;
      var i: nat :| Keeps(batch.events, times, batch.device, cfg, i) && batch.events[i] == e &&
                    forall k: nat :: k < i && Keeps(batch.events, times, batch.device, cfg, k) ==>
                           batch.events[k].id != e.id;
    }
    forall id
      ensures id in raw <==> id in t.raw || KeptId(cfg, batch, times, id)
    {
      assert id in Bag(es) <==> id in Ids(es);
    }
  }

  // ---------------------------------------------------------------- what a replay does to the recorded verdicts

  /** A batch of one acceptable event, which is not a heartbeat. */
  lemma OneEventBatch(cfg: Settings, t: Tables, e: Event, batchId: Id, now: int)
    requires Acceptable(e, cfg, now) && !IsBeat(e)
    ensures var o := Uninterrupted(cfg, t, Batch(batchId, e.device, [e]), now, [now], now);
            && o.j.pc.Replied?
            && o.j.stored == (if e.id in t.raw then [] else [e.id]) &&
               o.j.duplicate == (if e.id in t.raw then [e.id] else [])
            && o.t.raw == (if e.id in t.raw then t.raw else t.raw[e.id := RowOf(e, now, batchId)])
            && o.t.acks == t.acks[(batchId, e.id) := if e.id in t.raw then Duplicate else Stored]
            && o.t.batches == RecordBatch(t.batches, batchId, BatchRowOf(o.j))
  {
    hide Acceptable, Touch, RecordBatch, StoreStep, BeatLoop, EntriesOf, RecordAcks, Partition, IsBeat;
    OnePart(e, cfg, now);
    var batch := Batch(batchId, e.device, [e]);
    var v := Validated(batch, now, [now], Parts([], [e], []));
    var s := StoreStep(t, v);
    OneStore(t, v, e);
    OneBeat(s.t, s.j, e);
    OneEntry(t.acks, batchId, e.id, s.j.stored, s.j.duplicate);
    var b := BeatLoop(s.t, s.j);
    var r := BatchStep(b.t, b.j);
    EntriesAre(r.j);
  }

  lemma EntriesAre(j: Job)
    requires j.parts.rejected == []
    ensures EntriesOf(j) == Entries(j.stored, j.duplicate, [])
  {
  }

  lemma OneStore(t: Tables, j: Job, e: Event)
    requires j.parts == Parts([], [e], [])
    ensures var o := StoreStep(t, j);
            && o.j == j.(pc := Beating, committed := true, stored := if e.id in t.raw then [] else [e.id],
                         duplicate := if e.id in t.raw then [e.id] else [])
            && o.t == t.(raw := if e.id in t.raw then t.raw else t.raw[e.id := RowOf(e, j.receivedAt, j.batch.id)])
  {
    OneId(e);
    assert Fresh(t.raw, [e]) == if e.id in t.raw then [] else [e];
    assert Known(t.raw, [e]) == if e.id in t.raw then [e] else [];
    assert [e][1..] == [];
    var added := t.raw[e.id := RowOf(e, j.receivedAt, j.batch.id)];
    assert InsertOrIgnore(t.raw, [], j.receivedAt, j.batch.id) == t.raw &&
           InsertOrIgnore(added, [], j.receivedAt, j.batch.id) == added;
    assert e.id !in t.raw ==> InsertOrIgnore(t.raw, [e], j.receivedAt, j.batch.id) == added;
    assert StoreRaw(t.raw, [e], j.receivedAt, j.batch.id) == if e.id in t.raw then t.raw else added;
  }

  lemma OneId(e: Event)
    ensures Ids([e]) == [e.id] && Ids([]) == []
  {
  }

  lemma OnePart(e: Event, cfg: Settings, now: int)
    requires Acceptable(e, cfg, now)
    ensures Partition([e], [now], e.device, cfg) == Parts([], [e], [])
  {
    hide Validate;
    assert [e][..0] == [] && [now][..0] == [];
    assert Partition([], [], e.device, cfg) == Parts([], [], []);
    assert Ids([]) == [];
  }

  lemma OneBeat(t: Tables, j: Job, e: Event)
    requires j.pc.Beating? && j.projected == 0 && j.parts.toStore == [e] && !IsBeat(e)
    ensures BeatLoop(t, j) == Outcome(t, j.(projected := 1, pc := Batching))
  {
    hide IsBeat;
    var o := BeatStep(t, j);
    assert o == Outcome(t, j.(projected := 1));
    assert BeatStep(t, o.j) == Outcome(t, j.(projected := 1, pc := Batching));
    assert BeatLoop(o.t, o.j) == BeatStep(t, o.j);
  }

  lemma OneEntry(acks: map<(Id, Id), Status>, b: Id, id: Id, stored: seq<Id>, duplicate: seq<Id>)
    requires (stored == [id] && duplicate == []) || (stored == [] && duplicate == [id])
    ensures RecordAcks(acks, b, Entries(stored, duplicate, [])) ==
            acks[(b, id) := if stored == [] then Duplicate else Stored]
  {
    var entry := Entry(id, if stored == [] then Duplicate else Stored);
    assert Entries(stored, duplicate, []) == [entry];
    assert [entry][..0] == [];
  }

  /**
   Sending a batch again rewrites its recorded verdicts: the rebuilt acknowledgement then lists as a duplicate
   what its own counts still call stored.  Nothing else about the event changes.
   */
  lemma ReplayRewritesVerdict(cfg: Settings, t: Tables, e: Event, batchId: Id, now: int)
    requires Acceptable(e, cfg, now) && !IsBeat(e) && e.id !in t.raw && batchId !in t.batches
    ensures var batch := Batch(batchId, e.device, [e]);
            var first := Uninterrupted(cfg, t, batch, now, [now], now).t;
            var second := Uninterrupted(cfg, first, batch, now, [now], now).t;
            && (batchId, e.id) in first.acks && first.acks[(batchId, e.id)] == Stored
            && (batchId, e.id) in second.acks && second.acks[(batchId, e.id)] == Duplicate
            && batchId in second.batches
            && second.batches[batchId].stored == 1 && second.batches[batchId].duplicate == 0 &&
               second.batches[batchId].replays == 1
            && second.raw == first.raw
  {
    hide Uninterrupted, Acceptable;
    OneEventBatch(cfg, t, e, batchId, now);
    var o := Uninterrupted(cfg, t, Batch(batchId, e.device, [e]), now, [now], now);
    assert |o.j.stored| == 1 && |o.j.duplicate| == 0;
    OneEventBatch(cfg, o.t, e, batchId, now);
  }
}
