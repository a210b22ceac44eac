/** The event store as the program writes it: a database object and `ingest_batch` over it. */
module Database {
  import opened Wrappers
  import opened Seqs
  import opened Types
  import opened Ingestion
  import opened Protocol
  import opened Acknowledgements

  const CHUNK := 500

  datatype IngestionResult = IngestionResult(acknowledgement: Acknowledgement, isReplay: bool,
                                             stored: seq<Id>, duplicate: seq<Id>, rejected: seq<Id>)

  class EventStore {
    var raw: map<Id, RawRow>
    var beats: map<Id, BeatRow>
    var batches: map<Id, BatchRow>
    var acks: map<(Id, Id), Status>
    var lastSeen: map<Id, int>

    constructor (devices: map<Id, int>)
      ensures Contents() == Tables(map[], map[], map[], map[], devices)
    {
      raw, beats, batches, acks, lastSeen := map[], map[], map[], map[], devices;
    }

    function Contents(): Tables
      reads this
    {
      Tables(raw, beats, batches, acks, lastSeen)
    }

    /** One transaction: scan for existing ids in chunks of 500, then insert the rest. */
    method StoreEvents(es: seq<Event>, receivedAt: int, batch: Id) returns (stored: seq<Id>, duplicate: seq<Id>)
      modifies this`raw
      ensures raw == StoreRaw(old(raw), es, receivedAt, batch)
      ensures stored == Ids(Fresh(old(raw), es)) && duplicate == Ids(Known(old(raw), es))
    {
      stored, duplicate := [], [];
      if es == [] {
        return;
      }
      var existing: set<Id> := {};
      var ids := Ids(es);
      var start := 0;
      while start < |ids|
        invariant 0 <= start
        invariant existing == set id | id in ids[..if start <= |ids| then start else |ids|] && id in raw
      {
        var end := if start + CHUNK <= |ids| then start + CHUNK else |ids|;
        var chunk := ids[start..end];
        assert ids[..end] == ids[..start] + chunk;
        existing := existing + set id | id in chunk && id in raw;
        start := start + CHUNK;
      }
      assert ids[..|ids|] == ids;
      var newRows := Filter(es, (e: Event) => e.id !in existing);
      var known := Filter(es, (e: Event) => e.id in existing);
      ExistingIsMembership(raw, es, existing);
      raw := InsertOrIgnore(raw, newRows, receivedAt, batch);
      stored, duplicate := Ids(newRows), Ids(known);
    }

    /** False when reading the payload raises; the table is then left alone. */
    method RecordHeartbeat(e: Event) returns (ok: bool)
      modifies this`beats
      ensures ok == e.payload.queuePending.Some?
      ensures beats == if ok then old(beats)[e.id := BeatOf(e)] else old(beats)
    {
      ok := e.payload.queuePending.Some?;
      if ok {
        beats := beats[e.id := BeatOf(e)];
      }
    }

    /** False when the batch id was there before. */
    method RecordBatchRow(id: Id, row: BatchRow) returns (isNew: bool)
      modifies this`batches
      ensures isNew == (id !in old(batches))
      ensures batches == RecordBatch(old(batches), id, row)
    {
      if id in batches {
        batches := batches[id := batches[id].(replays := batches[id].replays + 1)];
        return false;
      }
      batches := batches[id := row];
      return true;
    }

    method RecordAcknowledgements(batch: Id, entries: seq<Entry>)
      modifies this`acks
      ensures acks == RecordAcks(old(acks), batch, entries)
    {
      if entries == [] {
        return;
      }
      for i := 0 to |entries|
        invariant acks == RecordAcks(old(acks), batch, entries[..i])
      {
        assert entries[..i + 1][..i] == entries[..i];
        acks := acks[(batch, entries[i].id) := entries[i].status];
      }
      assert entries[..|entries|] == entries;
    }

    method TouchDevice(device: Id, now: int)
      modifies this`lastSeen
      ensures lastSeen == Touch(old(lastSeen), device, now)
    {
      if device in lastSeen {
        lastSeen := lastSeen[device := now];
      }
    }

    /**
     `ingest_batch`.  `times` are the clock readings of the validation loop, `touchedAt` the one that stamps
     the device.  None stands for the exception of an unreadable heartbeat payload.
     */
    method IngestBatch(cfg: Settings, batch: Batch, receivedAt: int, times: seq<int>, touchedAt: int)
      returns (result: Option<IngestionResult>)
      requires |times| == |batch.events|
      modifies this
      ensures var o := Uninterrupted(cfg, old(Contents()), batch, receivedAt, times, touchedAt);
              Contents() == o.t && result == (if o.j.pc.Failed? then None else Some(ResultOf(o.j)))
    {
      hide Validate, Ids, StoreRaw, Fresh, Known, RecordAcks, RecordBatch, Touch, Entries, RejectedIds;
      var rejected, toStore, repeats := [], [], [];
      for i := 0 to |batch.events|
        invariant Parts(rejected, toStore, repeats) == Partition(batch.events[..i], times[..i], batch.device, cfg)
        invariant Contents() == old(Contents())
      {
        PartitionStep(batch.events, times, batch.device, cfg, i);
        var event := batch.events[i];
        if event.device != batch.device {
          rejected := rejected + [Rejection(event.id, DeviceMismatch)];
          continue;
        }
        var reason := Validate(event, cfg, times[i]);
        if reason.Some? {
          rejected := rejected + [Rejection(event.id, reason.value)];
          continue;
        }
        if event.id in Ids(toStore) {
          repeats := repeats + [event.id];
        } else {
          toStore := toStore + [event];
        }
      }
      assert batch.events[..|batch.events|] == batch.events && times[..|times|] == times;
      ghost var v := Validated(batch, receivedAt, times, Parts(rejected, toStore, repeats));
      ghost var s := StoreStep(old(Contents()), v);

      var stored, duplicate := StoreEvents(toStore, receivedAt, batch.id);
      duplicate := duplicate + repeats;
      assert Contents() == s.t && s.j == v.(pc := Beating, committed := true, stored := stored, duplicate := duplicate);

      for i := 0 to |toStore|
        invariant Contents() == s.t.(beats := beats)
        invariant BeatLoop(Contents(), s.j.(projected := i)) == BeatLoop(s.t, s.j)
      {
        var event := toStore[i];
        if IsBeat(event) && event.id in stored {
          var ok := RecordHeartbeat(event);
          if !ok {
            return None;
          }
        }
      }
      ghost var b := BeatLoop(s.t, s.j);
      assert b == Outcome(Contents(), s.j.(projected := |toStore|, pc := Batching));

      var isNew := RecordBatchRow(batch.id, BatchOf(batch, receivedAt, |stored|, |duplicate|, |rejected|));
      RecordAcknowledgements(batch.id, Entries(stored, duplicate, rejected));
      TouchDevice(batch.device, touchedAt);

      ghost var done := b.j.(pc := Replied, recorded := true, isNew := isNew, acked := true);
      var acknowledgement := Acknowledgement(batch.id, receivedAt,
        Map(stored, (id: Id) => Entry(id, Stored)) + Map(duplicate, (id: Id) => Entry(id, Duplicate)), rejected,
        Counts(|batch.events|, |stored|, |duplicate|, |rejected|));
      assert acknowledgement == BuildAcknowledgement(done);
      result := Some(IngestionResult(acknowledgement, !isNew, stored, duplicate, RejectedIds(rejected)));
    }
  }

  lemma ExistingIsMembership(raw: map<Id, RawRow>, es: seq<Event>, existing: set<Id>)
    requires existing == set id | id in Ids(es) && id in raw
    ensures Filter(es, (e: Event) => e.id !in existing) == Fresh(raw, es)
    ensures Filter(es, (e: Event) => e.id in existing) == Known(raw, es)
  {
    forall e | e in es
      ensures e.id in existing <==> e.id in raw
    {
      IdIn(es, e);
    }
    FilterSame(es, (e: Event) => e.id !in existing, (e: Event) => e.id !in raw);
    FilterSame(es, (e: Event) => e.id in existing, (e: Event) => e.id in raw);
  }

  lemma PartitionStep(es: seq<Event>, times: seq<int>, device: Id, cfg: Settings, i: nat)
    requires |times| == |es| && i < |es|
    ensures Partition(es[..i + 1], times[..i + 1], device, cfg) ==
            Place(Partition(es[..i], times[..i], device, cfg), es[i], device, cfg, times[i])
  {
    assert es[..i + 1][..i] == es[..i] && times[..i + 1][..i] == times[..i];
  }

  // ---------------------------------------------------------------- one ingest on its own

  function ResultOf(j: Job): IngestionResult {
    IngestionResult(BuildAcknowledgement(j), !j.isNew, j.stored, j.duplicate, RejectedIds(j.parts.rejected))
  }

  /** A job whose validation loop is done. */
  function Validated(batch: Batch, receivedAt: int, times: seq<int>, parts: Parts): Job {
    Start(batch, receivedAt).(pc := Storing, seen := |batch.events|, readings := times, parts := parts)
  }

  function BeatLoop(t: Tables, j: Job): Outcome
    requires j.pc.Beating? && j.projected <= |j.parts.toStore|
    decreases |j.parts.toStore| - j.projected
  {
    var o := BeatStep(t, j);
    if o.j.pc.Beating? then BeatLoop(o.t, o.j) else o
  }

  /** The steps of a job in order, with nothing in between: up to its reply or its exception. */
  function Uninterrupted(cfg: Settings, t: Tables, batch: Batch, receivedAt: int, times: seq<int>,
                         touchedAt: int): Outcome
    requires |times| == |batch.events|
  {
    var s := StoreStep(t, Validated(batch, receivedAt, times, Partition(batch.events, times, batch.device, cfg)));
    var b := BeatLoop(s.t, s.j);
    if b.j.pc.Failed? then b
    else
      var r := BatchStep(b.t, b.j);
      Outcome(r.t.(acks := RecordAcks(r.t.acks, batch.id, EntriesOf(r.j)),
        lastSeen := Touch(r.t.lastSeen, batch.device, touchedAt)),
              r.j.(pc := Replied, acked := true))
  }
}
