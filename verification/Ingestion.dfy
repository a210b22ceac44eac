/** What each part of `ingest_batch` computes, as functions on values (ingestion.py, database.py). */
module Ingestion {
  import opened Wrappers
  import opened Seqs
  import opened Calendar
  import opened Timestamps
  import opened Types
  import Text

  // ---------------------------------------------------------------- verdicts

  function Validate(e: Event, cfg: Settings, now: int): Option<Reason> {
    if e.size > cfg.maxEventBytes then Some(TooLarge)
    else match ParseIsoUtc(e.time)
      case None => Some(BadTimestamp)
      case Some(t) =>
        if t > now + SECOND * cfg.maxFutureSkew then Some(TooFarInFuture)
        else if Scan(e.time).year < 2000 then Some(ImplausiblyOld)
        else None
  }

  predicate Acceptable(e: Event, cfg: Settings, now: int) {
    Validate(e, cfg, now).None?
  }

  /**
   The rules a sender can check beforehand: small enough, a real timestamp, from the year 2000 on, and not further
   ahead of the server's clock than the skew allows.
   */
  predicate Admissible(e: Event, cfg: Settings, now: int) {
    e.size <= cfg.maxEventBytes && Accepted(e.time) &&
    YEAR_2000 <= Instant(e.time) <= now + cfg.maxFutureSkew * 1_000_000
  }

  /** An event is accepted exactly by the rules, and each reason is given exactly when those before it do not apply. */
  lemma VerdictExact(e: Event, cfg: Settings, now: int)
    ensures Acceptable(e, cfg, now) <==> Admissible(e, cfg, now)
    ensures var v := Validate(e, cfg, now);
            var small, valid, late := e.size <= cfg.maxEventBytes, Accepted(e.time), now +
                cfg.maxFutureSkew * 1_000_000;
            && (v == None <==> Admissible(e, cfg, now))
            && (v == Some(TooLarge) <==> !small)
            && (v == Some(BadTimestamp) <==> small && !valid)
            && (v == Some(TooFarInFuture) <==> small && valid && Instant(e.time) > late)
            && (v == Some(ImplausiblyOld) <==> small && valid && Instant(e.time) <= late && Instant(e.time) < YEAR_2000)
            && v != Some(DeviceMismatch)
  {
    hide Accepted, Instant;
    if Accepted(e.time) {
      YearBounds(e.time);
    }
  }

  /** Waiting never turns an acceptable event into a rejected one. */
  lemma AcceptableLater(e: Event, cfg: Settings, now: int, later: int)
    requires Acceptable(e, cfg, now) && now <= later
    ensures Acceptable(e, cfg, later)
  {
  }

  /** An acceptable event has a real timestamp in the years 2000 to 9999. */
  lemma AcceptableTime(e: Event, cfg: Settings, now: int)
    requires Acceptable(e, cfg, now)
    ensures Accepted(e.time) && YEAR_2000 <= Instant(e.time) < YEAR_10000
  {
    YearBounds(e.time);
  }

  // ---------------------------------------------------------------- the partition

  function Ids(es: seq<Event>): (ids: seq<Id>)
    ensures |ids| == |es| && forall i :: 0 <= i < |es| ==> ids[i] == es[i].id
  {
    Map(es, (e: Event) => e.id)
  }

  function RejectedIds(rs: seq<Rejection>): (ids: seq<Id>)
    ensures |ids| == |rs| && forall i :: 0 <= i < |rs| ==> ids[i] == rs[i].id
  {
    Map(rs, (r: Rejection) => r.id)
  }

  /** The three lists the validation loop fills; `toStore` is the insertion order of the dictionary. */
  datatype Parts = Parts(rejected: seq<Rejection>, toStore: seq<Event>, repeats: seq<Id>)

  function Place(p: Parts, e: Event, device: Id, cfg: Settings, now: int): Parts {
    if e.device != device then p.(rejected := p.rejected + [Rejection(e.id, DeviceMismatch)])
    else match Validate(e, cfg, now)
      case Some(reason) => p.(rejected := p.rejected + [Rejection(e.id, reason)])
      case None =>
        if e.id in Ids(p.toStore) then p.(repeats := p.repeats + [e.id])
        else p.(toStore := p.toStore + [e])
  }

  /** The loop over a batch, reading the clock once for each event. */
  function Partition(es: seq<Event>, times: seq<int>, device: Id, cfg: Settings): Parts
    requires |times| == |es|
  {
    if es == [] then Parts([], [], [])
    else
      var n := |es| - 1;
      Place(Partition(es[..n], times[..n], device, cfg), es[n], device, cfg, times[n])
  }

  /** Every event placed so far sits in exactly one list, and only first copies are to be stored. */
  ghost predicate PartsOk(p: Parts, es: seq<Event>, device: Id) {
    && multiset(RejectedIds(p.rejected)) + multiset(Ids(p.toStore)) + multiset(p.repeats) == multiset(Ids(es))
    && Distinct(Ids(p.toStore))
    && (forall id :: id in p.repeats ==> id in Ids(p.toStore))
    && (forall e :: e in p.toStore ==> e in es && e.device == device)
  }

  lemma IdsCons(e: Event, es: seq<Event>)
    ensures Ids([e] + es) == [e.id] + Ids(es)
    ensures multiset(Ids([e] + es)) == multiset{e.id} + multiset(Ids(es))
    ensures forall id :: id in Ids([e] + es) <==> id == e.id || id in Ids(es)
  {
    var r := Ids([e] + es);
    assert forall i :: 1 <= i < |r| ==> r[i] == es[i - 1].id;
    assert r == [e.id] + Ids(es);
  }

  function Bag(es: seq<Event>): multiset<Id> {
    if es == [] then multiset{} else multiset{es[0].id} + Bag(es[1..])
  }

  lemma {:induction false} BagIds(es: seq<Event>)
    ensures Bag(es) == multiset(Ids(es))
  {
    if es == [] {
      assert Ids(es) == [];
    } else {
      BagIds(es[1..]);
      assert es == [es[0]] + es[1..];
      IdsCons(es[0], es[1..]);
    }
  }

  lemma IdsSnoc(es: seq<Event>, e: Event)
    ensures Ids(es + [e]) == Ids(es) + [e.id]
    ensures multiset(Ids(es + [e])) == multiset(Ids(es)) + multiset{e.id}
    ensures forall id :: id in Ids(es + [e]) <==> id in Ids(es) || id == e.id
  {
  }

  lemma RejectedSnoc(rs: seq<Rejection>, r: Rejection)
    ensures RejectedIds(rs + [r]) == RejectedIds(rs) + [r.id]
    ensures multiset(RejectedIds(rs + [r])) == multiset(RejectedIds(rs)) + multiset{r.id}
  {
  }

  lemma GrowRejected(p: Parts, es: seq<Event>, e: Event, reason: Reason, device: Id)
    requires PartsOk(p, es, device)
    ensures PartsOk(p.(rejected := p.rejected + [Rejection(e.id, reason)]), es + [e], device)
  {
    IdsSnoc(es, e);
    RejectedSnoc(p.rejected, Rejection(e.id, reason));
    hide Ids, RejectedIds;
  }

  lemma GrowRepeats(p: Parts, es: seq<Event>, e: Event, device: Id)
    requires PartsOk(p, es, device) && e.id in Ids(p.toStore)
    ensures PartsOk(p.(repeats := p.repeats + [e.id]), es + [e], device)
  {
    IdsSnoc(es, e);
    hide Ids, RejectedIds;
    assert multiset(p.repeats + [e.id]) == multiset(p.repeats) + multiset{e.id};
  }

  lemma GrowStore(p: Parts, es: seq<Event>, e: Event)
    requires PartsOk(p, es, e.device) && e.id !in Ids(p.toStore)
    ensures PartsOk(p.(toStore := p.toStore + [e]), es + [e], e.device)
  {
    IdsSnoc(es, e);
    IdsSnoc(p.toStore, e);
    hide Ids, RejectedIds;
  }

  lemma PlaceKeepsParts(p: Parts, es: seq<Event>, e: Event, device: Id, cfg: Settings, now: int)
    requires PartsOk(p, es, device)
    ensures PartsOk(Place(p, e, device, cfg, now), es + [e], device)
  {
    hide Validate, PartsOk, Ids;
    if e.device != device {
      GrowRejected(p, es, e, DeviceMismatch, device);
    } else if Validate(e, cfg, now).Some? {
      GrowRejected(p, es, e, Validate(e, cfg, now).value, device);
    } else if e.id in Ids(p.toStore) {
      GrowRepeats(p, es, e, device);
    } else {
      GrowStore(p, es, e);
    }
  }

  /** Verdict conservation for the partition of a whole batch, duplicates inside the batch included. */
  lemma {:induction false} PartitionConserves(es: seq<Event>, times: seq<int>, device: Id, cfg: Settings)
    requires |times| == |es|
    ensures PartsOk(Partition(es, times, device, cfg), es, device)
  {
    if es == [] {
      assert Ids(es) == [];
    } else {
      var n := |es| - 1;
      PartitionConserves(es[..n], times[..n], device, cfg);
      PlaceKeepsParts(Partition(es[..n], times[..n], device, cfg), es[..n], es[n], device, cfg, times[n]);
      assert es == es[..n] + [es[n]];
    }
  }

  // ---------------------------------------------------------------- store_events

  function RowOf(e: Event, receivedAt: int, batch: Id): RawRow {
    RawRow(e, receivedAt, batch)
  }

  /** `INSERT OR IGNORE`, one row at a time. */
  function InsertOrIgnore(raw: map<Id, RawRow>, es: seq<Event>, receivedAt: int, batch: Id): map<Id, RawRow>
    decreases |es|
  {
    if es == [] then raw
    else
      var e := es[0];
      InsertOrIgnore(if e.id in raw then raw else raw[e.id := RowOf(e, receivedAt, batch)], es[1..], receivedAt, batch)
  }

  function Fresh(raw: map<Id, RawRow>, es: seq<Event>): seq<Event> {
    Filter(es, (e: Event) => e.id !in raw)
  }

  function Known(raw: map<Id, RawRow>, es: seq<Event>): seq<Event> {
    Filter(es, (e: Event) => e.id in raw)
  }

  /** The raw table after one `store_events` transaction. */
  function StoreRaw(raw: map<Id, RawRow>, es: seq<Event>, receivedAt: int, batch: Id): map<Id, RawRow> {
    InsertOrIgnore(raw, Fresh(raw, es), receivedAt, batch)
  }

  ghost predicate FirstWith(es: seq<Event>, e: Event) {
    exists i :: 0 <= i < |es| && es[i] == e && forall k :: 0 <= k < i ==> es[k].id != e.id
  }

  /** Old rows stay as they were; each new id gets the first event that carries it. */
  lemma {:induction false} InsertOrIgnoreRows(raw: map<Id, RawRow>, es: seq<Event>, receivedAt: int, batch: Id)
    ensures var r := InsertOrIgnore(raw, es, receivedAt, batch);
            && (forall id :: id in r <==> id in raw || id in Bag(es))
            && (forall id :: id in raw ==> r[id] == raw[id])
            && (forall id :: id in r && id !in raw ==>
                  r[id].event.id == id && FirstWith(es, r[id].event) && r[id] == RowOf(r[id].event, receivedAt, batch))
    decreases |es|
  {
    if es != [] {
      var e := es[0];
      var raw' := if e.id in raw then raw else raw[e.id := RowOf(e, receivedAt, batch)];
      InsertOrIgnoreRows(raw', es[1..], receivedAt, batch);
      var r := InsertOrIgnore(raw, es, receivedAt, batch);
      assert r == InsertOrIgnore(raw', es[1..], receivedAt, batch);
      forall id | id in r && id !in raw
        ensures FirstWith(es, r[id].event)
      {
        if id == e.id {
          assert es[0] == r[id].event;
        } else {
          FirstWithTail(es, r[id].event);
        }
      }
    }
  }

  lemma FirstWithTail(es: seq<Event>, x: Event)
    requires es != [] && FirstWith(es[1..], x) && es[0].id != x.id
    ensures FirstWith(es, x)
  {
    var i :| 0 <= i < |es[1..]| && es[1..][i] == x && forall k :: 0 <= k < i ==> es[1..][k].id != x.id;
    assert es[i + 1] == x;
    forall k | 0 <= k < i + 1
      ensures es[k].id != x.id
    {
      if k > 0 {
        assert es[k] == es[1..][k - 1];
      }
    }
  }

  lemma {:induction false} DistinctFilter(es: seq<Event>, p: Event -> bool)
    requires Distinct(Ids(es))
    ensures Distinct(Ids(Filter(es, p)))
  {
    if es != [] {
      var t := es[1..];
      assert forall i :: 0 <= i < |t| ==> t[i] == es[i + 1] && Ids(t)[i] == Ids(es)[i + 1];
      DistinctFilter(t, p);
      forall x | x in Filter(t, p)
        ensures x.id != es[0].id
      {
        var i :| 0 <= i < |t| && t[i] == x;
        assert Ids(es)[0] != Ids(es)[i + 1];
      }
    }
  }

  lemma {:induction false} BagSplit(es: seq<Event>, p: Event -> bool, q: Event -> bool)
    requires forall e :: e in es ==> (p(e) <==> !q(e))
    ensures Bag(es) == Bag(Filter(es, p)) + Bag(Filter(es, q))
  {
    if es != [] {
      BagSplit(es[1..], p, q);
    }
  }

  lemma IdsSplit(es: seq<Event>, p: Event -> bool, q: Event -> bool)
    requires forall e :: e in es ==> (p(e) <==> !q(e))
    ensures multiset(Ids(es)) == multiset(Ids(Filter(es, p))) + multiset(Ids(Filter(es, q)))
  {
    BagSplit(es, p, q);
    BagIds(es);
    BagIds(Filter(es, p));
    BagIds(Filter(es, q));
  }

  lemma IdIn(es: seq<Event>, e: Event)
    requires e in es
    ensures e.id in Ids(es)
  {
    var i :| 0 <= i < |es| && es[i] == e;
    assert Ids(es)[i] == e.id;
  }

  lemma EventOf(es: seq<Event>, id: Id) returns (e: Event)
    requires id in Ids(es)
    ensures e in es && e.id == id
  {
    var i :| 0 <= i < |es| && Ids(es)[i] == id;
    e := es[i];
  }

  /**
   One `store_events` call on rows with distinct ids: the ids handed in split into stored and duplicate,
   the stored ones are exactly the new keys of the table, each with its own event, and no old row changes.
   */
  lemma StoreSplits(raw: map<Id, RawRow>, es: seq<Event>, receivedAt: int, batch: Id)
    requires Distinct(Ids(es))
    ensures var stored, dup, r := Ids(Fresh(raw, es)), Ids(Known(raw, es)), StoreRaw(raw, es, receivedAt, batch);
            && multiset(Ids(es)) == multiset(stored) + multiset(dup)
            && Distinct(stored)
            && (forall id :: id in stored ==> id in Ids(es) && id !in raw)
            && (forall id :: id in dup ==> id in raw)
            && (forall id :: id in raw ==> id in r && r[id] == raw[id])
            && (forall id :: id in r <==> id in raw || id in stored)
            && (forall e :: e in es && e.id in stored ==> r[e.id] == RowOf(e, receivedAt, batch))
  {
    var p := (e: Event) => e.id !in raw;
    var q := (e: Event) => e.id in raw;
    IdsSplit(es, p, q);
    DistinctFilter(es, p);
    var f := Fresh(raw, es);
    InsertOrIgnoreRows(raw, f, receivedAt, batch);
    BagIds(f);
    forall id | id in Ids(f)
      ensures id in Ids(es) && id !in raw
    {
      var e := EventOf(f, id);
      IdIn(es, e);
    }
    forall id | id in Ids(Known(raw, es))
      ensures id in raw
    {
      var e := EventOf(Known(raw, es), id);
    }
    var r := StoreRaw(raw, es, receivedAt, batch);
    forall e | e in es && e.id in Ids(f)
      ensures r[e.id] == RowOf(e, receivedAt, batch)
    {
      OneEventPerId(es, e, r[e.id].event);
    }
  }

  lemma OneEventPerId(es: seq<Event>, a: Event, b: Event)
    requires Distinct(Ids(es)) && a in es && b in es && a.id == b.id
    ensures a == b
  {
    var i :| 0 <= i < |es| && es[i] == a;
    var k :| 0 <= k < |es| && es[k] == b;
    assert Ids(es)[i] == Ids(es)[k];
  }

  // ---------------------------------------------------------------- the other transactions

  predicate IsBeat(e: Event) {
    e.source == HEARTBEAT
  }

  function BeatOf(e: Event): BeatRow
    requires e.payload.queuePending.Some?
  {
    BeatRow(e.device, e.time, e.payload.queuePending.value, e.payload.enabledCollectors)
  }

  function BatchOf(b: Batch, receivedAt: int, stored: nat, duplicate: nat, rejected: nat): BatchRow {
    BatchRow(b.device, receivedAt, |b.events|, stored, duplicate, rejected, 0)
  }

  /** `record_batch`: the first arrival writes the counts, every later one only counts itself. */
  function RecordBatch(batches: map<Id, BatchRow>, id: Id, row: BatchRow): map<Id, BatchRow> {
    if id in batches then batches[id := batches[id].(replays := batches[id].replays + 1)]
    else batches[id := row]
  }

  /** The entries handed to `record_acknowledgements`: stored, then duplicate, then rejected. */
  function Entries(stored: seq<Id>, duplicate: seq<Id>, rejected: seq<Rejection>): seq<Entry> {
    Map(stored, (id: Id) => Entry(id, Stored)) + Map(duplicate, (id: Id) => Entry(id, Duplicate)) +
    Map(rejected, (r: Rejection) => Entry(r.id, Rejected(r.reason)))
  }

  /** `INSERT OR REPLACE`, one entry at a time. */
  function RecordAcks(acks: map<(Id, Id), Status>, batch: Id, es: seq<Entry>): map<(Id, Id), Status> {
    if es == [] then acks
    else
      var n := |es| - 1;
      RecordAcks(acks, batch, es[..n])[(batch, es[n].id) := es[n].status]
  }

  function Touch(lastSeen: map<Id, int>, device: Id, now: int): map<Id, int> {
    if device in lastSeen then lastSeen[device := now] else lastSeen
  }

  /** Retention deletes by text comparison of the event time. */
  function Expire(raw: map<Id, RawRow>, cutoff: string): map<Id, RawRow> {
    map id | id in raw && !Text.Less(raw[id].event.time, cutoff) :: raw[id]
  }
}
