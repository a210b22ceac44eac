/** What the tables hold in terms of the requests: which deliveries were acceptable when they were validated. */
module Deliveries {
  import opened Wrappers
  import opened Seqs
  import opened Types
  import opened Ingestion
  import opened Protocol
  import opened ExactlyOnce
  import opened Confluence
  import Queries
  import Timestamps

  // ---------------------------------------------------------------- the validation loop, exactly

  /** The reason to reject the i-th event of a request, read at its own time. */
  function ReasonAt(es: seq<Event>, times: seq<int>, device: Id, cfg: Settings, i: nat): Option<Reason>
    requires i < |es| && i < |times|
  {
    if es[i].device != device then Some(DeviceMismatch) else Validate(es[i], cfg, times[i])
  }

  predicate Good(es: seq<Event>, times: seq<int>, device: Id, cfg: Settings, i: nat): (good: bool)
    ensures good ==> i < |es|
  {
    i < |es| && i < |times| && ReasonAt(es, times, device, cfg, i).None?
  }

  /** The first acceptable event under its id. */
  ghost predicate FirstGood(es: seq<Event>, times: seq<int>, device: Id, cfg: Settings, i: nat): (first: bool)
    ensures first ==> i < |es|
  {
    Good(es, times, device, cfg, i) && forall k: nat :: k < i && Good(es, times, device, cfg, k) ==>
      es[k].id != es[i].id
  }

  ghost predicate RejectedExactly(p: Parts, es: seq<Event>, times: seq<int>, device: Id, cfg: Settings)
    requires |times| == |es|
  {
    forall r :: r in p.rejected <==> RefusedAs(es, times, device, cfg, r)
  }

  ghost predicate RefusedAs(es: seq<Event>, times: seq<int>, device: Id, cfg: Settings, r: Rejection)
    requires |times| == |es|
  {
    exists i: nat :: i < |es| && ReasonAt(es, times, device, cfg, i) == Some(r.reason) && es[i].id == r.id
  }

  ghost predicate StoredExactly(p: Parts, es: seq<Event>, times: seq<int>, device: Id, cfg: Settings) {
    forall e :: e in p.toStore <==> FirstEvent(es, times, device, cfg, e)
  }

  ghost predicate FirstEvent(es: seq<Event>, times: seq<int>, device: Id, cfg: Settings, e: Event) {
    exists i: nat :: FirstGood(es, times, device, cfg, i) && es[i] == e
  }

  /** One more event leaves the judgement of the earlier ones alone. */
  lemma GoodSnoc(es: seq<Event>, times: seq<int>, device: Id, cfg: Settings, i: nat)
    requires |times| == |es| > 0 && i < |es| - 1
    ensures Good(es, times, device, cfg, i) <==> Good(es[..|es| - 1], times[..|es| - 1], device, cfg, i)
    ensures ReasonAt(es, times, device, cfg, i) == ReasonAt(es[..|es| - 1], times[..|es| - 1], device, cfg, i)
    ensures FirstGood(es, times, device, cfg, i) <==> FirstGood(es[..|es| - 1], times[..|es| - 1], device, cfg, i)
  {
    hide Validate;
    forall k: nat | k <= i
      ensures Good(es, times, device, cfg, k) <==> Good(es[..|es| - 1], times[..|es| - 1], device, cfg, k)
    {
    }
  }

  /** What is to be stored is the first acceptable copy of each id, what is rejected are the unacceptable events. */
  lemma {:induction false} PartitionExact(es: seq<Event>, times: seq<int>, device: Id, cfg: Settings)
    requires |times| == |es|
    ensures RejectedExactly(Partition(es, times, device, cfg), es, times, device, cfg)
    ensures StoredExactly(Partition(es, times, device, cfg), es, times, device, cfg)
  {
    hide ReasonAt, Good, FirstGood, Validate, Place, FirstEvent, RefusedAs;
    if es != [] {
      var n := |es| - 1;
      PartitionExact(es[..n], times[..n], device, cfg);
      RejectedSnocExact(es, times, device, cfg);
      StoredSnocExact(es, times, device, cfg);
    } else {
      NoneGood(es, times, device, cfg);
    }
  }

  lemma NoneGood(es: seq<Event>, times: seq<int>, device: Id, cfg: Settings)
    requires es == []
    ensures forall e :: !FirstEvent(es, times, device, cfg, e)
    ensures forall r :: |times| == 0 ==> !RefusedAs(es, times, device, cfg, r)
  {
  }

  lemma RejectedSnocExact(es: seq<Event>, times: seq<int>, device: Id, cfg: Settings)
    requires |times| == |es| > 0
    requires RejectedExactly(Partition(es[..|es| - 1], times[..|es| - 1], device, cfg), es[..|es| - 1],
             times[..|es| - 1], device, cfg)
    ensures RejectedExactly(Partition(es, times, device, cfg), es, times, device, cfg)
  {
    hide RefusedAs, ReasonAt, Partition;
    LastIsRejected(es, times, device, cfg);
    forall r
      ensures r in Partition(es, times, device, cfg).rejected <==> RefusedAs(es, times, device, cfg, r)
    {
      RefusedSnoc(es, times, device, cfg, r);
    }
  }

  lemma RefusedSnoc(es: seq<Event>, times: seq<int>, device: Id, cfg: Settings, r: Rejection)
    requires |times| == |es| > 0
    ensures var n := |es| - 1;
            RefusedAs(es, times, device, cfg, r) <==>
            RefusedAs(es[..n], times[..n], device, cfg, r) ||
              (ReasonAt(es, times, device, cfg, n) == Some(r.reason) && es[n].id == r.id)
  {
    hide Good, FirstGood, ReasonAt;
    var n := |es| - 1;
    if RefusedAs(es[..n], times[..n], device, cfg, r) {
      var i: nat :| i < n && ReasonAt(es[..n], times[..n], device, cfg, i) == Some(r.reason) && es[..n][i].id == r.id;
      GoodSnoc(es, times, device, cfg, i);
      assert es[i].id == r.id;
    }
    if i: nat :| i < n && ReasonAt(es, times, device, cfg, i) == Some(r.reason) && es[i].id == r.id {
      GoodSnoc(es, times, device, cfg, i);
      assert es[..n][i].id == r.id;
    }
  }

  lemma LastIsRejected(es: seq<Event>, times: seq<int>, device: Id, cfg: Settings)
    requires |times| == |es| > 0
    ensures var n := |es| - 1;
            var p := Partition(es[..n], times[..n], device, cfg);
            forall r :: r in Partition(es, times, device, cfg).rejected <==>
              r in p.rejected || (ReasonAt(es, times, device, cfg, n) == Some(r.reason) && es[n].id == r.id)
  {
    hide Validate, Ids;
    var n := |es| - 1;
    var p := Partition(es[..n], times[..n], device, cfg);
    var last := ReasonAt(es, times, device, cfg, n);
    assert Partition(es, times, device, cfg).rejected ==
           if last.Some? then p.rejected + [Rejection(es[n].id, last.value)] else p.rejected;
  }

  lemma StoredSnocExact(es: seq<Event>, times: seq<int>, device: Id, cfg: Settings)
    requires |times| == |es| > 0
    requires StoredExactly(Partition(es[..|es| - 1], times[..|es| - 1], device, cfg), es[..|es| - 1],
             times[..|es| - 1], device, cfg)
    ensures StoredExactly(Partition(es, times, device, cfg), es, times, device, cfg)
  {
    hide FirstGood, FirstEvent, Good, Partition, Ids;
    LastIsPlaced(es, times, device, cfg);
    LastIsFirst(es, times, device, cfg);
    forall e
      ensures e in Partition(es, times, device, cfg).toStore <==> FirstEvent(es, times, device, cfg, e)
    {
      FirstEventSnoc(es, times, device, cfg, e);
    }
  }

  lemma FirstEventSnoc(es: seq<Event>, times: seq<int>, device: Id, cfg: Settings, e: Event)
    requires |times| == |es| > 0
    ensures var n := |es| - 1;
            FirstEvent(es, times, device, cfg, e) <==>
            FirstEvent(es[..n], times[..n], device, cfg, e) || (FirstGood(es, times, device, cfg, n) && es[n] == e)
  {
    hide FirstGood, Good, ReasonAt;
    var n := |es| - 1;
    if FirstEvent(es[..n], times[..n], device, cfg, e) {
      var i: nat :| FirstGood(es[..n], times[..n], device, cfg, i) && es[..n][i] == e;
      GoodSnoc(es, times, device, cfg, i);
      assert es[i] == e;
    }
    if i: nat :| i < n && FirstGood(es, times, device, cfg, i) && es[i] == e {
      GoodSnoc(es, times, device, cfg, i);
      assert es[..n][i] == e;
    }
  }

  lemma LastIsPlaced(es: seq<Event>, times: seq<int>, device: Id, cfg: Settings)
    requires |times| == |es| > 0
    ensures var n := |es| - 1;
            var p := Partition(es[..n], times[..n], device, cfg);
            Partition(es, times, device, cfg).toStore ==
            if Good(es, times, device, cfg, n) && es[n].id !in Ids(p.toStore) then p.toStore + [es[n]] else p.toStore
  {
    hide Validate, Ids;
  }

  /** The last event is a first copy when the store list does not have its id yet. */
  lemma LastIsFirst(es: seq<Event>, times: seq<int>, device: Id, cfg: Settings)
    requires |times| == |es| > 0
    requires StoredExactly(Partition(es[..|es| - 1], times[..|es| - 1], device, cfg), es[..|es| - 1],
             times[..|es| - 1], device, cfg)
    ensures var n := |es| - 1;
            FirstGood(es, times, device, cfg, n) <==>
            Good(es, times, device, cfg, n) && es[n].id !in Ids(Partition(es[..n], times[..n], device, cfg).toStore)
  {
    var n := |es| - 1;
    var init, early := es[..n], times[..n];
    var p := Partition(init, early, device, cfg);
    hide Validate, Ids, Partition, ReasonAt;
    if k: nat :| k < n && Good(es, times, device, cfg, k) && es[k].id == es[n].id {
      GoodSnoc(es, times, device, cfg, k);
      var f := FirstCopy(init, early, device, cfg, k);
      assert FirstEvent(init, early, device, cfg, init[f]);
      assert init[f] in p.toStore;
      IdIn(p.toStore, init[f]);
    }
    if es[n].id in Ids(p.toStore) {
      var e := EventOf(p.toStore, es[n].id);
      assert FirstEvent(init, early, device, cfg, e);
      var i: nat :| FirstGood(init, early, device, cfg, i) && init[i] == e;
      GoodSnoc(es, times, device, cfg, i);
    }
  }

  /** Some acceptable event under an id is the first one. */
  lemma {:induction false} FirstCopy(es: seq<Event>, times: seq<int>, device: Id, cfg: Settings, i: nat)
    returns (f: nat)
    requires Good(es, times, device, cfg, i)
    ensures f <= i && FirstGood(es, times, device, cfg, f) && es[f].id == es[i].id
    decreases i
  {
    hide ReasonAt;
    if k: nat :| k < i && Good(es, times, device, cfg, k) && es[k].id == es[i].id {
      f := FirstCopy(es, times, device, cfg, k);
    } else {
      f := i;
    }
  }

  // ---------------------------------------------------------------- the rules, event by event

  /** Event `i` is the batch's own and meets the rules at the time it is read. */
  predicate Keeps(es: seq<Event>, times: seq<int>, device: Id, cfg: Settings, i: nat): (kept: bool)
    ensures kept ==> i < |es|
  {
    i < |es| && i < |times| && es[i].device == device && Admissible(es[i], cfg, times[i])
  }

  /** What decides a request: which events are kept, and for each of the others the first rule it breaks. */
  lemma ReasonExact(es: seq<Event>, times: seq<int>, device: Id, cfg: Settings, i: nat)
    requires i < |es| && i < |times|
    ensures Good(es, times, device, cfg, i) <==> Keeps(es, times, device, cfg, i)
    ensures var e, late := es[i], times[i] + cfg.maxFutureSkew * 1_000_000;
            var own, small, valid := e.device == device, e.size <= cfg.maxEventBytes, Timestamps.Accepted(e.time);
            var reason := ReasonAt(es, times, device, cfg, i);
            && (reason == Some(DeviceMismatch) <==> !own)
            && (reason == Some(TooLarge) <==> own && !small)
            && (reason == Some(BadTimestamp) <==> own && small && !valid)
            && (reason == Some(TooFarInFuture) <==> own && small && valid && Timestamps.Instant(e.time) > late)
            && (reason == Some(ImplausiblyOld) <==>
                  own && small && valid && Timestamps.Instant(e.time) <= late &&
                  Timestamps.Instant(e.time) < Timestamps.YEAR_2000)
  {
    hide Validate, Timestamps.Accepted, Timestamps.Instant;
    VerdictExact(es[i], cfg, times[i]);
  }

  /** The request as a whole: stored first copies of what is kept, rejected what breaks a rule, the rest repeats. */
  lemma RequestExact(es: seq<Event>, times: seq<int>, device: Id, cfg: Settings)
    requires |times| == |es|
    ensures var p := Partition(es, times, device, cfg);
            && (forall e :: e in p.toStore <==>
                  exists i: nat :: Keeps(es, times, device, cfg, i) && es[i] == e &&
                    forall k: nat :: k < i && Keeps(es, times, device, cfg, k) ==> es[k].id != e.id)
            && (forall id :: id in RejectedIds(p.rejected) <==>
                  exists i: nat :: i < |es| && !Keeps(es, times, device, cfg, i) && es[i].id == id)
            && (forall id :: id in Ids(p.toStore) <==>
               exists i: nat :: Keeps(es, times, device, cfg, i) && es[i].id == id)
  {
    hide Partition, ReasonAt, Admissible;
    var p := Partition(es, times, device, cfg);
    PartitionExact(es, times, device, cfg);
    forall i: nat | i < |es|
      ensures Good(es, times, device, cfg, i) <==> Keeps(es, times, device, cfg, i)
      ensures Good(es, times, device, cfg, i) <==> ReasonAt(es, times, device, cfg, i).None?
    {
      ReasonExact(es, times, device, cfg, i);
    }
    hide Good, Keeps;
    StoredByRules(p, es, times, device, cfg);
    RejectedByRules(p, es, times, device, cfg);
  }

  lemma StoredByRules(p: Parts, es: seq<Event>, times: seq<int>, device: Id, cfg: Settings)
    requires |times| == |es| && StoredExactly(p, es, times, device, cfg)
    requires forall i: nat :: i < |es| ==> (Good(es, times, device, cfg, i) <==> Keeps(es, times, device, cfg, i))
    ensures forall e :: e in p.toStore <==>
              exists i: nat :: Keeps(es, times, device, cfg, i) && es[i] == e &&
                forall k: nat :: k < i && Keeps(es, times, device, cfg, k) ==> es[k].id != e.id
    ensures forall id :: id in Ids(p.toStore) <==> exists i: nat :: Keeps(es, times, device, cfg, i) && es[i].id == id
  {
    hide Good, ReasonAt, Admissible;
    forall e
      ensures e in p.toStore <==>
                exists i: nat :: Keeps(es, times, device, cfg, i) && es[i] == e &&
                  forall k: nat :: k < i && Keeps(es, times, device, cfg, k) ==> es[k].id != e.id
    {
      if e in p.toStore {
        assert FirstEvent(es, times, device, cfg, e);
        var i: nat :| FirstGood(es, times, device, cfg, i) && es[i] == e;
        assert Keeps(es, times, device, cfg, i);
      }
      if i: nat :| Keeps(es, times, device, cfg, i) && es[i] == e &&
                   forall k: nat :: k < i && Keeps(es, times, device, cfg, k) ==> es[k].id != e.id {
        assert FirstGood(es, times, device, cfg, i);
        assert FirstEvent(es, times, device, cfg, e);
      }
    }
    forall id
      ensures id in Ids(p.toStore) <==> exists i: nat :: Keeps(es, times, device, cfg, i) && es[i].id == id
    {
      if id in Ids(p.toStore) {
        var e := EventOf(p.toStore, id);
        assert e in p.toStore;
      }
      if i: nat :| Keeps(es, times, device, cfg, i) && es[i].id == id {
        var f := FirstCopy(es, times, device, cfg, i);
        assert FirstEvent(es, times, device, cfg, es[f]);
        IdIn(p.toStore, es[f]);
      }
    }
  }

  lemma RejectedByRules(p: Parts, es: seq<Event>, times: seq<int>, device: Id, cfg: Settings)
    requires |times| == |es| && RejectedExactly(p, es, times, device, cfg)
    requires forall i: nat :: i < |es| ==> (ReasonAt(es, times, device, cfg, i).None? <==>
             Keeps(es, times, device, cfg, i))
    ensures forall id :: id in RejectedIds(p.rejected) <==>
              exists i: nat :: i < |es| && !Keeps(es, times, device, cfg, i) && es[i].id == id
  {
    hide ReasonAt, Keeps;
    forall id
      ensures id in RejectedIds(p.rejected) <==>
                exists i: nat :: i < |es| && !Keeps(es, times, device, cfg, i) && es[i].id == id
    {
      if id in RejectedIds(p.rejected) {
        var n :| 0 <= n < |p.rejected| && RejectedIds(p.rejected)[n] == id;
        assert RefusedAs(es, times, device, cfg, p.rejected[n]);
      }
      if i: nat :| i < |es| && !Keeps(es, times, device, cfg, i) && es[i].id == id {
        var r := Rejection(id, ReasonAt(es, times, device, cfg, i).value);
        assert RefusedAs(es, times, device, cfg, r);
        var n :| 0 <= n < |p.rejected| && p.rejected[n] == r;
        assert RejectedIds(p.rejected)[n] == id;
      }
    }
  }

  // ---------------------------------------------------------------- every job keeps its readings

  /** A job's lists are the partition of what it has validated, at readings its clock gave in that order. */
  ghost predicate JobReadings(cfg: Settings, clock: int, j: Job) {
    && |j.readings| == j.seen <= |j.batch.events|
    && Readings(j.receivedAt, j.readings) && j.receivedAt <= clock
    && (forall i :: 0 <= i < |j.readings| ==> j.readings[i] <= clock)
    && j.parts == Partition(j.batch.events[..j.seen], j.readings, j.batch.device, cfg)
  }

  ghost predicate AllReadings(cfg: Settings, s: State) {
    forall k :: 0 <= k < |s.jobs| ==> JobReadings(cfg, s.clock, s.jobs[k])
  }

  lemma ValidateKeepsReadings(cfg: Settings, clock: int, j: Job)
    requires JobReadings(cfg, clock, j) && j.seen < |j.batch.events|
    ensures JobReadings(cfg, clock, j.(seen := j.seen + 1, readings := j.readings + [clock],
                                       parts := Place(j.parts, j.batch.events[j.seen], j.batch.device, cfg, clock)))
  {
    hide Place;
    var es := j.batch.events[..j.seen + 1];
    assert es[..j.seen] == j.batch.events[..j.seen] && es[j.seen] == j.batch.events[j.seen];
    assert (j.readings + [clock])[..j.seen] == j.readings;
  }

  lemma AdvanceKeepsReadings(cfg: Settings, t: Tables, j: Job, clock: int)
    requires JobReadings(cfg, clock, j)
    ensures JobReadings(cfg, clock, Advance(cfg, t, j, clock).j)
  {
    hide JobReadings, SameInput;
    if j.pc.Validating? && j.seen < |j.batch.events| {
      ValidateKeepsReadings(cfg, clock, j);
    } else {
      OtherStepsKeepInput(cfg, t, j, clock);
      SameReadings(cfg, clock, j, Advance(cfg, t, j, clock).j);
    }
  }

  predicate SameInput(j: Job, j': Job) {
    j'.batch == j.batch && j'.seen == j.seen && j'.readings == j.readings && j'.parts == j.parts &&
      j'.receivedAt == j.receivedAt
  }

  lemma TransactionsKeepInput(t: Tables, j: Job)
    ensures SameInput(j, StoreStep(t, j).j) && SameInput(j, BeatStep(t, j).j) && SameInput(j, BatchStep(t, j).j)
  {
    hide Ids, Fresh, Known, StoreRaw, RecordBatch, BatchRowOf, BeatOf, IsBeat;
  }

  lemma OtherStepsKeepInput(cfg: Settings, t: Tables, j: Job, clock: int)
    requires !(j.pc.Validating? && j.seen < |j.batch.events|)
    ensures SameInput(j, Advance(cfg, t, j, clock).j)
  {
    hide StoreStep, BeatStep, BatchStep, RecordAcks, EntriesOf, Touch;
    TransactionsKeepInput(t, j);
  }

  lemma SameReadings(cfg: Settings, clock: int, j: Job, j': Job)
    requires JobReadings(cfg, clock, j) && SameInput(j, j')
    ensures JobReadings(cfg, clock, j')
  {
    hide Partition, Readings;
  }

  lemma NextKeepsReadings(cfg: Settings, s: State, a: Action)
    requires AllReadings(cfg, s)
    ensures AllReadings(cfg, Next(cfg, s, a))
  {
    hide Advance, Partition, EntriesOf, Expire;
    var s' := Next(cfg, s, a);
    forall k | 0 <= k < |s'.jobs|
      ensures JobReadings(cfg, s'.clock, s'.jobs[k])
    {
      match a {
        case Tick(_) =>
        case Begin(batch) =>
          if k == |s.jobs| {
            StartReadings(cfg, batch, s.clock);
          }
        case Step(i) =>
          if i == k {
            AdvanceKeepsReadings(cfg, s.t, s.jobs[k], s.clock);
          }
        case Crash(_) =>
        case Retain(_) =>
      }
    }
  }

  lemma StartReadings(cfg: Settings, batch: Batch, now: int)
    ensures JobReadings(cfg, now, Start(batch, now))
  {
  }

  lemma {:induction false} RunKeepsReadings(cfg: Settings, s: State, actions: seq<Action>)
    requires AllReadings(cfg, s)
    ensures AllReadings(cfg, Run(cfg, s, actions))
  {
    if actions != [] {
      var n := |actions| - 1;
      RunKeepsReadings(cfg, s, actions[..n]);
      NextKeepsReadings(cfg, Run(cfg, s, actions[..n]), actions[n]);
    }
  }

  // ---------------------------------------------------------------- whole runs

  /** A delivery: event `i` of a request whose `store_events` committed, acceptable at the time it was validated. */
  predicate Delivered(cfg: Settings, j: Job, i: nat): (delivered: bool)
    ensures delivered ==> j.committed && i < |j.batch.events|
  {
    j.committed && Good(j.batch.events, j.readings, j.batch.device, cfg, i)
  }

  lemma CommittedLists(cfg: Settings, clock: int, j: Job)
    requires JobOk(cfg, clock, j) && JobReadings(cfg, clock, j) && j.committed
    ensures |j.readings| == |j.batch.events| && j.parts == Partition(j.batch.events, j.readings, j.batch.device, cfg)
  {
    hide PartsOk, Acceptable, VerdictsOk, Partition;
    assert j.batch.events[..|j.batch.events|] == j.batch.events;
  }

  /** What a committed job hands to the store: first copies of its deliveries, and every delivered id is among them. */
  lemma HandedOver(cfg: Settings, clock: int, j: Job)
    requires JobOk(cfg, clock, j) && JobReadings(cfg, clock, j) && j.committed
    ensures forall e :: e in j.parts.toStore ==> exists i: nat :: Delivered(cfg, j, i) && j.batch.events[i] == e
    ensures forall i: nat :: Delivered(cfg, j, i) ==> j.batch.events[i].id in Ids(j.parts.toStore)
  {
    hide JobOk, JobReadings, Good, Ids, Partition;
    CommittedLists(cfg, clock, j);
    PartitionExact(j.batch.events, j.readings, j.batch.device, cfg);
    forall e | e in j.parts.toStore
      ensures exists i: nat :: Delivered(cfg, j, i) && j.batch.events[i] == e
    {
      assert FirstEvent(j.batch.events, j.readings, j.batch.device, cfg, e);
      var i: nat :| FirstGood(j.batch.events, j.readings, j.batch.device, cfg, i) && j.batch.events[i] == e;
      assert Delivered(cfg, j, i);
    }
    forall i: nat | Delivered(cfg, j, i)
      ensures j.batch.events[i].id in Ids(j.parts.toStore)
    {
      var f := FirstCopy(j.batch.events, j.readings, j.batch.device, cfg, i);
      assert FirstEvent(j.batch.events, j.readings, j.batch.device, cfg, j.batch.events[f]);
      IdIn(j.parts.toStore, j.batch.events[f]);
    }
  }

  ghost predicate DeliveredId(cfg: Settings, s: State, id: Id) {
    exists k: nat, i: nat :: k < |s.jobs| && Delivered(cfg, s.jobs[k], i) && s.jobs[k].batch.events[i].id == id
  }

  ghost predicate DeliveredEvent(cfg: Settings, s: State, e: Event) {
    exists k: nat, i: nat :: k < |s.jobs| && Delivered(cfg, s.jobs[k], i) && s.jobs[k].batch.events[i] == e
  }

  /** In every run, retention on or off, each raw row is a delivered event. */
  lemma RowsAreDelivered(cfg: Settings, clock: int, devices: map<Id, int>, actions: seq<Action>, id: Id)
    requires id in Run(cfg, Init(clock, devices), actions).t.raw
    ensures var s := Run(cfg, Init(clock, devices), actions);
            s.t.raw[id].event.id == id && DeliveredEvent(cfg, s, s.t.raw[id].event)
  {
    RawRowsValid(cfg, clock, devices, actions);
    ReachableJobs(cfg, clock, devices, actions);
    RunKeepsReadings(cfg, Init(clock, devices), actions);
    var s := Run(cfg, Init(clock, devices), actions);
    hide Run, JobOk, JobReadings, Delivered, Queries.ValidRow;
    var k :| 0 <= k < |s.jobs| && FromJob(s.jobs[k], id, s.t.raw[id]);
    HandedOver(cfg, s.clock, s.jobs[k]);
  }

  /** With retention off the raw table has a row for an id exactly when that id was delivered. */
  lemma KeysAreDeliveries(cfg: Settings, clock: int, devices: map<Id, int>, actions: seq<Action>)
    requires !RetentionOn(cfg)
    ensures var s := Run(cfg, Init(clock, devices), actions);
            && (forall id :: id in s.t.raw <==> DeliveredId(cfg, s, id))
            && (forall id :: id in s.t.raw ==> s.t.raw[id].event.id == id && DeliveredEvent(cfg, s, s.t.raw[id].event))
  {
    InitSound(cfg, clock, devices);
    RunSound(cfg, Init(clock, devices), actions);
    RunKeepsReadings(cfg, Init(clock, devices), actions);
    var s := Run(cfg, Init(clock, devices), actions);
    hide Run;
    StoredKeys(cfg, s);
  }

  lemma StoredKeys(cfg: Settings, s: State)
    requires Sound(cfg, s) && AllReadings(cfg, s)
    ensures forall id :: id in s.t.raw <==> DeliveredId(cfg, s, id)
    ensures forall id :: id in s.t.raw ==> s.t.raw[id].event.id == id && DeliveredEvent(cfg, s, s.t.raw[id].event)
  {
    hide JobReadings, Delivered, JobOk;
    forall id | id in s.t.raw
      ensures s.t.raw[id].event.id == id && DeliveredEvent(cfg, s, s.t.raw[id].event)
    {
      var k: nat :| k < |s.jobs| && id in s.jobs[k].stored;
      StoredRow(cfg, s, k, id);
      HasStored(cfg, s.clock, s.jobs[k], id);
      HandedOver(cfg, s.clock, s.jobs[k]);
    }
    forall k: nat, i: nat | k < |s.jobs| && Delivered(cfg, s.jobs[k], i)
      ensures s.jobs[k].batch.events[i].id in s.t.raw
    {
      HandedOver(cfg, s.clock, s.jobs[k]);
      var e := EventOf(s.jobs[k].parts.toStore, s.jobs[k].batch.events[i].id);
      CommittedHolds(cfg, s, k, e);
    }
  }

  // ---------------------------------------------------------------- the first delivery decides

  /** Commit `n` is the earliest that carries the id, and the row is what it wrote. */
  ghost predicate WrittenBy(cs: seq<Commit>, n: nat, id: Id, row: RawRow) {
    && n < |cs| && row.event.id == id && row.event in cs[n].events
    && row.receivedAt == cs[n].receivedAt && row.firstBatch == cs[n].batch
    && forall m :: 0 <= m < n ==> id !in Ids(cs[m].events)
  }

  lemma {:induction false} ReplayRow(cs: seq<Commit>, id: Id) returns (n: nat)
    requires id in Replay(cs)
    ensures WrittenBy(cs, n, id, Replay(cs)[id])
  {
    hide Ids;
    var l := |cs| - 1;
    var init := cs[..l];
    var before := Replay(init);
    InsertOrIgnoreRows(before, Fresh(before, cs[l].events), cs[l].receivedAt, cs[l].batch);
    if id in before {
      n := ReplayRow(init, id);
      assert forall m :: 0 <= m <= n ==> init[m] == cs[m];
    } else {
      n := l;
      assert Replay(cs)[id].event in Fresh(before, cs[l].events);
      forall m | 0 <= m < n
        ensures id !in Ids(cs[m].events)
      {
        EarlierHeld(init, m, id);
        assert init[m] == cs[m];
      }
    }
  }

  lemma EarlierHeld(cs: seq<Commit>, m: nat, id: Id)
    requires m < |cs|
    ensures id in Ids(cs[m].events) ==> id in Replay(cs)
  {
    if id in Ids(cs[m].events) {
      ReplayKeepsFirst(cs);
      var e := EventOf(cs[m].events, id);
      OfferedMember(cs, e);
      BagIds(Offered(cs));
      IdIn(Offered(cs), e);
    }
  }

  /** The event is a first acceptable copy in the request of the job that made this commit. */
  ghost predicate FirstCopyOf(cfg: Settings, j: Job, c: Commit, e: Event) {
    j.committed && CommitOf(j) == c && FirstEvent(j.batch.events, j.readings, j.batch.device, cfg, e)
  }

  /**
   First acceptable delivery wins: every raw row is the first acceptable copy in the request whose commit is the
   earliest to carry its id, filed under that request's batch and time of receipt.
   */
  lemma FirstDeliveryWins(cfg: Settings, clock: int, devices: map<Id, int>, actions: seq<Action>, id: Id)
    requires !RetentionOn(cfg) && id in Run(cfg, Init(clock, devices), actions).t.raw
    ensures var s := Run(cfg, Init(clock, devices), actions);
            exists n: nat, k: nat ::
              WrittenBy(s.commits, n, id, s.t.raw[id]) && k < |s.jobs| &&
              FirstCopyOf(cfg, s.jobs[k], s.commits[n], s.t.raw[id].event)
  {
    InitSound(cfg, clock, devices);
    RunIsReplay(cfg, Init(clock, devices), actions);
    RunKeepsCommits(cfg, Init(clock, devices), actions);
    ReachableJobs(cfg, clock, devices, actions);
    RunKeepsReadings(cfg, Init(clock, devices), actions);
    var s := Run(cfg, Init(clock, devices), actions);
    hide Run, Replay, JobOk, JobReadings, FirstEvent, Ids;
    var n := ReplayRow(s.commits, id);
    assert s.commits[n] in s.commits;
    var k: nat :| k < |s.jobs| && s.jobs[k].committed && CommitOf(s.jobs[k]) == s.commits[n];
    StoreListIsFirst(cfg, s.clock, s.jobs[k], s.t.raw[id].event);
    assert FirstCopyOf(cfg, s.jobs[k], s.commits[n], s.t.raw[id].event);
  }

  lemma StoreListIsFirst(cfg: Settings, clock: int, j: Job, e: Event)
    requires JobOk(cfg, clock, j) && JobReadings(cfg, clock, j) && j.committed
    ensures e in j.parts.toStore <==> FirstEvent(j.batch.events, j.readings, j.batch.device, cfg, e)
  {
    hide JobOk, JobReadings, Partition, FirstEvent;
    CommittedLists(cfg, clock, j);
    PartitionExact(j.batch.events, j.readings, j.batch.device, cfg);
  }

  // ---------------------------------------------------------------- two servers

  /** An id determines the event: any two deliveries of it, in either run, are the same. */
  ghost predicate IdsDetermine(cfg: Settings, s: State, cfg2: Settings, s2: State) {
    forall k: nat, i: nat, l: nat, m: nat ::
      k < |s.jobs| && l < |s2.jobs| && Delivered(cfg, s.jobs[k], i) && Delivered(cfg2, s2.jobs[l], m) &&
      s.jobs[k].batch.events[i].id == s2.jobs[l].batch.events[m].id ==>
      s.jobs[k].batch.events[i] == s2.jobs[l].batch.events[m]
  }

  /**
   Confluence in terms of requests: two servers, whatever their batchings, repetitions, orders, crashes and
   clocks, hold the same events exactly when the same ids were delivered to both.
   */
  lemma AcceptableConfluence(cfg: Settings, c1: int, d1: map<Id, int>, run1: seq<Action>, cfg2: Settings, c2: int,
                             d2: map<Id, int>, run2: seq<Action>)
    requires !RetentionOn(cfg) && !RetentionOn(cfg2)
    requires IdsDetermine(cfg, Run(cfg, Init(c1, d1), run1), cfg2, Run(cfg2, Init(c2, d2), run2))
    ensures var s1 := Run(cfg, Init(c1, d1), run1);
            var s2 := Run(cfg2, Init(c2, d2), run2);
            Contents(s1.t.raw) == Contents(s2.t.raw) <==>
              (forall id :: DeliveredId(cfg, s1, id) <==> DeliveredId(cfg2, s2, id))
  {
    var s1, s2 := Run(cfg, Init(c1, d1), run1), Run(cfg2, Init(c2, d2), run2);
    KeysAreDeliveries(cfg, c1, d1, run1);
    KeysAreDeliveries(cfg2, c2, d2, run2);
    hide Run, Delivered, DeliveredId, Contents;
    forall id | id in s1.t.raw && id in s2.t.raw
      ensures s1.t.raw[id].event == s2.t.raw[id].event
    {
      var k: nat, i: nat :| k < |s1.jobs| && Delivered(cfg, s1.jobs[k], i) &&
          s1.jobs[k].batch.events[i] == s1.t.raw[id].event;
      var l: nat, m: nat :| l < |s2.jobs| && Delivered(cfg2, s2.jobs[l], m) &&
          s2.jobs[l].batch.events[m] == s2.t.raw[id].event;
    }
    SameContents(s1.t.raw, s2.t.raw);
  }

  lemma SameContents(a: map<Id, RawRow>, b: map<Id, RawRow>)
    requires forall id :: id in a && id in b ==> a[id].event == b[id].event
    ensures Contents(a) == Contents(b) <==> forall id :: id in a <==> id in b
  {
    if Contents(a) == Contents(b) {
      assert Contents(a).Keys == a.Keys && Contents(b).Keys == b.Keys;
    }
  }
}
