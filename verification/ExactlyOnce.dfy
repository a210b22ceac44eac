/** What every run does to the raw event table, and to the verdicts: exactly once when retention is off. */
module ExactlyOnce {
  import opened Wrappers
  import opened Seqs
  import opened Types
  import opened Ingestion
  import opened Protocol
  import opened Queries
  import Timestamps

  // ---------------------------------------------------------------- raw rows are append-only

  ghost predicate Extends(raw: map<Id, RawRow>, raw': map<Id, RawRow>) {
    forall id :: id in raw ==> id in raw' && raw'[id] == raw[id]
  }

  lemma NextExtends(cfg: Settings, s: State, a: Action)
    requires !RetentionOn(cfg)
    ensures Extends(s.t.raw, Next(cfg, s, a).t.raw)
  {
    hide Place, Ids, RecordAcks, EntriesOf, BatchRowOf;
    if a.Step? && a.k < |s.jobs| && s.jobs[a.k].pc.Storing? {
      var j := s.jobs[a.k];
      InsertOrIgnoreRows(s.t.raw, Fresh(s.t.raw, j.parts.toStore), j.receivedAt, j.batch.id);
    }
  }

  /** No run ever changes or removes a raw row. */
  lemma {:induction false} RunExtends(cfg: Settings, s: State, actions: seq<Action>)
    requires !RetentionOn(cfg)
    ensures Extends(s.t.raw, Run(cfg, s, actions).t.raw)
  {
    if actions != [] {
      var n := |actions| - 1;
      RunExtends(cfg, s, actions[..n]);
      NextExtends(cfg, Run(cfg, s, actions[..n]), actions[n]);
    }
  }

  // ---------------------------------------------------------------- jobs and the raw table

  /** The raw table has what a job was told it has: its stored events with its own rows, its duplicates. */
  ghost predicate HeldBy(raw: map<Id, RawRow>, j: Job) {
    && (forall id :: id in j.stored || id in j.duplicate ==> id in raw)
    && (forall e :: e in j.parts.toStore && e.id in j.stored ==> raw[e.id] == RowOf(e, j.receivedAt, j.batch.id))
  }

  ghost predicate Disjoint(a: seq<Id>, b: seq<Id>) {
    forall id :: !(id in a && id in b)
  }

  ghost predicate Held(s: State) {
    forall k :: 0 <= k < |s.jobs| ==> HeldBy(s.t.raw, s.jobs[k])
  }

  /** No id is reported stored by two jobs. */
  ghost predicate Exclusive(jobs: seq<Job>) {
    forall i, k :: 0 <= i < k < |jobs| ==> Disjoint(jobs[i].stored, jobs[k].stored)
  }

  /** Every raw row was reported stored by some job. */
  ghost predicate Owned(s: State) {
    forall id :: id in s.t.raw ==> exists k :: 0 <= k < |s.jobs| && id in s.jobs[k].stored
  }

  ghost predicate RawInv(s: State) {
    Held(s) && Exclusive(s.jobs) && Owned(s)
  }

  lemma HeldGrows(raw: map<Id, RawRow>, raw': map<Id, RawRow>, j: Job)
    requires HeldBy(raw, j) && Extends(raw, raw')
    ensures HeldBy(raw', j)
  {
  }

  /** A job's verdicts and rows do not move unless it is at its storing step. */
  lemma OtherStepsKeepVerdicts(cfg: Settings, t: Tables, j: Job, now: int)
    requires JobOk(cfg, now, j) && !j.pc.Storing?
    ensures var o := Advance(cfg, t, j, now);
            && o.t.raw == t.raw && o.j.committed == j.committed && o.j.stored == j.stored &&
               o.j.duplicate == j.duplicate
            && o.j.batch == j.batch && o.j.receivedAt == j.receivedAt && (j.committed ==> o.j.parts == j.parts)
  {
    hide PartsOk, VerdictsOk, Place, Acceptable, Ids, RecordBatch, RecordAcks, EntriesOf, BatchRowOf, BeatOf;
  }

  lemma SameVerdictsHeld(raw: map<Id, RawRow>, j: Job, j': Job)
    requires HeldBy(raw, j) && StageOk(j)
    requires j'.stored == j.stored && j'.duplicate == j.duplicate && j'.batch == j.batch &&
             j'.receivedAt == j.receivedAt
    requires j.committed ==> j'.parts == j.parts
    ensures HeldBy(raw, j')
  {
  }

  /** What the storing step of one job does to the table. */
  lemma StoreEffect(t: Tables, j: Job, es: seq<Event>)
    requires PartsOk(j.parts, es, j.batch.device)
    ensures var o := StoreStep(t, j);
            && Extends(t.raw, o.t.raw)
            && HeldBy(o.t.raw, o.j)
            && Distinct(o.j.stored)
            && (forall id :: id in o.j.stored ==> id !in t.raw)
            && (forall id :: id in o.t.raw <==> id in t.raw || id in o.j.stored)
  {
    hide StoreRaw, Fresh, Known, Ids, RejectedIds;
    var toStore := j.parts.toStore;
    StoreSplits(t.raw, toStore, j.receivedAt, j.batch.id);
    SplitIds(Ids(toStore), Ids(Fresh(t.raw, toStore)), Ids(Known(t.raw, toStore)));
  }

  lemma SplitIds(ids: seq<Id>, stored: seq<Id>, known: seq<Id>)
    requires multiset(ids) == multiset(stored) + multiset(known)
    ensures forall id :: id in ids <==> id in stored || id in known
  {
    forall id
      ensures id in ids <==> id in stored || id in known
    {
      assert id in ids <==> id in multiset(ids);
      assert id in stored <==> id in multiset(stored);
      assert id in known <==> id in multiset(known);
    }
  }

  lemma StoreKeepsRaw(s: State, k: nat, es: seq<Event>)
    requires k < |s.jobs| && RawInv(s) && s.jobs[k].stored == []
    requires PartsOk(s.jobs[k].parts, es, s.jobs[k].batch.device)
    ensures var o := StoreStep(s.t, s.jobs[k]); RawInv(s.(t := o.t, jobs := s.jobs[k := o.j]))
  {
    StoreEffect(s.t, s.jobs[k], es);
    hide StoreStep, HeldBy, PartsOk;
    var o := StoreStep(s.t, s.jobs[k]);
    var s' := s.(t := o.t, jobs := s.jobs[k := o.j]);
    forall i | 0 <= i < |s'.jobs|
      ensures HeldBy(s'.t.raw, s'.jobs[i])
    {
      if i != k {
        HeldGrows(s.t.raw, o.t.raw, s.jobs[i]);
      }
    }
    forall i, m | 0 <= i < m < |s'.jobs|
      ensures Disjoint(s'.jobs[i].stored, s'.jobs[m].stored)
    {
      HeldStored(s, i);
      HeldStored(s, m);
      assert Disjoint(s.jobs[i].stored, s.jobs[m].stored);
    }
    forall id | id in s'.t.raw
      ensures exists i :: 0 <= i < |s'.jobs| && id in s'.jobs[i].stored
    {
      if id in s.t.raw {
        var i :| 0 <= i < |s.jobs| && id in s.jobs[i].stored;
        assert id in s'.jobs[i].stored;
      } else {
        assert id in s'.jobs[k].stored;
      }
    }
  }

  lemma HeldStored(s: State, k: nat)
    requires Held(s) && k < |s.jobs|
    ensures forall id :: id in s.jobs[k].stored ==> id in s.t.raw
  {
    assert HeldBy(s.t.raw, s.jobs[k]);
  }

  lemma ReplaceKeepsRaw(s: State, t': Tables, k: nat, j': Job)
    requires k < |s.jobs| && RawInv(s) && StageOk(s.jobs[k]) && t'.raw == s.t.raw
    requires var j := s.jobs[k];
             && j'.stored == j.stored && j'.duplicate == j.duplicate && j'.batch == j.batch &&
                j'.receivedAt == j.receivedAt
             && (j.committed ==> j'.parts == j.parts)
    ensures RawInv(s.(t := t', jobs := s.jobs[k := j']))
  {
    var s' := s.(t := t', jobs := s.jobs[k := j']);
    SameVerdictsHeld(s.t.raw, s.jobs[k], j');
    hide HeldBy, StageOk, Disjoint;
    assert forall i :: 0 <= i < |s.jobs| ==> s'.jobs[i].stored == s.jobs[i].stored;
    forall id | id in s'.t.raw
      ensures exists i :: 0 <= i < |s'.jobs| && id in s'.jobs[i].stored
    {
      var i :| 0 <= i < |s.jobs| && id in s.jobs[i].stored;
      assert id in s'.jobs[i].stored;
    }
  }

  lemma BeginKeepsRaw(s: State, batch: Batch)
    requires RawInv(s)
    ensures RawInv(s.(jobs := s.jobs + [Start(batch, s.clock)]))
  {
    var s' := s.(jobs := s.jobs + [Start(batch, s.clock)]);
    forall id | id in s'.t.raw
      ensures exists i :: 0 <= i < |s'.jobs| && id in s'.jobs[i].stored
    {
      var i :| 0 <= i < |s.jobs| && id in s.jobs[i].stored;
      assert id in s'.jobs[i].stored;
    }
  }

  lemma RawInvFrame(s: State, s': State)
    requires RawInv(s) && s'.t == s.t && s'.jobs == s.jobs
    ensures RawInv(s')
  {
    hide HeldBy, Exclusive;
  }

  lemma NextKeepsRaw(cfg: Settings, s: State, a: Action)
    requires !RetentionOn(cfg) && AllJobsOk(cfg, s) && RawInv(s)
    ensures RawInv(Next(cfg, s, a))
  {
    hide RawInv, Advance, EntriesOf, PartsOk, VerdictsOk, Acceptable;
    match a {
      case Tick(_) => RawInvFrame(s, Next(cfg, s, a));
      case Begin(batch) => BeginKeepsRaw(s, batch);
      case Step(k) =>
        if k < |s.jobs| {
          var j := s.jobs[k];
          var o := Advance(cfg, s.t, j, s.clock);
          if j.pc.Storing? {
            assert o == StoreStep(s.t, j) by { StoringStep(cfg, s.t, j, s.clock); }
            StoreKeepsRaw(s, k, j.batch.events[..j.seen]);
          } else {
            OtherStepsKeepVerdicts(cfg, s.t, j, s.clock);
            ReplaceKeepsRaw(s, o.t, k, o.j);
          }
          RawInvFrame(s.(t := o.t, jobs := s.jobs[k := o.j]), Next(cfg, s, a));
        }
      case Crash(k) =>
        if k < |s.jobs| && s.jobs[k].pc != Replied {
          ReplaceKeepsRaw(s, s.t, k, s.jobs[k].(pc := Failed));
          RawInvFrame(s.(t := s.t, jobs := s.jobs[k := s.jobs[k].(pc := Failed)]), Next(cfg, s, a));
        }
      case Retain(_) =>
    }
  }

  lemma StoringStep(cfg: Settings, t: Tables, j: Job, now: int)
    requires j.pc.Storing?
    ensures Advance(cfg, t, j, now) == StoreStep(t, j)
  {
  }

  // ---------------------------------------------------------------- whole runs

  ghost predicate Sound(cfg: Settings, s: State) {
    AllJobsOk(cfg, s) && RawInv(s)
  }

  lemma {:induction false} RunSound(cfg: Settings, s: State, actions: seq<Action>)
    requires !RetentionOn(cfg) && Sound(cfg, s)
    ensures Sound(cfg, Run(cfg, s, actions))
  {
    if actions != [] {
      var n := |actions| - 1;
      RunSound(cfg, s, actions[..n]);
      hide AllJobsOk, RawInv, Next;
      NextKeepsJobs(cfg, Run(cfg, s, actions[..n]), actions[n]);
      NextKeepsRaw(cfg, Run(cfg, s, actions[..n]), actions[n]);
    }
  }

  lemma InitSound(cfg: Settings, clock: int, devices: map<Id, int>)
    ensures Sound(cfg, Init(clock, devices))
  {
  }

  predicate AcceptedBy(j: Job, id: Id) {
    id in j.stored || id in j.duplicate
  }

  /**
   Exactly once: in every run, with crashes and interleavings anywhere, an id is reported stored by at most
   one ingest, and the table holds exactly the ids that some ingest stored.
   */
  lemma StoredExactlyOnce(cfg: Settings, clock: int, devices: map<Id, int>, actions: seq<Action>)
    requires !RetentionOn(cfg)
    ensures var s := Run(cfg, Init(clock, devices), actions);
            && (forall i, k :: 0 <= i < k < |s.jobs| ==> Disjoint(s.jobs[i].stored, s.jobs[k].stored))
            && (forall k :: 0 <= k < |s.jobs| ==> Distinct(s.jobs[k].stored))
            && (forall id :: id in s.t.raw <==> exists k :: 0 <= k < |s.jobs| && id in s.jobs[k].stored)
  {
    InitSound(cfg, clock, devices);
    RunSound(cfg, Init(clock, devices), actions);
    var s := Run(cfg, Init(clock, devices), actions);
    hide Run, HeldBy, PartsOk, Acceptable, Disjoint;
    forall k | 0 <= k < |s.jobs|
      ensures Distinct(s.jobs[k].stored) && forall id :: id in s.jobs[k].stored ==> id in s.t.raw
    {
      assert JobOk(cfg, s.clock, s.jobs[k]);
      HeldStored(s, k);
    }
  }

  /** Whatever an ingest accepts, stored or duplicate, is in the table and keeps its row in every later state. */
  lemma AcceptedStaysHeld(cfg: Settings, clock: int, devices: map<Id, int>, before: seq<Action>, after: seq<Action>,
                          k: nat, id: Id)
    requires !RetentionOn(cfg)
    requires var s := Run(cfg, Init(clock, devices), before); k < |s.jobs| && AcceptedBy(s.jobs[k], id)
    ensures var s := Run(cfg, Init(clock, devices), before);
            var later := Run(cfg, Init(clock, devices), before + after);
            id in s.t.raw && id in later.t.raw && later.t.raw[id] == s.t.raw[id]
  {
    InitSound(cfg, clock, devices);
    RunSound(cfg, Init(clock, devices), before);
    RunAppend(cfg, Init(clock, devices), before, after);
    var s := Run(cfg, Init(clock, devices), before);
    RunExtends(cfg, s, after);
    assert HeldBy(s.t.raw, s.jobs[k]);
  }

  /** The row of a stored id is the event that was delivered, under the batch that delivered it. */
  lemma StoredRow(cfg: Settings, s: State, k: nat, id: Id)
    requires Sound(cfg, s) && k < |s.jobs| && id in s.jobs[k].stored
    ensures var j := s.jobs[k];
            id in s.t.raw && s.t.raw[id].event.id == id && s.t.raw[id].event in j.batch.events &&
            s.t.raw[id].event in j.parts.toStore && s.t.raw[id].receivedAt == j.receivedAt &&
            s.t.raw[id].firstBatch == j.batch.id
  {
    var j := s.jobs[k];
    assert JobOk(cfg, s.clock, j) && HeldBy(s.t.raw, j);
    hide Ids, Acceptable;
    var e := EventOf(j.parts.toStore, id);
    assert e in j.batch.events[..j.seen];
  }

  // ---------------------------------------------------------------- rows in every run, retention on or off

  /** The row is what this job's storing step writes for an event of its store list. */
  ghost predicate FromJob(j: Job, id: Id, row: RawRow) {
    j.committed && row.event.id == id && row.event in j.parts.toStore &&
      row.receivedAt == j.receivedAt && row.firstBatch == j.batch.id
  }

  ghost predicate HasJob(jobs: seq<Job>, id: Id, row: RawRow) {
    exists k :: 0 <= k < |jobs| && FromJob(jobs[k], id, row)
  }

  ghost predicate RowsFromJobs(s: State) {
    forall id :: id in s.t.raw ==> HasJob(s.jobs, id, s.t.raw[id])
  }

  /** A committed job keeps what its rows were written from. */
  ghost predicate SameOrigin(j: Job, j': Job) {
    j.committed ==> j'.committed && j'.parts == j.parts && j'.receivedAt == j.receivedAt && j'.batch == j.batch
  }

  lemma ReplaceKeepsOrigin(jobs: seq<Job>, k: nat, j': Job, id: Id, row: RawRow)
    requires k < |jobs| && SameOrigin(jobs[k], j') && HasJob(jobs, id, row)
    ensures HasJob(jobs[k := j'], id, row)
  {
    var i :| 0 <= i < |jobs| && FromJob(jobs[i], id, row);
    assert FromJob(jobs[k := j'][i], id, row);
  }

  lemma StoredFromJob(t: Tables, j: Job, id: Id)
    ensures var o := StoreStep(t, j);
            && (id in t.raw ==> id in o.t.raw && o.t.raw[id] == t.raw[id])
            && (id in o.t.raw && id !in t.raw ==> FromJob(o.j, id, o.t.raw[id]))
  {
    InsertOrIgnoreRows(t.raw, Fresh(t.raw, j.parts.toStore), j.receivedAt, j.batch.id);
    hide InsertOrIgnore, Ids, Known;
    var o := StoreStep(t, j);
    if id in o.t.raw && id !in t.raw {
      assert o.t.raw[id].event in Fresh(t.raw, j.parts.toStore);
    }
  }

  lemma StepKeepsOrigin(cfg: Settings, s: State, k: nat)
    requires k < |s.jobs| && JobOk(cfg, s.clock, s.jobs[k]) && RowsFromJobs(s)
    ensures RowsFromJobs(StepJob(cfg, s, k))
  {
    hide Advance, JobOk, HasJob, StoreStep, EntriesOf, FromJob;
    var j := s.jobs[k];
    var o := Advance(cfg, s.t, j, s.clock);
    OriginKept(cfg, s.t, j, s.clock);
    var s' := StepJob(cfg, s, k);
    forall id | id in s'.t.raw
      ensures HasJob(s'.jobs, id, s'.t.raw[id])
    {
      if j.pc.Storing? {
        StoringStep(cfg, s.t, j, s.clock);
        StoredFromJob(s.t, j, id);
      }
      if id in s.t.raw {
        ReplaceKeepsOrigin(s.jobs, k, o.j, id, s.t.raw[id]);
      } else {
        JobOfRow(s'.jobs, k, id, s'.t.raw[id]);
      }
    }
  }

  lemma JobOfRow(jobs: seq<Job>, k: nat, id: Id, row: RawRow)
    requires k < |jobs| && FromJob(jobs[k], id, row)
    ensures HasJob(jobs, id, row)
  {
  }

  lemma OriginKept(cfg: Settings, t: Tables, j: Job, now: int)
    requires JobOk(cfg, now, j)
    ensures SameOrigin(j, Advance(cfg, t, j, now).j)
    ensures !j.pc.Storing? ==> Advance(cfg, t, j, now).t.raw == t.raw
  {
    hide PartsOk, VerdictsOk, Acceptable, Advance;
    if !j.pc.Storing? {
      OtherStepsKeepVerdicts(cfg, t, j, now);
    }
  }

  lemma NextKeepsOrigin(cfg: Settings, s: State, a: Action)
    requires AllJobsOk(cfg, s) && RowsFromJobs(s)
    ensures RowsFromJobs(Next(cfg, s, a))
  {
    hide JobOk, HasJob, StepJob;
    var s' := Next(cfg, s, a);
    match a {
      case Tick(_) =>
      case Retain(_) =>
      case Begin(batch) =>
        forall id | id in s.t.raw
          ensures HasJob(s'.jobs, id, s.t.raw[id])
        {
          JobsGrow(s.jobs, Start(batch, s.clock), id, s.t.raw[id]);
        }
      case Crash(k) =>
        if k < |s.jobs| {
          forall id | id in s.t.raw
            ensures HasJob(s.jobs[k := s.jobs[k].(pc := Failed)], id, s.t.raw[id])
          {
            ReplaceKeepsOrigin(s.jobs, k, s.jobs[k].(pc := Failed), id, s.t.raw[id]);
          }
        }
      case Step(k) =>
        if k < |s.jobs| {
          StepKeepsOrigin(cfg, s, k);
        }
    }
  }

  lemma JobsGrow(jobs: seq<Job>, j: Job, id: Id, row: RawRow)
    requires HasJob(jobs, id, row)
    ensures HasJob(jobs + [j], id, row)
  {
    var i :| 0 <= i < |jobs| && FromJob(jobs[i], id, row);
    assert FromJob((jobs + [j])[i], id, row);
  }

  lemma {:induction false} RunKeepsOrigin(cfg: Settings, s: State, actions: seq<Action>)
    requires AllJobsOk(cfg, s) && RowsFromJobs(s)
    ensures RowsFromJobs(Run(cfg, s, actions))
  {
    if actions != [] {
      var n := |actions| - 1;
      RunKeepsOrigin(cfg, s, actions[..n]);
      RunKeepsJobs(cfg, s, actions[..n]);
      NextKeepsOrigin(cfg, Run(cfg, s, actions[..n]), actions[n]);
    }
  }

  /**
   In every run each raw row is filed under its own event id, was written by an ingest that accepted the event,
   and names a real instant in the years 2000 to 9999.
   */
  lemma RawRowsValid(cfg: Settings, clock: int, devices: map<Id, int>, actions: seq<Action>)
    ensures var s := Run(cfg, Init(clock, devices), actions);
            ValidRaw(s.t.raw) && forall id :: id in s.t.raw ==> HasJob(s.jobs, id, s.t.raw[id])
  {
    hide JobOk, Run, ValidRow;
    RunKeepsOrigin(cfg, Init(clock, devices), actions);
    ReachableJobs(cfg, clock, devices, actions);
    var s := Run(cfg, Init(clock, devices), actions);
    forall id | id in s.t.raw
      ensures ValidRow(id, s.t.raw[id])
    {
      var k :| 0 <= k < |s.jobs| && FromJob(s.jobs[k], id, s.t.raw[id]);
      ToStoreAcceptable(cfg, s.clock, s.jobs[k], s.t.raw[id].event);
      AcceptableTime(s.t.raw[id].event, cfg, s.clock);
      RowIsValid(id, s.t.raw[id]);
    }
  }

  lemma RowIsValid(id: Id, row: RawRow)
    requires row.event.id == id && Timestamps.Accepted(row.event.time)
    requires Timestamps.YEAR_2000 <= Timestamps.Instant(row.event.time) < Timestamps.YEAR_10000
    ensures ValidRow(id, row)
  {
  }

  // ---------------------------------------------------------------- verdicts

  /**
   Verdict conservation: once the events are stored, the verdicts are the ids of the request, each as often
   as the request has it, and the three counts add up to the number of events received.
   */
  lemma VerdictsConserved(cfg: Settings, clock: int, devices: map<Id, int>, actions: seq<Action>, k: nat)
    requires var s := Run(cfg, Init(clock, devices), actions); k < |s.jobs| && s.jobs[k].committed
    ensures var j := Run(cfg, Init(clock, devices), actions).jobs[k];
            && multiset(j.stored) + multiset(j.duplicate) + multiset(RejectedIds(j.parts.rejected)) ==
               multiset(Ids(j.batch.events))
            && |j.batch.events| == |j.stored| + |j.duplicate| + |j.parts.rejected|
            && Distinct(j.stored)
  {
    hide JobOk, Run;
    ReachableJobs(cfg, clock, devices, actions);
    var s := Run(cfg, Init(clock, devices), actions);
    CommittedIsSettled(cfg, s.clock, s.jobs[k]);
    SettledConserves(s.jobs[k]);
  }

  lemma SettledConserves(j: Job)
    requires Settled(j)
    ensures multiset(j.stored) + multiset(j.duplicate) + multiset(RejectedIds(j.parts.rejected)) ==
            multiset(Ids(j.batch.events))
    ensures |j.batch.events| == |j.stored| + |j.duplicate| + |j.parts.rejected|
    ensures Distinct(j.stored)
  {
    hide Ids, RejectedIds;
    var m := multiset(j.stored) + multiset(j.duplicate) + multiset(RejectedIds(j.parts.rejected));
    assert m == multiset(Ids(j.batch.events));
    assert |m| == |j.stored| + |j.duplicate| + |RejectedIds(j.parts.rejected)|;
    assert |m| == |Ids(j.batch.events)|;
  }

  // ---------------------------------------------------------------- retries

  /** Among the events with this id in the batch there is only this one, in any number of copies. */
  ghost predicate OnlyCopy(es: seq<Event>, e: Event) {
    forall x :: x in es && x.id == e.id ==> x == e
  }

  ghost predicate NeverRejected(j: Job, e: Event) {
    e.id !in RejectedIds(j.parts.rejected)
  }

  lemma PlaceAccepted(p: Parts, x: Event, device: Id, cfg: Settings, now: int, e: Event)
    requires e.id !in RejectedIds(p.rejected) && e.device == device && Acceptable(e, cfg, now) &&
             (x.id == e.id ==> x == e)
    ensures e.id !in RejectedIds(Place(p, x, device, cfg, now).rejected)
  {
    var q := Place(p, x, device, cfg, now);
    if |q.rejected| > |p.rejected| {
      var r := q.rejected[|p.rejected|];
      RejectedSnoc(p.rejected, r);
      hide RejectedIds, Validate, Ids;
      assert q.rejected == p.rejected + [r];
    }
  }

  lemma AdvanceNeverRejects(cfg: Settings, t: Tables, j: Job, now: int, e: Event)
    requires NeverRejected(j, e) && OnlyCopy(j.batch.events, e) && j.batch.device == e.device && Acceptable(e, cfg, now)
    ensures NeverRejected(Advance(cfg, t, j, now).j, e) && Advance(cfg, t, j, now).j.batch == j.batch
  {
    hide RecordBatch, RecordAcks, EntriesOf, BatchRowOf, BeatOf, Ids, RejectedIds, Acceptable;
    if j.pc.Validating? && j.seen < |j.batch.events| {
      PlaceAccepted(j.parts, j.batch.events[j.seen], j.batch.device, cfg, now, e);
      hide Place;
    }
  }

  /** What holds, from a moment at which `e` is acceptable, of every job started later. */
  ghost predicate LaterJobs(s: State, from: nat, e: Event) {
    forall k :: from <= k < |s.jobs| && s.jobs[k].batch.device == e.device && OnlyCopy(s.jobs[k].batch.events, e) ==>
      NeverRejected(s.jobs[k], e)
  }

  lemma {:induction false} RetryRun(cfg: Settings, s: State, actions: seq<Action>, e: Event)
    requires Acceptable(e, cfg, s.clock)
    ensures var s' := Run(cfg, s, actions);
            Acceptable(e, cfg, s'.clock) && |s.jobs| <= |s'.jobs| && LaterJobs(s', |s.jobs|, e)
  {
    if actions != [] {
      var n := |actions| - 1;
      RetryRun(cfg, s, actions[..n], e);
      RetryStep(cfg, Run(cfg, s, actions[..n]), actions[n], |s.jobs|, e);
    }
  }

  lemma RetryStep(cfg: Settings, s: State, a: Action, from: nat, e: Event)
    requires Acceptable(e, cfg, s.clock) && from <= |s.jobs| && LaterJobs(s, from, e)
    ensures var s' := Next(cfg, s, a); Acceptable(e, cfg, s'.clock) && from <= |s'.jobs| && LaterJobs(s', from, e)
  {
    hide Acceptable, OnlyCopy, Advance, EntriesOf, Expire;
    var s' := Next(cfg, s, a);
    AcceptableLater(e, cfg, s.clock, s'.clock);
    forall k | from <= k < |s'.jobs| && s'.jobs[k].batch.device == e.device && OnlyCopy(s'.jobs[k].batch.events, e)
      ensures NeverRejected(s'.jobs[k], e)
    {
      if a == Step(k) && k < |s.jobs| {
        AdvanceKeepsBatch(cfg, s.t, s.jobs[k], s.clock);
        AdvanceNeverRejects(cfg, s.t, s.jobs[k], s.clock, e);
      }
    }
  }

  lemma AdvanceKeepsBatch(cfg: Settings, t: Tables, j: Job, now: int)
    ensures Advance(cfg, t, j, now).j.batch == j.batch
  {
    hide Place, RecordBatch, RecordAcks, EntriesOf, BatchRowOf, BeatOf, Ids;
  }

  /**
   Retries are accepted, retention on or off: an event that some ingest had in its store list is, in every
   ingest of a batch for its device that starts later, not rejected, and once stored there it has a verdict.
   */
  lemma RetryIsAccepted(cfg: Settings, clock: int, devices: map<Id, int>, before: seq<Action>, after: seq<Action>,
                        i: nat, k: nat, e: Event)
    requires var s := Run(cfg, Init(clock, devices), before);
             i < |s.jobs| && e in s.jobs[i].parts.toStore && |s.jobs| <= k
    requires var s' := Run(cfg, Init(clock, devices), before + after);
             k < |s'.jobs| && s'.jobs[k].batch.device == e.device && OnlyCopy(s'.jobs[k].batch.events, e)
    ensures var j := Run(cfg, Init(clock, devices), before + after).jobs[k];
            && e.id !in RejectedIds(j.parts.rejected)
            && (j.committed && e in j.batch.events ==> AcceptedBy(j, e.id))
  {
    hide Run, JobOk, OnlyCopy;
    ReachableJobs(cfg, clock, devices, before);
    ReachableJobs(cfg, clock, devices, before + after);
    RunAppend(cfg, Init(clock, devices), before, after);
    var s, s' := Run(cfg, Init(clock, devices), before), Run(cfg, Init(clock, devices), before + after);
    ToStoreAcceptable(cfg, s.clock, s.jobs[i], e);
    RetryRun(cfg, s, after, e);
    if s'.jobs[k].committed && e in s'.jobs[k].batch.events {
      NotRejectedIsAccepted(cfg, s'.clock, s'.jobs[k], e);
    }
  }

  lemma ToStoreAcceptable(cfg: Settings, now: int, j: Job, e: Event)
    requires JobOk(cfg, now, j) && e in j.parts.toStore
    ensures Acceptable(e, cfg, now)
  {
    hide PartsOk, StageOk, Acceptable;
  }

  lemma NotRejectedIsAccepted(cfg: Settings, now: int, j: Job, e: Event)
    requires JobOk(cfg, now, j) && j.committed && e in j.batch.events && e.id !in RejectedIds(j.parts.rejected)
    ensures AcceptedBy(j, e.id)
  {
    hide JobOk, Ids, RejectedIds;
    CommittedIsSettled(cfg, now, j);
    SettledConserves(j);
    IdIn(j.batch.events, e);
    assert e.id in multiset(Ids(j.batch.events));
    assert e.id !in multiset(RejectedIds(j.parts.rejected));
    assert e.id in multiset(j.stored) + multiset(j.duplicate);
  }

  /**
   Retries are stable: once some ingest has stored or held an event it accepted, every ingest of a batch for
   the same device that starts later accepts it again, and with retention off reports it as a duplicate.
   */
  lemma RetryIsDuplicate(cfg: Settings, clock: int, devices: map<Id, int>, before: seq<Action>, after: seq<Action>,
                         i: nat, k: nat, e: Event)
    requires !RetentionOn(cfg)
    requires var s := Run(cfg, Init(clock, devices), before);
             i < |s.jobs| && s.jobs[i].committed && e in s.jobs[i].parts.toStore && |s.jobs| <= k
    requires var s' := Run(cfg, Init(clock, devices), before + after);
             k < |s'.jobs| && s'.jobs[k].committed && e in s'.jobs[k].batch.events &&
             s'.jobs[k].batch.device == e.device && OnlyCopy(s'.jobs[k].batch.events, e)
    ensures var j := Run(cfg, Init(clock, devices), before + after).jobs[k];
            e.id !in RejectedIds(j.parts.rejected) && e.id !in j.stored && e.id in j.duplicate
  {
    var s := Run(cfg, Init(clock, devices), before);
    InitSound(cfg, clock, devices);
    RunSound(cfg, Init(clock, devices), before);
    RunAppend(cfg, Init(clock, devices), before, after);
    hide Run, JobOk, OnlyCopy;
    RetryIsAccepted(cfg, clock, devices, before, after, i, k, e);
    CommittedHolds(cfg, s, i, e);
    LateJobsStoreNothingOld(cfg, s, after, e.id);
  }

  lemma CommittedHolds(cfg: Settings, s: State, i: nat, e: Event)
    requires Sound(cfg, s) && i < |s.jobs| && s.jobs[i].committed && e in s.jobs[i].parts.toStore
    ensures e.id in s.t.raw
  {
    var j := s.jobs[i];
    assert JobOk(cfg, s.clock, j) && HeldBy(s.t.raw, j);
    IdIn(j.parts.toStore, e);
    hide Ids, PartsOk, Acceptable;
    assert e.id in multiset(Ids(j.parts.toStore)) + multiset(j.parts.repeats);
    assert e.id in multiset(j.stored) + multiset(j.duplicate);
  }

  /** A job that starts after an id is in the table never reports that id as stored. */
  lemma {:induction false} LateJobsStoreNothingOld(cfg: Settings, s: State, actions: seq<Action>, id: Id)
    requires !RetentionOn(cfg) && Sound(cfg, s) && id in s.t.raw
    ensures var s' := Run(cfg, s, actions);
            |s.jobs| <= |s'.jobs| && forall k :: |s.jobs| <= k < |s'.jobs| ==> id !in s'.jobs[k].stored
  {
    var owner :| 0 <= owner < |s.jobs| && id in s.jobs[owner].stored;
    StoredStays(cfg, s, actions, owner, id);
    RunSound(cfg, s, actions);
    var s' := Run(cfg, s, actions);
    forall k | |s.jobs| <= k < |s'.jobs|
      ensures id !in s'.jobs[k].stored
    {
      assert Disjoint(s'.jobs[owner].stored, s'.jobs[k].stored);
    }
  }

  lemma {:induction false} StoredStays(cfg: Settings, s: State, actions: seq<Action>, k: nat, id: Id)
    requires !RetentionOn(cfg) && Sound(cfg, s) && k < |s.jobs| && id in s.jobs[k].stored
    ensures var s' := Run(cfg, s, actions); |s.jobs| <= |s'.jobs| && id in s'.jobs[k].stored
  {
    if actions != [] {
      var n := |actions| - 1;
      StoredStays(cfg, s, actions[..n], k, id);
      RunSound(cfg, s, actions[..n]);
      StoredStep(cfg, Run(cfg, s, actions[..n]), actions[n], k, id);
    }
  }

  lemma StoredStep(cfg: Settings, s: State, a: Action, k: nat, id: Id)
    requires Sound(cfg, s) && k < |s.jobs| && id in s.jobs[k].stored
    ensures var s' := Next(cfg, s, a); |s.jobs| <= |s'.jobs| && id in s'.jobs[k].stored
  {
    hide RawInv, JobOk, Advance, EntriesOf, Expire;
    HasStored(cfg, s.clock, s.jobs[k], id);
    OtherStepsKeepVerdicts(cfg, s.t, s.jobs[k], s.clock);
  }

  lemma HasStored(cfg: Settings, now: int, j: Job, id: Id)
    requires JobOk(cfg, now, j) && id in j.stored
    ensures j.committed && !j.pc.Storing?
  {
    hide PartsOk, Acceptable, VerdictsOk;
  }
}
