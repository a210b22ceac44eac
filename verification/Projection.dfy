/** The heartbeat table as a projection of the raw table, through crashes (ingestion.py:128-134). */
module Projection {
  import opened Wrappers
  import opened Seqs
  import opened Types
  import opened Ingestion
  import opened Protocol
  import opened ExactlyOnce

  /** Every heartbeat row is the projection of a raw heartbeat event. */
  ghost predicate BeatsAreRaw(t: Tables) {
    forall id :: id in t.beats ==>
      id in t.raw && IsBeat(t.raw[id].event) && t.raw[id].event.payload.queuePending.Some? &&
        t.beats[id] == BeatOf(t.raw[id].event)
  }

  /** Entry `i` of a job is a heartbeat that this job stored. */
  ghost predicate StoredBeat(j: Job, i: nat) {
    i < |j.parts.toStore| && IsBeat(j.parts.toStore[i]) && j.parts.toStore[i].id in j.stored
  }

  /** Of the heartbeats a job stored, exactly those its loop has passed are projected. */
  ghost predicate Projected(beats: map<Id, BeatRow>, j: Job) {
    forall i: nat :: StoredBeat(j, i) ==> (j.parts.toStore[i].id in beats <==> i < j.projected)
  }

  ghost predicate AllProjected(s: State) {
    forall k :: 0 <= k < |s.jobs| ==> Projected(s.t.beats, s.jobs[k])
  }

  ghost predicate BeatInv(s: State) {
    BeatsAreRaw(s.t) && AllProjected(s)
  }

  lemma ProjectedSame(beats: map<Id, BeatRow>, j: Job, j': Job)
    requires Projected(beats, j) && StageOk(j)
    requires j'.stored == j.stored && j'.projected == j.projected && (j.committed ==> j'.parts == j.parts)
    ensures Projected(beats, j')
  {
    hide VerdictsOk, IsBeat;
    forall i: nat | StoredBeat(j', i)
      ensures j'.parts.toStore[i].id in beats <==> i < j'.projected
    {
      assert j.committed;
      assert StoredBeat(j, i);
    }
  }

  lemma ReplaceKeepsBeats(s: State, t': Tables, k: nat, j': Job)
    requires k < |s.jobs| && BeatInv(s) && StageOk(s.jobs[k]) && t'.raw == s.t.raw && t'.beats == s.t.beats
    requires var j := s.jobs[k];
               j'.stored == j.stored && j'.projected == j.projected &&
               (j.committed ==> j'.parts == j.parts)
    ensures BeatInv(s.(t := t', jobs := s.jobs[k := j']))
  {
    ProjectedSame(s.t.beats, s.jobs[k], j');
    hide Projected, StageOk, IsBeat, BeatOf;
  }

  lemma NotYetProjected(t: Tables, j: Job)
    requires BeatsAreRaw(t) && forall id :: id in j.stored ==> id !in t.raw
    requires j.projected == 0
    ensures Projected(t.beats, j)
  {
  }

  lemma StoreKeepsBeats(s: State, k: nat, es: seq<Event>)
    requires k < |s.jobs| && BeatInv(s) && PartsOk(s.jobs[k].parts, es, s.jobs[k].batch.device) &&
             s.jobs[k].projected == 0
    ensures var o := StoreStep(s.t, s.jobs[k]); BeatInv(s.(t := o.t, jobs := s.jobs[k := o.j]))
  {
    var o := StoreStep(s.t, s.jobs[k]);
    StoreEffect(s.t, s.jobs[k], es);
    assert o.j.projected == 0 && o.t.beats == s.t.beats;
    hide StoreStep, PartsOk, HeldBy, Projected;
    NotYetProjected(s.t, o.j);
  }

  lemma SkipKeepsProjected(beats: map<Id, BeatRow>, j: Job)
    requires Projected(beats, j) && j.projected < |j.parts.toStore| && !StoredBeat(j, j.projected)
    ensures Projected(beats, j.(projected := j.projected + 1))
  {
    var j' := j.(projected := j.projected + 1);
    forall i: nat | StoredBeat(j', i)
      ensures j'.parts.toStore[i].id in beats <==> i < j'.projected
    {
      assert StoredBeat(j, i);
    }
  }

  lemma InsertKeepsProjected(beats: map<Id, BeatRow>, j: Job, row: BeatRow)
    requires Projected(beats, j) && StoredBeat(j, j.projected) && Distinct(Ids(j.parts.toStore))
    ensures Projected(beats[j.parts.toStore[j.projected].id := row], j.(projected := j.projected + 1))
  {
    var es := j.parts.toStore;
    var j' := j.(projected := j.projected + 1);
    forall i: nat | StoredBeat(j', i)
      ensures es[i].id in beats[es[j.projected].id := row] <==> i < j'.projected
    {
      assert StoredBeat(j, i);
      assert Ids(es)[i] == es[i].id && Ids(es)[j.projected] == es[j.projected].id;
      if i < j.projected {
        assert Ids(es)[i] != Ids(es)[j.projected];
      } else if j.projected < i {
        assert Ids(es)[j.projected] != Ids(es)[i];
      }
    }
  }

  lemma OthersKeepProjected(beats: map<Id, BeatRow>, j: Job, id: Id, row: BeatRow)
    requires Projected(beats, j) && id !in j.stored
    ensures Projected(beats[id := row], j)
  {
  }

  /** What a job at its heartbeat loop brings along. */
  lemma BeatingFacts(cfg: Settings, s: State, k: nat)
    requires k < |s.jobs| && Sound(cfg, s)
    ensures var j := s.jobs[k];
            && StageOk(j) && j.projected <= |j.parts.toStore| && Distinct(Ids(j.parts.toStore))
            && Exclusive(s.jobs)
            && (StoredBeat(j, j.projected) ==>
                  var e := j.parts.toStore[j.projected]; e.id in s.t.raw && s.t.raw[e.id].event == e)
  {
    hide Exclusive, Owned, Ids, Acceptable, VerdictsOk, IsBeat;
    assert JobOk(cfg, s.clock, s.jobs[k]) && HeldBy(s.t.raw, s.jobs[k]);
  }

  lemma BeatStepKeepsBeats(cfg: Settings, s: State, k: nat)
    requires k < |s.jobs| && Sound(cfg, s) && BeatInv(s) && s.jobs[k].pc.Beating?
    ensures var o := BeatStep(s.t, s.jobs[k]); BeatInv(s.(t := o.t, jobs := s.jobs[k := o.j]))
  {
    hide *;
    var j := s.jobs[k];
    BeatingFacts(cfg, s, k);
    var o := BeatStep(s.t, j);
    BeatCases(s.t, j);
    if o.t == s.t && o.j.projected == j.projected {
      ReplaceKeepsBeats(s, s.t, k, o.j);
    } else if o.t == s.t && o.j == j.(projected := j.projected + 1) && !StoredBeat(j, j.projected) {
      SkipOne(s, k);
    } else {
      ProjectOne(s, k);
    }
  }

  lemma BeatCases(t: Tables, j: Job)
    requires j.projected <= |j.parts.toStore|
    ensures var o := BeatStep(t, j);
            || (o.t == t && o.j == j.(pc := o.j.pc))
            || (o.t == t && j.projected < |j.parts.toStore| && !StoredBeat(j, j.projected) &&
               o.j == j.(projected := j.projected + 1))
            || (StoredBeat(j, j.projected) &&
                var e := j.parts.toStore[j.projected];
                e.payload.queuePending.Some? && o.j == j.(projected := j.projected + 1) &&
                o.t == t.(beats := t.beats[e.id := BeatOf(e)]))
  {
    hide IsBeat;
  }

  lemma SkipOne(s: State, k: nat)
    requires k < |s.jobs| && BeatInv(s) && s.jobs[k].projected < |s.jobs[k].parts.toStore| &&
             !StoredBeat(s.jobs[k], s.jobs[k].projected)
    ensures BeatInv(s.(t := s.t, jobs := s.jobs[k := s.jobs[k].(projected := s.jobs[k].projected + 1)]))
  {
    SkipKeepsProjected(s.t.beats, s.jobs[k]);
    hide Projected, BeatsAreRaw;
  }

  lemma ProjectOne(s: State, k: nat)
    requires k < |s.jobs| && Exclusive(s.jobs) && BeatInv(s)
    requires var j := s.jobs[k];
             && StoredBeat(j, j.projected) && Distinct(Ids(j.parts.toStore))
             && j.parts.toStore[j.projected].payload.queuePending.Some?
    requires var e := s.jobs[k].parts.toStore[s.jobs[k].projected]; e.id in s.t.raw && s.t.raw[e.id].event == e
    ensures var j := s.jobs[k];
            var e := j.parts.toStore[j.projected];
            BeatInv(s.(t := s.t.(beats := s.t.beats[e.id := BeatOf(e)]),
              jobs := s.jobs[k := j.(projected := j.projected + 1)]))
  {
    var j := s.jobs[k];
    var e := j.parts.toStore[j.projected];
    InsertKeepsProjected(s.t.beats, j, BeatOf(e));
    var s' := s.(t := s.t.(beats := s.t.beats[e.id := BeatOf(e)]),
        jobs := s.jobs[k := j.(projected := j.projected + 1)]);
    InsertKeepsRows(s.t, e);
    hide Projected, Ids, IsBeat, BeatOf, BeatsAreRaw;
    forall i | 0 <= i < |s'.jobs|
      ensures Projected(s'.t.beats, s'.jobs[i])
    {
      if i != k {
        if i < k {
          assert Disjoint(s.jobs[i].stored, s.jobs[k].stored);
        } else {
          assert Disjoint(s.jobs[k].stored, s.jobs[i].stored);
        }
        OthersKeepProjected(s.t.beats, s.jobs[i], e.id, BeatOf(e));
      }
    }
  }

  lemma InsertKeepsRows(t: Tables, e: Event)
    requires BeatsAreRaw(t) && IsBeat(e) && e.payload.queuePending.Some? && e.id in t.raw && t.raw[e.id].event == e
    ensures BeatsAreRaw(t.(beats := t.beats[e.id := BeatOf(e)]))
  {
    hide IsBeat, BeatOf;
  }

  lemma OtherStepsKeepBeats(cfg: Settings, t: Tables, j: Job, now: int)
    requires JobOk(cfg, now, j) && !j.pc.Storing? && !j.pc.Beating?
    ensures var o := Advance(cfg, t, j, now);
            o.t.raw == t.raw && o.t.beats == t.beats && o.j.stored == j.stored && o.j.projected == j.projected &&
              (j.committed ==> o.j.parts == j.parts)
  {
    hide PartsOk, VerdictsOk, Place, Acceptable, Ids, RecordBatch, RecordAcks, EntriesOf, BatchRowOf, BeatOf;
  }

  lemma BeatFrame(s: State, s': State)
    requires BeatInv(s) && s'.t == s.t && s'.jobs == s.jobs
    ensures BeatInv(s')
  {
    hide Projected, BeatsAreRaw;
  }

  lemma StepKeepsBeats(cfg: Settings, s: State, k: nat)
    requires k < |s.jobs| && Sound(cfg, s) && BeatInv(s)
    ensures BeatInv(StepJob(cfg, s, k))
  {
    hide BeatInv, RawInv, Advance, EntriesOf;
    var j := s.jobs[k];
    var o := Advance(cfg, s.t, j, s.clock);
    assert JobOk(cfg, s.clock, j);
    if j.pc.Storing? {
      StoringStep(cfg, s.t, j, s.clock);
      StoreKeepsBeats(s, k, j.batch.events[..j.seen]);
    } else if j.pc.Beating? {
      BeatingStep(cfg, s.t, j, s.clock);
      BeatStepKeepsBeats(cfg, s, k);
    } else {
      OtherStepsKeepBeats(cfg, s.t, j, s.clock);
      ReplaceKeepsBeats(s, o.t, k, o.j);
    }
    BeatFrame(s.(t := o.t, jobs := s.jobs[k := o.j]), StepJob(cfg, s, k));
  }

  lemma BeatingStep(cfg: Settings, t: Tables, j: Job, now: int)
    requires j.pc.Beating?
    ensures Advance(cfg, t, j, now) == BeatStep(t, j)
  {
  }

  lemma NextKeepsBeats(cfg: Settings, s: State, a: Action)
    requires !RetentionOn(cfg) && Sound(cfg, s) && BeatInv(s)
    ensures BeatInv(Next(cfg, s, a))
  {
    hide StepJob, JobOk, RawInv, IsBeat, BeatOf;
    match a {
      case Tick(_) =>
      case Retain(_) =>
      case Begin(batch) => hide Projected;
        assert Projected(s.t.beats, Start(batch, s.clock)) by { NewJobProjected(s.t.beats, batch, s.clock); }
      case Step(k) =>
        if k < |s.jobs| {
          StepKeepsBeats(cfg, s, k);
        }
      case Crash(k) =>
        if k < |s.jobs| && s.jobs[k].pc != Replied {
          CrashStage(cfg, s.clock, s.jobs[k]);
          ReplaceKeepsBeats(s, s.t, k, s.jobs[k].(pc := Failed));
        }
    }
  }

  lemma CrashStage(cfg: Settings, now: int, j: Job)
    requires JobOk(cfg, now, j)
    ensures StageOk(j)
  {
  }

  lemma NewJobProjected(beats: map<Id, BeatRow>, batch: Batch, now: int)
    ensures Projected(beats, Start(batch, now))
  {
  }

  lemma {:induction false} RunKeepsBeats(cfg: Settings, s: State, actions: seq<Action>)
    requires !RetentionOn(cfg) && Sound(cfg, s) && BeatInv(s)
    ensures BeatInv(Run(cfg, s, actions))
  {
    if actions != [] {
      var n := |actions| - 1;
      RunKeepsBeats(cfg, s, actions[..n]);
      RunSound(cfg, s, actions[..n]);
      NextKeepsBeats(cfg, Run(cfg, s, actions[..n]), actions[n]);
    }
  }

  // ---------------------------------------------------------------- the theorems

  /**
   In every reachable state each heartbeat row projects a raw heartbeat event, and the projection is complete
   exactly when no job has a stored heartbeat that its loop has not passed.
   */
  lemma HeartbeatProjection(cfg: Settings, clock: int, devices: map<Id, int>, actions: seq<Action>)
    requires !RetentionOn(cfg)
    ensures var s := Run(cfg, Init(clock, devices), actions);
            && (forall id :: id in s.t.beats ==> id in s.t.raw && Projects(s.t.beats[id], s.t.raw[id].event))
            && ((forall id :: id in s.t.raw && s.t.raw[id].event.source == "heartbeat" ==> id in s.t.beats) <==>
                (forall k, i: nat :: 0 <= k < |s.jobs| && StoredBeat(s.jobs[k], i) ==> i < s.jobs[k].projected))
  {
    InitSound(cfg, clock, devices);
    RunSound(cfg, Init(clock, devices), actions);
    RunKeepsBeats(cfg, Init(clock, devices), actions);
    var s := Run(cfg, Init(clock, devices), actions);
    hide Run, IsBeat, BeatOf, Projects;
    Completeness(cfg, s);
    BeatLiterally();
  }

  /** A heartbeat row has the columns of its event. */
  predicate Projects(row: BeatRow, e: Event) {
    && e.source == "heartbeat" && row.device == e.device && row.time == e.time
    && Some(row.queuePending) == e.payload.queuePending && row.enabledCollectors == e.payload.enabledCollectors
  }

  lemma BeatLiterally()
    ensures forall e: Event :: IsBeat(e) <==> e.source == "heartbeat"
    ensures forall e: Event :: IsBeat(e) && e.payload.queuePending.Some? ==> Projects(BeatOf(e), e)
  {
  }

  lemma Completeness(cfg: Settings, s: State)
    requires Sound(cfg, s) && BeatInv(s)
    ensures (forall id :: id in s.t.raw && IsBeat(s.t.raw[id].event) ==> id in s.t.beats) <==>
            (forall k, i: nat :: 0 <= k < |s.jobs| && StoredBeat(s.jobs[k], i) ==> i < s.jobs[k].projected)
  {
    hide IsBeat, BeatOf, AllJobsOk, Exclusive, Owned;
    if forall k, i: nat :: 0 <= k < |s.jobs| && StoredBeat(s.jobs[k], i) ==> i < s.jobs[k].projected {
      forall id | id in s.t.raw && IsBeat(s.t.raw[id].event)
        ensures id in s.t.beats
      {
        var k, i := OwnerOf(cfg, s, id);
        assert Projected(s.t.beats, s.jobs[k]);
        assert StoredBeat(s.jobs[k], i);
      }
    }
    if forall id :: id in s.t.raw && IsBeat(s.t.raw[id].event) ==> id in s.t.beats {
      forall k, i: nat | 0 <= k < |s.jobs| && StoredBeat(s.jobs[k], i)
        ensures i < s.jobs[k].projected
      {
        assert Projected(s.t.beats, s.jobs[k]);
        assert HeldBy(s.t.raw, s.jobs[k]);
        assert s.t.raw[s.jobs[k].parts.toStore[i].id].event == s.jobs[k].parts.toStore[i];
      }
    }
  }

  lemma OwnerOf(cfg: Settings, s: State, id: Id) returns (k: nat, i: nat)
    requires Sound(cfg, s) && id in s.t.raw
    ensures k < |s.jobs| && i < |s.jobs[k].parts.toStore|
    ensures s.jobs[k].parts.toStore[i] == s.t.raw[id].event && s.jobs[k].parts.toStore[i].id == id &&
            id in s.jobs[k].stored
  {
    k :| 0 <= k < |s.jobs| && id in s.jobs[k].stored;
    StoredRow(cfg, s, k, id);
    i :| 0 <= i < |s.jobs[k].parts.toStore| && s.jobs[k].parts.toStore[i] == s.t.raw[id].event;
  }

  /** When every ingest has run to its reply, the heartbeat table has a row for every raw heartbeat. */
  lemma QuiescentProjection(cfg: Settings, clock: int, devices: map<Id, int>, actions: seq<Action>)
    requires !RetentionOn(cfg)
    requires var s := Run(cfg, Init(clock, devices), actions); forall k :: 0 <= k < |s.jobs| ==> s.jobs[k].pc.Replied?
    ensures var s := Run(cfg, Init(clock, devices), actions);
            forall id :: id in s.t.beats <==> id in s.t.raw && s.t.raw[id].event.source == "heartbeat"
  {
    hide Run, IsBeat, BeatOf, RawInv, JobOk;
    BeatLiterally();
    HeartbeatProjection(cfg, clock, devices, actions);
    InitSound(cfg, clock, devices);
    RunSound(cfg, Init(clock, devices), actions);
    var s := Run(cfg, Init(clock, devices), actions);
    forall k, i: nat | 0 <= k < |s.jobs| && StoredBeat(s.jobs[k], i)
      ensures i < s.jobs[k].projected
    {
      RepliedIsDone(cfg, s.clock, s.jobs[k]);
    }
  }

  lemma RepliedIsDone(cfg: Settings, now: int, j: Job)
    requires JobOk(cfg, now, j) && j.pc.Replied?
    ensures j.committed && j.recorded && j.acked && j.projected == |j.parts.toStore|
  {
    hide PartsOk, Acceptable, VerdictsOk;
  }

  lemma {:induction false} FailedStays(cfg: Settings, s: State, actions: seq<Action>, k: nat)
    requires k < |s.jobs| && s.jobs[k].pc.Failed?
    ensures var s' := Run(cfg, s, actions); k < |s'.jobs| && s'.jobs[k] == s.jobs[k]
  {
    if actions != [] {
      FailedStays(cfg, s, actions[..|actions| - 1], k);
    }
  }

  /**
   A heartbeat whose ingest died after storing it and before projecting it is never projected: no later
   delivery, under any batch, repairs the heartbeat table, although the raw event is there for good.
   */
  lemma LostForever(cfg: Settings, clock: int, devices: map<Id, int>, before: seq<Action>, after: seq<Action>, k: nat,
                    i: nat)
    requires !RetentionOn(cfg)
    requires var s := Run(cfg, Init(clock, devices), before);
             k < |s.jobs| && s.jobs[k].pc.Failed? && StoredBeat(s.jobs[k], i) && s.jobs[k].projected <= i
    ensures var id := Run(cfg, Init(clock, devices), before).jobs[k].parts.toStore[i].id;
            var s' := Run(cfg, Init(clock, devices), before + after);
            id in s'.t.raw && id !in s'.t.beats
  {
    var s := Run(cfg, Init(clock, devices), before);
    InitSound(cfg, clock, devices);
    RunSound(cfg, Init(clock, devices), before + after);
    RunKeepsBeats(cfg, Init(clock, devices), before + after);
    RunAppend(cfg, Init(clock, devices), before, after);
    FailedStays(cfg, s, after, k);
    var s' := Run(cfg, s, after);
    assert HeldBy(s'.t.raw, s'.jobs[k]) && Projected(s'.t.beats, s'.jobs[k]);
  }

  /** Such a run exists for every acceptable heartbeat: deliver it, store it, crash. */
  lemma CrashLosesHeartbeat(cfg: Settings, clock: int, devices: map<Id, int>, e: Event, batchId: Id)
    requires IsBeat(e) && Acceptable(e, cfg, clock)
    ensures var run := [Begin(Batch(batchId, e.device, [e])), Step(0), Step(0), Step(0), Crash(0)];
            var s := Run(cfg, Init(clock, devices), run);
            |s.jobs| == 1 && s.jobs[0].pc.Failed? && StoredBeat(s.jobs[0], 0) && s.jobs[0].projected == 0
  {
    hide Acceptable, Validate, IsBeat;
    var b := Batch(batchId, e.device, [e]);
    var s0 := Init(clock, devices);
    var s1 := Next(cfg, s0, Begin(b));
    var s2 := Next(cfg, s1, Step(0));
    var s3 := Next(cfg, s2, Step(0));
    var s4 := Next(cfg, s3, Step(0));
    var s5 := Next(cfg, s4, Crash(0));
    assert s2.jobs[0].parts == Parts([], [e], []) && s2.jobs[0].pc.Validating? by {
      PlaceFirst(e, cfg, clock);
    }
    assert s3.jobs[0].pc.Storing? && s3.jobs[0].parts == s2.jobs[0].parts && s3.t.raw == map[];
    assert Fresh(map[], [e]) == [e];
    assert s4.jobs[0].stored == [e.id];
    var run := [Begin(b), Step(0), Step(0), Step(0), Crash(0)];
    FiveSteps(cfg, s0, Begin(b), Step(0), Step(0), Step(0), Crash(0));
  }

  // ---------------------------------------------------------------- unreadable payloads

  /** A run without crashes: requests fail only where the code raises. */
  ghost predicate CrashFree(actions: seq<Action>) {
    forall a :: a in actions ==> !a.Crash?
  }

  /** The job stopped at a heartbeat it stored whose queue depth cannot be read. */
  ghost predicate StoppedOnPayload(j: Job) {
    StoredBeat(j, j.projected) && j.parts.toStore[j.projected].payload.queuePending.None?
  }

  ghost predicate FailuresArePayloads(s: State) {
    forall k :: 0 <= k < |s.jobs| && s.jobs[k].pc.Failed? ==> StoppedOnPayload(s.jobs[k])
  }

  lemma FailsOnPayload(cfg: Settings, t: Tables, j: Job, now: int)
    requires !j.pc.Failed? && Advance(cfg, t, j, now).j.pc.Failed?
    ensures StoppedOnPayload(Advance(cfg, t, j, now).j)
  {
    hide Place, Ids, Fresh, Known, StoreRaw, RecordBatch, RecordAcks, EntriesOf, BatchRowOf, Touch, BeatOf;
  }

  lemma {:induction false} RunFailsOnPayload(cfg: Settings, s: State, actions: seq<Action>)
    requires CrashFree(actions) && FailuresArePayloads(s)
    ensures FailuresArePayloads(Run(cfg, s, actions))
  {
    if actions != [] {
      var n := |actions| - 1;
      RunFailsOnPayload(cfg, s, actions[..n]);
      assert actions[n] in actions;
      NextFailsOnPayload(cfg, Run(cfg, s, actions[..n]), actions[n]);
    }
  }

  lemma NextFailsOnPayload(cfg: Settings, s: State, a: Action)
    requires !a.Crash? && FailuresArePayloads(s)
    ensures FailuresArePayloads(Next(cfg, s, a))
  {
    hide Advance, EntriesOf, Expire, StoppedOnPayload;
    if a.Step? && a.k < |s.jobs| {
      var j := s.jobs[a.k];
      if j.pc.Failed? {
        FailedDoesNothing(cfg, s.t, j, s.clock);
      } else if Advance(cfg, s.t, j, s.clock).j.pc.Failed? {
        FailsOnPayload(cfg, s.t, j, s.clock);
      }
    }
  }

  lemma FailedDoesNothing(cfg: Settings, t: Tables, j: Job, now: int)
    requires j.pc.Failed?
    ensures Advance(cfg, t, j, now).j == j
  {
  }

  /**
   Once every request of a run without crashes is over, by its reply or by an exception, every raw heartbeat has
   its row exactly when no raw heartbeat has an unreadable queue depth.
   */
  lemma PayloadsDecide(cfg: Settings, clock: int, devices: map<Id, int>, actions: seq<Action>)
    requires !RetentionOn(cfg) && CrashFree(actions)
    requires var s := Run(cfg, Init(clock, devices), actions);
             forall k :: 0 <= k < |s.jobs| ==> s.jobs[k].pc.Replied? || s.jobs[k].pc.Failed?
    ensures var s := Run(cfg, Init(clock, devices), actions);
            (forall id :: id in s.t.raw && s.t.raw[id].event.source == "heartbeat" ==> id in s.t.beats) <==>
            (forall id :: id in s.t.raw && s.t.raw[id].event.source == "heartbeat" ==>
               s.t.raw[id].event.payload.queuePending.Some?)
  {
    hide Run, RawInv, JobOk, BeatOf, IsBeat;
    BeatLiterally();
    HeartbeatProjection(cfg, clock, devices, actions);
    InitSound(cfg, clock, devices);
    RunSound(cfg, Init(clock, devices), actions);
    RunFailsOnPayload(cfg, Init(clock, devices), actions);
    var s := Run(cfg, Init(clock, devices), actions);
    if forall id :: id in s.t.raw && s.t.raw[id].event.source == "heartbeat" ==>
                      s.t.raw[id].event.payload.queuePending.Some? {
      forall k | 0 <= k < |s.jobs|
        ensures s.jobs[k].pc.Replied?
      {
        if s.jobs[k].pc.Failed? {
          StoredBeatIsRaw(cfg, s, k, s.jobs[k].projected);
        }
      }
      QuiescentProjection(cfg, clock, devices, actions);
    }
  }

  lemma StoredBeatIsRaw(cfg: Settings, s: State, k: nat, i: nat)
    requires Sound(cfg, s) && k < |s.jobs| && StoredBeat(s.jobs[k], i)
    ensures var e := s.jobs[k].parts.toStore[i]; IsBeat(e) && e.id in s.t.raw && s.t.raw[e.id].event == e
  {
    var j := s.jobs[k];
    assert HeldBy(s.t.raw, j);
    assert j.parts.toStore[i] in j.parts.toStore;
  }

  /** Such a run exists, without a crash, for every acceptable heartbeat whose queue depth cannot be read. */
  lemma UnreadableLosesHeartbeat(cfg: Settings, clock: int, devices: map<Id, int>, e: Event, batchId: Id,
                                 after: seq<Action>)
    requires !RetentionOn(cfg) && IsBeat(e) && Acceptable(e, cfg, clock) && e.payload.queuePending.None?
    ensures var run := [Begin(Batch(batchId, e.device, [e])), Step(0), Step(0), Step(0), Step(0)];
            var s' := Run(cfg, Init(clock, devices), run + after);
            CrashFree(run) && e.id in s'.t.raw && e.id !in s'.t.beats
  {
    hide Run, BeatOf;
    var batch := Batch(batchId, e.device, [e]);
    var run := [Begin(batch), Step(0), Step(0), Step(0), Step(0)];
    var s := Init(clock, devices);
    FiveSteps(cfg, s, Begin(batch), Step(0), Step(0), Step(0), Step(0));
    PlaceFirst(e, cfg, clock);
    hide Place;
    var s1 := Next(cfg, s, Begin(batch));
    var s2 := Next(cfg, s1, Step(0));
    assert s2.jobs[0].parts == Parts([], [e], []);
    var s3 := Next(cfg, s2, Step(0));
    var s4 := Next(cfg, s3, Step(0));
    assert Ids(Fresh(map[], [e])) == [e.id];
    assert s4.jobs[0].stored == [e.id] && s4.jobs[0].pc.Beating? && s4.jobs[0].parts.toStore == [e];
    var s5 := Next(cfg, s4, Step(0));
    assert s5.jobs[0].pc.Failed? && StoredBeat(s5.jobs[0], 0) && s5.jobs[0].projected == 0;
    LostForever(cfg, clock, devices, run, after, 0, 0);
  }

  lemma PlaceFirst(e: Event, cfg: Settings, now: int)
    requires Acceptable(e, cfg, now)
    ensures Place(Parts([], [], []), e, e.device, cfg, now) == Parts([], [e], [])
  {
    hide Validate;
  }

  lemma FiveSteps(cfg: Settings, s: State, a: Action, b: Action, c: Action, d: Action, e: Action)
    ensures Run(cfg, s, [a, b, c, d, e]) == Next(cfg, Next(cfg, Next(cfg, Next(cfg, Next(cfg, s, a), b), c), d), e)
  {
    hide Next;
    assert [a, b, c, d, e][..4] == [a, b, c, d];
    assert [a, b, c, d][..3] == [a, b, c];
    assert [a, b, c][..2] == [a, b];
    assert [a, b][..1] == [a];
    assert [a][..0] == [];
    assert Run(cfg, s, [a]) == Next(cfg, s, a);
    assert Run(cfg, s, [a, b]) == Next(cfg, Run(cfg, s, [a]), b);
    assert Run(cfg, s, [a, b, c]) == Next(cfg, Run(cfg, s, [a, b]), c);
    assert Run(cfg, s, [a, b, c, d]) == Next(cfg, Run(cfg, s, [a, b, c]), d);
  }
}
