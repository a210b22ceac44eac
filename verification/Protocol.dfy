/**
 Ingestion as a transition system.  Each transaction of `ingest_batch` is one atomic step of a job; jobs
 interleave at transaction boundaries, may die between any two steps, and read a clock that never goes back.
 */
module Protocol {
  import opened Wrappers
  import opened Seqs
  import opened Types
  import opened Ingestion

  /** The next thing a job does.  `Failed` is a crash or an exception. */
  datatype Pc = Validating | Storing | Beating | Batching | Acking | Touching | Replied | Failed

  /**
   One call of `ingest_batch`: its local variables and how far it got.  `seen` counts validated events,
   `projected` the iterations of the heartbeat loop; the flags tell which transactions have committed.
   `readings` is history: the clock as it was read for each validated event.  No step looks at it.
   */
  datatype Job = Job(
    batch: Batch, receivedAt: int, pc: Pc, seen: nat, parts: Parts,
    committed: bool, stored: seq<Id>, duplicate: seq<Id>, projected: nat,
    recorded: bool, isNew: bool, acked: bool, readings: seq<int>)

  function Start(batch: Batch, now: int): Job {
    Job(batch, now, Validating, 0, Parts([], [], []), false, [], [], 0, false, false, false, [])
  }

  datatype Outcome = Outcome(t: Tables, j: Job)

  function EntriesOf(j: Job): seq<Entry> {
    Entries(j.stored, j.duplicate, j.parts.rejected)
  }

  function BatchRowOf(j: Job): BatchRow {
    BatchOf(j.batch, j.receivedAt, |j.stored|, |j.duplicate|, |j.parts.rejected|)
  }

  function StoreStep(t: Tables, j: Job): Outcome {
    var es := j.parts.toStore;
    Outcome(t.(raw := StoreRaw(t.raw, es, j.receivedAt, j.batch.id)),
            j.(pc := Beating, committed := true, stored := Ids(Fresh(t.raw, es)),
               duplicate := Ids(Known(t.raw, es)) + j.parts.repeats))
  }

  function BeatStep(t: Tables, j: Job): Outcome {
    if j.projected >= |j.parts.toStore| then Outcome(t, j.(pc := Batching))
    else
      var e := j.parts.toStore[j.projected];
      if !IsBeat(e) || e.id !in j.stored then Outcome(t, j.(projected := j.projected + 1))
      else if e.payload.queuePending.None? then Outcome(t, j.(pc := Failed))
      else Outcome(t.(beats := t.beats[e.id := BeatOf(e)]), j.(projected := j.projected + 1))
  }

  function BatchStep(t: Tables, j: Job): Outcome {
    Outcome(t.(batches := RecordBatch(t.batches, j.batch.id, BatchRowOf(j))),
            j.(pc := Acking, recorded := true, isNew := j.batch.id !in t.batches))
  }

  /** One step of a job at clock reading `now`; a finished or dead job does nothing. */
  function Advance(cfg: Settings, t: Tables, j: Job, now: int): Outcome {
    match j.pc
    case Validating =>
      if j.seen < |j.batch.events| then
        Outcome(t, j.(seen := j.seen + 1, readings := j.readings + [now],
                       parts := Place(j.parts, j.batch.events[j.seen], j.batch.device, cfg, now)))
      else Outcome(t, j.(pc := Storing))
    case Storing => StoreStep(t, j)
    case Beating => BeatStep(t, j)
    case Batching => BatchStep(t, j)
    case Acking => Outcome(t.(acks := RecordAcks(t.acks, j.batch.id, EntriesOf(j))), j.(pc := Touching, acked := true))
    case Touching => Outcome(t.(lastSeen := Touch(t.lastSeen, j.batch.device, now)), j.(pc := Replied))
    case Replied => Outcome(t, j)
    case Failed => Outcome(t, j)
  }

  /** What a committed `store_events` call was given, and what a committed `record_acknowledgements` wrote. */
  datatype Commit = Commit(events: seq<Event>, receivedAt: int, batch: Id)
  datatype AckCommit = AckCommit(batch: Id, entries: seq<Entry>)

  /** The server.  `commits` and `ackLog` are history, in commit order; no step reads them. */
  datatype State = State(clock: int, t: Tables, jobs: seq<Job>, commits: seq<Commit>, ackLog: seq<AckCommit>)

  datatype Action = Tick(dt: nat) | Begin(batch: Batch) | Step(k: nat) | Crash(k: nat) | Retain(cutoff: string)

  predicate RetentionOn(cfg: Settings) {
    cfg.retentionEnabled && cfg.retentionDays >= 1
  }

  function StepJob(cfg: Settings, s: State, k: nat): State
    requires k < |s.jobs|
  {
    var j := s.jobs[k];
    var o := Advance(cfg, s.t, j, s.clock);
    State(s.clock, o.t, s.jobs[k := o.j],
          if o.j.committed && !j.committed then s.commits + [Commit(j.parts.toStore, j.receivedAt, j.batch.id)]
          else s.commits,
          if o.j.acked && !j.acked then s.ackLog + [AckCommit(j.batch.id, EntriesOf(j))] else s.ackLog)
  }

  /** Actions that are not possible leave the state alone, so every list of actions is a run. */
  function Next(cfg: Settings, s: State, a: Action): State {
    match a
    case Tick(dt) => s.(clock := s.clock + dt)
    case Begin(batch) => s.(jobs := s.jobs + [Start(batch, s.clock)])
    case Step(k) => if k < |s.jobs| then StepJob(cfg, s, k) else s
    case Crash(k) =>
      if k < |s.jobs| && s.jobs[k].pc != Replied then s.(jobs := s.jobs[k := s.jobs[k].(pc := Failed)]) else s
    case Retain(cutoff) => if RetentionOn(cfg) then s.(t := s.t.(raw := Expire(s.t.raw, cutoff))) else s
  }

  function Run(cfg: Settings, s: State, actions: seq<Action>): State {
    if actions == [] then s
    else
      var n := |actions| - 1;
      Next(cfg, Run(cfg, s, actions[..n]), actions[n])
  }

  /** A new database with the given enrolled devices. */
  function Init(clock: int, lastSeen: map<Id, int>): State {
    State(clock, Tables(map[], map[], map[], map[], lastSeen), [], [], [])
  }

  lemma {:induction false} RunAppend(cfg: Settings, s: State, a: seq<Action>, b: seq<Action>)
    ensures Run(cfg, s, a + b) == Run(cfg, Run(cfg, s, a), b)
  {
    if b == [] {
      assert a + b == a;
    } else {
      var n := |b| - 1;
      RunAppend(cfg, s, a, b[..n]);
      assert (a + b)[..|a + b| - 1] == a + b[..n];
    }
  }

  /** Clock readings that a clock which never goes back can give after `start`. */
  ghost predicate Readings(start: int, times: seq<int>) {
    && (forall i :: 0 <= i < |times| ==> start <= times[i])
    && (forall i, k :: 0 <= i < k < |times| ==> times[i] <= times[k])
  }

  // ---------------------------------------------------------------- what one job keeps

  /** The local bookkeeping of a job: each event validated so far has one place, each stage its flags. */
  ghost predicate JobOk(cfg: Settings, clock: int, j: Job) {
    && j.seen <= |j.batch.events|
    && PartsOk(j.parts, j.batch.events[..j.seen], j.batch.device)
    && (forall e :: e in j.parts.toStore ==> Acceptable(e, cfg, clock))
    && j.receivedAt <= clock
    && StageOk(j)
  }

  ghost predicate StageOk(j: Job) {
    && (j.pc.Storing? ==> !j.committed && j.seen == |j.batch.events|)
    && (j.pc.Validating? ==> !j.committed)
    && (j.pc.Beating? ==> j.committed && !j.recorded)
    && (j.pc.Batching? ==> j.committed && !j.recorded && j.projected == |j.parts.toStore|)
    && (j.pc.Acking? ==> j.recorded && !j.acked)
    && (j.pc.Touching? || j.pc.Replied? ==> j.acked)
    && (j.acked ==> j.recorded)
    && (j.recorded ==> j.committed && j.projected == |j.parts.toStore|)
    && (j.isNew ==> j.recorded)
    && j.projected <= |j.parts.toStore|
    && (!j.committed ==> j.stored == [] && j.duplicate == [] && j.projected == 0)
    && (j.committed ==>
          j.seen == |j.batch.events| && VerdictsOk(j.parts, j.stored, j.duplicate))
  }

  /** Every id that was to be stored, repeats included, got one of the two accepting verdicts. */
  ghost predicate VerdictsOk(p: Parts, stored: seq<Id>, duplicate: seq<Id>) {
    && multiset(stored) + multiset(duplicate) == multiset(Ids(p.toStore)) + multiset(p.repeats)
    && Distinct(stored)
    && forall id :: id in stored ==> id in Ids(p.toStore)
  }

  /** The books of a job whose events are stored: one place for each event, one verdict for each place. */
  ghost predicate Settled(j: Job) {
    PartsOk(j.parts, j.batch.events, j.batch.device) && VerdictsOk(j.parts, j.stored, j.duplicate)
  }

  lemma CommittedIsSettled(cfg: Settings, now: int, j: Job)
    requires JobOk(cfg, now, j) && j.committed
    ensures Settled(j)
  {
    hide PartsOk, VerdictsOk, Acceptable;
    assert j.batch.events[..j.seen] == j.batch.events;
  }

  lemma StartOk(cfg: Settings, batch: Batch, now: int)
    ensures JobOk(cfg, now, Start(batch, now))
  {
    var j := Start(batch, now);
    assert RejectedIds(j.parts.rejected) == [] && Ids(j.parts.toStore) == [] && Ids(batch.events[..0]) == [];
  }

  lemma JobOkLater(cfg: Settings, now: int, later: int, j: Job)
    requires JobOk(cfg, now, j) && now <= later
    ensures JobOk(cfg, later, j)
  {
    hide PartsOk, StageOk, Acceptable;
    forall e | e in j.parts.toStore
      ensures Acceptable(e, cfg, later)
    {
      AcceptableLater(e, cfg, now, later);
    }
  }

  lemma ValidatedParts(p: Parts, es: seq<Event>, n: nat, device: Id, cfg: Settings, now: int)
    requires n < |es| && PartsOk(p, es[..n], device)
    ensures PartsOk(Place(p, es[n], device, cfg, now), es[..n + 1], device)
  {
    hide PartsOk, Place;
    PlaceKeepsParts(p, es[..n], es[n], device, cfg, now);
    assert es[..n + 1] == es[..n] + [es[n]];
  }

  lemma ValidateKeepsOk(cfg: Settings, t: Tables, j: Job, now: int)
    requires JobOk(cfg, now, j) && j.pc.Validating?
    ensures JobOk(cfg, now, Advance(cfg, t, j, now).j)
  {
    hide PartsOk, VerdictsOk, Place, Acceptable, Ids;
    if j.seen < |j.batch.events| {
      ValidatedParts(j.parts, j.batch.events, j.seen, j.batch.device, cfg, now);
      PlaceAccepts(j.parts, j.batch.events[j.seen], j.batch.device, cfg, now);
    }
  }

  lemma PlaceAccepts(p: Parts, e: Event, device: Id, cfg: Settings, now: int)
    ensures forall x :: x in Place(p, e, device, cfg, now).toStore ==>
              x in p.toStore ||
              (x == e && Acceptable(e, cfg, now))
  {
    hide Validate, Ids;
  }

  lemma StoreVerdicts(t: Tables, j: Job, device: Id, es: seq<Event>)
    requires PartsOk(j.parts, es, device)
    ensures var o := StoreStep(t, j).j; VerdictsOk(o.parts, o.stored, o.duplicate)
  {
    var toStore := j.parts.toStore;
    StoreSplits(t.raw, toStore, j.receivedAt, j.batch.id);
    hide StoreRaw, Fresh, Known, Ids, RejectedIds;
    VerdictsAdd(j.parts, Ids(Fresh(t.raw, toStore)), Ids(Known(t.raw, toStore)));
  }

  lemma VerdictsAdd(p: Parts, stored: seq<Id>, known: seq<Id>)
    requires multiset(Ids(p.toStore)) == multiset(stored) + multiset(known)
    requires Distinct(stored) && forall id :: id in stored ==> id in Ids(p.toStore)
    ensures VerdictsOk(p, stored, known + p.repeats)
  {
    hide Ids;
    assert multiset(known + p.repeats) == multiset(known) + multiset(p.repeats);
  }

  lemma BeatKeepsOk(cfg: Settings, t: Tables, j: Job, now: int)
    requires JobOk(cfg, now, j) && j.pc.Beating?
    ensures JobOk(cfg, now, BeatStep(t, j).j)
  {
    hide PartsOk, VerdictsOk, Acceptable, BeatOf, IsBeat;
  }

  lemma AdvanceKeepsOk(cfg: Settings, t: Tables, j: Job, now: int)
    requires JobOk(cfg, now, j)
    ensures JobOk(cfg, now, Advance(cfg, t, j, now).j)
  {
    hide PartsOk, Acceptable, VerdictsOk, BeatStep, Place, Fresh, Known, StoreRaw, Ids, RecordBatch, RecordAcks,
         EntriesOf, BatchRowOf, Touch;
    if j.pc.Validating? {
      ValidateKeepsOk(cfg, t, j, now);
    } else if j.pc.Storing? {
      StoreVerdicts(t, j, j.batch.device, j.batch.events[..j.seen]);
    } else if j.pc.Beating? {
      BeatKeepsOk(cfg, t, j, now);
    }
  }

  ghost predicate AllJobsOk(cfg: Settings, s: State) {
    forall k :: 0 <= k < |s.jobs| ==> JobOk(cfg, s.clock, s.jobs[k])
  }

  lemma NextKeepsJobs(cfg: Settings, s: State, a: Action)
    requires AllJobsOk(cfg, s)
    ensures AllJobsOk(cfg, Next(cfg, s, a))
  {
    hide Advance, JobOk, StageOk, EntriesOf, Expire;
    var s' := Next(cfg, s, a);
    forall k | 0 <= k < |s'.jobs|
      ensures JobOk(cfg, s'.clock, s'.jobs[k])
    {
      match a {
        case Tick(dt) => JobOkLater(cfg, s.clock, s'.clock, s.jobs[k]);
        case Begin(batch) => StartOk(cfg, batch, s.clock);
        case Step(i) =>
          if i == k {
            AdvanceKeepsOk(cfg, s.t, s.jobs[k], s.clock);
          }
        case Crash(i) =>
          if i == k {
            CrashKeepsOk(cfg, s.clock, s.jobs[k]);
          }
        case Retain(_) =>
      }
    }
  }

  /** Whatever a run does, retention included, every job keeps its bookkeeping. */
  lemma {:induction false} RunKeepsJobs(cfg: Settings, s: State, actions: seq<Action>)
    requires AllJobsOk(cfg, s)
    ensures AllJobsOk(cfg, Run(cfg, s, actions))
  {
    if actions != [] {
      var n := |actions| - 1;
      RunKeepsJobs(cfg, s, actions[..n]);
      NextKeepsJobs(cfg, Run(cfg, s, actions[..n]), actions[n]);
    }
  }

  /** The jobs of any reachable state. */
  lemma ReachableJobs(cfg: Settings, clock: int, devices: map<Id, int>, actions: seq<Action>)
    ensures AllJobsOk(cfg, Run(cfg, Init(clock, devices), actions))
  {
    hide JobOk;
    RunKeepsJobs(cfg, Init(clock, devices), actions);
  }

  lemma CrashKeepsOk(cfg: Settings, now: int, j: Job)
    requires JobOk(cfg, now, j)
    ensures JobOk(cfg, now, j.(pc := Failed))
  {
    hide PartsOk, Acceptable, Ids;
  }
}
