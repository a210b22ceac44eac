/** The batch table as a ledger: first counts kept, replays counted, and the sums that must agree. */
module Ledger {
  import opened Seqs
  import opened Types
  import opened Ingestion
  import opened Protocol
  import opened ExactlyOnce
  import opened Order

  // ---------------------------------------------------------------- sums over jobs and over the table

  function Tally(jobs: seq<Job>, f: Job -> nat): nat {
    if jobs == [] then 0 else Tally(jobs[..|jobs| - 1], f) + f(jobs[|jobs| - 1])
  }

  lemma {:induction false} TallyUpdate(jobs: seq<Job>, k: nat, j: Job, f: Job -> nat)
    requires k < |jobs|
    ensures Tally(jobs[k := j], f) == Tally(jobs, f) - f(jobs[k]) + f(j)
  {
    var n := |jobs| - 1;
    if k == n {
      assert jobs[k := j][..n] == jobs[..n];
    } else {
      assert jobs[k := j][..n] == jobs[..n][k := j];
      TallyUpdate(jobs[..n], k, j, f);
    }
  }

  lemma TallySnoc(jobs: seq<Job>, j: Job, f: Job -> nat)
    ensures Tally(jobs + [j], f) == Tally(jobs, f) + f(j)
  {
    assert (jobs + [j])[..|jobs|] == jobs;
  }

  lemma {:induction false} TallyAtMost(jobs: seq<Job>, f: Job -> nat, g: Job -> nat)
    requires forall j :: f(j) <= g(j)
    ensures Tally(jobs, f) <= Tally(jobs, g)
  {
    if jobs != [] {
      TallyAtMost(jobs[..|jobs| - 1], f, g);
    }
  }

  lemma {:induction false} TallyEqual(jobs: seq<Job>, f: Job -> nat, g: Job -> nat)
    requires forall j :: f(j) <= g(j)
    ensures Tally(jobs, f) == Tally(jobs, g) <==> forall j :: j in jobs ==> f(j) == g(j)
  {
    if jobs != [] {
      var n := |jobs| - 1;
      TallyEqual(jobs[..n], f, g);
      TallyAtMost(jobs[..n], f, g);
      assert jobs == jobs[..n] + [jobs[n]];
    }
  }

  function StoredBy(): Job -> nat {
    (j: Job) => |j.stored|
  }

  /** Stored by an ingest whose batch row carries its counts. */
  function BookedBy(): Job -> nat {
    (j: Job) => if j.isNew then |j.stored| else 0
  }

  function ArrivedFor(b: Id): Job -> nat {
    (j: Job) => if j.recorded && j.batch.id == b then 1 else 0
  }

  /** The sum of `stored_count` over the batch table. */
  ghost function SumStored(m: map<Id, BatchRow>): nat {
    if m == map[] then 0
    else
      var b :| b in m;
      m[b].stored + SumStored(m - {b})
  }

  lemma {:induction false} SumStoredAt(m: map<Id, BatchRow>, b: Id)
    requires b in m
    ensures SumStored(m) == m[b].stored + SumStored(m - {b})
    decreases |m|
  {
    var c :| c in m && SumStored(m) == m[c].stored + SumStored(m - {c});
    if c != b {
      SumStoredAt(m - {c}, b);
      SumStoredAt(m - {b}, c);
      assert m - {c} - {b} == m - {b} - {c};
    }
  }

  lemma SumStoredInsert(m: map<Id, BatchRow>, b: Id, row: BatchRow)
    requires b !in m
    ensures SumStored(m[b := row]) == SumStored(m) + row.stored
  {
    SumStoredAt(m[b := row], b);
    assert m[b := row] - {b} == m;
  }

  lemma SumStoredReplay(m: map<Id, BatchRow>, b: Id, row: BatchRow)
    requires b in m && row.stored == m[b].stored
    ensures SumStored(m[b := row]) == SumStored(m)
  {
    SumStoredAt(m[b := row], b);
    SumStoredAt(m, b);
    assert m[b := row] - {b} == m - {b};
  }

  // ---------------------------------------------------------------- the invariant

  /** A batch row is what its first recorder wrote, plus the later arrivals at `record_batch`. */
  ghost predicate RowKept(s: State, b: Id) {
    b in s.t.batches ==>
      && s.t.batches[b].replays + 1 == Tally(s.jobs, ArrivedFor(b))
      && exists k :: 0 <= k < |s.jobs| && Wrote(s.jobs[k], b, s.t.batches[b])
  }

  ghost predicate Wrote(j: Job, b: Id, row: BatchRow) {
    && j.isNew && j.recorded && j.batch.id == b
    && row.device == j.batch.device && row.receivedAt == j.receivedAt && row.events == |j.batch.events|
    && row.stored == |j.stored| && row.duplicate == |j.duplicate| && row.rejected == |j.parts.rejected|
  }

  /** The counts of a recorder are still in its row. */
  ghost predicate NewRowsKept(s: State) {
    forall k :: 0 <= k < |s.jobs| && s.jobs[k].isNew ==>
      s.jobs[k].batch.id in s.t.batches && Wrote(s.jobs[k], s.jobs[k].batch.id, s.t.batches[s.jobs[k].batch.id])
  }

  ghost predicate RowsKept(s: State) {
    && NewRowsKept(s)
    && (forall b :: RowKept(s, b))
    && (forall b :: b !in s.t.batches ==> Tally(s.jobs, ArrivedFor(b)) == 0)
  }

  ghost predicate BooksBalance(s: State) {
    SumStored(s.t.batches) == Tally(s.jobs, BookedBy())
  }

  /** The raw table has the rows that were stored, or fewer where retention deletes. */
  ghost predicate RawCounted(cfg: Settings, s: State) {
    |s.t.raw| <= Tally(s.jobs, StoredBy()) && (!RetentionOn(cfg) ==> |s.t.raw| == Tally(s.jobs, StoredBy()))
  }

  ghost predicate LedgerInv(s: State) {
    RowsKept(s) && BooksBalance(s)
  }

  // ---------------------------------------------------------------- steps that keep it

  /** What a step may change without touching the ledger. */
  ghost predicate SameEntry(j: Job, j': Job) {
    && j'.stored == j.stored && j'.duplicate == j.duplicate && j'.batch == j.batch && j'.receivedAt == j.receivedAt
    && j'.isNew == j.isNew && j'.recorded == j.recorded && (j.recorded ==> j'.parts == j.parts)
  }

  lemma ReplaceKeepsLedger(s: State, t': Tables, k: nat, j': Job)
    requires k < |s.jobs| && LedgerInv(s) && SameEntry(s.jobs[k], j') && t'.batches == s.t.batches
    ensures LedgerInv(s.(t := t', jobs := s.jobs[k := j']))
  {
    hide SumStored, Tally;
    var s' := s.(t := t', jobs := s.jobs[k := j']);
    TallyUpdate(s.jobs, k, j', BookedBy());
    forall b
      ensures RowKept(s', b) && Tally(s'.jobs, ArrivedFor(b)) == Tally(s.jobs, ArrivedFor(b))
    {
      TallyUpdate(s.jobs, k, j', ArrivedFor(b));
      assert RowKept(s, b);
      if b in s'.t.batches {
        var i :| 0 <= i < |s.jobs| && Wrote(s.jobs[i], b, s.t.batches[b]);
        assert Wrote(s'.jobs[i], b, s'.t.batches[b]);
      }
    }
  }

  lemma {:induction false} DistinctSize(ids: seq<Id>)
    requires Distinct(ids)
    ensures |ToSet(ids)| == |ids|
  {
    if ids != [] {
      var n := |ids| - 1;
      DistinctSize(ids[..n]);
      assert ids == ids[..n] + [ids[n]];
      assert ToSet(ids) == ToSet(ids[..n]) + {ids[n]};
    }
  }

  lemma StoreGrowsTable(t: Tables, j: Job, es: seq<Event>)
    requires PartsOk(j.parts, es, j.batch.device)
    ensures var o := StoreStep(t, j); |o.t.raw| == |t.raw| + |o.j.stored|
  {
    StoreEffect(t, j, es);
    hide StoreStep, HeldBy, PartsOk;
    var o := StoreStep(t, j);
    DistinctSize(o.j.stored);
    assert o.t.raw.Keys == t.raw.Keys + ToSet(o.j.stored);
    assert t.raw.Keys !! ToSet(o.j.stored);
  }

  lemma StoreKeepsLedger(s: State, k: nat)
    requires k < |s.jobs| && LedgerInv(s)
    requires !s.jobs[k].recorded && !s.jobs[k].isNew
    ensures var o := StoreStep(s.t, s.jobs[k]); LedgerInv(s.(t := o.t, jobs := s.jobs[k := o.j]))
  {
    hide SumStored, Tally, Fresh, Known, StoreRaw, PartsOk;
    var o := StoreStep(s.t, s.jobs[k]);
    var s' := s.(t := o.t, jobs := s.jobs[k := o.j]);
    TallyUpdate(s.jobs, k, o.j, BookedBy());
    forall b
      ensures RowKept(s', b) && Tally(s'.jobs, ArrivedFor(b)) == Tally(s.jobs, ArrivedFor(b))
    {
      TallyUpdate(s.jobs, k, o.j, ArrivedFor(b));
      assert RowKept(s, b);
      if b in s'.t.batches {
        var i :| 0 <= i < |s.jobs| && Wrote(s.jobs[i], b, s.t.batches[b]);
        assert Wrote(s'.jobs[i], b, s'.t.batches[b]);
      }
    }
  }

  lemma RecordKeepsLedger(s: State, k: nat)
    requires k < |s.jobs| && LedgerInv(s) && !s.jobs[k].recorded && !s.jobs[k].isNew
    ensures var o := BatchStep(s.t, s.jobs[k]); LedgerInv(s.(t := o.t, jobs := s.jobs[k := o.j]))
  {
    hide SumStored, Tally, BatchRowOf;
    var j := s.jobs[k];
    var o := BatchStep(s.t, j);
    var s' := s.(t := o.t, jobs := s.jobs[k := o.j]);
    TallyUpdate(s.jobs, k, o.j, BookedBy());
    RecordSums(s.t.batches, j);
    assert BooksBalance(s');
    forall b
      ensures RowKept(s', b) && (b !in s'.t.batches ==> Tally(s'.jobs, ArrivedFor(b)) == 0)
    {
      TallyUpdate(s.jobs, k, o.j, ArrivedFor(b));
      RecordKeepsRow(s, k, b);
    }
  }

  lemma RecordSums(batches: map<Id, BatchRow>, j: Job)
    ensures SumStored(RecordBatch(batches, j.batch.id, BatchRowOf(j))) ==
            SumStored(batches) + (if j.batch.id in batches then 0 else |j.stored|)
  {
    hide SumStored;
    var b := j.batch.id;
    if b in batches {
      SumStoredReplay(batches, b, batches[b].(replays := batches[b].replays + 1));
    } else {
      SumStoredInsert(batches, b, BatchRowOf(j));
    }
  }

  lemma RecordKeepsRow(s: State, k: nat, b: Id)
    requires k < |s.jobs| && RowsKept(s) && !s.jobs[k].recorded && !s.jobs[k].isNew
    requires var o := BatchStep(s.t, s.jobs[k]);
             Tally(s.jobs[k := o.j], ArrivedFor(b)) ==
               Tally(s.jobs, ArrivedFor(b)) + (if s.jobs[k].batch.id == b then 1 else 0)
    ensures var o := BatchStep(s.t, s.jobs[k]);
            var s' := s.(t := o.t, jobs := s.jobs[k := o.j]);
            RowKept(s', b) && (b !in s'.t.batches ==> Tally(s'.jobs, ArrivedFor(b)) == 0)
  {
    hide SumStored, Tally;
    var j := s.jobs[k];
    var o := BatchStep(s.t, j);
    var s' := s.(t := o.t, jobs := s.jobs[k := o.j]);
    assert RowKept(s, b);
    if b in s.t.batches {
      var i :| 0 <= i < |s.jobs| && Wrote(s.jobs[i], b, s.t.batches[b]);
      assert Wrote(s'.jobs[i], b, s'.t.batches[b]);
    } else if b == j.batch.id {
      assert Wrote(s'.jobs[k], b, s'.t.batches[b]);
    }
  }

  lemma BeginKeepsLedger(s: State, batch: Batch)
    requires LedgerInv(s)
    ensures LedgerInv(s.(jobs := s.jobs + [Start(batch, s.clock)]))
  {
    hide SumStored, Tally, BatchRowOf;
    var j := Start(batch, s.clock);
    var s' := s.(jobs := s.jobs + [j]);
    TallySnoc(s.jobs, j, BookedBy());
    forall b
      ensures RowKept(s', b) && Tally(s'.jobs, ArrivedFor(b)) == Tally(s.jobs, ArrivedFor(b))
    {
      TallySnoc(s.jobs, j, ArrivedFor(b));
      assert RowKept(s, b);
      if b in s'.t.batches {
        var i :| 0 <= i < |s.jobs| && Wrote(s.jobs[i], b, s.t.batches[b]);
        assert Wrote(s'.jobs[i], b, s'.t.batches[b]);
      }
    }
  }

  lemma OtherStepsKeepEntry(cfg: Settings, t: Tables, j: Job, now: int)
    requires JobOk(cfg, now, j) && !j.pc.Storing? && !j.pc.Batching?
    ensures var o := Advance(cfg, t, j, now); o.t.raw == t.raw && o.t.batches == t.batches && SameEntry(j, o.j)
  {
    hide PartsOk, VerdictsOk, Place, Acceptable, Ids, RecordBatch, RecordAcks, EntriesOf, BatchRowOf, BeatOf;
  }

  lemma LedgerFrame(s: State, s': State)
    requires LedgerInv(s) && s'.t.batches == s.t.batches && s'.jobs == s.jobs
    ensures LedgerInv(s')
  {
    hide SumStored, Tally, Wrote;
    forall b
      ensures RowKept(s', b)
    {
      assert RowKept(s, b);
    }
  }

  lemma StageFacts(cfg: Settings, now: int, j: Job)
    requires JobOk(cfg, now, j)
    ensures j.seen <= |j.batch.events| && PartsOk(j.parts, j.batch.events[..j.seen], j.batch.device)
    ensures j.pc.Storing? ==> j.stored == [] && !j.recorded && !j.isNew
    ensures j.pc.Batching? ==> !j.recorded && !j.isNew
  {
    hide PartsOk, Acceptable, VerdictsOk;
  }

  lemma BatchingStep(cfg: Settings, t: Tables, j: Job, now: int)
    requires j.pc.Batching?
    ensures Advance(cfg, t, j, now) == BatchStep(t, j)
  {
  }

  lemma StepKeepsLedger(cfg: Settings, s: State, k: nat)
    requires k < |s.jobs| && JobOk(cfg, s.clock, s.jobs[k]) && LedgerInv(s)
    ensures LedgerInv(StepJob(cfg, s, k))
  {
    hide *;
    var j := s.jobs[k];
    var o := Advance(cfg, s.t, j, s.clock);
    StageFacts(cfg, s.clock, j);
    if j.pc.Storing? {
      StoringStep(cfg, s.t, j, s.clock);
      StoreKeepsLedger(s, k);
    } else if j.pc.Batching? {
      BatchingStep(cfg, s.t, j, s.clock);
      RecordKeepsLedger(s, k);
    } else {
      OtherStepsKeepEntry(cfg, s.t, j, s.clock);
      ReplaceKeepsLedger(s, o.t, k, o.j);
    }
    StepJobIs(cfg, s, k);
    LedgerFrame(s.(t := o.t, jobs := s.jobs[k := o.j]), StepJob(cfg, s, k));
  }

  lemma StepJobIs(cfg: Settings, s: State, k: nat)
    requires k < |s.jobs|
    ensures var o := Advance(cfg, s.t, s.jobs[k], s.clock);
            StepJob(cfg, s, k).t == o.t && StepJob(cfg, s, k).jobs == s.jobs[k := o.j]
  {
    hide Advance, EntriesOf;
  }

  lemma NextKeepsLedger(cfg: Settings, s: State, a: Action)
    requires AllJobsOk(cfg, s) && LedgerInv(s)
    ensures LedgerInv(Next(cfg, s, a))
  {
    hide StepJob, JobOk, LedgerInv, Expire;
    match a {
      case Tick(_) => LedgerFrame(s, Next(cfg, s, a));
      case Retain(_) => LedgerFrame(s, Next(cfg, s, a));
      case Begin(batch) => BeginKeepsLedger(s, batch);
      case Step(k) =>
        if k < |s.jobs| {
          StepKeepsLedger(cfg, s, k);
        }
      case Crash(k) =>
        if k < |s.jobs| && s.jobs[k].pc != Replied {
          ReplaceKeepsLedger(s, s.t, k, s.jobs[k].(pc := Failed));
          LedgerFrame(s.(t := s.t, jobs := s.jobs[k := s.jobs[k].(pc := Failed)]), Next(cfg, s, a));
        }
    }
  }

  /** Every run keeps the batch rows and their sum, retention on or off. */
  lemma {:induction false} RunKeepsLedger(cfg: Settings, s: State, actions: seq<Action>)
    requires AllJobsOk(cfg, s) && LedgerInv(s)
    ensures LedgerInv(Run(cfg, s, actions))
  {
    if actions != [] {
      var n := |actions| - 1;
      RunKeepsLedger(cfg, s, actions[..n]);
      RunKeepsJobs(cfg, s, actions[..n]);
      NextKeepsLedger(cfg, Run(cfg, s, actions[..n]), actions[n]);
    }
  }

  lemma ReachableLedger(cfg: Settings, clock: int, devices: map<Id, int>, actions: seq<Action>)
    ensures LedgerInv(Run(cfg, Init(clock, devices), actions))
  {
    hide JobOk, Run;
    InitLedger(clock, devices);
    RunKeepsLedger(cfg, Init(clock, devices), actions);
  }

  lemma InitLedger(clock: int, devices: map<Id, int>)
    ensures LedgerInv(Init(clock, devices))
  {
    forall b
      ensures RowKept(Init(clock, devices), b)
    {
    }
  }

  // ---------------------------------------------------------------- rows of the raw table

  lemma StoreKeepsCount(cfg: Settings, s: State, k: nat, es: seq<Event>)
    requires k < |s.jobs| && RawCounted(cfg, s) && PartsOk(s.jobs[k].parts, es, s.jobs[k].batch.device) &&
             s.jobs[k].stored == []
    ensures var o := StoreStep(s.t, s.jobs[k]); RawCounted(cfg, s.(t := o.t, jobs := s.jobs[k := o.j]))
  {
    hide Tally, Fresh, Known, StoreRaw, PartsOk;
    StoreGrowsTable(s.t, s.jobs[k], es);
    TallyUpdate(s.jobs, k, StoreStep(s.t, s.jobs[k]).j, StoredBy());
  }

  lemma SameStoredKeepsCount(cfg: Settings, s: State, t': Tables, k: nat, j': Job)
    requires k < |s.jobs| && RawCounted(cfg, s) && t'.raw == s.t.raw && j'.stored == s.jobs[k].stored
    ensures RawCounted(cfg, s.(t := t', jobs := s.jobs[k := j']))
  {
    hide Tally;
    TallyUpdate(s.jobs, k, j', StoredBy());
  }

  lemma SubmapSize<T, U>(a: map<T, U>, b: map<T, U>)
    requires a.Keys <= b.Keys
    ensures |a| <= |b|
  {
    assert |a.Keys| <= |b.Keys| by {
      SubsetSize(a.Keys, b.Keys);
    }
  }

  lemma NextKeepsCount(cfg: Settings, s: State, a: Action)
    requires AllJobsOk(cfg, s) && RawCounted(cfg, s)
    ensures RawCounted(cfg, Next(cfg, s, a))
  {
    hide Tally, Advance, EntriesOf, JobOk, StageOk;
    match a {
      case Tick(_) =>
      case Begin(batch) => TallySnoc(s.jobs, Start(batch, s.clock), StoredBy());
      case Retain(cutoff) => SubmapSize(Expire(s.t.raw, cutoff), s.t.raw);
      case Crash(k) =>
        if k < |s.jobs| {
          SameStoredKeepsCount(cfg, s, s.t, k, s.jobs[k].(pc := Failed));
        }
      case Step(k) =>
        if k < |s.jobs| {
          var j := s.jobs[k];
          var o := Advance(cfg, s.t, j, s.clock);
          StageFacts(cfg, s.clock, j);
          if j.pc.Storing? {
            StoringStep(cfg, s.t, j, s.clock);
            StoreKeepsCount(cfg, s, k, j.batch.events[..j.seen]);
          } else {
            OtherStepsKeepVerdicts(cfg, s.t, j, s.clock);
            SameStoredKeepsCount(cfg, s, o.t, k, o.j);
          }
          StepJobIs(cfg, s, k);
        }
    }
  }

  lemma {:induction false} RunKeepsCount(cfg: Settings, s: State, actions: seq<Action>)
    requires AllJobsOk(cfg, s) && RawCounted(cfg, s)
    ensures RawCounted(cfg, Run(cfg, s, actions))
  {
    if actions != [] {
      var n := |actions| - 1;
      RunKeepsCount(cfg, s, actions[..n]);
      RunKeepsJobs(cfg, s, actions[..n]);
      NextKeepsCount(cfg, Run(cfg, s, actions[..n]), actions[n]);
    }
  }

  // ---------------------------------------------------------------- the theorems

  /**
   In every run each batch row keeps the counts of the ingest that first recorded it, `replay_count` is the
   number of later arrivals, and a batch without a row has had no arrival.
   */
  lemma BatchRowsKept(cfg: Settings, clock: int, devices: map<Id, int>, actions: seq<Action>, b: Id)
    ensures var s := Run(cfg, Init(clock, devices), actions);
            RowKept(s, b) && (b !in s.t.batches <==> Tally(s.jobs, ArrivedFor(b)) == 0)
  {
    ReachableLedger(cfg, clock, devices, actions);
    var s := Run(cfg, Init(clock, devices), actions);
    assert RowKept(s, b);
  }

  /**
   In every run the stored counts of the batch table never exceed the number of stored verdicts, which is the
   number of raw events and what retention deleted.  They add up to it exactly when every ingest that stored
   anything recorded a new batch: not a replayed id, not a death on the way.
   */
  lemma LedgerBalances(cfg: Settings, clock: int, devices: map<Id, int>, actions: seq<Action>)
    ensures var s := Run(cfg, Init(clock, devices), actions);
            var verdicts := Tally(s.jobs, StoredBy());
            && SumStored(s.t.batches) <= verdicts && |s.t.raw| <= verdicts
            && (SumStored(s.t.batches) == verdicts <==> forall j :: j in s.jobs && j.stored != [] ==> j.isNew)
            && (!RetentionOn(cfg) ==> |s.t.raw| == verdicts)
  {
    ReachableLedger(cfg, clock, devices, actions);
    RunKeepsCount(cfg, Init(clock, devices), actions);
    var s := Run(cfg, Init(clock, devices), actions);
    hide Run, Init, Tally, RowsKept;
    TallyAtMost(s.jobs, BookedBy(), StoredBy());
    TallyEqual(s.jobs, BookedBy(), StoredBy());
    assert forall j :: j in s.jobs ==> (BookedBy()(j) == StoredBy()(j) <==> (j.stored != [] ==> j.isNew));
  }
}
