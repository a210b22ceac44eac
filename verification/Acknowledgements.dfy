/** Issuing an acknowledgement and rebuilding it from the tables (acknowledgements.py). */
module Acknowledgements {
  import opened Wrappers
  import opened Seqs
  import opened Order
  import opened Types
  import opened Ingestion
  import opened Protocol
  import opened ExactlyOnce
  import Ledger
  import Text

  datatype Counts = Counts(received: nat, stored: nat, duplicate: nat, rejected: nat)

  datatype Acknowledgement = Acknowledgement(batch: Id, receivedAt: int, accepted: seq<Entry>,
                                             rejected: seq<Rejection>, counts: Counts)

  /** `build_acknowledgement`, from the verdict lists of an ingest. */
  function BuildAcknowledgement(j: Job): Acknowledgement {
    Acknowledgement(j.batch.id, j.receivedAt,
      Map(j.stored, (id: Id) => Entry(id, Stored)) + Map(j.duplicate, (id: Id) => Entry(id, Duplicate)),
      j.parts.rejected,
      Counts(|j.batch.events|, |j.stored|, |j.duplicate|, |j.parts.rejected|))
  }

  /** The rows of one batch, `ORDER BY event_id`. */
  function AckRows(acks: map<(Id, Id), Status>, b: Id): (rows: seq<Entry>)
    ensures Distinct(rows) && ById(rows)
    ensures forall e :: e in rows <==> (b, e.id) in acks && acks[(b, e.id)] == e.status
  {
    var keys := set p | p in acks && p.0 == b :: Key("", p.1);
    var ks := Enumerate(keys);
    SortedDistinct(ks);
    RowsOfKeys(acks, b, keys, ks);
    RowsFor(acks, b, ks)
  }

  /** In the order of their ids. */
  ghost predicate ById(rows: seq<Entry>) {
    forall i, k :: 0 <= i < k < |rows| ==> Text.Less(rows[i].id, rows[k].id)
  }

  function RowsFor(acks: map<(Id, Id), Status>, b: Id, ks: seq<Key>): (rows: seq<Entry>)
    requires forall k :: k in ks ==> (b, k.id) in acks
    ensures |rows| == |ks| && forall i :: 0 <= i < |ks| ==> rows[i] == Entry(ks[i].id, acks[(b, ks[i].id)])
  {
    if ks == [] then [] else [Entry(ks[0].id, acks[(b, ks[0].id)])] + RowsFor(acks, b, ks[1..])
  }

  lemma RowsOfKeys(acks: map<(Id, Id), Status>, b: Id, keys: set<Key>, ks: seq<Key>)
    requires keys == set p | p in acks && p.0 == b :: Key("", p.1)
    requires Distinct(ks) && Sorted(ks) && forall k :: k in ks <==> k in keys
    ensures forall k :: k in ks ==> (b, k.id) in acks
    ensures var rows := RowsFor(acks, b, ks);
            Distinct(rows) && ById(rows) && forall e :: e in rows <==> (b, e.id) in acks && acks[(b, e.id)] == e.status
  {
    forall k | k in ks
      ensures k.time == "" && (b, k.id) in acks
    {
      var p :| p in acks && p.0 == b && Key("", p.1) == k;
      assert p == (b, k.id);
    }
    var rows := RowsFor(acks, b, ks);
    forall i, k | 0 <= i < k < |rows|
      ensures Text.Less(rows[i].id, rows[k].id)
    {
      assert Before(ks[i], ks[k]) && ks[i] in ks && ks[k] in ks;
    }
    forall e
      ensures e in rows <==> (b, e.id) in acks && acks[(b, e.id)] == e.status
    {
      if (b, e.id) in acks && acks[(b, e.id)] == e.status {
        var k := Key("", (b, e.id).1);
        assert k in keys;
        var i :| 0 <= i < |ks| && ks[i] == k;
        assert rows[i] == e;
      }
    }
  }

  predicate IsAccepted(e: Entry) {
    !e.status.Rejected?
  }

  function RejectionsIn(rows: seq<Entry>): seq<Rejection> {
    if rows == [] then []
    else
      (if rows[0].status.Rejected? then [Rejection(rows[0].id, rows[0].status.reason)] else []) +
      RejectionsIn(rows[1..])
  }

  /** `stored_acknowledgement`. */
  function StoredAcknowledgement(t: Tables, b: Id): Option<Acknowledgement> {
    if b !in t.batches then None
    else
      var row := t.batches[b];
      var rows := AckRows(t.acks, b);
      Some(Acknowledgement(b, row.receivedAt, Filter(rows, IsAccepted), RejectionsIn(rows),
                           Counts(row.events, row.stored, row.duplicate, row.rejected)))
  }

  // ---------------------------------------------------------------- runs are replays of their log

  function ReplayAcks(log: seq<AckCommit>): map<(Id, Id), Status> {
    if log == [] then map[]
    else RecordAcks(ReplayAcks(log[..|log| - 1]), log[|log| - 1].batch, log[|log| - 1].entries)
  }

  function AckOf(j: Job): AckCommit {
    AckCommit(j.batch.id, EntriesOf(j))
  }

  ghost predicate AcksInv(s: State) {
    && s.t.acks == ReplayAcks(s.ackLog)
    && (forall k :: 0 <= k < |s.jobs| && s.jobs[k].acked ==> AckOf(s.jobs[k]) in s.ackLog)
    && (forall c :: c in s.ackLog ==> exists k :: 0 <= k < |s.jobs| && s.jobs[k].acked && AckOf(s.jobs[k]) == c)
  }

  lemma StepAcks(cfg: Settings, t: Tables, j: Job, now: int)
    requires JobOk(cfg, now, j)
    ensures var o := Advance(cfg, t, j, now);
            && (j.acked ==> o.j.acked && AckOf(o.j) == AckOf(j) && o.t.acks == t.acks)
            && (!j.acked && !o.j.acked ==> o.t.acks == t.acks)
            && (!j.acked && o.j.acked ==>
                 AckOf(o.j) == AckOf(j) &&
                 o.t.acks == RecordAcks(t.acks, j.batch.id, EntriesOf(j)))
  {
    hide PartsOk, VerdictsOk, Acceptable, Place, RecordBatch, RecordAcks, Entries, BatchRowOf, BeatOf, Ids, Fresh,
         Known, StoreRaw;
  }

  lemma ReplaceKeepsAcks(s: State, t': Tables, k: nat, j': Job, log: seq<AckCommit>)
    requires k < |s.jobs| && AcksInv(s)
    requires || (s.jobs[k].acked == j'.acked && (j'.acked ==> AckOf(j') == AckOf(s.jobs[k])) && log == s.ackLog &&
             t'.acks == s.t.acks)
             || (!s.jobs[k].acked && j'.acked && log == s.ackLog + [AckOf(j')] &&
                 t'.acks == RecordAcks(s.t.acks, AckOf(j').batch, AckOf(j').entries))
    ensures AcksInv(s.(t := t', jobs := s.jobs[k := j'], ackLog := log))
  {
    hide AckOf, RecordAcks;
    var s' := s.(t := t', jobs := s.jobs[k := j'], ackLog := log);
    assert log != s.ackLog ==> log[..|log| - 1] == s.ackLog;
    forall c | c in log
      ensures exists i :: 0 <= i < |s'.jobs| && s'.jobs[i].acked && AckOf(s'.jobs[i]) == c
    {
      if c in s.ackLog {
        var i :| 0 <= i < |s.jobs| && s.jobs[i].acked && AckOf(s.jobs[i]) == c;
        assert s'.jobs[i].acked && AckOf(s'.jobs[i]) == c;
      } else {
        assert s'.jobs[k].acked && AckOf(s'.jobs[k]) == c;
      }
    }
  }

  lemma AcksFrame(s: State, s': State)
    requires AcksInv(s) && s'.t.acks == s.t.acks && s'.ackLog == s.ackLog
    requires s'.jobs == s.jobs || exists j: Job :: !j.acked && s'.jobs == s.jobs + [j]
    ensures AcksInv(s')
  {
    hide AckOf, ReplayAcks;
    forall c | c in s'.ackLog
      ensures exists i :: 0 <= i < |s'.jobs| && s'.jobs[i].acked && AckOf(s'.jobs[i]) == c
    {
      var i :| 0 <= i < |s.jobs| && s.jobs[i].acked && AckOf(s.jobs[i]) == c;
      assert s'.jobs[i].acked && AckOf(s'.jobs[i]) == c;
    }
  }

  lemma NextKeepsAcks(cfg: Settings, s: State, a: Action)
    requires AllJobsOk(cfg, s) && AcksInv(s)
    ensures AcksInv(Next(cfg, s, a))
  {
    hide JobOk, Expire, AcksInv, StepJob;
    var s' := Next(cfg, s, a);
    match a {
      case Tick(_) => AcksFrame(s, s');
      case Retain(_) => AcksFrame(s, s');
      case Begin(batch) => AcksFrame(s, s');
      case Crash(k) =>
        if k < |s.jobs| && s.jobs[k].pc != Replied {
          ReplaceKeepsAcks(s, s.t, k, s.jobs[k].(pc := Failed), s.ackLog);
          AcksFrame(s.(t := s.t, jobs := s.jobs[k := s.jobs[k].(pc := Failed)], ackLog := s.ackLog), s');
        }
      case Step(k) =>
        if k < |s.jobs| {
          StepKeepsAcks(cfg, s, k);
        }
    }
  }

  lemma StepKeepsAcks(cfg: Settings, s: State, k: nat)
    requires k < |s.jobs| && JobOk(cfg, s.clock, s.jobs[k]) && AcksInv(s)
    ensures AcksInv(StepJob(cfg, s, k))
  {
    hide Advance, JobOk, AcksInv, EntriesOf, RecordAcks;
    StepAcks(cfg, s.t, s.jobs[k], s.clock);
    var o := Advance(cfg, s.t, s.jobs[k], s.clock);
    var s' := StepJob(cfg, s, k);
    ReplaceKeepsAcks(s, o.t, k, o.j, s'.ackLog);
    AcksFrame(s.(t := o.t, jobs := s'.jobs, ackLog := s'.ackLog), s');
  }

  lemma {:induction false} RunKeepsAcks(cfg: Settings, s: State, actions: seq<Action>)
    requires AllJobsOk(cfg, s) && AcksInv(s)
    ensures AcksInv(Run(cfg, s, actions))
  {
    if actions != [] {
      var n := |actions| - 1;
      RunKeepsAcks(cfg, s, actions[..n]);
      RunKeepsJobs(cfg, s, actions[..n]);
      NextKeepsAcks(cfg, Run(cfg, s, actions[..n]), actions[n]);
    }
  }

  // ---------------------------------------------------------------- the last entry wins

  ghost predicate LastWith(es: seq<Entry>, id: Id, status: Status) {
    exists i :: 0 <= i < |es| && es[i] == Entry(id, status) && forall m :: i < m < |es| ==> es[m].id != id
  }

  ghost predicate Names(es: seq<Entry>, id: Id) {
    exists i :: 0 <= i < |es| && es[i].id == id
  }

  /** After one recording each named id has its last entry; every other row is as before. */
  lemma {:induction false} LastEntryWins(acks: map<(Id, Id), Status>, b: Id, es: seq<Entry>)
    ensures var r := RecordAcks(acks, b, es);
            && (forall id :: Names(es, id) ==> (b, id) in r && LastWith(es, id, r[(b, id)]))
            && (forall p: (Id, Id) :: !(p.0 == b && Names(es, p.1)) ==>
                 (p in r <==> p in acks) &&
                 (p in r ==> r[p] == acks[p]))
  {
    if es != [] {
      var n := |es| - 1;
      var r0, r := RecordAcks(acks, b, es[..n]), RecordAcks(acks, b, es);
      LastEntryWins(acks, b, es[..n]);
      forall id | Names(es, id)
        ensures (b, id) in r && LastWith(es, id, r[(b, id)])
      {
        NamesSnoc(es, id);
        LastWithSnoc(es, id, r[(b, id)]);
      }
      forall p: (Id, Id) | !(p.0 == b && Names(es, p.1))
        ensures (p in r <==> p in acks) && (p in r ==> r[p] == acks[p])
      {
        NamesSnoc(es, p.1);
      }
    }
  }

  lemma NamesSnoc(es: seq<Entry>, id: Id)
    requires es != []
    ensures Names(es, id) <==> Names(es[..|es| - 1], id) || es[|es| - 1].id == id
  {
    var n := |es| - 1;
    assert forall i :: 0 <= i < n ==> es[..n][i] == es[i];
    if i :| 0 <= i < n && es[..n][i].id == id {
      assert es[i].id == id;
    }
    if i :| 0 <= i < |es| && es[i].id == id {
      assert i < n ==> es[..n][i].id == id;
    }
  }

  lemma LastWithSnoc(es: seq<Entry>, id: Id, status: Status)
    requires es != []
    requires es[|es| - 1] == Entry(id, status) || (es[|es| - 1].id != id && LastWith(es[..|es| - 1], id, status))
    ensures LastWith(es, id, status)
  {
    var n := |es| - 1;
    if es[n].id != id {
      var m :| 0 <= m < n && es[..n][m] == Entry(id, status) && forall x :: m < x < n ==> es[..n][x].id != id;
      assert es[m] == Entry(id, status);
      assert forall x :: m < x < n ==> es[x] == es[..n][x];
    }
  }

  ghost predicate NamedBy(log: seq<AckCommit>, b: Id, id: Id) {
    exists c :: c in log && c.batch == b && Names(c.entries, id)
  }

  /** A batch has a row for an id exactly when some recording under that batch named it. */
  lemma {:induction false} LogNames(log: seq<AckCommit>, b: Id, id: Id)
    ensures (b, id) in ReplayAcks(log) <==> NamedBy(log, b, id)
  {
    if log != [] {
      var n := |log| - 1;
      LogNames(log[..n], b, id);
      LastEntryWins(ReplayAcks(log[..n]), log[n].batch, log[n].entries);
      assert log == log[..n] + [log[n]];
      hide Names, RecordAcks;
      if NamedBy(log, b, id) {
        var c :| c in log && c.batch == b && Names(c.entries, id);
        assert c in log[..n] || c == log[n];
      }
      if NamedBy(log[..n], b, id) {
        var c :| c in log[..n] && c.batch == b && Names(c.entries, id);
        assert c in log;
      }
    }
  }

  /** When all recordings under a batch are the same, the rows are the last entries of that recording. */
  lemma {:induction false} LogStatus(log: seq<AckCommit>, b: Id, es: seq<Entry>, id: Id)
    requires forall c :: c in log && c.batch == b ==> c.entries == es
    requires (b, id) in ReplayAcks(log)
    ensures LastWith(es, id, ReplayAcks(log)[(b, id)])
  {
    if log != [] {
      var n := |log| - 1;
      assert log[n] in log && forall c :: c in log[..n] ==> c in log;
      LastEntryWins(ReplayAcks(log[..n]), log[n].batch, log[n].entries);
      if !(log[n].batch == b && Names(log[n].entries, id)) {
        LogStatus(log[..n], b, es, id);
      }
    }
  }

  // ---------------------------------------------------------------- the theorems

  lemma NamesAreVerdicts(j: Job, id: Id)
    ensures Names(EntriesOf(j), id) <==> id in j.stored || id in j.duplicate || id in RejectedIds(j.parts.rejected)
  {
    var es := EntriesOf(j);
    var a, b := |j.stored|, |j.duplicate|;
    if id in j.stored {
      var i :| 0 <= i < a && j.stored[i] == id;
      assert es[i].id == id;
    }
    if id in j.duplicate {
      var i :| 0 <= i < b && j.duplicate[i] == id;
      assert es[a + i].id == id;
    }
    if id in RejectedIds(j.parts.rejected) {
      var i :| 0 <= i < |j.parts.rejected| && RejectedIds(j.parts.rejected)[i] == id;
      assert es[a + b + i].id == id;
    }
    if i :| 0 <= i < |es| && es[i].id == id {
      if a + b <= i {
        assert RejectedIds(j.parts.rejected)[i - a - b] == id;
      }
    }
  }

  lemma NamesAreEvents(j: Job, id: Id)
    requires Settled(j)
    ensures Names(EntriesOf(j), id) <==> id in Ids(j.batch.events)
  {
    NamesAreVerdicts(j, id);
    SettledConserves(j);
    hide Names, EntriesOf, Settled, Ids, RejectedIds;
    var m := multiset(j.stored) + multiset(j.duplicate) + multiset(RejectedIds(j.parts.rejected));
    assert id in m <==> id in multiset(Ids(j.batch.events));
    assert id in m <==>
             id in multiset(j.stored) || id in multiset(j.duplicate) ||
             id in multiset(RejectedIds(j.parts.rejected));
  }

  /**
   The rebuilt acknowledgement of a batch names an id exactly when some ingest under that batch id got as far
   as recording its verdicts and had that id in its request: verbatim replays leave the set of ids as it is.
   */
  lemma RebuiltNames(cfg: Settings, clock: int, devices: map<Id, int>, actions: seq<Action>, b: Id, id: Id)
    ensures var s := Run(cfg, Init(clock, devices), actions);
            (exists e :: e in AckRows(s.t.acks, b) && e.id == id) <==>
            exists k :: 0 <= k < |s.jobs| && s.jobs[k].acked && s.jobs[k].batch.id == b &&
              id in Ids(s.jobs[k].batch.events)
  {
    hide Run, AckRows, ReplayAcks, RawInv, EntriesOf, Names, JobOk, Ids, Settled;
    InitAcks(clock, devices);
    ReachableJobs(cfg, clock, devices, actions);
    RunKeepsAcks(cfg, Init(clock, devices), actions);
    var s := Run(cfg, Init(clock, devices), actions);
    assert (exists e :: e in AckRows(s.t.acks, b) && e.id == id) <==> (b, id) in s.t.acks by {
      if (b, id) in s.t.acks {
        assert Entry(id, s.t.acks[(b, id)]) in AckRows(s.t.acks, b);
      }
    }
    LogNames(s.ackLog, b, id);
    if NamedBy(s.ackLog, b, id) {
      var c :| c in s.ackLog && c.batch == b && Names(c.entries, id);
      var k :| 0 <= k < |s.jobs| && s.jobs[k].acked && AckOf(s.jobs[k]) == c;
      AckedIsCommitted(cfg, s.clock, s.jobs[k]);
      CommittedIsSettled(cfg, s.clock, s.jobs[k]);
      NamesAreEvents(s.jobs[k], id);
    }
    if k :| 0 <= k < |s.jobs| && s.jobs[k].acked && s.jobs[k].batch.id == b && id in Ids(s.jobs[k].batch.events) {
      AckedIsCommitted(cfg, s.clock, s.jobs[k]);
      CommittedIsSettled(cfg, s.clock, s.jobs[k]);
      NamesAreEvents(s.jobs[k], id);
      assert AckOf(s.jobs[k]) in s.ackLog;
    }
  }

  lemma InitAcks(clock: int, devices: map<Id, int>)
    ensures AcksInv(Init(clock, devices))
  {
  }

  lemma AckedIsCommitted(cfg: Settings, now: int, j: Job)
    requires JobOk(cfg, now, j) && j.acked
    ensures j.committed && j.recorded
  {
    hide PartsOk, Acceptable, VerdictsOk;
  }

  lemma {:induction false} RejectionsMember(rows: seq<Entry>, r: Rejection)
    ensures r in RejectionsIn(rows) <==> Entry(r.id, Rejected(r.reason)) in rows
  {
    if rows != [] {
      RejectionsMember(rows[1..], r);
      assert rows == [rows[0]] + rows[1..];
    }
  }

  lemma {:induction false} RejectionsDistinct(rows: seq<Entry>)
    requires Distinct(rows)
    ensures Distinct(RejectionsIn(rows))
  {
    if rows != [] {
      RejectionsDistinct(rows[1..]);
      forall r | r in RejectionsIn(rows[1..])
        ensures Entry(r.id, Rejected(r.reason)) != rows[0]
      {
        RejectionsMember(rows[1..], r);
      }
    }
  }

  lemma {:induction false} DistinctFilterRows(rows: seq<Entry>, p: Entry -> bool)
    requires Distinct(rows)
    ensures Distinct(Filter(rows, p))
  {
    if rows != [] {
      DistinctFilterRows(rows[1..], p);
    }
  }

  lemma {:induction false} SameBag<T>(a: seq<T>, b: seq<T>)
    requires Distinct(a) && Distinct(b) && forall x :: x in a <==> x in b
    ensures multiset(a) == multiset(b)
  {
    BagOfDistinct(a);
    BagOfDistinct(b);
  }

  lemma {:induction false} BagOfDistinct<T>(a: seq<T>)
    requires Distinct(a)
    ensures forall x :: multiset(a)[x] == if x in a then 1 else 0
  {
    if a != [] {
      BagOfDistinct(a[1..]);
      assert a == [a[0]] + a[1..];
    }
  }

  /** Distinct request ids make the recorded entries one per id. */
  lemma EntriesDistinct(j: Job)
    requires Settled(j) && Distinct(Ids(j.batch.events))
    ensures forall x, y :: 0 <= x < y < |EntriesOf(j)| ==> EntriesOf(j)[x].id != EntriesOf(j)[y].id
  {
    hide Settled, Ids, RejectedIds, EntriesOf;
    SettledConserves(j);
    BagOfDistinct(Ids(j.batch.events));
    OncePerBag(VerdictIds(j));
    EntryIds(j);
    var es := EntriesOf(j);
    assert forall x :: 0 <= x < |es| ==> es[x].id == VerdictIds(j)[x];
  }

  function VerdictIds(j: Job): (ids: seq<Id>)
    ensures multiset(ids) == multiset(j.stored) + multiset(j.duplicate) + multiset(RejectedIds(j.parts.rejected))
  {
    j.stored + j.duplicate + RejectedIds(j.parts.rejected)
  }

  lemma EntryIds(j: Job)
    ensures |EntriesOf(j)| == |VerdictIds(j)| && forall x :: 0 <= x < |EntriesOf(j)| ==>
            EntriesOf(j)[x].id == VerdictIds(j)[x]
  {
  }

  lemma OncePerBag(a: seq<Id>)
    requires forall x :: multiset(a)[x] <= 1
    ensures Distinct(a)
  {
    forall i, k | 0 <= i < k < |a|
      ensures a[i] != a[k]
    {
      assert a == a[..k] + [a[k]] + a[k + 1..];
      assert multiset(a) == multiset(a[..k]) + multiset{a[k]} + multiset(a[k + 1..]);
      assert a[..k][i] in multiset(a[..k]);
      assert a[i] == a[k] ==> multiset(a)[a[k]] >= 2;
    }
  }

  lemma RowsAreEntries(acks: map<(Id, Id), Status>, b: Id, es: seq<Entry>)
    requires forall x, y :: 0 <= x < y < |es| ==> es[x].id != es[y].id
    requires forall id :: (b, id) in acks <==> Names(es, id)
    requires forall id :: (b, id) in acks ==> LastWith(es, id, acks[(b, id)])
    ensures forall e :: e in AckRows(acks, b) <==> e in es
  {
    forall e: Entry
      ensures (b, e.id) in acks && acks[(b, e.id)] == e.status <==> e in es
    {
      if e in es {
        var i :| 0 <= i < |es| && es[i] == e;
        assert Names(es, e.id);
        var m :| 0 <= m < |es| && es[m] == Entry(e.id, acks[(b, e.id)]);
        assert m == i;
      }
      if (b, e.id) in acks && acks[(b, e.id)] == e.status {
        var m :| 0 <= m < |es| && es[m] == Entry(e.id, acks[(b, e.id)]);
        assert es[m] == e;
      }
    }
  }

  ghost predicate SameUpToOrder(a: Acknowledgement, b: Acknowledgement) {
    && a.batch == b.batch && a.receivedAt == b.receivedAt && a.counts == b.counts
    && multiset(a.accepted) == multiset(b.accepted) && multiset(a.rejected) == multiset(b.rejected)
  }

  lemma ListsOfEntries(rows: seq<Entry>, j: Job)
    requires Distinct(rows) && Distinct(EntriesOf(j)) && forall e :: e in rows <==> e in EntriesOf(j)
    ensures multiset(Filter(rows, IsAccepted)) == multiset(BuildAcknowledgement(j).accepted)
    ensures multiset(RejectionsIn(rows)) == multiset(j.parts.rejected)
  {
    hide EntriesOf, RejectionsIn, Filter;
    var a := BuildAcknowledgement(j).accepted;
    AcceptedEntries(j);
    DistinctFilterRows(rows, IsAccepted);
    SameBag(Filter(rows, IsAccepted), a);
    RejectedPart(rows, j, |a|);
  }

  /** The accepted list of an issued acknowledgement is the first part of the recorded entries. */
  lemma AcceptedEntries(j: Job)
    ensures var a, es := BuildAcknowledgement(j).accepted, EntriesOf(j);
            && |a| == |j.stored| + |j.duplicate| <= |es| && es[..|a|] == a
            && (forall e :: e in a <==> e in es && IsAccepted(e))
            && (Distinct(es) ==> Distinct(a))
  {
    hide EntriesOf, BuildAcknowledgement;
    var a, es := BuildAcknowledgement(j).accepted, EntriesOf(j);
    var n := |j.stored| + |j.duplicate|;
    RejectedEntries(j, n);
    FirstEntries(j);
    forall e
      ensures e in a <==> e in es && IsAccepted(e)
    {
      if e in es && IsAccepted(e) {
        var i :| 0 <= i < |es| && es[i] == e;
        assert a[i] == e;
      }
      if e in a {
        assert e in es;
      }
    }
  }

  lemma FirstEntries(j: Job)
    ensures var a, es := BuildAcknowledgement(j).accepted, EntriesOf(j);
            |a| == |j.stored| + |j.duplicate| <= |es| && es[..|a|] == a
  {
  }

  lemma RejectedEntries(j: Job, n: nat)
    requires n == |j.stored| + |j.duplicate|
    ensures var es, rs := EntriesOf(j), j.parts.rejected;
            |es| == n + |rs| && (forall i :: 0 <= i < |rs| ==> es[n + i] == Entry(rs[i].id, Rejected(rs[i].reason))) &&
            (forall i :: 0 <= i < n ==> !es[i].status.Rejected?) &&
              (forall i :: n <= i < |es| ==> es[i].status.Rejected?)
  {
  }

  lemma RejectedPart(rows: seq<Entry>, j: Job, n: nat)
    requires Distinct(rows) && Distinct(EntriesOf(j)) && forall e :: e in rows <==> e in EntriesOf(j)
    requires n == |j.stored| + |j.duplicate|
    ensures multiset(RejectionsIn(rows)) == multiset(j.parts.rejected)
  {
    hide EntriesOf, RejectionsIn;
    var es, rs := EntriesOf(j), j.parts.rejected;
    RejectedEntries(j, n);
    RejectionsDistinct(rows);
    forall r
      ensures r in RejectionsIn(rows) <==> r in rs
    {
      RejectionsMember(rows, r);
      if r in rs {
        var i :| 0 <= i < |rs| && rs[i] == r;
        assert es[n + i] in es;
      }
      if i :| 0 <= i < |es| && es[i] == Entry(r.id, Rejected(r.reason)) {
        assert rs[i - n] == r;
      }
    }
    forall x, y | 0 <= x < y < |rs|
      ensures rs[x] != rs[y]
    {
      assert es[n + x] != es[n + y];
    }
    SameBag(RejectionsIn(rows), rs);
  }

  /**
   For an ingest under a new batch id with pairwise distinct event ids, and as long as no other ingest has
   recorded verdicts under that id, the rebuilt acknowledgement is the one that was issued, up to order.
   */
  lemma RebuiltIsIssued(cfg: Settings, clock: int, devices: map<Id, int>, actions: seq<Action>, k: nat)
    requires var s := Run(cfg, Init(clock, devices), actions);
             && k < |s.jobs| && s.jobs[k].acked && s.jobs[k].isNew && Distinct(Ids(s.jobs[k].batch.events))
             && forall i :: 0 <= i < |s.jobs| && i != k && s.jobs[i].acked ==> s.jobs[i].batch.id != s.jobs[k].batch.id
    ensures var s := Run(cfg, Init(clock, devices), actions);
            var r := StoredAcknowledgement(s.t, s.jobs[k].batch.id);
            r.Some? && SameUpToOrder(r.value, BuildAcknowledgement(s.jobs[k]))
  {
    ReachableJobs(cfg, clock, devices, actions);
    RunKeepsAcks(cfg, Init(clock, devices), actions);
    Ledger.ReachableLedger(cfg, clock, devices, actions);
    RebuildState(cfg, Run(cfg, Init(clock, devices), actions), k);
  }

  lemma RebuildState(cfg: Settings, s: State, k: nat)
    requires AllJobsOk(cfg, s) && AcksInv(s) && Ledger.NewRowsKept(s)
    requires && k < |s.jobs| && s.jobs[k].acked && s.jobs[k].isNew && Distinct(Ids(s.jobs[k].batch.events))
             && forall i :: 0 <= i < |s.jobs| && i != k && s.jobs[i].acked ==> s.jobs[i].batch.id != s.jobs[k].batch.id
    ensures var r := StoredAcknowledgement(s.t, s.jobs[k].batch.id);
            r.Some? && SameUpToOrder(r.value, BuildAcknowledgement(s.jobs[k]))
  {
    hide AckRows, ReplayAcks, EntriesOf, Names, JobOk, Ids, LastWith, RejectionsIn, Settled;
    var j := s.jobs[k];
    var b, es := j.batch.id, EntriesOf(j);
    AckedIsCommitted(cfg, s.clock, j);
    CommittedIsSettled(cfg, s.clock, j);
    EntriesDistinct(j);
    forall id
      ensures (b, id) in s.t.acks <==> Names(es, id)
      ensures (b, id) in s.t.acks ==> LastWith(es, id, s.t.acks[(b, id)])
    {
      LogNames(s.ackLog, b, id);
      assert AckOf(j) in s.ackLog;
      forall c | c in s.ackLog && c.batch == b
        ensures c.entries == es
      {
        var i :| 0 <= i < |s.jobs| && s.jobs[i].acked && AckOf(s.jobs[i]) == c;
      }
      if (b, id) in s.t.acks {
        LogStatus(s.ackLog, b, es, id);
      }
    }
    RowsAreEntries(s.t.acks, b, es);
    ListsOfEntries(AckRows(s.t.acks, b), j);
  }

  // ---------------------------------------------------------------- verbatim replays

  ghost predicate NamesId(a: Acknowledgement, id: Id) {
    (exists e :: e in a.accepted && e.id == id) || (exists r :: r in a.rejected && r.id == id)
  }

  /** The two lists of a rebuilt acknowledgement name the ids of the batch's rows. */
  lemma RebuiltLists(rows: seq<Entry>, a: Acknowledgement, id: Id)
    requires a.accepted == Filter(rows, IsAccepted) && a.rejected == RejectionsIn(rows)
    ensures NamesId(a, id) <==> exists e :: e in rows && e.id == id
  {
    hide RejectionsIn, Filter;
    if r :| r in a.rejected && r.id == id {
      RejectionsMember(rows, r);
      assert Entry(r.id, Rejected(r.reason)).id == id;
    }
    if e :| e in rows && e.id == id && e.status.Rejected? {
      var r := Rejection(id, e.status.reason);
      RejectionsMember(rows, r);
      assert e == Entry(r.id, Rejected(r.reason));
    }
  }

  /**
   However often a batch is sent again unchanged, the acknowledgement rebuilt for it names the ids of the
   request and nothing else, with the counts and the time of the first ingest.
   */
  lemma VerbatimReplays(cfg: Settings, clock: int, devices: map<Id, int>, actions: seq<Action>, k: nat)
    requires var s := Run(cfg, Init(clock, devices), actions);
             && k < |s.jobs| && s.jobs[k].acked && s.jobs[k].isNew
             && forall i :: 0 <= i < |s.jobs| && s.jobs[i].acked && s.jobs[i].batch.id == s.jobs[k].batch.id ==>
                s.jobs[i].batch == s.jobs[k].batch
    ensures var s := Run(cfg, Init(clock, devices), actions);
            var r := StoredAcknowledgement(s.t, s.jobs[k].batch.id);
            var issued := BuildAcknowledgement(s.jobs[k]);
            && r.Some? && r.value.counts == issued.counts && r.value.receivedAt == issued.receivedAt
            && forall id :: NamesId(r.value, id) <==> id in Ids(s.jobs[k].batch.events)
  {
    hide Run, Init, AckRows, Ids, NamesId, Filter, RejectionsIn;
    var s := Run(cfg, Init(clock, devices), actions);
    var b := s.jobs[k].batch.id;
    FirstRow(cfg, clock, devices, actions, k);
    var a := StoredAcknowledgement(s.t, b).value;
    forall id
      ensures NamesId(a, id) <==> id in Ids(s.jobs[k].batch.events)
    {
      RebuiltLists(AckRows(s.t.acks, b), a, id);
      RebuiltNames(cfg, clock, devices, actions, b, id);
    }
  }

  lemma FirstRow(cfg: Settings, clock: int, devices: map<Id, int>, actions: seq<Action>, k: nat)
    requires var s := Run(cfg, Init(clock, devices), actions); k < |s.jobs| && s.jobs[k].isNew
    ensures var s := Run(cfg, Init(clock, devices), actions);
            var b := s.jobs[k].batch.id;
            b in s.t.batches && s.t.batches[b] == BatchRowOf(s.jobs[k]).(replays := s.t.batches[b].replays)
  {
    Ledger.ReachableLedger(cfg, clock, devices, actions);
  }

  // ---------------------------------------------------------------- statuses and order

  /** The last rejection of an id in a list. */
  ghost predicate LastRejection(rs: seq<Rejection>, id: Id, reason: Reason) {
    exists n :: 0 <= n < |rs| && rs[n] == Rejection(id, reason) && forall m :: n < m < |rs| ==> rs[m].id != id
  }

  /** What is recorded for an id with several verdicts: its last rejection, else duplicate, else stored. */
  lemma RecordedStatus(acks: map<(Id, Id), Status>, j: Job, id: Id)
    requires id in j.stored || id in j.duplicate || id in RejectedIds(j.parts.rejected)
    ensures var r := RecordAcks(acks, j.batch.id, EntriesOf(j));
            var p := (j.batch.id, id);
            && p in r
            && (r[p].Rejected? <==> id in RejectedIds(j.parts.rejected))
            && (r[p].Rejected? ==> LastRejection(j.parts.rejected, id, r[p].reason))
            && (r[p] == Duplicate <==> id !in RejectedIds(j.parts.rejected) && id in j.duplicate)
            && (r[p] == Stored <==> id !in RejectedIds(j.parts.rejected) && id !in j.duplicate)
  {
    hide RecordAcks;
    LastEntryWins(acks, j.batch.id, EntriesOf(j));
    NamesAreVerdicts(j, id);
    LastIsRanked(j, id, RecordAcks(acks, j.batch.id, EntriesOf(j))[(j.batch.id, id)]);
  }

  lemma LastIsRanked(j: Job, id: Id, status: Status)
    requires LastWith(EntriesOf(j), id, status)
    ensures status.Rejected? <==> id in RejectedIds(j.parts.rejected)
    ensures status.Rejected? ==> LastRejection(j.parts.rejected, id, status.reason)
    ensures status == Duplicate <==> id !in RejectedIds(j.parts.rejected) && id in j.duplicate
    ensures status == Stored <==> id !in RejectedIds(j.parts.rejected) && id !in j.duplicate
  {
    var es, rs := EntriesOf(j), j.parts.rejected;
    var a, b := |j.stored|, |j.duplicate|;
    EntryParts(j);
    hide EntriesOf, RejectedIds;
    var i :| 0 <= i < |es| && es[i] == Entry(id, status) && forall m :: i < m < |es| ==> es[m].id != id;
    if id in RejectedIds(rs) {
      var n :| 0 <= n < |rs| && RejectedIds(rs)[n] == id;
      assert es[a + b + n].id == id;
      assert i >= a + b;
    } else {
      assert i < a + b;
      if id in j.duplicate {
        var n :| 0 <= n < b && j.duplicate[n] == id;
        assert es[a + n].id == id;
      }
    }
    if status.Rejected? {
      var n := i - a - b;
      assert rs[n] == Rejection(id, status.reason);
      forall m | n < m < |rs|
        ensures rs[m].id != id
      {
        assert es[a + b + m].id == rs[m].id;
      }
    }
  }

  lemma EntryParts(j: Job)
    ensures var es, rs := EntriesOf(j), j.parts.rejected;
            var a, b := |j.stored|, |j.duplicate|;
            && |es| == a + b + |rs|
            && (forall i :: 0 <= i < a ==> es[i] == Entry(j.stored[i], Stored))
            && (forall i :: 0 <= i < b ==> es[a + i] == Entry(j.duplicate[i], Duplicate))
            && (forall i :: a <= i < a + b ==> es[i] == Entry(j.duplicate[i - a], Duplicate))
            && (forall i :: 0 <= i < |rs| ==> es[a + b + i] == Entry(rs[i].id, Rejected(rs[i].reason)))
            && (forall i :: a + b <= i < |es| ==> es[i] == Entry(rs[i - a - b].id, Rejected(rs[i - a - b].reason)))
  {
  }

  lemma AcceptedParts(j: Job)
    ensures var accepted := BuildAcknowledgement(j).accepted;
            && |accepted| == |j.stored| + |j.duplicate|
            && (forall i :: 0 <= i < |j.stored| ==> accepted[i] == Entry(j.stored[i], Stored))
            && (forall i :: 0 <= i < |j.duplicate| ==> accepted[|j.stored| + i] == Entry(j.duplicate[i], Duplicate))
  {
    hide EntriesOf, BuildAcknowledgement;
    FirstEntries(j);
    EntryParts(j);
    var accepted, es := BuildAcknowledgement(j).accepted, EntriesOf(j);
    assert forall i :: 0 <= i < |accepted| ==> accepted[i] == es[i];
  }

  lemma {:induction false} FilterById(rows: seq<Entry>, p: Entry -> bool)
    requires ById(rows)
    ensures ById(Filter(rows, p))
  {
    if rows != [] {
      var rest := rows[1..];
      assert forall i :: 0 <= i < |rest| ==> rest[i] == rows[i + 1];
      FilterById(rest, p);
      forall e | e in Filter(rest, p)
        ensures Text.Less(rows[0].id, e.id)
      {
        var i :| 0 <= i < |rest| && rest[i] == e;
        assert Text.Less(rows[0].id, rows[i + 1].id);
      }
    }
  }

  ghost predicate RejectionsById(rs: seq<Rejection>) {
    forall i, k :: 0 <= i < k < |rs| ==> Text.Less(rs[i].id, rs[k].id)
  }

  lemma {:induction false} RejectionsOrdered(rows: seq<Entry>)
    requires ById(rows)
    ensures RejectionsById(RejectionsIn(rows))
  {
    if rows != [] {
      var rest := rows[1..];
      assert forall i :: 0 <= i < |rest| ==> rest[i] == rows[i + 1];
      RejectionsOrdered(rest);
      forall r | r in RejectionsIn(rest)
        ensures Text.Less(rows[0].id, r.id)
      {
        RejectionsMember(rest, r);
        var i :| 0 <= i < |rest| && rest[i] == Entry(r.id, Rejected(r.reason));
        assert Text.Less(rows[0].id, rows[i + 1].id);
      }
    }
  }

  /** A rebuilt acknowledgement: none without a batch row, else its columns, and the recorded verdicts by id. */
  lemma RebuiltExact(t: Tables, b: Id)
    ensures var r := StoredAcknowledgement(t, b);
            && (r.Some? <==> b in t.batches)
            && (r.Some? ==>
                  var a, row := r.value, t.batches[b];
                  && a.batch == b && a.receivedAt == row.receivedAt
                  && a.counts.received == row.events && a.counts.stored == row.stored
                  && a.counts.duplicate == row.duplicate && a.counts.rejected == row.rejected
                  && (forall e :: e in a.accepted <==>
                        (b, e.id) in t.acks && t.acks[(b, e.id)] == e.status &&
                          (e.status == Stored || e.status == Duplicate))
                  && (forall x :: x in a.rejected <==> (b, x.id) in t.acks && t.acks[(b, x.id)] == Rejected(x.reason))
                  && ById(a.accepted) && RejectionsById(a.rejected))
  {
    hide AckRows, RejectionsIn, Filter, ById, RejectionsById;
    if b in t.batches {
      var rows := AckRows(t.acks, b);
      FilterById(rows, IsAccepted);
      RejectionsOrdered(rows);
      forall x
        ensures x in RejectionsIn(rows) <==> (b, x.id) in t.acks && t.acks[(b, x.id)] == Rejected(x.reason)
      {
        RejectionsMember(rows, x);
        assert Entry(x.id, Rejected(x.reason)) in rows <==>
               (b, x.id) in t.acks && t.acks[(b, x.id)] == Rejected(x.reason);
      }
    }
  }
}
