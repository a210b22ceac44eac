/**
 Delivery order does not matter: the raw table is a function of what was offered, first copy first,
 however deliveries were batched, repeated, reordered, interleaved or cut short.
 */
module Confluence {
  import opened Seqs
  import opened Types
  import opened Ingestion
  import opened Protocol
  import opened ExactlyOnce

  /** The raw table that a list of committed deliveries builds on its own. */
  function Replay(cs: seq<Commit>): map<Id, RawRow> {
    if cs == [] then map[]
    else
      var n := |cs| - 1;
      StoreRaw(Replay(cs[..n]), cs[n].events, cs[n].receivedAt, cs[n].batch)
  }

  /** All accepted events offered to the store, in commit order. */
  function Offered(cs: seq<Commit>): seq<Event> {
    if cs == [] then [] else Offered(cs[..|cs| - 1]) + cs[|cs| - 1].events
  }

  function Contents(raw: map<Id, RawRow>): map<Id, Event> {
    map id | id in raw :: raw[id].event
  }

  // ---------------------------------------------------------------- runs are replays

  ghost predicate RawIsReplay(s: State) {
    s.t.raw == Replay(s.commits)
  }

  lemma CommitOnlyWhenStoring(cfg: Settings, t: Tables, j: Job, now: int)
    requires StageOk(j)
    ensures Advance(cfg, t, j, now).j.committed && !j.committed <==> j.pc.Storing?
    ensures !j.pc.Storing? ==> Advance(cfg, t, j, now).t.raw == t.raw
  {
    hide VerdictsOk, Place, RecordBatch, RecordAcks, EntriesOf, BatchRowOf, BeatOf, Ids, Fresh, Known, StoreRaw;
  }

  lemma NextKeepsReplay(cfg: Settings, s: State, a: Action)
    requires !RetentionOn(cfg) && AllJobsOk(cfg, s) && RawIsReplay(s)
    ensures RawIsReplay(Next(cfg, s, a))
  {
    if a.Step? && a.k < |s.jobs| {
      var j := s.jobs[a.k];
      assert StageOk(j) by {
        assert JobOk(cfg, s.clock, j);
      }
      CommitOnlyWhenStoring(cfg, s.t, j, s.clock);
      var c := Commit(j.parts.toStore, j.receivedAt, j.batch.id);
      assert (s.commits + [c])[..|s.commits|] == s.commits;
      if j.pc.Storing? {
        StoringStep(cfg, s.t, j, s.clock);
      }
      hide Advance, StoreRaw, EntriesOf, AllJobsOk;
    }
  }

  lemma {:induction false} RunIsReplay(cfg: Settings, s: State, actions: seq<Action>)
    requires !RetentionOn(cfg) && Sound(cfg, s) && RawIsReplay(s)
    ensures RawIsReplay(Run(cfg, s, actions))
  {
    if actions != [] {
      var n := |actions| - 1;
      RunIsReplay(cfg, s, actions[..n]);
      RunSound(cfg, s, actions[..n]);
      NextKeepsReplay(cfg, Run(cfg, s, actions[..n]), actions[n]);
    }
  }

  // ---------------------------------------------------------------- replays keep first copies

  lemma {:induction false} BagAppend(a: seq<Event>, b: seq<Event>)
    ensures Bag(a + b) == Bag(a) + Bag(b)
  {
    if a == [] {
      assert a + b == b;
    } else {
      assert (a + b)[1..] == a[1..] + b;
      BagAppend(a[1..], b);
    }
  }

  lemma {:induction false} FilterKeepsFirst(es: seq<Event>, p: Event -> bool, x: Event)
    requires FirstWith(Filter(es, p), x) && forall e :: e in es && e.id == x.id ==> p(e)
    ensures FirstWith(es, x)
  {
    if es != [] {
      var f := Filter(es, p);
      if es[0].id == x.id {
        assert f[0] == es[0];
        var i :| 0 <= i < |f| && f[i] == x && forall k :: 0 <= k < i ==> f[k].id != x.id;
        assert i == 0;
        assert es[0] == x;
      } else {
        if p(es[0]) {
          assert f[1..] == Filter(es[1..], p);
          var i :| 0 <= i < |f| && f[i] == x && forall k :: 0 <= k < i ==> f[k].id != x.id;
          assert f[1..][i - 1] == x;
          assert forall k :: 0 <= k < i - 1 ==> f[1..][k] == f[k + 1];
        }
        FilterKeepsFirst(es[1..], p, x);
        FirstWithTail(es, x);
      }
    }
  }

  lemma FirstInAppend(a: seq<Event>, b: seq<Event>, x: Event)
    requires FirstWith(a, x) || (FirstWith(b, x) && x.id !in Bag(a))
    ensures FirstWith(a + b, x)
  {
    if FirstWith(a, x) {
      var i :| 0 <= i < |a| && a[i] == x && forall k :: 0 <= k < i ==> a[k].id != x.id;
      assert (a + b)[i] == x && forall k :: 0 <= k < i ==> (a + b)[k] == a[k];
    } else {
      var i :| 0 <= i < |b| && b[i] == x && forall k :: 0 <= k < i ==> b[k].id != x.id;
      BagIds(a);
      forall k | 0 <= k < |a| + i
        ensures (a + b)[k].id != x.id
      {
        if k < |a| {
          assert a[k].id == Ids(a)[k];
        }
      }
      assert (a + b)[|a| + i] == x;
    }
  }

  /**
   First copy wins: the table holds exactly the ids offered, and the content of each row is the first event
   offered under that id.
   */
  lemma {:induction false} ReplayKeepsFirst(cs: seq<Commit>)
    ensures forall id :: id in Replay(cs) <==> id in Bag(Offered(cs))
    ensures forall id :: id in Replay(cs) ==>
              Replay(cs)[id].event.id == id &&
              FirstWith(Offered(cs), Replay(cs)[id].event)
  {
    if cs != [] {
      var n := |cs| - 1;
      var es := cs[n].events;
      var raw := Replay(cs[..n]);
      ReplayKeepsFirst(cs[..n]);
      InsertOrIgnoreRows(raw, Fresh(raw, es), cs[n].receivedAt, cs[n].batch);
      BagAppend(Offered(cs[..n]), es);
      FreshIds(raw, es);
      forall id | id in Replay(cs)
        ensures Replay(cs)[id].event.id == id && FirstWith(Offered(cs), Replay(cs)[id].event)
      {
        var x := Replay(cs)[id].event;
        if id !in raw {
          FilterKeepsFirst(es, (e: Event) => e.id !in raw, x);
        }
        FirstInAppend(Offered(cs[..n]), es, x);
      }
    }
  }

  lemma {:induction false} FreshIds(raw: map<Id, RawRow>, es: seq<Event>)
    ensures forall id :: id in Bag(Fresh(raw, es)) <==> id in Bag(es) && id !in raw
  {
    if es != [] {
      FreshIds(raw, es[1..]);
    }
  }

  lemma FirstIsMember(es: seq<Event>, x: Event)
    requires FirstWith(es, x)
    ensures x in es
  {
  }

  ghost predicate SameIds(a: seq<Event>, b: seq<Event>) {
    forall id :: id in Bag(a) <==> id in Bag(b)
  }

  /**
   Confluence: two servers, whatever their clocks, devices, batchings, crashes and interleavings.  When an
   event id determines the event (as ids derived from the content do), their tables have the same contents exactly when
   the same ids were offered to both stores.
   */
  lemma DeliveryConfluence(cfg: Settings, c1: int, d1: map<Id, int>, run1: seq<Action>, cfg2: Settings, c2: int,
                           d2: map<Id, int>, run2: seq<Action>)
    requires !RetentionOn(cfg) && !RetentionOn(cfg2)
    requires var o1 := Offered(Run(cfg, Init(c1, d1), run1).commits);
             var o2 := Offered(Run(cfg2, Init(c2, d2), run2).commits);
             forall x, y :: x in o1 && y in o2 && x.id == y.id ==> x == y
    ensures var s1 := Run(cfg, Init(c1, d1), run1);
            var s2 := Run(cfg2, Init(c2, d2), run2);
            Contents(s1.t.raw) == Contents(s2.t.raw) <==> SameIds(Offered(s1.commits), Offered(s2.commits))
  {
    var s1, s2 := Run(cfg, Init(c1, d1), run1), Run(cfg2, Init(c2, d2), run2);
    InitSound(cfg, c1, d1);
    InitSound(cfg2, c2, d2);
    RunIsReplay(cfg, Init(c1, d1), run1);
    RunIsReplay(cfg2, Init(c2, d2), run2);
    ReplaysAgree(s1.commits, s2.commits);
  }

  lemma ReplaysAgree(a: seq<Commit>, b: seq<Commit>)
    requires forall x, y :: x in Offered(a) && y in Offered(b) && x.id == y.id ==> x == y
    ensures Contents(Replay(a)) == Contents(Replay(b)) <==> SameIds(Offered(a), Offered(b))
  {
    ReplayContents(a);
    ReplayContents(b);
    hide Contents, Bag, Replay;
    KeyedContents(Contents(Replay(a)), Contents(Replay(b)), Offered(a), Offered(b));
  }

  ghost predicate DrawnFrom(m: map<Id, Event>, es: seq<Event>) {
    && (forall id :: id in m <==> id in Bag(es))
    && (forall id :: id in m ==> m[id].id == id && m[id] in es)
  }

  lemma ReplayContents(cs: seq<Commit>)
    ensures DrawnFrom(Contents(Replay(cs)), Offered(cs))
  {
    ReplayKeepsFirst(cs);
    forall id | id in Replay(cs)
      ensures Replay(cs)[id].event in Offered(cs)
    {
      FirstIsMember(Offered(cs), Replay(cs)[id].event);
    }
  }

  lemma KeyedContents(p: map<Id, Event>, q: map<Id, Event>, a: seq<Event>, b: seq<Event>)
    requires DrawnFrom(p, a) && DrawnFrom(q, b)
    requires forall x, y :: x in a && y in b && x.id == y.id ==> x == y
    ensures p == q <==> SameIds(a, b)
  {
    hide Bag;
    if SameIds(a, b) {
      forall id | id in p
        ensures id in q && p[id] == q[id]
      {
        var x := p[id];
        assert x in a && x.id == id;
        assert id in q;
        var y := q[id];
        assert y in b && y.id == id;
      }
      assert forall id :: id in q ==> id in p;
      assert p == q;
    } else {
      var id :| !(id in Bag(a) <==> id in Bag(b));
      assert id in p <==> id !in q;
    }
  }

  // ---------------------------------------------------------------- which ids were offered

  /** The deliveries recorded are exactly those of the jobs that got past their storing step. */
  ghost predicate CommitsAreJobs(s: State) {
    && (forall k :: 0 <= k < |s.jobs| && s.jobs[k].committed ==> CommitOf(s.jobs[k]) in s.commits)
    && (forall c :: c in s.commits ==> exists k :: 0 <= k < |s.jobs| && s.jobs[k].committed && CommitOf(s.jobs[k]) == c)
  }

  function CommitOf(j: Job): Commit {
    Commit(j.parts.toStore, j.receivedAt, j.batch.id)
  }

  lemma ReplaceKeepsCommits(s: State, k: nat, j': Job, commits: seq<Commit>)
    requires k < |s.jobs| && CommitsAreJobs(s)
    requires || (s.jobs[k].committed == j'.committed && (j'.committed ==> CommitOf(j') == CommitOf(s.jobs[k])) &&
             commits == s.commits)
             || (!s.jobs[k].committed && j'.committed && commits == s.commits + [CommitOf(j')])
    ensures CommitsAreJobs(s.(jobs := s.jobs[k := j'], commits := commits))
  {
    var s' := s.(jobs := s.jobs[k := j'], commits := commits);
    hide CommitOf;
    forall c | c in s'.commits
      ensures exists i :: 0 <= i < |s'.jobs| && s'.jobs[i].committed && CommitOf(s'.jobs[i]) == c
    {
      if c in s.commits {
        var i :| 0 <= i < |s.jobs| && s.jobs[i].committed && CommitOf(s.jobs[i]) == c;
        assert s'.jobs[i].committed && CommitOf(s'.jobs[i]) == c;
      } else {
        assert s'.jobs[k].committed && CommitOf(s'.jobs[k]) == c;
      }
    }
  }

  lemma NextKeepsCommits(cfg: Settings, s: State, a: Action)
    requires AllJobsOk(cfg, s) && CommitsAreJobs(s)
    ensures CommitsAreJobs(Next(cfg, s, a))
  {
    hide JobOk, Expire;
    var s' := Next(cfg, s, a);
    match a {
      case Tick(_) => CommitsFrame(s, s');
      case Retain(_) => CommitsFrame(s, s');
      case Begin(batch) => BeginKeepsCommits(s, batch);
      case Crash(k) =>
        if k < |s.jobs| {
          ReplaceKeepsCommits(s, k, s.jobs[k].(pc := Failed), s.commits);
        }
      case Step(k) =>
        if k < |s.jobs| {
          var j := s.jobs[k];
          StepCommit(cfg, s.t, j, s.clock);
          hide Advance, EntriesOf;
          var o := Advance(cfg, s.t, j, s.clock);
          ReplaceKeepsCommits(s, k, o.j, s'.commits);
          CommitsFrame(s.(jobs := s'.jobs, commits := s'.commits), s');
        }
    }
  }

  lemma StepCommit(cfg: Settings, t: Tables, j: Job, now: int)
    requires JobOk(cfg, now, j)
    ensures var o := Advance(cfg, t, j, now);
            (j.committed ==> o.j.committed && CommitOf(o.j) == CommitOf(j)) &&
              (!j.committed && o.j.committed ==> CommitOf(o.j) == CommitOf(j))
  {
    if !j.pc.Storing? {
      OtherStepsKeepVerdicts(cfg, t, j, now);
    }
    hide PartsOk, VerdictsOk, Acceptable, Place, RecordBatch, RecordAcks, EntriesOf, BatchRowOf, BeatOf, Ids, Fresh,
         Known, StoreRaw;
  }

  lemma CommitsFrame(s: State, s': State)
    requires CommitsAreJobs(s) && s'.jobs == s.jobs && s'.commits == s.commits
    ensures CommitsAreJobs(s')
  {
    hide CommitOf;
  }

  lemma BeginKeepsCommits(s: State, batch: Batch)
    requires CommitsAreJobs(s)
    ensures CommitsAreJobs(s.(jobs := s.jobs + [Start(batch, s.clock)]))
  {
    var s' := s.(jobs := s.jobs + [Start(batch, s.clock)]);
    hide CommitOf;
    forall c | c in s'.commits
      ensures exists i :: 0 <= i < |s'.jobs| && s'.jobs[i].committed && CommitOf(s'.jobs[i]) == c
    {
      var i :| 0 <= i < |s.jobs| && s.jobs[i].committed && CommitOf(s.jobs[i]) == c;
      assert s'.jobs[i].committed && CommitOf(s'.jobs[i]) == c;
    }
  }

  lemma {:induction false} RunKeepsCommits(cfg: Settings, s: State, actions: seq<Action>)
    requires AllJobsOk(cfg, s) && CommitsAreJobs(s)
    ensures CommitsAreJobs(Run(cfg, s, actions))
  {
    if actions != [] {
      var n := |actions| - 1;
      RunKeepsCommits(cfg, s, actions[..n]);
      RunKeepsJobs(cfg, s, actions[..n]);
      NextKeepsCommits(cfg, Run(cfg, s, actions[..n]), actions[n]);
    }
  }

  lemma {:induction false} OfferedMember(cs: seq<Commit>, e: Event)
    ensures e in Offered(cs) <==> exists c :: c in cs && e in c.events
  {
    if cs != [] {
      var n := |cs| - 1;
      OfferedMember(cs[..n], e);
      assert cs == cs[..n] + [cs[n]];
      if c :| c in cs && e in c.events {
        assert c in cs[..n] || c == cs[n];
      }
    }
  }

  /** An event was offered exactly when some ingest accepted it and reached its commit. */
  lemma OfferedEvents(cfg: Settings, clock: int, devices: map<Id, int>, actions: seq<Action>, e: Event)
    ensures var s := Run(cfg, Init(clock, devices), actions);
            e in Offered(s.commits) <==> exists k ::
                0 <= k < |s.jobs| && s.jobs[k].committed &&
                e in s.jobs[k].parts.toStore
  {
    RunKeepsCommits(cfg, Init(clock, devices), actions);
    var s := Run(cfg, Init(clock, devices), actions);
    OfferedMember(s.commits, e);
    if k :| 0 <= k < |s.jobs| && s.jobs[k].committed && e in s.jobs[k].parts.toStore {
      assert CommitOf(s.jobs[k]) in s.commits && e in CommitOf(s.jobs[k]).events;
    }
  }
}
