/** What `last_seen_utc` of a device says after any run. */
module LastSeen {
  import opened Types
  import opened Ingestion
  import opened Protocol

  /** Some request of the device has been answered. */
  ghost predicate Answered(s: State, d: Id) {
    exists k :: 0 <= k < |s.jobs| && s.jobs[k].pc.Replied? && s.jobs[k].batch.device == d
  }

  /**
   A device is as it was until its first answered request; from then on its stamp is no later than now and no
   earlier than the receipt of any answered request.
   */
  ghost predicate Stamped(s: State, devices: map<Id, int>, d: Id) {
    && (d in s.t.lastSeen <==> d in devices)
    && (d in devices ==>
          && (!Answered(s, d) ==> s.t.lastSeen[d] == devices[d])
          && (Answered(s, d) ==> s.t.lastSeen[d] <= s.clock)
          && forall k :: 0 <= k < |s.jobs| && s.jobs[k].pc.Replied? && s.jobs[k].batch.device == d ==>
               s.jobs[k].receivedAt <= s.t.lastSeen[d])
  }

  lemma StepStamps(cfg: Settings, t: Tables, j: Job, now: int)
    requires JobOk(cfg, now, j)
    ensures var o := Advance(cfg, t, j, now);
            && o.j.batch == j.batch && o.j.receivedAt == j.receivedAt
            && (o.j.pc.Replied? <==> j.pc.Replied? || j.pc.Touching?)
            && (!j.pc.Touching? ==> o.t.lastSeen == t.lastSeen)
            && (j.pc.Touching? ==>
                  && (forall d :: d in o.t.lastSeen <==> d in t.lastSeen)
                  && (forall d :: d in t.lastSeen ==> o.t.lastSeen[d] == if d == j.batch.device then
                     now else t.lastSeen[d]))
  {
    hide PartsOk, VerdictsOk, Acceptable, Place, RecordBatch, RecordAcks, EntriesOf, BatchRowOf, BeatOf, IsBeat, Ids,
         Fresh, Known, StoreRaw;
  }

  lemma NextStamps(cfg: Settings, s: State, a: Action, devices: map<Id, int>, d: Id)
    requires AllJobsOk(cfg, s) && Stamped(s, devices, d)
    ensures Stamped(Next(cfg, s, a), devices, d)
  {
    hide JobOk, Advance, EntriesOf, Expire;
    var s' := Next(cfg, s, a);
    match a {
      case Tick(_) => SameAnswers(s, s', d);
      case Retain(_) => SameAnswers(s, s', d);
      case Begin(batch) => NewJobAnswers(s, s', d);
      case Crash(k) =>
        if k < |s.jobs| && s.jobs[k].pc != Replied {
          OneJobAnswers(s, s', k, d);
        }
      case Step(k) =>
        if k < |s.jobs| {
          var j := s.jobs[k];
          assert JobOk(cfg, s.clock, j);
          StepStamps(cfg, s.t, j, s.clock);
          ReceivedBefore(cfg, s.clock, j);
          OneJobAnswers(s, s', k, d);
        }
    }
  }

  lemma ReceivedBefore(cfg: Settings, now: int, j: Job)
    requires JobOk(cfg, now, j)
    ensures j.receivedAt <= now
  {
  }

  lemma SameAnswers(s: State, s': State, d: Id)
    requires s'.jobs == s.jobs
    ensures Answered(s', d) <==> Answered(s, d)
  {
  }

  lemma NewJobAnswers(s: State, s': State, d: Id)
    requires |s'.jobs| == |s.jobs| + 1 && s'.jobs[..|s.jobs|] == s.jobs && !s'.jobs[|s.jobs|].pc.Replied?
    ensures Answered(s', d) <==> Answered(s, d)
    ensures forall k :: 0 <= k < |s'.jobs| && s'.jobs[k].pc.Replied? ==> k < |s.jobs| && s'.jobs[k] == s.jobs[k]
  {
    assert forall k :: 0 <= k < |s.jobs| ==> s'.jobs[k] == s.jobs[k];
  }

  lemma OneJobAnswers(s: State, s': State, k: nat, d: Id)
    requires k < |s.jobs| == |s'.jobs| && s'.jobs == s.jobs[k := s'.jobs[k]]
    requires s'.jobs[k].batch == s.jobs[k].batch && (s.jobs[k].pc.Replied? ==> s'.jobs[k].pc.Replied?)
    ensures Answered(s', d) <==> Answered(s, d) || (s'.jobs[k].pc.Replied? && s.jobs[k].batch.device == d)
  {
    forall i | 0 <= i < |s.jobs|
      ensures i != k ==> s'.jobs[i] == s.jobs[i]
    {
    }
    if i :| 0 <= i < |s.jobs| && s.jobs[i].pc.Replied? && s.jobs[i].batch.device == d {
      assert s'.jobs[i].pc.Replied? && s'.jobs[i].batch.device == d;
    }
  }

  lemma {:induction false} RunStamps(cfg: Settings, s: State, actions: seq<Action>, devices: map<Id, int>, d: Id)
    requires AllJobsOk(cfg, s) && Stamped(s, devices, d)
    ensures Stamped(Run(cfg, s, actions), devices, d)
  {
    if actions != [] {
      var n := |actions| - 1;
      RunStamps(cfg, s, actions[..n], devices, d);
      RunKeepsJobs(cfg, s, actions[..n]);
      NextStamps(cfg, Run(cfg, s, actions[..n]), actions[n], devices, d);
    }
  }

  /** In every run, retention on or off, a request stamps its device when it is answered, and no other device. */
  lemma LastSeenIsAnswer(cfg: Settings, clock: int, devices: map<Id, int>, actions: seq<Action>, d: Id)
    ensures Stamped(Run(cfg, Init(clock, devices), actions), devices, d)
  {
    hide JobOk, Run;
    RunStamps(cfg, Init(clock, devices), actions, devices, d);
  }
}
