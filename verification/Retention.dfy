/** What retention deletes, by text, against what its cutoff means (database.py). */
module Retention {
  import opened Timestamps
  import opened TimeOrder
  import opened Types
  import Text
  import opened Ingestion
  import opened Protocol
  import opened Queries

  /**
   A row survives a retention pass, unchanged, exactly when its event is not older than the cutoff, unless its
   text and the cutoff's are misordered; then it is the other way round.
   */
  lemma RetentionExact(raw: map<Id, RawRow>, cutoff: Moment, id: Id)
    requires ValidRaw(raw) && id in raw
    ensures var kept := Expire(raw, IsoUtc(cutoff));
            var time := raw[id].event.time;
            && (id in kept ==> kept[id] == raw[id])
            && ((id in kept <==> cutoff - cutoff % 1000 <= Instant(time)) <==> !Misordered(time, IsoUtc(cutoff)))
  {
    hide IsoUtc, Accepted, Instant, Misordered, Expire, Text.Less, Second;
    var time, bound := raw[id].event.time, IsoUtc(cutoff);
    Kept(raw, bound, id);
    CutoffInstant(cutoff);
    assert Accepted(time);
    DisagreementSet(time, bound);
  }

  lemma Kept(raw: map<Id, RawRow>, bound: string, id: Id)
    requires id in raw
    ensures id in Expire(raw, bound) <==> !Text.Less(raw[id].event.time, bound)
    ensures id in Expire(raw, bound) ==> Expire(raw, bound)[id] == raw[id]
  {
    hide Text.Less;
  }

  lemma CutoffInstant(cutoff: Moment)
    ensures Accepted(IsoUtc(cutoff)) && Instant(IsoUtc(cutoff)) == cutoff - cutoff % 1000
  {
    hide IsoUtc, Accepted, Instant;
    IsoAccepted(cutoff);
    IsoRoundTrip(cutoff);
  }

  /** Outside the cutoff's own second exactly the older events go, and a pass with an earlier cutoff is then no news. */
  lemma RetentionOutsideSecond(raw: map<Id, RawRow>, cutoff: Moment, id: Id)
    requires ValidRaw(raw) && id in raw && Second(raw[id].event.time) != cutoff / SECOND
    ensures id in Expire(raw, IsoUtc(cutoff)) <==> cutoff <= Instant(raw[id].event.time)
  {
    hide IsoUtc, Accepted, Instant;
    BoundOutsideSecond(raw[id].event.time, cutoff);
  }

  /** Two passes delete what the pass with the greater cutoff text deletes. */
  lemma RetentionTwice(raw: map<Id, RawRow>, early: string, late: string)
    requires early == late || Text.Less(early, late)
    ensures Expire(Expire(raw, early), late) == Expire(raw, late) == Expire(Expire(raw, late), early)
  {
    hide Text.Less;
    forall id | id in raw && Text.Less(raw[id].event.time, early)
      ensures Text.Less(raw[id].event.time, late)
    {
      if early != late {
        Text.LessTransitive(raw[id].event.time, early, late);
      }
    }
  }

  /**
   The retention action: with retention off, or fewer than one day to keep, nothing happens; otherwise exactly the
   raw rows with a time text before the cutoff go, and no other table, job or record is touched.
   */
  lemma RetentionStep(cfg: Settings, s: State, cutoff: string)
    ensures var n := Next(cfg, s, Retain(cutoff));
            && n == s.(t := s.t.(raw := n.t.raw))
            && (!cfg.retentionEnabled || cfg.retentionDays < 1 ==> n == s)
            && (cfg.retentionEnabled && cfg.retentionDays >= 1 ==>
                  (forall id :: id in n.t.raw <==> id in s.t.raw && !Text.Less(s.t.raw[id].event.time, cutoff)))
            && (forall id :: id in n.t.raw ==> n.t.raw[id] == s.t.raw[id])
  {
    hide Text.Less;
  }
}
