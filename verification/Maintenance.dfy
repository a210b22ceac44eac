/** Recomputing any window, such as the maintenance loop's, which starts wherever the clock stands. */
module Maintenance {
  import opened Wrappers
  import opened Seqs
  import opened Order
  import opened Timestamps
  import opened TimeOrder
  import opened Types
  import opened Queries
  import opened Derivation
  import opened Recompute

  /** The stored rows of an hour are the specification of the whole hour. */
  ghost predicate FullAt(d: Derived, src: Source, device: Id, h: int) {
    && HourKey(device, h) in d.coverage
    && d.coverage[HourKey(device, h)] == CoverageSpec(src, device, HourRows(src.raw, device, h))
    && forall f ::
         FeatureKey(device, f, h) in d.hourly &&
         d.hourly[FeatureKey(device, f, h)] == FeatureSpec(src, device, f, HourRows(src.raw, device, h))
  }

  /**
   A recomputation over any window leaves other devices and other hours alone; each hour of its range gets
   the rows of its clipped events, with coverage zero when its own row is not read back.
   */
  lemma AnyWindow(d: Derived, src: Source, device: Id, start: Moment, end: Moment)
    requires Fits(src.raw, device, start, end)
    ensures var r := RecomputeWindow(d, src, device, start, end);
            && (forall k: HourKey :: !(k.device == device && k.hour in HoursOf(start, end)) ==>
                  (k in r.coverage <==> k in d.coverage) && (k in d.coverage ==> r.coverage[k] == d.coverage[k]))
            && (forall k: FeatureKey :: !(k.device == device && k.hour in HoursOf(start, end)) ==>
                  (k in r.hourly <==> k in d.hourly) && (k in d.hourly ==> r.hourly[k] == d.hourly[k]))
            && (forall h :: h in HoursOf(start, end) ==>
                  HourKey(device, h) in r.coverage &&
                  r.coverage[HourKey(device, h)] == CoverageSpec(src, device,
                    ClippedRows(src.raw, device, h, start, end)))
            && (forall h, f :: h in HoursOf(start, end) ==>
                  FeatureKey(device, f, h) in r.hourly &&
                  r.hourly[FeatureKey(device, f, h)] ==
                  FeatureOf(f, ClippedRows(src.raw, device, h, start, end),
                            if Visible(h, start, end)
                            then CoverageSpec(src, device, ClippedRows(src.raw, device, h, start, end)).proportion
                            else 0.0))
  {
    hide CoverageOf, FeatureOf, Bucket, WindowRows, HoursOf, CoverageKeys, FeatureKeys, Visible, ExpectedSources,
         ClippedRows;
    forall h | h in HoursOf(start, end)
      ensures Bucket(WindowRows(src.raw, device, start, end), h) == ClippedRows(src.raw, device, h, start, end)
    {
      BucketIsClipped(src.raw, device, h, start, end);
    }
    var r := RecomputeWindow(d, src, device, start, end);
    forall h, f | h in HoursOf(start, end)
      ensures HourKey(device, h) in r.coverage && FeatureKey(device, f, h) in r.hourly
    {
    }
  }

  lemma ClippedSize(raw: map<Id, RawRow>, device: Id, h: int, start: Moment, end: Moment)
    ensures var cut, full := ClippedRows(raw, device, h, start, end), HourRows(raw, device, h);
            cut == full <==> |cut| == |full|
    ensures ClippedRows(raw, device, h, start, end) == HourRows(raw, device, h) <==>
            ClippedKeys(raw, device, h, start, end) == HourKeys(raw, device, h)
  {
    hide IsoUtc, InTextWindow, HourOf;
    var cut, full := ClippedKeys(raw, device, h, start, end), HourKeys(raw, device, h);
    if cut != full {
      var k :| k in full && k !in cut;
      SubsetSize(cut, full - {k});
    }
  }

  /** No event of the hour is cut off by the window's bounds, compared as texts. */
  predicate Uncut(raw: map<Id, RawRow>, device: Id, h: int, start: Moment, end: Moment) {
    ClippedKeys(raw, device, h, start, end) == HourKeys(raw, device, h)
  }

  /**
   Exactly when a recomputed hour ends up with the rows of the whole hour: none of its events is cut off, and
   its coverage row is read back, or its coverage is zero anyway.
   */
  lemma FullAfterWindow(d: Derived, src: Source, device: Id, start: Moment, end: Moment, h: int)
    requires Fits(src.raw, device, start, end) && h in HoursOf(start, end)
    ensures FullAt(RecomputeWindow(d, src, device, start, end), src, device, h) <==>
            Uncut(src.raw, device, h, start, end) &&
            (Visible(h, start, end) ||
             Round4(CoverageSpec(src, device, HourRows(src.raw, device, h)).proportion) == 0.0)
  {
    hide *;
    AnyWindow(d, src, device, start, end);
    ClippedSize(src.raw, device, h, start, end);
    UncutRows(src.raw, device, h, start, end);
    var r := RecomputeWindow(d, src, device, start, end);
    var cut, full := ClippedRows(src.raw, device, h, start, end), HourRows(src.raw, device, h);
    CountsInCoverage(src, device, cut, full);
    FullParts(r, src, device, h);
    forall f
      ensures cut == full ==>
              (r.hourly[FeatureKey(device, f, h)] == FeatureSpec(src, device, f, full) <==>
               Visible(h, start, end) || Round4(CoverageSpec(src, device, full).proportion) == 0.0)
    {
      ProportionInFeature(src, device, f, full, Visible(h, start, end));
    }
    assert FeatureKey(device, Calls, h) in r.hourly;
  }

  lemma UncutRows(raw: map<Id, RawRow>, device: Id, h: int, start: Moment, end: Moment)
    ensures Uncut(raw, device, h, start, end) <==> ClippedRows(raw, device, h, start, end) == HourRows(raw, device, h)
  {
    ClippedSize(raw, device, h, start, end);
  }

  lemma FullParts(d: Derived, src: Source, device: Id, h: int)
    ensures FullAt(d, src, device, h) <==>
            && HourKey(device, h) in d.coverage
            && d.coverage[HourKey(device, h)] == CoverageSpec(src, device, HourRows(src.raw, device, h))
            && forall f ::
                 FeatureKey(device, f, h) in d.hourly &&
                 d.hourly[FeatureKey(device, f, h)] == FeatureSpec(src, device, f, HourRows(src.raw, device, h))
  {
  }

  lemma CountsInCoverage(src: Source, device: Id, cut: seq<RawRow>, full: seq<RawRow>)
    ensures CoverageSpec(src, device, cut) == CoverageSpec(src, device, full) ==> |cut| == |full|
  {
    hide ExpectedSources;
  }

  lemma ProportionInFeature(src: Source, device: Id, f: Feature, rows: seq<RawRow>, visible: bool)
    ensures FeatureOf(f, rows, if visible then CoverageSpec(src, device, rows).proportion else 0.0) ==
            FeatureSpec(src, device, f, rows) <==>
            visible || Round4(CoverageSpec(src, device, rows).proportion) == 0.0
  {
    hide FeatureValue, CoverageSpec;
    assert Round4(0.0) == 0.0;
  }

  /** Hours that begin after the start and are over by the end always come out full. */
  lemma InnerHoursFull(d: Derived, src: Source, device: Id, start: Moment, end: Moment, h: int)
    requires ValidRaw(src.raw) && Fits(src.raw, device, start, end)
    requires start < h * HOUR && (h + 1) * HOUR <= end
    ensures FullAt(RecomputeWindow(d, src, device, start, end), src, device, h)
  {
    hide IsoUtc, RecomputeWindow, FullAt, ClippedRows, HourRows, Fits, Visible, Uncut, ValidRaw, Round4, CoverageSpec;
    InnerHourVisible(start, end, h);
    InnerHours(src.raw, device, start, end, h);
    UncutRows(src.raw, device, h, start, end);
    FullAfterWindow(d, src, device, start, end, h);
  }

  lemma InnerHourVisible(start: Moment, end: Moment, h: int)
    requires start < h * HOUR && (h + 1) * HOUR <= end
    ensures h in HoursOf(start, end) && Visible(h, start, end)
  {
    hide IsoUtc, Visible;
    StartHour(start, h);
    HoursAreHours(start, end, h);
    SecondOfBound(start, h);
    SecondOfLateBound(end, h + 1);
    VisibleHours(h, start, end);
  }

  lemma StartHour(start: nat, h: int)
    requires start < h * HOUR
    ensures start / HOUR <= h
  {
  }

  /**
   The maintenance window breaks "stored rows are the full hour": take a table whose hour `h` is full and has
   one event at its very start; a window that starts a second or more into the hour empties that hour's rows.
   */
  lemma MaintenanceBreaks(d: Derived, beats: map<Id, BeatRow>, device: Id, h: Hour, id: Id, row: RawRow,
                          start: Moment, end: Moment)
    requires YEAR_2000 <= HourStart(h) && h + 1 < YEAR_10000 / HOUR
    requires row.event.id == id && row.event.device == device && row.event.time == IsoUtc(HourStart(h))
    requires HourStart(h) + SECOND <= start < HourStart(h + 1) <= end
    ensures var src := Source(map[id := row], beats);
            var before := RecomputeWindow(d, src, device, HourStart(h), HourStart(h + 1));
            var after := RecomputeWindow(before, src, device, start, end);
            FullAt(before, src, device, h) && !FullAt(after, src, device, h) &&
            HourKey(device, h) in before.coverage && before.coverage[HourKey(device, h)].events == 1 &&
            HourKey(device, h) in after.coverage && after.coverage[HourKey(device, h)].events == 0
  {
    hide *;
    var src := Source(map[id := row], beats);
    var before := RecomputeWindow(d, src, device, HourStart(h), HourStart(h + 1));
    var after := RecomputeWindow(before, src, device, start, end);
    OneEvent(id, row, device, h, start, end);
    AnyWindow(d, src, device, HourStart(h), HourStart(h + 1));
    AnyWindow(before, src, device, start, end);
    FullAfterWindow(d, src, device, HourStart(h), HourStart(h + 1), h);
    FullAfterWindow(before, src, device, start, end, h);
    AlignedVisible(h, h + 1, h);
    EventCount(src, device, ClippedRows(src.raw, device, h, HourStart(h), HourStart(h + 1)));
    EventCount(src, device, ClippedRows(src.raw, device, h, start, end));
  }

  lemma EventCount(src: Source, device: Id, rows: seq<RawRow>)
    ensures CoverageSpec(src, device, rows).events == |rows|
  {
  }

  lemma OneEvent(id: Id, row: RawRow, device: Id, h: Hour, start: Moment, end: Moment)
    requires YEAR_2000 <= HourStart(h) && h + 1 < YEAR_10000 / HOUR
    requires row.event.id == id && row.event.device == device && row.event.time == IsoUtc(HourStart(h))
    requires HourStart(h) + SECOND <= start < HourStart(h + 1) <= end
    ensures var raw := map[id := row];
            && Fits(raw, device, HourStart(h), HourStart(h + 1)) && Fits(raw, device, start, end)
            && h in HoursOf(HourStart(h), HourStart(h + 1)) && h in HoursOf(start, end)
            && Uncut(raw, device, h, HourStart(h), HourStart(h + 1)) &&
               |ClippedRows(raw, device, h, HourStart(h), HourStart(h + 1))| == 1
            && !Uncut(raw, device, h, start, end) && |ClippedRows(raw, device, h, start, end)| == 0
  {
    hide IsoUtc, Accepted, Instant, InTextWindow;
    var raw := map[id := row];
    var t := row.event.time;
    var key := Key(t, id);
    WholeHour(HourStart(h));
    IsoRoundTrip(HourStart(h));
    IsoAccepted(HourStart(h));
    assert HourOf(row) == h;
    assert HourKeys(raw, device, h) == {key};
    OneRowFits(raw, id, device, HourStart(h), HourStart(h + 1));
    OneRowFits(raw, id, device, start, end);
    assert InTextWindow(t, IsoUtc(HourStart(h)), IsoUtc(HourStart(h + 1))) &&
           !InTextWindow(t, IsoUtc(start), IsoUtc(end)) by {
      StartOfHour(h, start, end);
    }
    assert ClippedKeys(raw, device, h, HourStart(h), HourStart(h + 1)) == {key};
    assert ClippedKeys(raw, device, h, start, end) == {};
  }

  lemma OneRowFits(raw: map<Id, RawRow>, id: Id, device: Id, start: Moment, end: Moment)
    requires raw.Keys == {id}
    ensures Fits(raw, device, start, end)
  {
    hide Selected;
    var s := WindowKeys(raw, device, start, end, None);
    SubsetSize(s, {Key(raw[id].event.time, id)});
  }

  lemma StartOfHour(h: Hour, start: Moment, end: Moment)
    requires h + 1 < YEAR_10000 / HOUR && HourStart(h) + SECOND <= start
    ensures InTextWindow(IsoUtc(HourStart(h)), IsoUtc(HourStart(h)), IsoUtc(HourStart(h + 1)))
    ensures !InTextWindow(IsoUtc(HourStart(h)), IsoUtc(start), IsoUtc(end))
  {
    hide IsoUtc;
    HourKeyOrder(HourStart(h), HourStart(h));
    HourKeyOrder(HourStart(h), HourStart(h + 1));
    HourKeyOrder(HourStart(h), start);
  }
}
