/** What the parts of a day's timeline are, told from the stored rows (timeline.py, features.py, coverage.py). */
module DayMeaning {
  import opened Wrappers
  import opened Seqs
  import opened Timestamps
  import opened Types
  import opened Queries
  import opened Derivation
  import opened Recompute
  import opened Hours
  import opened Gaps
  import opened Timeline
  import opened Daily
  import opened HourMeaning

  // ---------------------------------------------------------------- daily rows

  function ValuePart(): FeatureRow -> real {
    (r: FeatureRow) => if r.value.Some? then r.value.value else 0.0
  }

  function CoveragePart(): FeatureRow -> real {
    (r: FeatureRow) => r.coverage
  }

  function ValueCount(rows: seq<FeatureRow>): nat {
    |set i | 0 <= i < |rows| && rows[i].value.Some?|
  }

  lemma {:induction false} ValuesExact(rows: seq<FeatureRow>)
    ensures Sum(Values(rows)) == SumBy(rows, ValuePart())
    ensures |Values(rows)| == |Places(rows, HasValue())|
  {
    hide Places, SumBy, Values;
    if rows == [] {
      NoPlaces(HasValue());
      NothingToAdd();
    } else {
      var n := |rows| - 1;
      var r := rows[n];
      ValuesExact(rows[..n]);
      assert rows == rows[..n] + [r];
      SumBySnoc(rows[..n], r, ValuePart());
      PlacesSnoc(rows[..n], r, HasValue());
      ValuesAppend(rows[..n], [r]);
      OneValue(r);
      SumAppend(Values(rows[..n]), Values([r]));
    }
  }

  function HasValue(): FeatureRow -> bool {
    (r: FeatureRow) => r.value.Some?
  }

  lemma NothingToAdd()
    ensures Values([]) == [] && SumBy([], ValuePart()) == 0.0 && Coverages([]) == [] && SumBy([], CoveragePart()) == 0.0
  {
  }

  lemma OneValue(r: FeatureRow)
    ensures Values([r]) == if r.value.Some? then [r.value.value] else []
    ensures Sum(Values([r])) == ValuePart()(r)
  {
    SumOfOne(Values([r]));
  }

  lemma {:induction false} CoveragesExact(rows: seq<FeatureRow>)
    ensures Sum(Coverages(rows)) == SumBy(rows, CoveragePart()) && |Coverages(rows)| == |rows|
  {
    if rows != [] {
      CoveragesExact(rows[1..]);
    }
  }

  /**
   A daily row: four features are averaged over the hours that have a value, the other six added up; the coverage is
   the rounded mean over all hours read, and the flags are theirs, with partial where a value is absent.
   */
  lemma DailyRowExact(f: Feature, rows: seq<FeatureRow>, start: Moment, end: Moment)
    ensures var row, n := DailyOf(f, rows, start, end), ValueCount(rows);
            && row.windowStart == IsoUtc(start) && row.windowEnd == IsoUtc(end)
            && (f in {BatteryMean, LocationCoverage, Movement, HeartbeatCoverage} ==>
                  MeanIs(row.value, SumBy(rows, ValuePart()), n))
            && (f in {ChargingMinutes, WifiMinutes, Calls, Sms, EventsTotal, MissingFlag} ==>
                  row.value == if n == 0 then None else Some(SumBy(rows, ValuePart())))
            && (|rows| == 0 ==> row.coverage == 0.0)
            && (|rows| > 0 ==> RoundedTo(SumBy(rows, CoveragePart()) / |rows| as real, 10_000.0, row.coverage))
            && (forall x :: x in row.flags <==>
                  exists r :: r in rows && (x in r.flags || (x == Partial && r.value == None)))
  {
    hide IsoUtc, Round4, RoundedTo, Values, Sum, SumBy, Coverages;
    ValuesExact(rows);
    assert Places(rows, HasValue()) == set i | 0 <= i < |rows| && rows[i].value.Some?;
    CoveragesExact(rows);
    Round4Zero();
    RoundedExact(MeanOrZero(Coverages(rows)));
    forall x
      ensures x in DailyOf(f, rows, start, end).flags <==>
                exists r :: r in rows && (x in r.flags || (x == Partial && r.value == None))
    {
      FlagsAreRows(f, rows, start, end, x);
      assert forall r :: Flagged(r, x) <==> x in r.flags || (x == Partial && r.value == None);
    }
  }

  /** The rows a day reads for a feature: those stored for the hours read back, in their order. */
  lemma DayReads(hourly: map<FeatureKey, FeatureRow>, device: Id, f: Feature, start: Moment, end: Moment)
    ensures var rows := ReadFeature(hourly, device, f, start, end);
            exists hours ::
              && Increasing(hours) && |hours| == |rows|
              && (forall h :: h in hours <==> FeatureKey(device, f, h) in hourly && Visible(h, start, end))
              && forall i :: 0 <= i < |rows| ==>
                   FeatureKey(device, f, hours[i]) in hourly && rows[i] == hourly[FeatureKey(device, f, hours[i])]
  {
    hide Visible, Increasing, RowsAt;
    var hours := Ascend(FeatureHours(hourly, device, f, start, end));
    assert |hours| == |ReadFeature(hourly, device, f, start, end)|;
  }

  /** Building the daily rows of a device and date writes these ten and leaves all others as they were. */
  lemma DailyTableExact(daily: map<DailyKey, DailyRow>, d: Derived, device: Id, date: string, start: Moment,
                        end: Moment)
    ensures var r := DailyAfter(daily, d, device, date, start, end);
            && (forall k :: k in r <==> k in daily || (k.device == device && k.date == date))
            && (forall k :: k in daily && !(k.device == device && k.date == date) ==> r[k] == daily[k])
            && (forall f :: DailyKey(device, f, date) in r &&
                  r[DailyKey(device, f, date)] == DailyOf(f, ReadFeature(d.hourly, device, f, start, end), start, end))
  {
    hide DailyOf, ReadFeature;
  }

  // ---------------------------------------------------------------- recomputing when there is nothing to read

  /** The roll-up recomputes its 24 hours exactly when no hourly row of the device is read back for them. */
  lemma RollUpRecomputes(d: Derived, src: Source, device: Id, start: Moment, end: Moment)
    ensures var r := HourlyForDay(d, src, device, start, end);
            && ((exists k :: k in d.hourly && k.device == device && Visible(k.hour, start, end)) ==> r == d)
            && ((forall k :: k in d.hourly && k.device == device ==> !Visible(k.hour, start, end)) ==>
                  forall h :: h in HoursOf(start, end) ==> HourDone(r, src, device, start, end, h))
  {
    hide RecomputeWindow, Visible, HourDone, HoursOf;
    if NothingRead(d.hourly, device, start, end) {
      forall h | h in HoursOf(start, end)
        ensures HourDone(RecomputeWindow(d, src, device, start, end), src, device, start, end, h)
      {
        DoneHour(d, src, device, start, end, h);
      }
    }
  }

  /** The stored rows of an hour are what its events in the window call for. */
  ghost predicate HourDone(r: Derived, src: Source, device: Id, start: Moment, end: Moment, h: int) {
    var rows := Bucket(WindowRows(src.raw, device, start, end), h);
    && CoverageDone(r.coverage, src, device, start, end, h)
    && FeaturesStored(r.hourly, device, h, rows,
         if Visible(h, start, end) then r.coverage[HourKey(device, h)].proportion else 0.0)
  }

  ghost predicate CoverageDone(coverage: map<HourKey, CoverageRow>, src: Source, device: Id, start: Moment, end: Moment,
                               h: int) {
    && HourKey(device, h) in coverage
    && exists expected ::
         ExpectedFrom(src.beats, device, expected) &&
         Covers(coverage[HourKey(device, h)], Bucket(WindowRows(src.raw, device, start, end), h), expected)
  }

  lemma DoneHour(d: Derived, src: Source, device: Id, start: Moment, end: Moment, h: int)
    requires h in HoursOf(start, end)
    ensures HourDone(RecomputeWindow(d, src, device, start, end), src, device, start, end, h)
  {
    hide RecomputeWindow, FeaturesStored, ExpectedFrom, Covers, Bucket, WindowRows, Visible, HoursOf;
    RecomputedHour(d, src, device, start, end, h);
  }

  /** Summary and gaps recompute the coverage exactly when no coverage row of the device is read back. */
  lemma ReadRecomputes(coverage: map<HourKey, CoverageRow>, src: Source, device: Id, start: Moment, end: Moment)
    ensures var r := CoverageForRead(coverage, src, device, start, end);
            && ((exists h :: HourKey(device, h) in coverage && Visible(h, start, end)) ==> r == coverage)
            && ((forall h :: HourKey(device, h) in coverage ==> !Visible(h, start, end)) ==>
                  forall h :: h in HoursOf(start, end) ==> CoverageDone(r, src, device, start, end, h))
  {
    hide Visible, CoverageDone, HoursOf, CoverageAfter;
    if StoredHours(coverage, device, start, end) == {} {
      forall h | h in HoursOf(start, end)
        ensures CoverageDone(CoverageAfter(coverage, src, device, start, end), src, device, start, end, h)
      {
        DoneCoverage(coverage, src, device, start, end, h);
      }
    } else {
      var h :| h in StoredHours(coverage, device, start, end);
      assert HourKey(device, h) in coverage && Visible(h, start, end);
    }
  }

  lemma DoneCoverage(coverage: map<HourKey, CoverageRow>, src: Source, device: Id, start: Moment, end: Moment, h: int)
    requires h in HoursOf(start, end)
    ensures CoverageDone(CoverageAfter(coverage, src, device, start, end), src, device, start, end, h)
  {
    hide CoverageAfter, ExpectedFrom, Covers, Bucket, WindowRows, HoursOf, HourlyAfter, FeaturesStored, Visible;
    RecomputedHour(Derived(coverage, map[]), src, device, start, end, h);
  }

  // ---------------------------------------------------------------- hour blocks

  /** A block shows the raw events counted by source, and the stored rows of its hour where they are read back. */
  lemma BlockExact(d: Derived, rows: seq<RawRow>, device: Id, h: int, start: Moment, end: Moment)
    ensures var b := BlockOf(d, rows, device, h, start, end);
            var key := HourKey(device, h);
            && b.hour == h && CountsSources(b.rawCounts, Bucket(rows, h)) && b.rawTotal == |Bucket(rows, h)|
            && (Visible(h, start, end) && key in d.coverage ==>
                  b.proportion == d.coverage[key].proportion && b.observed == d.coverage[key].observed &&
                  b.expected == d.coverage[key].expected && b.isMissing == d.coverage[key].isMissing)
            && (!(Visible(h, start, end) && key in d.coverage) ==>
                  b.proportion == 0.0 && b.observed == {} && b.expected == multiset{} && b.isMissing)
            && (forall f :: f in b.features <==> Visible(h, start, end) && FeatureKey(device, f, h) in d.hourly)
            && (forall f :: f in b.features ==> b.features[f] == d.hourly[FeatureKey(device, f, h)])
            && (forall x :: x in b.flags <==> exists f :: f in b.features && x in b.features[f].flags)
  {
    hide Visible, Bucket, BySource, Total, CountsSources;
    SourcesExact(Bucket(rows, h));
    BySourceTotal(Bucket(rows, h));
    forall f: Feature
      ensures f in FEATURES
    {
      EveryFeature(f);
    }
  }

  // ---------------------------------------------------------------- the summary

  function ProportionAt(coverage: map<HourKey, CoverageRow>, device: Id): int -> real {
    (h: int) => if HourKey(device, h) in coverage then coverage[HourKey(device, h)].proportion else 0.0
  }

  lemma {:induction false} ProportionsExact(coverage: map<HourKey, CoverageRow>, device: Id, hours: seq<int>)
    requires forall h :: h in hours ==> HourKey(device, h) in coverage
    ensures Sum(Proportions(coverage, device, hours)) == SumBy(hours, ProportionAt(coverage, device))
    ensures |Proportions(coverage, device, hours)| == |hours|
  {
    if hours != [] {
      ProportionsExact(coverage, device, hours[1..]);
    }
  }

  lemma {:induction false} MissingExact(states: seq<HourState>)
    ensures MissingCount(states) == |Places(states, Missing())|
  {
    hide Places;
    if states == [] {
      NoPlaces(Missing());
    } else {
      var n := |states| - 1;
      MissingExact(states[..n]);
      assert states == states[..n] + [states[n]];
      PlacesSnoc(states[..n], states[n], Missing());
      MissingParts(states, n);
      OneMissing(states[n]);
      assert states[n..] == [states[n]];
    }
  }

  function Missing(): HourState -> bool {
    (s: HourState) => s.isMissing
  }

  lemma OneMissing(s: HourState)
    ensures MissingCount([s]) == if s.isMissing then 1 else 0
  {
  }

  /** The hours whose coverage rows the summary reads. */
  ghost predicate HoursRead(hours: seq<int>, coverage: map<HourKey, CoverageRow>, device: Id, start: Moment,
                            end: Moment) {
    Increasing(hours) && forall h :: h in hours <==> HourKey(device, h) in coverage && Visible(h, start, end)
  }

  /** The summary counts the rows read, missing or not, averages their proportions, and names the sources expected. */
  lemma SummaryExact(coverage: map<HourKey, CoverageRow>, beats: map<Id, BeatRow>, device: Id, start: Moment,
                     end: Moment)
    ensures var s := SummaryOf(coverage, beats, device, start, end);
            && ExpectedFrom(beats, device, s.expected)
            && exists hours ::
                 && HoursRead(hours, coverage, device, start, end)
                 && s.hoursTotal == |hours|
                 && s.hoursMissing == |set i | 0 <= i < |hours| && HourKey(device, hours[i]) in coverage &&
                                               coverage[HourKey(device, hours[i])].isMissing|
                 && s.hoursObserved == s.hoursTotal - s.hoursMissing
                 && (s.dataComplete <==> s.hoursTotal > 0 && s.hoursMissing == 0)
                 && (hours == [] ==> s.proportion == 0.0)
                 && (hours != [] ==>
                       RoundedTo(SumBy(hours, ProportionAt(coverage, device)) / |hours| as real, 10_000.0,
                         s.proportion))
  {
    hide Visible, Increasing, Ascend, Round4, RoundedTo, Sum, SumBy, Proportions, MissingCount, ExpectedSources,
         ExpectedFrom;
    var hours := Ascend(StoredHours(coverage, device, start, end));
    assert HoursRead(hours, coverage, device, start, end);
    ExpectedIs(beats, device);
    ProportionsExact(coverage, device, hours);
    var states := StatesAt(coverage, device, hours);
    MissingExact(states);
    assert Places(states, Missing()) ==
           set i | 0 <= i < |hours| && HourKey(device, hours[i]) in coverage &&
             coverage[HourKey(device, hours[i])].isMissing;
    Round4Zero();
    RoundedExact(MeanOrZero(Proportions(coverage, device, hours)));
  }
}
