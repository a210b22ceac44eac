/** A day of hour blocks, and why its four groupings agree (timeline.py, coverage.py, features.py). */
module Timeline {
  import opened Wrappers
  import opened Seqs
  import opened Timestamps
  import opened TimeOrder
  import opened Types
  import opened Queries
  import opened Derivation
  import opened Recompute
  import opened Hours
  import opened Gaps

  // ---------------------------------------------------------------- reading rows back

  function StoredHours(coverage: map<HourKey, CoverageRow>, device: Id, start: Moment, end: Moment): (hs: set<int>)
    ensures forall h :: h in hs <==> HourKey(device, h) in coverage && Visible(h, start, end)
  {
    var hs := set k | k in coverage && k.device == device && Visible(k.hour, start, end) :: k.hour;
    forall h | HourKey(device, h) in coverage && Visible(h, start, end)
      ensures h in hs
    {
      assert HourKey(device, h).hour == h;
    }
    hs
  }

  function StatesAt(coverage: map<HourKey, CoverageRow>, device: Id, hours: seq<int>): (rows: seq<HourState>)
    requires forall h :: h in hours ==> HourKey(device, h) in coverage
    ensures |rows| == |hours| && forall i :: 0 <= i < |hours| ==>
            rows[i] == HourState(hours[i], coverage[HourKey(device, hours[i])].isMissing)
  {
    if hours == [] then []
    else [HourState(hours[0], coverage[HourKey(device, hours[0])].isMissing)] + StatesAt(coverage, device, hours[1..])
  }

  /** `Database.coverage`, as far as gaps and missing hours are concerned. */
  function ReadStates(coverage: map<HourKey, CoverageRow>, device: Id, start: Moment, end: Moment): seq<HourState> {
    StatesAt(coverage, device, Ascend(StoredHours(coverage, device, start, end)))
  }

  datatype Summary = Summary(hoursTotal: nat, hoursMissing: nat, hoursObserved: nat, proportion: real,
                             dataComplete: bool, expected: seq<string>)

  function Proportions(coverage: map<HourKey, CoverageRow>, device: Id, hours: seq<int>): seq<real>
    requires forall h :: h in hours ==> HourKey(device, h) in coverage
  {
    if hours == [] then [] else
      [coverage[HourKey(device, hours[0])].proportion] +
      Proportions(coverage, device, hours[1..])
  }

  function SummaryOf(coverage: map<HourKey, CoverageRow>, beats: map<Id, BeatRow>, device: Id, start: Moment,
                     end: Moment): Summary {
    var hours := Ascend(StoredHours(coverage, device, start, end));
    var missing := MissingCount(StatesAt(coverage, device, hours));
    MissingAtMost(StatesAt(coverage, device, hours));
    var mean := match Mean(Proportions(coverage, device, hours)) case Some(m) => m case None => 0.0;
    Summary(|hours|, missing, |hours| - missing, Round4(mean), missing == 0 && |hours| > 0,
            ExpectedSources(beats, device))
  }

  lemma {:induction false} MissingAtMost(states: seq<HourState>)
    ensures MissingCount(states) <= |states|
  {
    if states != [] {
      MissingAtMost(states[1..]);
    }
  }

  // ---------------------------------------------------------------- hour blocks

  datatype HourBlock = HourBlock(hour: int, features: map<Feature, FeatureRow>, rawCounts: map<string, nat>,
                                 rawTotal: nat,
                                 proportion: real, observed: set<string>, expected: multiset<string>, isMissing: bool,
                                 flags: set<Flag>)

  function FeaturesRead(hourly: map<FeatureKey, FeatureRow>, device: Id, h: int, start: Moment,
                        end: Moment): map<Feature, FeatureRow> {
    map f | f in FEATURES && Visible(h, start, end) && FeatureKey(device, f, h) in hourly ::
      hourly[FeatureKey(device, f, h)]
  }

  function CoverageRead(coverage: map<HourKey, CoverageRow>, device: Id, h: int, start: Moment,
                        end: Moment): Option<CoverageRow> {
    if Visible(h, start, end) && HourKey(device, h) in coverage then Some(coverage[HourKey(device, h)]) else None
  }

  /** One hour block, from its raw counts and the rows read back. */
  function BlockFrom(d: Derived, counts: map<string, nat>, device: Id, h: int, start: Moment, end: Moment): HourBlock {
    var c := CoverageRead(d.coverage, device, h, start, end);
    var features := FeaturesRead(d.hourly, device, h, start, end);
    match c
    case Some(row) =>
      HourBlock(h, features, counts, Total(counts), row.proportion, row.observed, row.expected, row.isMissing,
        FlagsShown(features))
    case None =>
      HourBlock(h, features, counts, Total(counts), 0.0, {}, multiset{}, true, FlagsShown(features))
  }

  /** The quality flags of an hour are those of its feature rows. */
  function FlagsShown(features: map<Feature, FeatureRow>): set<Flag> {
    set f, x | f in features && x in features[f].flags :: x
  }

  function BlockOf(d: Derived, rows: seq<RawRow>, device: Id, h: int, start: Moment, end: Moment): HourBlock {
    BlockFrom(d, BySource(Bucket(rows, h)), device, h, start, end)
  }

  // ---------------------------------------------------------------- agreement

  /** What the four groupings say about one hour fits together. */
  ghost predicate Agrees(b: HourBlock, coverage: map<HourKey, CoverageRow>, device: Id) {
    && HourKey(device, b.hour) in coverage && coverage[HourKey(device, b.hour)].events == b.rawTotal
    && EventsTotal in b.features && b.features[EventsTotal].value == Some(b.rawTotal as real)
    && MissingFlag in b.features && b.features[MissingFlag].value == Some(if b.isMissing then 1.0 else 0.0)
    && (b.isMissing <==> b.rawTotal == 0)
    && b.observed == b.rawCounts.Keys * (set x | x in b.expected)
  }

  lemma RecomputedRows(d: Derived, src: Source, device: Id, start: Moment, end: Moment, h: int, f: Feature)
    requires h in HoursOf(start, end)
    ensures var r := RecomputeWindow(d, src, device, start, end);
            var rows := Bucket(WindowRows(src.raw, device, start, end), h);
            && HourKey(device, h) in r.coverage && r.coverage[HourKey(device, h)] == CoverageSpec(src, device, rows)
            && FeatureKey(device, f, h) in r.hourly &&
               r.hourly[FeatureKey(device, f, h)].value == FeatureValue(f, rows).0
            && (Visible(h, start, end) ==> r.hourly[FeatureKey(device, f, h)] == FeatureSpec(src, device, f, rows))
  {
    hide CoverageOf, Bucket, WindowRows, HoursOf, Visible, ExpectedSources, FeatureValue;
  }

  /**
   Just after a recomputation, whatever its window and whatever the raw events, an hour block whose rows are
   read back agrees in all four derivations; a block whose rows are not read back shows no features, coverage
   zero and "missing", whatever was counted for it.
   */
  lemma BlockAgreement(d: Derived, src: Source, device: Id, start: Moment, end: Moment, h: int)
    requires h in HoursOf(start, end)
    ensures var r := RecomputeWindow(d, src, device, start, end);
            var b := BlockOf(r, WindowRows(src.raw, device, start, end), device, h, start, end);
            && b.rawTotal == |Bucket(WindowRows(src.raw, device, start, end), h)|
            && (Visible(h, start, end) ==> Agrees(b, r.coverage, device))
            && (Visible(h, start, end) ==> b.expected == multiset(ExpectedSources(src.beats, device)))
            && (forall x :: x in b.flags <==>
                  Visible(h, start, end) && exists f ::
                    x in FeatureValue(f, Bucket(WindowRows(src.raw, device, start, end), h)).2)
            && (!Visible(h, start, end) ==>
                  b.features == map[] && b.proportion == 0.0 && b.observed == {} && b.expected == multiset{} &&
                    b.isMissing)
  {
    hide RecomputeWindow, CoverageOf, Bucket, WindowRows, HoursOf, Visible, ExpectedSources, BySource, Total,
         FlagsShown, FeatureSpec;
    RecomputedRows(d, src, device, start, end, h, EventsTotal);
    RecomputedRows(d, src, device, start, end, h, MissingFlag);
    var rows := Bucket(WindowRows(src.raw, device, start, end), h);
    BySourceTotal(rows);
    CoverageCounts(src, device, rows);
    EveryFeature(EventsTotal);
    EveryFeature(MissingFlag);
    SourcesCovered(src, device, rows);
    FlagsAgree(d, src, device, start, end, h);
  }

  lemma SourcesCovered(src: Source, device: Id, rows: seq<RawRow>)
    ensures var c := CoverageSpec(src, device, rows);
            && c.expected == multiset(ExpectedSources(src.beats, device))
            && c.observed == BySource(rows).Keys * (set x | x in c.expected)
  {
    hide ExpectedSources, Ratio, SourcesOf;
  }

  lemma FlagsAgree(d: Derived, src: Source, device: Id, start: Moment, end: Moment, h: int)
    requires h in HoursOf(start, end)
    ensures var features := FeaturesRead(RecomputeWindow(d, src, device, start, end).hourly, device, h, start, end);
            forall x :: x in FlagsShown(features) <==>
              Visible(h, start, end) && exists f :: x in FeatureValue(f,
                Bucket(WindowRows(src.raw, device, start, end), h)).2
  {
    hide RecomputeWindow, Bucket, WindowRows, HoursOf, Visible, FeatureValue, FeatureSpec;
    var rows := Bucket(WindowRows(src.raw, device, start, end), h);
    var hourly := RecomputeWindow(d, src, device, start, end).hourly;
    forall f
      ensures f in FEATURES && FeatureKey(device, f, h) in hourly
      ensures Visible(h, start, end) ==> hourly[FeatureKey(device, f, h)].flags == FeatureValue(f, rows).2
    {
      EveryFeature(f);
      RecomputedRows(d, src, device, start, end, h, f);
      SpecFlags(src, device, f, rows);
    }
    var features := FeaturesRead(hourly, device, h, start, end);
    forall x
      ensures x in FlagsShown(features) <==> Visible(h, start, end) && exists f :: x in FeatureValue(f, rows).2
    {
      if Visible(h, start, end) {
        forall f
          ensures f in features && (x in features[f].flags <==> x in FeatureValue(f, rows).2)
        {
          assert f in FEATURES && FeatureKey(device, f, h) in hourly;
        }
      }
    }
  }

  lemma SpecFlags(src: Source, device: Id, f: Feature, rows: seq<RawRow>)
    ensures FeatureSpec(src, device, f, rows).flags == FeatureValue(f, rows).2
  {
    hide FeatureValue, CoverageSpec, Round4;
  }

  lemma CoverageCounts(src: Source, device: Id, rows: seq<RawRow>)
    ensures CoverageSpec(src, device, rows).events == |rows| &&
            (CoverageSpec(src, device, rows).isMissing <==> rows == [])
  {
  }

  /**
   Over a whole timeline "missing exactly when nothing was counted" holds for every block exactly when no
   hour that is not read back has an event in the window.
   */
  lemma TimelineAgreement(d: Derived, src: Source, device: Id, start: Moment, end: Moment)
    ensures var r := RecomputeWindow(d, src, device, start, end);
            var rows := WindowRows(src.raw, device, start, end);
            (forall h :: h in HoursOf(start, end) ==>
               var b := BlockOf(r, rows, device, h, start, end); b.isMissing <==> b.rawTotal == 0) <==>
            (forall h :: h in HoursOf(start, end) && !Visible(h, start, end) ==> Bucket(rows, h) == [])
  {
    hide RecomputeWindow, BlockOf, Bucket, WindowRows, HoursOf, Visible;
    var r := RecomputeWindow(d, src, device, start, end);
    var rows := WindowRows(src.raw, device, start, end);
    forall h | h in HoursOf(start, end)
      ensures var b := BlockOf(r, rows, device, h, start, end);
              (b.isMissing <==> b.rawTotal == 0) <==> (!Visible(h, start, end) ==> Bucket(rows, h) == [])
    {
      BlockAgreement(d, src, device, start, end, h);
    }
  }

  /** For whole hours every block is read back, so all of them agree. */
  lemma AlignedTimelineAgrees(d: Derived, src: Source, device: Id, a: Hour, c: Hour, h: int)
    requires a <= h < c
    ensures var r := RecomputeWindow(d, src, device, HourStart(a), HourStart(c));
            Agrees(BlockOf(r, WindowRows(src.raw, device, HourStart(a), HourStart(c)), device, h, HourStart(a),
              HourStart(c)), r.coverage, device)
  {
    hide RecomputeWindow, BlockOf, WindowRows, HoursOf, Visible, Agrees;
    AlignedSpan(a, c);
    AlignedVisible(a, c, h);
    BlockAgreement(d, src, device, HourStart(a), HourStart(c), h);
  }

  // ---------------------------------------------------------------- the hours of an aligned window

  function Consecutives(a: int, c: int): (r: seq<int>)
    ensures Increasing(r) && (forall x :: x in r <==> a <= x < c)
    ensures |r| == (if a <= c then c - a else 0) && forall i :: 0 <= i < |r| ==> r[i] == a + i
    decreases c - a
  {
    if a >= c then [] else Consecutives(a, c - 1) + [c - 1]
  }

  lemma AlignedHoursRead(d: Derived, src: Source, device: Id, a: Hour, c: Hour)
    ensures var r := RecomputeWindow(d, src, device, HourStart(a), HourStart(c));
            Ascend(StoredHours(r.coverage, device, HourStart(a), HourStart(c))) == Consecutives(a, c)
  {
    hide RecomputeWindow, HoursOf, Visible, Bucket, WindowRows, CoverageSpec;
    var r := RecomputeWindow(d, src, device, HourStart(a), HourStart(c));
    AlignedSpan(a, c);
    forall h
      ensures h in StoredHours(r.coverage, device, HourStart(a), HourStart(c)) <==> a <= h < c
    {
      if a <= h < c {
        AlignedVisible(a, c, h);
        RecomputedRows(d, src, device, HourStart(a), HourStart(c), h, Calls);
      } else if Visible(h, HourStart(a), HourStart(c)) {
        OutsideInvisible(a, c, h);
      }
    }
    AscendIs(StoredHours(r.coverage, device, HourStart(a), HourStart(c)), Consecutives(a, c));
  }

  lemma OutsideInvisible(a: Hour, c: Hour, h: int)
    requires Visible(h, HourStart(a), HourStart(c))
    ensures a <= h < c
  {
    hide IsoUtc;
    VisibleHours(h, HourStart(a), HourStart(c));
    assert HourStart(a) / SECOND == 3600 * a && HourStart(c) / SECOND == 3600 * c;
  }

  // ---------------------------------------------------------------- days in fixed-offset zones

  /** `yesterday_bounds` in a zone `offset` minutes ahead of UTC: the day before the local midnight. */
  function YesterdayStart(now: int, offset: int): int {
    var local := now + offset * 60 * SECOND;
    local / DAY * DAY - DAY - offset * 60 * SECOND
  }

  /** The day ends where today begins, it is over by `now`, and today is not. */
  lemma YesterdayBounds(now: int, offset: int)
    ensures YesterdayStart(now, offset) + DAY <= now < YesterdayStart(now, offset) + 2 * DAY
    ensures (YesterdayStart(now, offset) + offset * 60 * SECOND) % DAY == 0
  {
    var local := now + offset * 60 * SECOND;
    var q := local / DAY - 1;
    assert YesterdayStart(now, offset) + offset * 60 * SECOND == DAY * q;
  }

  /** A local day starts on a whole UTC hour exactly when the zone's offset is a whole number of hours. */
  lemma WholeHourZones(now: int, offset: int)
    ensures YesterdayStart(now, offset) % HOUR == 0 <==> offset % 60 == 0
  {
    var local := now + offset * 60 * SECOND;
    var q := local / DAY - 1;
    var m, r := offset / 60, offset % 60;
    assert YesterdayStart(now, offset) == HOUR * (24 * q - m) - r * 60 * SECOND;
    RemainderOfMinutes(24 * q - m, r);
  }

  lemma RemainderOfMinutes(k: int, r: nat)
    requires r < 60
    ensures (HOUR * k - r * 60 * SECOND) % HOUR == 0 <==> r == 0
  {
    if r == 0 {
      assert HOUR * k % HOUR == 0;
    } else {
      assert HOUR * k - r * 60 * SECOND == HOUR * (k - 1) + (60 - r) * 60 * SECOND;
      var x := (60 - r) * 60 * SECOND;
      assert 0 < x < HOUR;
      assert (HOUR * (k - 1) + x) % HOUR == x;
    }
  }

  /**
   In any other zone the first hour block of yesterday is never read back: its rows were written for the part
   after local midnight and the filter drops their label, so it shows as missing with no features.
   */
  lemma PartialHourZones(now: int, offset: int, start: Moment, end: Moment)
    requires start == YesterdayStart(now, offset) && offset % 60 != 0
    ensures !Visible(start / HOUR, start, end)
  {
    hide IsoUtc;
    var r := offset % 60;
    PartialHour(now, offset);
    if YEAR_1000 / HOUR <= start / HOUR < YEAR_10000 / HOUR {
      VisibleHours(start / HOUR, start, end);
    }
  }

  lemma PartialHour(now: int, offset: int)
    requires offset % 60 != 0
    ensures var start := YesterdayStart(now, offset); start / SECOND > 3600 * (start / HOUR)
  {
    var local := now + offset * 60 * SECOND;
    var q := local / DAY - 1;
    var m, r := offset / 60, offset % 60;
    var k := 24 * q - m - 1;
    assert YesterdayStart(now, offset) == HOUR * k + (60 - r) * 60 * SECOND;
    MinutesInto(k, 60 - r);
  }

  lemma MinutesInto(k: int, r: nat)
    requires 0 < r < 60
    ensures (HOUR * k + r * 60 * SECOND) / HOUR == k
    ensures (HOUR * k + r * 60 * SECOND) / SECOND == 3600 * k + 60 * r
  {
  }
}
