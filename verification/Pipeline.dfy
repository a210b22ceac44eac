/** The derivation pipeline as the program runs it: loops over events, dictionaries by hour, upserts. */
module Pipeline {
  import opened Wrappers
  import opened Seqs
  import opened Timestamps
  import opened Types
  import opened Queries
  import opened Derivation
  import opened Recompute
  import opened Hours
  import opened Gaps
  import opened Timeline
  import opened Daily

  /** The hour of an event in a table of groups; hour labels and hours are in bijection. */
  ghost predicate Grouped(groups: map<int, seq<RawRow>>, rows: seq<RawRow>) {
    forall h :: Bucket(rows, h) == if h in groups then groups[h] else []
  }

  ghost predicate Counted(counts: map<int, nat>, rows: seq<RawRow>) {
    forall h :: |Bucket(rows, h)| == if h in counts then counts[h] else 0
  }

  ghost predicate CountedOf(counts: map<int, nat>, rows: seq<RawRow>, source: string) {
    forall h :: |Filter(Bucket(rows, h), OfSource(source))| == if h in counts then counts[h] else 0
  }

  ghost predicate Observed(byHour: map<int, set<string>>, rows: seq<RawRow>) {
    forall h :: SourcesOf(Bucket(rows, h)) == if h in byHour then byHour[h] else {}
  }

  lemma BucketSnoc(rows: seq<RawRow>, r: RawRow, h: int)
    ensures Bucket(rows + [r], h) == Bucket(rows, h) + (if HourOf(r) == h then [r] else [])
  {
    hide HourOf;
    FilterSnoc(rows, r, InHour(h));
  }

  /** `setdefault(key, []).append(event)`. */
  method GroupByHour(rows: seq<RawRow>) returns (groups: map<int, seq<RawRow>>)
    ensures Grouped(groups, rows)
  {
    hide HourOf, Bucket;
    groups := map[];
    BucketEmpty();
    for i := 0 to |rows|
      invariant Grouped(groups, rows[..i])
    {
      var r, h := rows[i], HourOf(rows[i]);
      assert rows[..i + 1] == rows[..i] + [r];
      forall x
        ensures Bucket(rows[..i + 1], x) == Bucket(rows[..i], x) + (if h == x then [r] else [])
      {
        BucketSnoc(rows[..i], r, x);
      }
      groups := groups[h := (if h in groups then groups[h] else []) + [r]];
    }
    assert rows[..|rows|] == rows;
  }

  lemma BucketEmpty()
    ensures forall h :: Bucket([], h) == []
  {
  }

  lemma ObserveSnoc(rows: seq<RawRow>, r: RawRow, x: int)
    ensures var b, b' := Bucket(rows, x), Bucket(rows + [r], x);
            var here := HourOf(r) == x;
            && |b'| == |b| + (if here then 1 else 0)
            && SourcesOf(b') == SourcesOf(b) + (if here then {r.event.source} else {})
            && |Filter(b', OfSource(HEARTBEAT))| == |Filter(b, OfSource(HEARTBEAT))| +
               (if here && r.event.source == HEARTBEAT then 1 else 0)
  {
    hide HourOf, Bucket, Filter, SourcesOf;
    BucketSnoc(rows, r, x);
    if HourOf(r) == x {
      CountSnoc(Bucket(rows, x), r, HEARTBEAT);
      SourcesSnoc(Bucket(rows, x), r);
    } else {
      assert Bucket(rows, x) + [] == Bucket(rows, x);
    }
  }

  /** The three dictionaries that `compute_coverage` fills in one pass. */
  method Observe(rows: seq<RawRow>)
    returns (byHour: map<int, set<string>>, counts: map<int, nat>, heartbeats: map<int, nat>)
    ensures Observed(byHour, rows) && Counted(counts, rows) && CountedOf(heartbeats, rows, HEARTBEAT)
  {
    hide HourOf, Bucket, SourcesOf, Filter, OfSource;
    byHour, counts, heartbeats := map[], map[], map[];
    NothingObserved();
    for i := 0 to |rows|
      invariant Observed(byHour, rows[..i]) && Counted(counts, rows[..i]) && CountedOf(heartbeats, rows[..i], HEARTBEAT)
    {
      var r, h := rows[i], HourOf(rows[i]);
      assert rows[..i + 1] == rows[..i] + [r];
      forall x
        ensures var b, b' := Bucket(rows[..i], x), Bucket(rows[..i + 1], x);
                && |b'| == |b| + (if h == x then 1 else 0)
                && SourcesOf(b') == SourcesOf(b) + (if h == x then {r.event.source} else {})
                && |Filter(b', OfSource(HEARTBEAT))| ==
                   |Filter(b, OfSource(HEARTBEAT))| + (if h == x && r.event.source == HEARTBEAT then 1 else 0)
      {
        ObserveSnoc(rows[..i], r, x);
      }
      byHour := byHour[h := (if h in byHour then byHour[h] else {}) + {r.event.source}];
      counts := counts[h := (if h in counts then counts[h] else 0) + 1];
      if r.event.source == HEARTBEAT {
        heartbeats := heartbeats[h := (if h in heartbeats then heartbeats[h] else 0) + 1];
      }
    }
    assert rows[..|rows|] == rows;
  }

  lemma NothingObserved()
    ensures Observed(map[], []) && Counted(map[], []) && CountedOf(map[], [], HEARTBEAT)
  {
  }

  /** `hour_range`: advance a cursor from the floor of the start. */
  method HourRange(start: Moment, end: Moment) returns (hours: seq<int>)
    ensures hours == Ascend(HoursOf(start, end))
  {
    hours := [];
    var first := start / HOUR;
    var cursor := first;
    while cursor * HOUR < end
      invariant first <= cursor && hours == Consecutives(first, cursor)
      invariant first == cursor || (cursor - 1) * HOUR < end
      decreases end - cursor * HOUR
    {
      hours := hours + [cursor];
      cursor := cursor + 1;
    }
    RangeIs(start, end, cursor);
  }

  lemma RangeIs(start: Moment, end: Moment, cursor: int)
    requires start / HOUR <= cursor && end <= cursor * HOUR && (start / HOUR == cursor || (cursor - 1) * HOUR < end)
    ensures Consecutives(start / HOUR, cursor) == Ascend(HoursOf(start, end))
  {
    var hours := Consecutives(start / HOUR, cursor);
    forall h
      ensures h in hours <==> h in HoursOf(start, end)
    {
      if h >= cursor {
        assert h * HOUR >= cursor * HOUR;
      } else {
        assert h * HOUR <= (cursor - 1) * HOUR;
      }
    }
    AscendIs(HoursOf(start, end), hours);
  }

  /** One row of `_hour_features`, from its groups by type and by source. */
  function RowFromGroups(f: Feature, byType: map<string, seq<RawRow>>, bySource: map<string, nat>, count: nat,
                         coverage: real): FeatureRow {
    var (value, text, flags) := ValueFrom(f, (kind: string) => Get(byType, kind), bySource, count);
    FeatureRow(value, text, Round4(coverage), flags)
  }

  lemma RowFromGroupsIs(f: Feature, byType: map<string, seq<RawRow>>, rows: seq<RawRow>, coverage: real)
    requires forall k :: Get(byType, k) == Kind(rows, k)
    ensures RowFromGroups(f, byType, BySource(rows), |rows|, coverage) == FeatureOf(f, rows, coverage)
  {
    hide Kind, Get, Numbers, SampleMinutes, Round4, Ratio, Mean, BySource, Filter;
  }

  /** `_hour_features`: group once by type and by source, then one row for each definition. */
  method HourFeatures(rows: seq<RawRow>, coverage: real) returns (out: map<Feature, FeatureRow>)
    ensures forall f :: f in out && out[f] == FeatureOf(f, rows, coverage)
  {
    hide RowFromGroups, FeatureOf, Get, Kind, BySource;
    var byType, bySource := GroupByTypeAndSource(rows);
    out := map f | f in FEATURES :: RowFromGroups(f, byType, bySource, |rows|, coverage);
    forall f
      ensures f in out && out[f] == FeatureOf(f, rows, coverage)
    {
      EveryFeature(f);
      RowFromGroupsIs(f, byType, rows, coverage);
    }
  }

  function Get(groups: map<string, seq<RawRow>>, kind: string): seq<RawRow> {
    if kind in groups then groups[kind] else []
  }

  method GroupByTypeAndSource(rows: seq<RawRow>) returns (byType: map<string, seq<RawRow>>, bySource: map<string, nat>)
    ensures forall k :: Get(byType, k) == Kind(rows, k)
    ensures bySource == BySource(rows)
  {
    hide Kind, BySource;
    byType, bySource := map[], map[];
    NoKinds();
    for i := 0 to |rows|
      invariant forall k :: Get(byType, k) == Kind(rows[..i], k)
      invariant bySource == BySource(rows[..i])
    {
      var e := rows[i].event;
      assert rows[..i + 1] == rows[..i] + [rows[i]];
      forall k
        ensures Kind(rows[..i + 1], k) == Kind(rows[..i], k) + (if e.kind == k then [rows[i]] else [])
      {
        KindSnoc(rows[..i], rows[i], k);
      }
      BySourceSnoc(rows[..i], rows[i]);
      ghost var before := byType;
      byType := byType[e.kind := Get(byType, e.kind) + [rows[i]]];
      forall k
        ensures Get(byType, k) == Kind(rows[..i + 1], k)
      {
        assert Get(byType, k) == Get(before, k) + (if e.kind == k then [rows[i]] else []);
      }
      bySource := bySource[e.source := (if e.source in bySource then bySource[e.source] else 0) + 1];
    }
    assert rows[..|rows|] == rows;
  }

  lemma KindSnoc(rows: seq<RawRow>, r: RawRow, k: string)
    ensures Kind(rows + [r], k) == Kind(rows, k) + (if r.event.kind == k then [r] else [])
  {
    FilterSnoc(rows, r, OfKind(k));
  }

  lemma NoKinds()
    ensures (forall k :: Kind([], k) == []) && BySource([]) == map[]
  {
  }

  /** The `rows` list of `compute_coverage`, by key. */
  method CoverageRows(events: seq<RawRow>, expected: seq<string>, device: Id, hours: seq<int>)
    returns (out: map<HourKey, CoverageRow>)
    ensures forall k :: k in out <==> k.device == device && k.hour in hours
    ensures forall k :: k in out ==> out[k] == CoverageOf(Bucket(events, k.hour), expected)
  {
    hide Bucket, CoverageOf, CoverageRowAt, Observed, Counted, CountedOf;
    var byHour, counts, heartbeats := Observe(events);
    out := map[];
    for i := 0 to |hours|
      invariant forall k :: k in out <==> k.device == device && k.hour in hours[..i]
      invariant forall k :: k in out ==> out[k] == CoverageOf(Bucket(events, k.hour), expected)
    {
      var h := hours[i];
      assert hours[..i + 1] == hours[..i] + [h];
      SnocMembers(hours[..i], h);
      CoverageRowIs(events, byHour, counts, heartbeats, expected, h);
      out := out[HourKey(device, h) := CoverageRowAt(byHour, counts, heartbeats, expected, h)];
    }
    assert hours[..|hours|] == hours;
  }

  /** The `rows` list of `compute_hourly_features`, by key. */
  method FeatureRows(events: seq<RawRow>, coverage: map<HourKey, CoverageRow>, device: Id, hours: seq<int>,
                     start: Moment, end: Moment)
    returns (out: map<FeatureKey, FeatureRow>)
    ensures forall k :: k in out <==> k.device == device && k.hour in hours
    ensures forall k :: k in out ==>
              out[k] ==
              FeatureOf(k.feature, Bucket(events, k.hour), ProportionRead(coverage, device, k.hour, start, end))
  {
    hide Bucket, FeatureOf, ProportionRead;
    var grouped := GroupByHour(events);
    out := map[];
    for i := 0 to |hours|
      invariant forall k :: k in out <==> k.device == device && k.hour in hours[..i]
      invariant forall k :: k in out ==>
                  out[k] == FeatureOf(k.feature, Bucket(events, k.hour),
                    ProportionRead(coverage, device, k.hour, start, end))
    {
      var h := hours[i];
      assert hours[..i + 1] == hours[..i] + [h];
      SnocMembers(hours[..i], h);
      var rows := if h in grouped then grouped[h] else [];
      var features := HourFeatures(rows, ProportionRead(coverage, device, h, start, end));
      assert Bucket(events, h) == if h in grouped then grouped[h] else [];
      out := out + FeatureBlock(device, h, features);
    }
    assert hours[..|hours|] == hours;
  }

  /** The database as the pipeline sees it. */
  class DerivedStore {
    var raw: map<Id, RawRow>
    var beats: map<Id, BeatRow>
    var coverage: map<HourKey, CoverageRow>
    var hourly: map<FeatureKey, FeatureRow>
    var daily: map<DailyKey, DailyRow>

    constructor (raw: map<Id, RawRow>, beats: map<Id, BeatRow>)
      ensures Reads() == Source(raw, beats) && Rows() == Derived(map[], map[]) && daily == map[]
    {
      this.raw, this.beats, coverage, hourly, daily := raw, beats, map[], map[], map[];
    }

    function Reads(): Source
      reads this
    {
      Source(raw, beats)
    }

    function Rows(): Derived
      reads this
    {
      Derived(coverage, hourly)
    }

    /** `compute_coverage`: one upsert of a row for each hour of the range. */
    method ComputeCoverage(device: Id, start: Moment, end: Moment) returns (rows: seq<HourState>)
      modifies this`coverage
      ensures coverage == CoverageAfter(old(coverage), Reads(), device, start, end)
      ensures rows == ReadStates(coverage, device, start, end)
    {
      hide WindowRows, HoursOf, CoverageAfter, ReadStates, CoverageOf, Bucket, ExpectedSources;
      var events := WindowRows(raw, device, start, end);
      var hours := HourRange(start, end);
      var out := CoverageRows(events, ExpectedSources(beats, device), device, hours);
      UpsertCoverage(coverage, out, Reads(), device, start, end);
      coverage := coverage + out;
      rows := ReadStates(coverage, device, start, end);
    }

    /** `compute_hourly_features`. */
    method ComputeHourlyFeatures(device: Id, start: Moment, end: Moment)
      modifies this`coverage, this`hourly
      ensures Rows() == RecomputeWindow(old(Rows()), Reads(), device, start, end)
    {
      hide WindowRows, HoursOf, HourlyAfter, CoverageAfter, ReadStates, FeatureOf, ProportionRead, Bucket;
      var _ := ComputeCoverage(device, start, end);
      var events := WindowRows(raw, device, start, end);
      var hours := HourRange(start, end);
      var out := FeatureRows(events, coverage, device, hours, start, end);
      UpsertHourly(hourly, out, coverage, Reads(), device, start, end);
      hourly := hourly + out;
    }

    /** `compute_daily_features`: one row for each definition, from the hourly rows of the 24 hours. */
    method ComputeDailyFeatures(device: Id, date: string, start: Moment)
      requires start + DAY < YEAR_10000
      modifies this`coverage, this`hourly, this`daily
      ensures Rows() == HourlyForDay(old(Rows()), Reads(), device, start, start + DAY)
      ensures daily == DailyAfter(old(daily), Rows(), device, date, start, start + DAY)
    {
      hide RecomputeWindow, ReadFeature, DailyOf, NothingRead;
      var end: Moment := start + DAY;
      if NothingRead(hourly, device, start, end) {
        ComputeHourlyFeatures(device, start, end);
      }
      var rows := DailyRows(hourly, device, date, start, end);
      UpsertDaily(daily, rows, Rows(), device, date, start, end);
      daily := daily + rows;
    }

    /** `find_gaps`: recompute when no row is there, then scan. */
    method GapsInWindow(device: Id, start: Moment, end: Moment, minHours: int) returns (gaps: seq<Gap>)
      modifies this`coverage
      ensures coverage == CoverageForRead(old(coverage), Reads(), device, start, end)
      ensures gaps == Filter(AllGaps(ReadStates(coverage, device, start, end)), AtLeast(minHours))
    {
      hide CoverageAfter, StoredHours;
      var rows := ReadStates(coverage, device, start, end);
      assert rows == [] <==> StoredHours(coverage, device, start, end) == {};
      if rows == [] {
        rows := ComputeCoverage(device, start, end);
      }
      gaps := FindGaps(rows, minHours);
    }

    /** `coverage_summary`, which recomputes in the same case. */
    method CoverageSummary(device: Id, start: Moment, end: Moment) returns (summary: Summary)
      modifies this`coverage
      ensures coverage == CoverageForRead(old(coverage), Reads(), device, start, end)
      ensures summary == SummaryOf(coverage, beats, device, start, end)
    {
      hide CoverageAfter, StoredHours, SummaryOf;
      if StoredHours(coverage, device, start, end) == {} {
        var _ := ComputeCoverage(device, start, end);
      }
      summary := SummaryOf(coverage, beats, device, start, end);
    }

    /** `build_day_timeline`, recomputing and counting raw events. */
    method BuildDayTimeline(device: Id, date: string, start: Moment, end: Moment) returns (t: DayTimeline)
      requires start + DAY < YEAR_10000
      modifies this`coverage, this`hourly, this`daily
      ensures var d := DayTables(old(Rows()), Reads(), device, start, end, start + DAY);
              var events, hours := WindowRows(raw, device, start, end), Ascend(HoursOf(start, end));
              && Rows() == d.(coverage := CoverageForRead(d.coverage, Reads(), device, start, end))
              && daily == DailyAfter(old(daily), d, device, date, start, start + DAY)
              && |t.blocks| == |hours|
              && (forall i :: 0 <= i < |hours| ==> t.blocks[i] == BlockOf(d, events, device, hours[i], start, end))
      ensures t.daily == map f | f in FEATURE_LIST && DailyKey(device, f, date) in daily ::
              daily[DailyKey(device, f, date)]
      ensures t.summary == SummaryOf(coverage, beats, device, start, end)
      ensures t.gaps == Filter(AllGaps(ReadStates(coverage, device, start, end)), AtLeast(1))
    {
      hide WindowRows, HoursOf, RecomputeWindow, BlockOf, SummaryOf, CoverageAfter, NothingRead, DailyAfter,
           ReadStates, AllGaps, StoredHours;
      ComputeHourlyFeatures(device, start, end);
      ComputeDailyFeatures(device, date, start);
      var hours := HourRange(start, end);
      var blocks := Blocks(Rows(), WindowRows(raw, device, start, end), device, hours, start, end);
      var rows := map f | f in FEATURE_LIST && DailyKey(device, f, date) in daily :: daily[DailyKey(device, f, date)];
      ghost var read := coverage;
      var summary := CoverageSummary(device, start, end);
      var gaps := GapsInWindow(device, start, end, 1);
      ReadTwice(read, Reads(), device, start, end);
      t := DayTimeline(blocks, rows, summary, gaps);
    }
  }

  datatype DayTimeline = DayTimeline(blocks: seq<HourBlock>, daily: map<Feature, DailyRow>, summary: Summary,
                                     gaps: seq<Gap>)

  /** A second read after a recomputation that left nothing readable recomputes the same rows. */
  lemma ReadTwice(coverage: map<HourKey, CoverageRow>, src: Source, device: Id, start: Moment, end: Moment)
    ensures CoverageForRead(CoverageForRead(coverage, src, device, start, end), src, device, start, end) ==
            CoverageForRead(coverage, src, device, start, end)
  {
    hide HoursOf, CoverageOf, Bucket, WindowRows, ExpectedSources, StoredHours, CoverageKeys;
  }

  /** One daily row: the values and flags of the hourly rows, collected in a loop. */
  method DailyFromEntries(f: Feature, entries: seq<FeatureRow>, start: Moment, end: Moment) returns (row: DailyRow)
    ensures row == DailyOf(f, entries, start, end)
  {
    hide IsoUtc, Round4, Mean, Aggregate;
    var values := Values(entries);
    var flags: set<Flag> := {};
    for i := 0 to |entries|
      invariant flags == FlagsOf(entries[..i])
    {
      FlagsSnoc(entries, i);
      flags := flags + entries[i].flags;
    }
    assert entries[..|entries|] == entries;
    if |values| < |entries| {
      flags := flags + {Partial};
    }
    row := DailyRow(IsoUtc(start), IsoUtc(end), Aggregate(f, values), Round4(MeanOrZero(Coverages(entries))), flags);
  }

  lemma FlagsSnoc(entries: seq<FeatureRow>, i: nat)
    requires i < |entries|
    ensures FlagsOf(entries[..i + 1]) == FlagsOf(entries[..i]) + entries[i].flags
  {
    assert entries[..i + 1] == entries[..i] + [entries[i]];
  }

  /** The `rows` list of `compute_daily_features`, by key. */
  method DailyRows(hourly: map<FeatureKey, FeatureRow>, device: Id, date: string, start: Moment, end: Moment)
    returns (out: map<DailyKey, DailyRow>)
    ensures forall k :: k in out <==> k.device == device && k.date == date
    ensures forall k :: k in out ==>
              out[k] == DailyOf(k.feature, ReadFeature(hourly, device, k.feature, start, end), start, end)
  {
    hide ReadFeature, DailyOf;
    out := map[];
    for i := 0 to |FEATURE_LIST|
      invariant forall k :: k in out <==> k.device == device && k.date == date && k.feature in FEATURE_LIST[..i]
      invariant forall k :: k in out ==>
                  out[k] == DailyOf(k.feature, ReadFeature(hourly, device, k.feature, start, end), start, end)
    {
      var f := FEATURE_LIST[i];
      var row := DailyFromEntries(f, ReadFeature(hourly, device, f, start, end), start, end);
      out := out[DailyKey(device, f, date) := row];
      assert FEATURE_LIST[..i + 1] == FEATURE_LIST[..i] + [f];
    }
    forall k: DailyKey | k.device == device && k.date == date
      ensures k in out
    {
      EveryFeatureListed(k.feature);
    }
  }

  lemma UpsertDaily(daily: map<DailyKey, DailyRow>, out: map<DailyKey, DailyRow>, d: Derived, device: Id,
                    date: string, start: Moment, end: Moment)
    requires forall k :: k in out <==> k.device == device && k.date == date
    requires forall k :: k in out ==>
               out[k] == DailyOf(k.feature, ReadFeature(d.hourly, device, k.feature, start, end), start, end)
    ensures daily + out == DailyAfter(daily, d, device, date, start, end)
  {
    hide ReadFeature, DailyOf, DailyKeys;
  }

  /** The loop over the hours of a day: rows read back next to counts taken from the raw events. */
  method Blocks(d: Derived, events: seq<RawRow>, device: Id, hours: seq<int>, start: Moment, end: Moment)
    returns (blocks: seq<HourBlock>)
    ensures |blocks| == |hours|
    ensures forall i :: 0 <= i < |hours| ==> blocks[i] == BlockOf(d, events, device, hours[i], start, end)
  {
    hide Bucket, BySource, BlockFrom;
    var counts := CountByHour(events);
    blocks := [];
    for i := 0 to |hours|
      invariant |blocks| == i
      invariant forall k :: 0 <= k < i ==> blocks[k] == BlockOf(d, events, device, hours[k], start, end)
    {
      var h := hours[i];
      var rawCounts := if h in counts then counts[h] else map[];
      blocks := blocks + [BlockFrom(d, rawCounts, device, h, start, end)];
    }
  }

  lemma SnocMembers(s: seq<int>, x: int)
    ensures forall y :: y in s + [x] <==> y in s || y == x
  {
  }

  /** One row of `compute_coverage`, from its dictionaries. */
  function CoverageRowAt(byHour: map<int, set<string>>, counts: map<int, nat>, heartbeats: map<int, nat>,
                         expected: seq<string>, h: int): CoverageRow {
    var wanted := ToSet(expected);
    var observed := (if h in byHour then byHour[h] else {}) * wanted;
    var count := if h in counts then counts[h] else 0;
    CoverageRow(multiset(expected), observed, count, if h in heartbeats then heartbeats[h] else 0,
                Round4(if wanted != {} then Ratio(|observed|, |wanted|) else 0.0), count == 0)
  }

  lemma CoverageRowIs(events: seq<RawRow>, byHour: map<int, set<string>>, counts: map<int, nat>,
                      heartbeats: map<int, nat>, expected: seq<string>, h: int)
    requires Observed(byHour, events) && Counted(counts, events) && CountedOf(heartbeats, events, HEARTBEAT)
    ensures CoverageRowAt(byHour, counts, heartbeats, expected, h) == CoverageOf(Bucket(events, h), expected)
  {
    hide Bucket, SourcesOf, Filter;
    assert Round4(0.0) == 0.0;
    assert |Bucket(events, h)| == if h in counts then counts[h] else 0;
  }

  lemma UpsertCoverage(coverage: map<HourKey, CoverageRow>, out: map<HourKey, CoverageRow>, src: Source, device: Id,
                       start: Moment, end: Moment)
    requires forall k :: k in out <==> k.device == device && k.hour in HoursOf(start, end)
    requires forall k :: k in out ==>
               out[k] ==
               CoverageOf(Bucket(WindowRows(src.raw, device, start, end), k.hour), ExpectedSources(src.beats, device))
    ensures coverage + out == CoverageAfter(coverage, src, device, start, end)
  {
    hide Bucket, WindowRows, HoursOf, ExpectedSources, CoverageOf, CoverageKeys;
  }

  function FeatureBlock(device: Id, h: int, features: map<Feature, FeatureRow>): (m: map<FeatureKey, FeatureRow>)
    ensures forall k :: k in m <==> k.device == device && k.hour == h && k.feature in features
    ensures forall k :: k in m ==> m[k] == features[k.feature]
  {
    var m := map f | f in features :: FeatureKey(device, f, h) := features[f];
    forall k: FeatureKey | k.device == device && k.hour == h && k.feature in features
      ensures k in m
    {
      assert k == FeatureKey(device, k.feature, h);
    }
    m
  }

  lemma UpsertHourly(hourly: map<FeatureKey, FeatureRow>, out: map<FeatureKey, FeatureRow>,
                     coverage: map<HourKey, CoverageRow>, src: Source, device: Id, start: Moment, end: Moment)
    requires forall k :: k in out <==> k.device == device && k.hour in HoursOf(start, end)
    requires forall k :: k in out ==>
               out[k] == FeatureOf(k.feature, Bucket(WindowRows(src.raw, device, start, end), k.hour),
                 ProportionRead(coverage, device, k.hour, start, end))
    ensures hourly + out == HourlyAfter(hourly, coverage, src, device, start, end)
  {
    hide Bucket, WindowRows, HoursOf, FeatureOf, FeatureKeys, ProportionRead;
  }

  /** The timeline's own grouping: for each hour, how many events each source has. */
  method CountByHour(rows: seq<RawRow>) returns (counts: map<int, map<string, nat>>)
    ensures forall h :: BySource(Bucket(rows, h)) == if h in counts then counts[h] else map[]
  {
    hide HourOf, Bucket, BySource;
    counts := map[];
    BucketEmpty();
    NoKinds();
    for i := 0 to |rows|
      invariant forall h :: BySource(Bucket(rows[..i], h)) == if h in counts then counts[h] else map[]
    {
      var r, h := rows[i], HourOf(rows[i]);
      var s := r.event.source;
      assert rows[..i + 1] == rows[..i] + [r];
      var bucket := if h in counts then counts[h] else map[];
      var bucket' := bucket[s := (if s in bucket then bucket[s] else 0) + 1];
      forall x
        ensures BySource(Bucket(rows[..i + 1], x)) == if x == h then bucket' else BySource(Bucket(rows[..i], x))
      {
        BucketSnoc(rows[..i], r, x);
        if x == h {
          BySourceSnoc(Bucket(rows[..i], h), r);
        } else {
          assert Bucket(rows[..i], x) + [] == Bucket(rows[..i], x);
        }
      }
      counts := counts[h := bucket'];
    }
    assert rows[..|rows|] == rows;
  }
}
