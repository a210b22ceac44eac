/** Daily rows, and what they must agree with (features.py, coverage.py). */
module Daily {
  import opened Wrappers
  import opened Seqs
  import opened Timestamps
  import opened TimeOrder
  import opened Types
  import opened Order
  import opened Queries
  import opened Derivation
  import opened Recompute
  import opened Hours
  import opened Gaps
  import opened Timeline

  // ---------------------------------------------------------------- hourly rows read back

  function FeatureHours(hourly: map<FeatureKey, FeatureRow>, device: Id, f: Feature, start: Moment,
                        end: Moment): (hs: set<int>)
    ensures forall h :: h in hs <==> FeatureKey(device, f, h) in hourly && Visible(h, start, end)
  {
    var hs := set k | k in hourly && k.device == device && k.feature == f && Visible(k.hour, start, end) :: k.hour;
    forall h | FeatureKey(device, f, h) in hourly && Visible(h, start, end)
      ensures h in hs
    {
      assert FeatureKey(device, f, h).hour == h;
    }
    hs
  }

  function RowsAt(hourly: map<FeatureKey, FeatureRow>, device: Id, f: Feature, hours: seq<int>): (rows: seq<FeatureRow>)
    requires forall h :: h in hours ==> FeatureKey(device, f, h) in hourly
    ensures |rows| == |hours| && forall i :: 0 <= i < |hours| ==> rows[i] == hourly[FeatureKey(device, f, hours[i])]
  {
    if hours == [] then [] else [hourly[FeatureKey(device, f, hours[0])]] + RowsAt(hourly, device, f, hours[1..])
  }

  /** `Database.hourly_features` for one feature, in the order of the hours. */
  function ReadFeature(hourly: map<FeatureKey, FeatureRow>, device: Id, f: Feature, start: Moment,
                       end: Moment): seq<FeatureRow> {
    RowsAt(hourly, device, f, Ascend(FeatureHours(hourly, device, f, start, end)))
  }

  /** No feature has a row in the window. */
  predicate NothingRead(hourly: map<FeatureKey, FeatureRow>, device: Id, start: Moment, end: Moment) {
    forall k :: k in hourly && k.device == device ==> !Visible(k.hour, start, end)
  }

  // ---------------------------------------------------------------- daily rows

  datatype DailyKey = DailyKey(device: Id, feature: Feature, date: string)

  datatype DailyRow = DailyRow(windowStart: string, windowEnd: string, value: Option<real>, coverage: real,
                               flags: set<Flag>)

  /** The numbers a daily row aggregates: absent values are left out. */
  function Values(rows: seq<FeatureRow>): seq<real> {
    if rows == [] then []
    else (match rows[0].value case Some(v) => [v] case None => []) + Values(rows[1..])
  }

  function Coverages(rows: seq<FeatureRow>): seq<real> {
    if rows == [] then [] else [rows[0].coverage] + Coverages(rows[1..])
  }

  function FlagsOf(rows: seq<FeatureRow>): set<Flag> {
    set r, x | r in rows && x in r.flags :: x
  }

  predicate Averaged(f: Feature) {
    f == BatteryMean || f == LocationCoverage || f == Movement || f == HeartbeatCoverage
  }

  function Aggregate(f: Feature, values: seq<real>): Option<real> {
    if Averaged(f) then Mean(values) else if values == [] then None else Some(Sum(values))
  }

  function MeanOrZero(values: seq<real>): real {
    match Mean(values) case Some(m) => m case None => 0.0
  }

  /** The daily row of a feature from its hourly rows. */
  function DailyOf(f: Feature, rows: seq<FeatureRow>, start: Moment, end: Moment): DailyRow {
    DailyRow(IsoUtc(start), IsoUtc(end), Aggregate(f, Values(rows)), Round4(MeanOrZero(Coverages(rows))),
             FlagsOf(rows) + (if |Values(rows)| < |rows| then {Partial} else {}))
  }

  /** The daily row for the 24 hours, or any window, from `start`. */
  function DailyRead(d: Derived, device: Id, f: Feature, start: Moment, end: Moment): DailyRow {
    DailyOf(f, ReadFeature(d.hourly, device, f, start, end), start, end)
  }

  // ---------------------------------------------------------------- the daily table

  const FEATURE_LIST := [BatteryMean, ChargingMinutes, WifiMinutes, LocationCoverage, Movement,
                         Calls, Sms, HeartbeatCoverage, EventsTotal, MissingFlag]

  lemma EveryFeatureListed(f: Feature)
    ensures f in FEATURE_LIST
  {
    assert f == FEATURE_LIST[match f
                             case BatteryMean => 0
                             case ChargingMinutes => 1
                             case WifiMinutes => 2
                             case LocationCoverage => 3
                             case Movement => 4
                             case Calls => 5
                             case Sms => 6
                             case HeartbeatCoverage => 7
                             case EventsTotal => 8
                             case MissingFlag => 9];
  }

  function DailyKeys(device: Id, date: string): (ks: set<DailyKey>)
    ensures forall k :: k in ks <==> k.device == device && k.date == date
  {
    var ks := set f | f in FEATURE_LIST :: DailyKey(device, f, date);
    forall k: DailyKey | k.device == device && k.date == date
      ensures k in ks
    {
      EveryFeatureListed(k.feature);
      assert k == DailyKey(device, k.feature, date);
    }
    ks
  }

  /** The daily table after the rows of one device and local date were written. */
  function DailyAfter(daily: map<DailyKey, DailyRow>, d: Derived, device: Id, date: string, start: Moment,
                      end: Moment): map<DailyKey, DailyRow> {
    map k | k in daily.Keys + DailyKeys(device, date) ::
      if k.device == device && k.date == date then DailyRead(d, device, k.feature, start, end) else daily[k]
  }

  /** What `compute_daily_features` leaves of the hourly tables: it recomputes the window when it can read nothing. */
  function HourlyForDay(d: Derived, src: Source, device: Id, start: Moment, end: Moment): Derived {
    if NothingRead(d.hourly, device, start, end) then RecomputeWindow(d, src, device, start, end) else d
  }

  /** What `coverage_summary` and `find_gaps` leave of the coverage table. */
  function CoverageForRead(coverage: map<HourKey, CoverageRow>, src: Source, device: Id, start: Moment,
                           end: Moment): map<HourKey, CoverageRow> {
    if StoredHours(coverage, device, start, end) == {} then CoverageAfter(coverage, src, device, start, end)
    else coverage
  }

  /** The hourly tables after the recomputations of `build_day_timeline`. */
  function DayTables(d: Derived, src: Source, device: Id, start: Moment, end: Moment, dayEnd: Moment): Derived {
    HourlyForDay(RecomputeWindow(d, src, device, start, end), src, device, start, dayEnd)
  }

  /**
   For any window of whole hours, however long, the one recomputation is all there is: the daily roll-up of the
   24 hours from its start finds rows to read, and so do the summary and the gaps.
   */
  lemma AlignedDay(d: Derived, src: Source, device: Id, a: Hour, c: Hour)
    requires a < c && HourStart(a) + DAY < YEAR_10000
    ensures var r := RecomputeWindow(d, src, device, HourStart(a), HourStart(c));
            && DayTables(d, src, device, HourStart(a), HourStart(c), HourStart(a) + DAY) == r
            && CoverageForRead(r.coverage, src, device, HourStart(a), HourStart(c)) == r.coverage
            && forall h :: a <= h < c ==>
                 Agrees(BlockOf(r, WindowRows(src.raw, device, HourStart(a), HourStart(c)), device, h, HourStart(a),
                                HourStart(c)), r.coverage, device)
  {
    hide RecomputeWindow, BlockOf, WindowRows, HoursOf, Visible, Agrees, FeatureSpec, Bucket, CoverageAfter,
         CoverageSpec, StoredHours;
    AlignedFeature(d, src, device, a, c, c, Calls, a);
    AlignedCoverage(d, src, device, a, c);
    AlignedVisible(a, c, a);
    var end := NextDay(a);
    AlignedVisible(a, end, a);
    forall h | a <= h < c
      ensures var r := RecomputeWindow(d, src, device, HourStart(a), HourStart(c));
              Agrees(BlockOf(r, WindowRows(src.raw, device, HourStart(a), HourStart(c)), device, h, HourStart(a),
                             HourStart(c)), r.coverage, device)
    {
      AlignedTimelineAgrees(d, src, device, a, c, h);
    }
  }

  /** The hour that begins 24 hours after `a`. */
  function NextDay(a: Hour): (e: Hour)
    requires HourStart(a) + DAY < YEAR_10000
    ensures e == a + 24 && HourStart(e) == HourStart(a) + DAY
  {
    a + 24
  }

  // ---------------------------------------------------------------- a window of whole hours, just recomputed

  function HourCount(a: int, c: int): nat {
    if a <= c then c - a else 0
  }

  /** The feature rows of hours before `m`, for a window of whole hours from `a` to `c` just recomputed. */
  lemma AlignedFeature(d: Derived, src: Source, device: Id, a: Hour, m: Hour, c: Hour, f: Feature, h: int)
    requires m <= c
    ensures var r := RecomputeWindow(d, src, device, HourStart(a), HourStart(c));
            && (FeatureKey(device, f, h) in r.hourly && Visible(h, HourStart(a), HourStart(m)) <==> a <= h < m)
            && (a <= h < m ==>
                  r.hourly[FeatureKey(device, f, h)] ==
                  FeatureSpec(src, device, f, Bucket(WindowRows(src.raw, device, HourStart(a), HourStart(c)), h)))
  {
    hide *;
    AlignedSpan(a, c);
    SpanMember(a, c, h);
    if a <= h < m {
      AlignedVisible(a, m, h);
      AlignedVisible(a, c, h);
      RecomputedRows(d, src, device, HourStart(a), HourStart(c), h, f);
    } else if Visible(h, HourStart(a), HourStart(m)) {
      OutsideInvisible(a, m, h);
    }
  }

  lemma FeatureHoursAre(d: Derived, src: Source, device: Id, a: Hour, m: Hour, c: Hour, f: Feature)
    requires m <= c
    ensures var r := RecomputeWindow(d, src, device, HourStart(a), HourStart(c));
            Ascend(FeatureHours(r.hourly, device, f, HourStart(a), HourStart(m))) == Consecutives(a, m)
  {
    hide *;
    var hourly := RecomputeWindow(d, src, device, HourStart(a), HourStart(c)).hourly;
    forall h
      ensures h in FeatureHours(hourly, device, f, HourStart(a), HourStart(m)) <==> h in Consecutives(a, m)
    {
      AlignedFeature(d, src, device, a, m, c, f, h);
    }
    AscendIs(FeatureHours(hourly, device, f, HourStart(a), HourStart(m)), Consecutives(a, m));
  }

  /** The rows read back for a feature: for each hour the row specified by the events the window has in it. */
  lemma AlignedRows(d: Derived, src: Source, device: Id, a: Hour, m: Hour, c: Hour, f: Feature)
    requires m <= c
    ensures var r := RecomputeWindow(d, src, device, HourStart(a), HourStart(c));
            var rows := ReadFeature(r.hourly, device, f, HourStart(a), HourStart(m));
            && |rows| == HourCount(a, m)
            && (forall i :: 0 <= i < |rows| ==>
                  rows[i] ==
                  FeatureSpec(src, device, f, Bucket(WindowRows(src.raw, device, HourStart(a), HourStart(c)), a + i)))
  {
    hide *;
    var hourly := RecomputeWindow(d, src, device, HourStart(a), HourStart(c)).hourly;
    var rows := ReadFeature(hourly, device, f, HourStart(a), HourStart(m));
    FeatureHoursAre(d, src, device, a, m, c, f);
    ReadIs(hourly, device, f, HourStart(a), HourStart(m), Consecutives(a, m));
    Count(a, m);
    forall i | 0 <= i < |rows|
      ensures rows[i] ==
              FeatureSpec(src, device, f, Bucket(WindowRows(src.raw, device, HourStart(a), HourStart(c)), a + i))
    {
      AlignedFeature(d, src, device, a, m, c, f, a + i);
    }
  }

  lemma ReadIs(hourly: map<FeatureKey, FeatureRow>, device: Id, f: Feature, start: Moment, end: Moment, hours: seq<int>)
    requires Ascend(FeatureHours(hourly, device, f, start, end)) == hours
    ensures var rows := ReadFeature(hourly, device, f, start, end);
            |rows| == |hours| && forall i :: 0 <= i < |rows| ==>
              FeatureKey(device, f, hours[i]) in hourly && rows[i] == hourly[FeatureKey(device, f, hours[i])]
  {
    hide RowsAt, Ascend, Visible;
  }

  // ---------------------------------------------------------------- the 24 hours from the window's start

  /** The part of the day that the window recomputes ends here. */
  function DaySplit(a: Hour, c: Hour): (m: Hour)
    requires a < c && HourStart(a) + DAY < YEAR_10000
    ensures a < m <= c && m <= a + 24 && (c >= a + 24 ==> m == a + 24) && (c < a + 24 ==> m == c)
  {
    if c < a + 24 then c else NextDay(a)
  }

  /** The rows that were stored before for the rest of the day; none when the window reaches its end. */
  function StoredRest(d: Derived, device: Id, f: Feature, a: Hour, c: Hour): seq<FeatureRow>
    requires a < c && HourStart(a) + DAY < YEAR_10000
  {
    ReadFeature(d.hourly, device, f, HourStart(DaySplit(a, c)), HourStart(a) + DAY)
  }

  lemma VisibleParts(a: Hour, m: Hour, b: Hour, h: int)
    requires a <= m <= b
    ensures Visible(h, HourStart(a), HourStart(b)) <==>
            Visible(h, HourStart(a), HourStart(m)) || Visible(h, HourStart(m), HourStart(b))
    ensures Visible(h, HourStart(a), HourStart(m)) ==> h < m
    ensures Visible(h, HourStart(m), HourStart(b)) ==> m <= h
  {
    hide *;
    VisibleIs(a, b, h);
    VisibleIs(a, m, h);
    VisibleIs(m, b, h);
  }

  lemma VisibleIs(a: Hour, c: Hour, h: int)
    ensures Visible(h, HourStart(a), HourStart(c)) <==> a <= h < c
  {
    hide *;
    if a <= h < c {
      AlignedVisible(a, c, h);
    } else if Visible(h, HourStart(a), HourStart(c)) {
      OutsideInvisible(a, c, h);
    }
  }

  lemma AscendParts(s: set<int>, t: set<int>, m: int)
    requires (forall x :: x in s ==> x < m) && (forall x :: x in t ==> m <= x)
    ensures Ascend(s + t) == Ascend(s) + Ascend(t)
  {
    hide Ascend;
    var r := Ascend(s) + Ascend(t);
    forall i, k | 0 <= i < k < |r|
      ensures r[i] < r[k]
    {
      if i < |Ascend(s)| <= k {
        assert r[i] in s && r[k] in t;
      }
    }
    AscendIs(s + t, r);
  }

  lemma {:induction false} RowsAtAppend(hourly: map<FeatureKey, FeatureRow>, device: Id, f: Feature, a: seq<int>,
                                        b: seq<int>)
    requires forall h :: h in a + b ==> FeatureKey(device, f, h) in hourly
    ensures (forall h :: h in a ==> h in a + b) && (forall h :: h in b ==> h in a + b)
    ensures RowsAt(hourly, device, f, a + b) == RowsAt(hourly, device, f, a) + RowsAt(hourly, device, f, b)
  {
    hide RowsAt;
    assert forall h :: h in a ==> h in a + b;
    assert forall h :: h in b ==> h in a + b;
    var r := RowsAt(hourly, device, f, a) + RowsAt(hourly, device, f, b);
    forall i | 0 <= i < |a + b|
      ensures RowsAt(hourly, device, f, a + b)[i] == r[i]
    {
      assert (a + b)[i] == if i < |a| then a[i] else b[i - |a|];
    }
  }

  /** Reading two adjacent windows of whole hours is reading both at once. */
  lemma ReadParts(hourly: map<FeatureKey, FeatureRow>, device: Id, f: Feature, a: Hour, m: Hour, b: Hour)
    requires a <= m <= b
    ensures ReadFeature(hourly, device, f, HourStart(a), HourStart(b)) ==
            ReadFeature(hourly, device, f, HourStart(a), HourStart(m)) +
            ReadFeature(hourly, device, f, HourStart(m), HourStart(b))
  {
    hide Visible, HourStart, Ascend, RowsAt, FeatureHours;
    var s := FeatureHours(hourly, device, f, HourStart(a), HourStart(m));
    var t := FeatureHours(hourly, device, f, HourStart(m), HourStart(b));
    var u := FeatureHours(hourly, device, f, HourStart(a), HourStart(b));
    forall h
      ensures h in u <==> h in s || h in t
      ensures h in s ==> h < m
      ensures h in t ==> m <= h
    {
      VisibleParts(a, m, b, h);
    }
    assert u == s + t;
    AscendParts(s, t, m);
    assert forall h :: h in Ascend(s) + Ascend(t) ==> h in u;
    RowsAtAppend(hourly, device, f, Ascend(s), Ascend(t));
  }

  /** Reading depends on the rows of the window's hours only. */
  lemma ReadSame(p: map<FeatureKey, FeatureRow>, q: map<FeatureKey, FeatureRow>, device: Id, f: Feature, a: Hour,
                 b: Hour)
    requires forall h :: a <= h < b ==> (FeatureKey(device, f, h) in p <==> FeatureKey(device, f, h) in q)
    requires forall h :: a <= h < b && FeatureKey(device, f, h) in p ==>
             p[FeatureKey(device, f, h)] == q[FeatureKey(device, f, h)]
    ensures ReadFeature(p, device, f, HourStart(a), HourStart(b)) ==
            ReadFeature(q, device, f, HourStart(a), HourStart(b))
  {
    hide Visible, HourStart, Ascend, RowsAt, FeatureHours;
    var s, t := FeatureHours(p, device, f, HourStart(a), HourStart(b)),
        FeatureHours(q, device, f, HourStart(a), HourStart(b));
    forall h
      ensures h in s <==> h in t
      ensures h in s ==> a <= h < b
    {
      VisibleIs(a, b, h);
    }
    assert s == t;
  }

  lemma RestKept(d: Derived, src: Source, device: Id, a: Hour, c: Hour, f: Feature, h: int)
    requires c <= h
    ensures var r := RecomputeWindow(d, src, device, HourStart(a), HourStart(c));
            var k := FeatureKey(device, f, h);
            (k in r.hourly <==> k in d.hourly) && (k in d.hourly ==> r.hourly[k] == d.hourly[k])
  {
    hide FeatureOf, Bucket, WindowRows, HoursOf, Visible, CoverageAfter, ProportionRead, HourStart;
    AlignedSpan(a, c);
    SpanMember(a, c, h);
  }

  /**
   What the daily roll-up reads after recomputing `[a, c)`: the specified rows of the day's hours before `c`, and
   after them the rows that happen to be stored for the rest of the 24 hours.
   */
  lemma DayRows(d: Derived, src: Source, device: Id, a: Hour, c: Hour, f: Feature)
    requires a < c && HourStart(a) + DAY < YEAR_10000
    ensures var r := RecomputeWindow(d, src, device, HourStart(a), HourStart(c));
            var m, rest := DaySplit(a, c), StoredRest(d, device, f, a, c);
            var head := ReadFeature(r.hourly, device, f, HourStart(a), HourStart(m));
            && ReadFeature(r.hourly, device, f, HourStart(a), HourStart(a) + DAY) == head + rest
            && |head| == m - a && (m == a + 24 ==> rest == [])
            && (forall i :: 0 <= i < |head| ==>
                  head[i] ==
                  FeatureSpec(src, device, f, Bucket(WindowRows(src.raw, device, HourStart(a), HourStart(c)), a + i)))
  {
    hide RecomputeWindow, Visible, Bucket, WindowRows, FeatureSpec, ReadFeature;
    var r := RecomputeWindow(d, src, device, HourStart(a), HourStart(c));
    var m, e := DaySplit(a, c), NextDay(a);
    ReadParts(r.hourly, device, f, a, m, e);
    forall h | m <= h < e
      ensures var k := FeatureKey(device, f, h);
              (k in r.hourly <==> k in d.hourly) && (k in d.hourly ==> r.hourly[k] == d.hourly[k])
    {
      RestKept(d, src, device, a, c, f, h);
    }
    ReadSame(r.hourly, d.hourly, device, f, m, e);
    AlignedRows(d, src, device, a, m, c, f);
    if m == e {
      NothingToRead(d.hourly, device, f, e);
    }
  }

  lemma NothingToRead(hourly: map<FeatureKey, FeatureRow>, device: Id, f: Feature, e: Hour)
    ensures ReadFeature(hourly, device, f, HourStart(e), HourStart(e)) == []
  {
    hide Visible, HourStart, Ascend;
    forall h
      ensures h !in FeatureHours(hourly, device, f, HourStart(e), HourStart(e))
    {
      VisibleIs(e, e, h);
    }
    assert FeatureHours(hourly, device, f, HourStart(e), HourStart(e)) == {};
    AscendIs({}, []);
  }

  lemma AlignedCoverage(d: Derived, src: Source, device: Id, a: Hour, c: Hour)
    ensures var r := RecomputeWindow(d, src, device, HourStart(a), HourStart(c));
            forall h :: a <= h < c ==>
              HourKey(device, h) in r.coverage &&
              r.coverage[HourKey(device, h)] == CoverageSpec(src, device,
                Bucket(WindowRows(src.raw, device, HourStart(a), HourStart(c)), h))
  {
    hide RecomputeWindow, HoursOf, Visible, Bucket, WindowRows, CoverageSpec, FeatureSpec, FeatureValue;
    AlignedSpan(a, c);
    forall h | a <= h < c
      ensures var r := RecomputeWindow(d, src, device, HourStart(a), HourStart(c));
              HourKey(device, h) in r.coverage &&
              r.coverage[HourKey(device, h)] == CoverageSpec(src, device,
                Bucket(WindowRows(src.raw, device, HourStart(a), HourStart(c)), h))
    {
      RecomputedRows(d, src, device, HourStart(a), HourStart(c), h, Calls);
    }
  }

  // ---------------------------------------------------------------- flags: the missing hours

  lemma {:induction false} FlagsSum(rows: seq<FeatureRow>, states: seq<HourState>)
    requires |rows| == |states|
    requires forall i :: 0 <= i < |rows| ==> rows[i].value == Some(if states[i].isMissing then 1.0 else 0.0)
    ensures Sum(Values(rows)) == MissingCount(states) as real && |Values(rows)| == |rows|
  {
    if rows != [] {
      FlagsSum(rows[1..], states[1..]);
    }
  }

  lemma FlagOfHour(src: Source, device: Id, rows: seq<RawRow>)
    ensures FeatureSpec(src, device, MissingFlag, rows).value ==
            Some(if CoverageSpec(src, device, rows).isMissing then 1.0 else 0.0)
  {
  }

  /**
   After recomputing the whole hours `[a, c)`: the gap hours and the summary's missing hours are one number, and
   the data is complete exactly when there is no gap.  The daily missing flag covers the 24 hours from `a`; it is
   that number exactly when no later hour of a longer window is missing, or, for a shorter window, when the flags
   stored for the rest of the day add up to nothing.
   */
  lemma AlignedAccounts(d: Derived, src: Source, device: Id, a: Hour, c: Hour)
    requires a < c && HourStart(a) + DAY < YEAR_10000
    ensures var r := RecomputeWindow(d, src, device, HourStart(a), HourStart(c));
            var states := ReadStates(r.coverage, device, HourStart(a), HourStart(c));
            var summary := SummaryOf(r.coverage, src.beats, device, HourStart(a), HourStart(c));
            var daily := DailyRead(r, device, MissingFlag, HourStart(a), HourStart(a) + DAY).value;
            var rest := StoredRest(d, device, MissingFlag, a, c);
            && Consecutive(states) && summary.hoursTotal == c - a
            && GapTotal(AllGaps(states)) == summary.hoursMissing
            && (summary.dataComplete <==> AllGaps(states) == [])
            && (c >= a + 24 ==>
                  (daily == Some(summary.hoursMissing as real) <==>
                   forall h :: a + 24 <= h < c ==> !MissingAt(r.coverage, device, h)))
            && (c < a + 24 ==> (daily == Some(summary.hoursMissing as real) <==> Sum(Values(rest)) == 0.0))
  {
    hide *;
    var start, end := HourStart(a), HourStart(c);
    var r := RecomputeWindow(d, src, device, start, end);
    var states := ReadStates(r.coverage, device, start, end);
    var m := DaySplit(a, c);
    Count(a, c);
    ReadAll(d, src, device, a, c);
    GapsAccount(states);
    DailyMissing(d, src, device, a, c);
    SummaryCounts(r.coverage, src.beats, device, start, end);
    MissingParts(states, m - a);
    if c >= a + 24 {
      var late := states[m - a..];
      NoneMissing(late);
      DayRows(d, src, device, a, c, MissingFlag);
      NoValues();
      forall h | a + 24 <= h < c
        ensures MissingAt(r.coverage, device, h) <==> late[h - m].isMissing
      {
        MissingIs(d, src, device, a, c, h);
        assert late[h - m] == states[h - a];
      }
      if forall h :: a + 24 <= h < c ==> !MissingAt(r.coverage, device, h) {
        forall i | 0 <= i < |late|
          ensures !late[i].isMissing
        {
          assert !MissingAt(r.coverage, device, m + i);
        }
      }
    } else {
      assert states[..m - a] == states;
    }
  }

  /** The coverage row of an hour is there and says missing. */
  predicate MissingAt(coverage: map<HourKey, CoverageRow>, device: Id, h: int) {
    HourKey(device, h) in coverage && coverage[HourKey(device, h)].isMissing
  }

  lemma MissingIs(d: Derived, src: Source, device: Id, a: Hour, c: Hour, h: int)
    requires a <= h < c
    ensures var r := RecomputeWindow(d, src, device, HourStart(a), HourStart(c));
            MissingAt(r.coverage, device, h) <==>
            CoverageSpec(src, device, Bucket(WindowRows(src.raw, device, HourStart(a), HourStart(c)), h)).isMissing
  {
    hide RecomputeWindow, Bucket, WindowRows, CoverageSpec, HourStart;
    AlignedCoverage(d, src, device, a, c);
  }

  lemma {:induction false} MissingParts(states: seq<HourState>, k: nat)
    requires k <= |states|
    ensures MissingCount(states) == MissingCount(states[..k]) + MissingCount(states[k..])
    decreases |states|
  {
    if k > 0 {
      MissingParts(states[1..], k - 1);
      assert states[1..][..k - 1] == states[..k][1..] && states[1..][k - 1..] == states[k..];
    } else {
      assert states[..0] == [] && states[0..] == states;
    }
  }

  lemma {:induction false} NoneMissing(states: seq<HourState>)
    ensures MissingCount(states) == 0 <==> forall i :: 0 <= i < |states| ==> !states[i].isMissing
  {
    if states != [] {
      NoneMissing(states[1..]);
      if forall i :: 0 <= i < |states| ==> !states[i].isMissing {
        assert forall i :: 0 <= i < |states[1..]| ==> states[1..][i] == states[i + 1];
      } else {
        var i :| 0 <= i < |states| && states[i].isMissing;
        assert i > 0 ==> states[1..][i - 1].isMissing;
      }
    }
  }

  lemma NoValues()
    ensures Values([]) == [] && Sum([]) == 0.0
  {
  }

  /** The coverage rows read back: one for each hour, missing as its events say. */
  lemma ReadAll(d: Derived, src: Source, device: Id, a: Hour, c: Hour)
    ensures var r := RecomputeWindow(d, src, device, HourStart(a), HourStart(c));
            var states := ReadStates(r.coverage, device, HourStart(a), HourStart(c));
            && |states| == HourCount(a, c) && Consecutive(states)
            && forall i :: 0 <= i < |states| ==>
                 states[i].isMissing ==
                 CoverageSpec(src, device,
                   Bucket(WindowRows(src.raw, device, HourStart(a), HourStart(c)), a + i)).isMissing
  {
    hide RecomputeWindow, HoursOf, Visible, Bucket, WindowRows, CoverageSpec, StoredHours, Ascend, StatesAt,
         Consecutives, HourStart;
    Count(a, c);
    AlignedHoursRead(d, src, device, a, c);
    AlignedCoverage(d, src, device, a, c);
  }

  lemma SummaryCounts(coverage: map<HourKey, CoverageRow>, beats: map<Id, BeatRow>, device: Id, start: Moment,
                      end: Moment)
    ensures var states, summary := ReadStates(coverage, device, start, end),
            SummaryOf(coverage, beats, device, start, end);
            && summary.hoursTotal == |states| && summary.hoursMissing == MissingCount(states)
            && summary.hoursObserved == |states| - MissingCount(states)
            && (summary.dataComplete <==> MissingCount(states) == 0 && states != [])
  {
    hide StoredHours, Ascend, StatesAt, MissingCount, Round4, Mean, Proportions;
  }

  lemma DailyMissing(d: Derived, src: Source, device: Id, a: Hour, c: Hour)
    requires a < c && HourStart(a) + DAY < YEAR_10000
    ensures var r := RecomputeWindow(d, src, device, HourStart(a), HourStart(c));
            var states := ReadStates(r.coverage, device, HourStart(a), HourStart(c));
            var m, rest := DaySplit(a, c), StoredRest(d, device, MissingFlag, a, c);
            && m - a <= |states|
            && DailyRead(r, device, MissingFlag, HourStart(a), HourStart(a) + DAY).value ==
               Some(MissingCount(states[..m - a]) as real + Sum(Values(rest)))
  {
    hide *;
    var start, end := HourStart(a), HourStart(c);
    var r := RecomputeWindow(d, src, device, start, end);
    var states := ReadStates(r.coverage, device, start, end);
    var m, rest := DaySplit(a, c), StoredRest(d, device, MissingFlag, a, c);
    var head := ReadFeature(r.hourly, device, MissingFlag, start, HourStart(m));
    FlagRows(d, src, device, a, c);
    FlagsSum(head, states[..m - a]);
    SummedDay(r, device, MissingFlag, start, HourStart(NextDay(a)), head, rest);
  }

  /** The daily value of a summed feature, from two parts of the rows read of which the first has all its values. */
  lemma SummedDay(d: Derived, device: Id, f: Feature, start: Moment, end: Moment, head: seq<FeatureRow>,
                  rest: seq<FeatureRow>)
    requires f == MissingFlag || f == EventsTotal
    requires head != [] && |Values(head)| == |head| && ReadFeature(d.hourly, device, f, start, end) == head + rest
    ensures DailyRead(d, device, f, start, end).value == Some(Sum(Values(head)) + Sum(Values(rest)))
  {
    hide Values, Sum, DailyRead, ReadFeature;
    DailyValue(d, device, f, start, end);
    ValuesAppend(head, rest);
    SumAppend(Values(head), Values(rest));
  }

  lemma {:induction false} ValuesAppend(a: seq<FeatureRow>, b: seq<FeatureRow>)
    ensures Values(a + b) == Values(a) + Values(b)
  {
    if a == [] {
      assert a + b == b;
    } else {
      assert (a + b)[1..] == a[1..] + b;
      ValuesAppend(a[1..], b);
    }
  }

  lemma FlagRows(d: Derived, src: Source, device: Id, a: Hour, c: Hour)
    requires a < c && HourStart(a) + DAY < YEAR_10000
    ensures var r := RecomputeWindow(d, src, device, HourStart(a), HourStart(c));
            var m := DaySplit(a, c);
            var head := ReadFeature(r.hourly, device, MissingFlag, HourStart(a), HourStart(m));
            var states := ReadStates(r.coverage, device, HourStart(a), HourStart(c));
            && ReadFeature(r.hourly, device, MissingFlag, HourStart(a), HourStart(a) + DAY) ==
               head + StoredRest(d, device, MissingFlag, a, c)
            && 0 < m - a == |head| <= |states|
            && forall i :: 0 <= i < |head| ==> head[i].value == Some(if states[..m - a][i].isMissing then 1.0 else 0.0)
  {
    hide *;
    var start, end := HourStart(a), HourStart(c);
    var r := RecomputeWindow(d, src, device, start, end);
    var m := DaySplit(a, c);
    var head := ReadFeature(r.hourly, device, MissingFlag, start, HourStart(m));
    var states := ReadStates(r.coverage, device, start, end);
    DayRows(d, src, device, a, c, MissingFlag);
    ReadAll(d, src, device, a, c);
    Count(a, c);
    forall i | 0 <= i < |head|
      ensures head[i].value == Some(if states[..m - a][i].isMissing then 1.0 else 0.0)
    {
      FlagOfHour(src, device, Bucket(WindowRows(src.raw, device, start, end), a + i));
    }
  }

  lemma DailyValue(d: Derived, device: Id, f: Feature, start: Moment, end: Moment)
    ensures DailyRead(d, device, f, start, end).value ==
            Aggregate(f, Values(ReadFeature(d.hourly, device, f, start, end)))
  {
    hide Aggregate, Values, ReadFeature, Round4, MeanOrZero, FlagsOf, IsoUtc;
  }

  // ---------------------------------------------------------------- coverage

  lemma RoundOfInt(n: int)
    ensures RoundHalfEven(n as real) == n
  {
  }

  lemma ScaledBack(q: real, n: int)
    requires q == n as real / 10_000.0
    ensures q * 10_000.0 == n as real
  {
  }

  /** Rounding to four places a second time changes nothing. */
  lemma Round4Twice(x: real)
    ensures Round4(Round4(x)) == Round4(x)
  {
    hide RoundHalfEven;
    ScaledBack(Round4(x), RoundHalfEven(x * 10_000.0));
    RoundOfInt(RoundHalfEven(x * 10_000.0));
  }

  lemma SpecCoverage(src: Source, device: Id, f: Feature, rows: seq<RawRow>)
    ensures FeatureSpec(src, device, f, rows).coverage == CoverageSpec(src, device, rows).proportion
  {
    hide FeatureValue, SourcesOf, Ratio, ExpectedSources;
    var expected := ExpectedSources(src.beats, device);
    var wanted := ToSet(expected);
    if wanted == {} {
      Round4Zero();
    } else {
      Round4Twice(Ratio(|SourcesOf(rows) * wanted|, |wanted|));
    }
  }

  lemma Round4Zero()
    ensures Round4(0.0) == 0.0
  {
  }

  lemma {:induction false} SameCoverages(coverage: map<HourKey, CoverageRow>, device: Id, hours: seq<int>,
                                         rows: seq<FeatureRow>)
    requires |rows| == |hours| && forall h :: h in hours ==> HourKey(device, h) in coverage
    requires forall i :: 0 <= i < |rows| ==> rows[i].coverage == coverage[HourKey(device, hours[i])].proportion
    ensures Coverages(rows) == Proportions(coverage, device, hours)
  {
    if rows != [] {
      SameCoverages(coverage, device, hours[1..], rows[1..]);
    }
  }

  lemma CoveragesRead(d: Derived, src: Source, device: Id, a: Hour, c: Hour, f: Feature)
    requires a < c && HourStart(a) + DAY < YEAR_10000
    ensures var r := RecomputeWindow(d, src, device, HourStart(a), HourStart(c));
            var m := DaySplit(a, c);
            var head := ReadFeature(r.hourly, device, f, HourStart(a), HourStart(m));
            && |head| == |Consecutives(a, m)|
            && forall i :: 0 <= i < |head| ==>
                 HourKey(device, a + i) in r.coverage &&
                   head[i].coverage == r.coverage[HourKey(device, a + i)].proportion
  {
    hide *;
    var r := RecomputeWindow(d, src, device, HourStart(a), HourStart(c));
    var m := DaySplit(a, c);
    var head := ReadFeature(r.hourly, device, f, HourStart(a), HourStart(m));
    AlignedCoverage(d, src, device, a, c);
    DayRows(d, src, device, a, c, f);
    Count(a, m);
    forall i | 0 <= i < |head|
      ensures HourKey(device, a + i) in r.coverage && head[i].coverage == r.coverage[HourKey(device, a + i)].proportion
    {
      assert a <= a + i < c;
      SpecCoverage(src, device, f, Bucket(WindowRows(src.raw, device, HourStart(a), HourStart(c)), a + i));
    }
  }

  lemma Count(a: int, c: int)
    ensures HourCount(a, c) == |Consecutives(a, c)| && (HourCount(a, c) > 0 ==> HourCount(a, c) == c - a) &&
            (a < c ==> HourCount(a, c) == c - a)
  {
  }

  lemma {:induction false} CoveragesAppend(a: seq<FeatureRow>, b: seq<FeatureRow>)
    ensures Coverages(a + b) == Coverages(a) + Coverages(b)
  {
    if a == [] {
      assert a + b == b;
    } else {
      assert (a + b)[1..] == a[1..] + b;
      CoveragesAppend(a[1..], b);
    }
  }

  lemma CoverageHoursRead(d: Derived, src: Source, device: Id, a: Hour, m: Hour, c: Hour)
    requires m <= c
    ensures var r := RecomputeWindow(d, src, device, HourStart(a), HourStart(c));
            && Ascend(StoredHours(r.coverage, device, HourStart(a), HourStart(m))) == Consecutives(a, m)
            && (forall h :: h in Consecutives(a, m) ==> HourKey(device, h) in r.coverage)
  {
    hide RecomputeWindow, Visible, Bucket, WindowRows, CoverageSpec, HourStart, Ascend;
    var r := RecomputeWindow(d, src, device, HourStart(a), HourStart(c));
    AlignedCoverage(d, src, device, a, c);
    forall h
      ensures h in StoredHours(r.coverage, device, HourStart(a), HourStart(m)) <==> a <= h < m
    {
      VisibleIs(a, m, h);
    }
    AscendIs(StoredHours(r.coverage, device, HourStart(a), HourStart(m)), Consecutives(a, m));
  }

  /**
   Every daily row, whatever its feature, carries the rounded mean of the coverage proportions of the day's hours
   before `c` and of the rows stored for the rest of the day.  When there are none of these, that is what
   `coverage_summary` reports for the recomputed hours of the day: for the whole window if it is no longer than
   24 hours, for its first 24 hours otherwise.
   */
  lemma DailyCoverage(d: Derived, src: Source, device: Id, a: Hour, c: Hour, f: Feature)
    requires a < c && HourStart(a) + DAY < YEAR_10000
    ensures var r := RecomputeWindow(d, src, device, HourStart(a), HourStart(c));
            var m, rest := DaySplit(a, c), StoredRest(d, device, f, a, c);
            var daily := DailyRead(r, device, f, HourStart(a), HourStart(a) + DAY);
            && (forall h :: h in Consecutives(a, m) ==> HourKey(device, h) in r.coverage)
            && daily.coverage ==
               Round4(MeanOrZero(Proportions(r.coverage, device, Consecutives(a, m)) + Coverages(rest)))
            && (rest == [] ==>
                  daily.coverage == SummaryOf(r.coverage, src.beats, device, HourStart(a), HourStart(m)).proportion)
  {
    hide *;
    var r := RecomputeWindow(d, src, device, HourStart(a), HourStart(c));
    var m, rest := DaySplit(a, c), StoredRest(d, device, f, a, c);
    CoverageHoursRead(d, src, device, a, m, c);
    CoveragesOfDay(d, src, device, a, c, f);
    DailyCoverageIs(r, device, f, HourStart(a), HourStart(NextDay(a)));
    NoCoverages();
    SummaryProportion(r.coverage, src.beats, device, HourStart(a), HourStart(m), Consecutives(a, m));
    var props := Proportions(r.coverage, device, Consecutives(a, m));
    assert props + [] == props;
  }

  lemma CoveragesOfDay(d: Derived, src: Source, device: Id, a: Hour, c: Hour, f: Feature)
    requires a < c && HourStart(a) + DAY < YEAR_10000
    ensures var r := RecomputeWindow(d, src, device, HourStart(a), HourStart(c));
            var m := DaySplit(a, c);
            && (forall h :: h in Consecutives(a, m) ==> HourKey(device, h) in r.coverage)
            && Coverages(ReadFeature(r.hourly, device, f, HourStart(a), HourStart(a) + DAY)) ==
               Proportions(r.coverage, device, Consecutives(a, m)) + Coverages(StoredRest(d, device, f, a, c))
  {
    hide *;
    var r := RecomputeWindow(d, src, device, HourStart(a), HourStart(c));
    var m := DaySplit(a, c);
    var head := ReadFeature(r.hourly, device, f, HourStart(a), HourStart(m));
    DayRows(d, src, device, a, c, f);
    HeadCoverages(d, src, device, a, c, f);
    CoveragesAppend(head, StoredRest(d, device, f, a, c));
  }

  lemma HeadCoverages(d: Derived, src: Source, device: Id, a: Hour, c: Hour, f: Feature)
    requires a < c && HourStart(a) + DAY < YEAR_10000
    ensures var r := RecomputeWindow(d, src, device, HourStart(a), HourStart(c));
            var m := DaySplit(a, c);
            && (forall h :: h in Consecutives(a, m) ==> HourKey(device, h) in r.coverage)
            && Coverages(ReadFeature(r.hourly, device, f, HourStart(a), HourStart(m))) ==
               Proportions(r.coverage, device, Consecutives(a, m))
  {
    hide *;
    var r := RecomputeWindow(d, src, device, HourStart(a), HourStart(c));
    var m := DaySplit(a, c);
    CoverageHoursRead(d, src, device, a, m, c);
    CoveragesRead(d, src, device, a, c, f);
    SameCoverages(r.coverage, device, Consecutives(a, m), ReadFeature(r.hourly, device, f, HourStart(a), HourStart(m)));
  }

  lemma DailyCoverageIs(d: Derived, device: Id, f: Feature, start: Moment, end: Moment)
    ensures DailyRead(d, device, f, start, end).coverage ==
            Round4(MeanOrZero(Coverages(ReadFeature(d.hourly, device, f, start, end))))
  {
    hide Aggregate, Values, ReadFeature, Round4, MeanOrZero, FlagsOf, IsoUtc, Coverages;
  }

  lemma SummaryProportion(coverage: map<HourKey, CoverageRow>, beats: map<Id, BeatRow>, device: Id, start: Moment,
                          end: Moment, hours: seq<int>)
    requires Ascend(StoredHours(coverage, device, start, end)) == hours
    ensures forall h :: h in hours ==> HourKey(device, h) in coverage
    ensures SummaryOf(coverage, beats, device, start, end).proportion ==
            Round4(MeanOrZero(Proportions(coverage, device, hours)))
  {
    hide StoredHours, Ascend, StatesAt, MissingCount, Round4, Mean, Proportions;
  }

  lemma NoCoverages()
    ensures Coverages([]) == []
  {
  }

  // ---------------------------------------------------------------- quality flags

  /** An hour without a value is flagged partial. */
  lemma AbsentIsPartial(src: Source, device: Id, f: Feature, rows: seq<RawRow>)
    ensures FeatureSpec(src, device, f, rows).value.None? ==> Partial in FeatureSpec(src, device, f, rows).flags
    ensures FeatureSpec(src, device, f, rows).flags == FeatureValue(f, rows).2
  {
  }

  lemma {:induction false} SomeAbsent(rows: seq<FeatureRow>)
    ensures |Values(rows)| <= |rows|
    ensures |Values(rows)| < |rows| <==> exists row :: row in rows && row.value.None?
  {
    if rows != [] {
      SomeAbsent(rows[1..]);
      assert rows == [rows[0]] + rows[1..];
      assert rows[0] in rows;
    }
  }

  /**
   A day is flagged exactly as its hours are.  Of the recomputed hours the flag that absent values add is always
   one of theirs; of the rows stored for the rest of the day it need not be.
   */
  lemma DailyFlags(d: Derived, src: Source, device: Id, a: Hour, c: Hour, f: Feature, x: Flag)
    requires a < c && HourStart(a) + DAY < YEAR_10000
    ensures var r := RecomputeWindow(d, src, device, HourStart(a), HourStart(c));
            var events := WindowRows(src.raw, device, HourStart(a), HourStart(c));
            x in DailyRead(r, device, f, HourStart(a), HourStart(a) + DAY).flags <==>
            || (exists h :: a <= h < DaySplit(a, c) && x in FeatureValue(f, Bucket(events, h)).2)
            || (exists row :: row in StoredRest(d, device, f, a, c) && Flagged(row, x))
  {
    hide *;
    var start, end := HourStart(a), HourStart(c);
    var events := WindowRows(src.raw, device, start, end);
    var r := RecomputeWindow(d, src, device, start, end);
    var m, rest := DaySplit(a, c), StoredRest(d, device, f, a, c);
    var head := ReadFeature(r.hourly, device, f, start, HourStart(m));
    DayRows(d, src, device, a, c, f);
    FlagsRead(r, device, f, start, HourStart(NextDay(a)));
    FlagsAreRows(f, head + rest, start, HourStart(NextDay(a)), x);
    forall i | 0 <= i < |head|
      ensures Flagged(head[i], x) <==> x in FeatureValue(f, Bucket(events, a + i)).2
    {
      AbsentIsPartial(src, device, f, Bucket(events, a + i));
      FlaggedIs(head[i], x);
    }
    if row :| row in head + rest && Flagged(row, x) {
      if row in head {
        var i :| 0 <= i < |head| && head[i] == row;
        assert x in FeatureValue(f, Bucket(events, a + i)).2;
      }
    }
    if h :| a <= h < m && x in FeatureValue(f, Bucket(events, h)).2 {
      assert head[h - a] in head + rest && Flagged(head[h - a], x);
    }
    if row :| row in rest && Flagged(row, x) {
      assert row in head + rest;
    }
  }

  /** What a row contributes to the flags of its day. */
  predicate Flagged(row: FeatureRow, x: Flag) {
    x in row.flags || (x == Partial && row.value.None?)
  }

  lemma FlaggedIs(row: FeatureRow, x: Flag)
    requires row.value.None? ==> Partial in row.flags
    ensures Flagged(row, x) <==> x in row.flags
  {
  }

  lemma FlagsRead(d: Derived, device: Id, f: Feature, start: Moment, end: Moment)
    ensures DailyRead(d, device, f, start, end).flags ==
            DailyOf(f, ReadFeature(d.hourly, device, f, start, end), start, end).flags
  {
    hide DailyOf, ReadFeature;
  }

  lemma FlagsAreRows(f: Feature, rows: seq<FeatureRow>, start: Moment, end: Moment, x: Flag)
    ensures x in DailyOf(f, rows, start, end).flags <==> exists row :: row in rows && Flagged(row, x)
  {
    hide Values, Round4, MeanOrZero, Aggregate, IsoUtc, Coverages;
    SomeAbsent(rows);
  }

  // ---------------------------------------------------------------- totals

  predicate Between(r: RawRow, a: int, c: int) {
    a <= HourOf(r) < c
  }

  function InHours(a: int, c: int): RawRow -> bool {
    (r: RawRow) => Between(r, a, c)
  }

  lemma {:induction false} TotalOf(rows: seq<FeatureRow>, events: seq<RawRow>, a: int)
    requires forall i :: 0 <= i < |rows| ==> rows[i].value == Some(|Bucket(events, a + i)| as real)
    ensures |Values(rows)| == |rows| && Sum(Values(rows)) == |Filter(events, InHours(a, a + |rows|))| as real
  {
    hide Bucket, InHours, Filter;
    if rows == [] {
      NoHours(events, a);
    } else {
      forall i | 0 <= i < |rows| - 1
        ensures rows[1..][i].value == Some(|Bucket(events, a + 1 + i)| as real)
      {
        assert rows[1..][i] == rows[i + 1];
      }
      TotalOf(rows[1..], events, a + 1);
      OneHourMore(events, a, a + |rows|);
      assert Values(rows) == [|Bucket(events, a)| as real] + Values(rows[1..]);
    }
  }

  lemma NoHours(events: seq<RawRow>, a: int)
    ensures Filter(events, InHours(a, a)) == []
  {
    FilterNone(events, InHours(a, a));
  }

  lemma {:induction false} OneHourMore(events: seq<RawRow>, a: int, c: int)
    requires a < c
    ensures |Filter(events, InHours(a, c))| == |Bucket(events, a)| + |Filter(events, InHours(a + 1, c))|
  {
    if events != [] {
      OneHourMore(events[1..], a, c);
    }
  }

  lemma TotalOfHour(src: Source, device: Id, rows: seq<RawRow>)
    ensures FeatureSpec(src, device, EventsTotal, rows).value == Some(|rows| as real)
  {
  }

  /** A window of whole hours reads rows of its own hours and, by their text, fractions of the second it ends at. */
  lemma WindowHour(raw: map<Id, RawRow>, device: Id, a: Hour, c: Hour, k: Key)
    requires ValidRaw(raw) && k.id in raw && k.time == raw[k.id].event.time && raw[k.id].event.device == device && a < c
    ensures k in WindowKeys(raw, device, HourStart(a), HourStart(c), None) ==>
              Between(raw[k.id], a, c) ||
              FracAtHour(raw[k.id], c)
    ensures FracAtHour(raw[k.id], c) ==> k in WindowKeys(raw, device, HourStart(a), HourStart(c), None)
  {
    hide IsoUtc, Accepted, Instant, InTextWindow, HourOf, Second;
    var r := raw[k.id];
    var start, end := HourStart(a), HourStart(c);
    WholeHour(start);
    WholeHour(end);
    assert start / SECOND == 3600 * a && end / SECOND == 3600 * c;
    WholeSecondWindow(k.time, start, end);
    ParsedHour(r);
    if Second(k.time) == 3600 * c {
      FracSecond(k.time, c);
    }
    if start <= Instant(k.time) < end {
      HourBetween(Instant(k.time), a, c);
    }
  }

  lemma FracSecond(t: string, h: int)
    requires Accepted(t) && Second(t) == 3600 * h
    ensures Instant(t) / HOUR == h
  {
    hide Second, Instant;
    InstantParts(t);
    Seconds(Instant(t), h);
  }

  lemma Seconds(n: nat, h: int)
    requires n / SECOND == 3600 * h
    ensures n / HOUR == h
  {
  }

  lemma HourBetween(n: nat, a: Hour, c: Hour)
    requires HourStart(a) <= n < HourStart(c)
    ensures a <= n / HOUR < c
  {
  }

  lemma RowsInWindow(raw: map<Id, RawRow>, device: Id, start: Moment, end: Moment, r: RawRow)
    ensures r in WindowRows(raw, device, start, end) ==>
            exists k :: k in WindowKeys(raw, device, start, end, None) && raw[k.id] == r
    ensures Fits(raw, device, start, end) &&
            (exists k :: k in WindowKeys(raw, device, start, end, None) && raw[k.id] == r) ==>
            r in WindowRows(raw, device, start, end)
  {
    hide IsoUtc, InTextWindow, Enumerate, Selected;
    var ks := Enumerate(WindowKeys(raw, device, start, end, None));
    var page := Page(ks, ROW_LIMIT, 0);
    var rows := RowsOf(raw, page);
    assert rows == WindowRows(raw, device, start, end);
    if r in rows {
      var i :| 0 <= i < |rows| && rows[i] == r;
      assert page[i] in ks;
    }
    if k :| Fits(raw, device, start, end) && k in WindowKeys(raw, device, start, end, None) && raw[k.id] == r {
      assert page == ks && k in ks;
      var i :| 0 <= i < |ks| && ks[i] == k;
      assert rows[i] == r;
    }
  }

  function FromHourOn(m: int): RawRow -> bool {
    (r: RawRow) => HourOf(r) >= m
  }

  /** No event of the device lies in these hours. */
  ghost predicate NoEventIn(raw: map<Id, RawRow>, device: Id, m: int, c: int) {
    forall id :: id in raw && raw[id].event.device == device ==> !Between(raw[id], m, c)
  }

  /**
   The daily total after recomputing the whole hours `[a, c)` counts the events read for the day's hours, and what
   is stored for the rest of the day.  The window reads besides only events from hour `m` on: those of later hours
   of a longer window, and, as texts, fractions of the second the window ends at.  So the total is the number of
   events read exactly when what is stored for the rest of the day adds up to these.
   */
  lemma DailyTotal(d: Derived, src: Source, device: Id, a: Hour, c: Hour)
    requires a < c && HourStart(a) + DAY < YEAR_10000
    requires ValidRaw(src.raw) && Fits(src.raw, device, HourStart(a), HourStart(c))
    ensures var r := RecomputeWindow(d, src, device, HourStart(a), HourStart(c));
            var m, rest := DaySplit(a, c), StoredRest(d, device, EventsTotal, a, c);
            var events := WindowRows(src.raw, device, HourStart(a), HourStart(c));
            var total := DailyRead(r, device, EventsTotal, HourStart(a), HourStart(a) + DAY).value;
            var late := Filter(events, FromHourOn(m));
            && total == Some(|Filter(events, InHours(a, m))| as real + Sum(Values(rest)))
            && (total == Some(|events| as real) <==> Sum(Values(rest)) == |late| as real)
            && (c >= a + 24 ==> Sum(Values(rest)) == 0.0)
            && (late == [] <==> NoEventIn(src.raw, device, m, c) && NoFracAt(src.raw, device, c))
  {
    hide *;
    var m := DaySplit(a, c);
    TotalValue(d, src, device, a, c);
    ReadsSplit(src.raw, device, a, m, c);
    LateReads(src.raw, device, a, m, c);
    DayRows(d, src, device, a, c, EventsTotal);
    NoValues();
  }

  lemma TotalValue(d: Derived, src: Source, device: Id, a: Hour, c: Hour)
    requires a < c && HourStart(a) + DAY < YEAR_10000
    ensures var r := RecomputeWindow(d, src, device, HourStart(a), HourStart(c));
            var m, rest := DaySplit(a, c), StoredRest(d, device, EventsTotal, a, c);
            var events := WindowRows(src.raw, device, HourStart(a), HourStart(c));
            DailyRead(r, device, EventsTotal, HourStart(a), HourStart(a) + DAY).value ==
            Some(|Filter(events, InHours(a, m))| as real + Sum(Values(rest)))
  {
    hide *;
    var start, end := HourStart(a), HourStart(c);
    var m, rest := DaySplit(a, c), StoredRest(d, device, EventsTotal, a, c);
    var events := WindowRows(src.raw, device, start, end);
    var r := RecomputeWindow(d, src, device, start, end);
    var head := ReadFeature(r.hourly, device, EventsTotal, start, HourStart(m));
    DayRows(d, src, device, a, c, EventsTotal);
    forall i | 0 <= i < |head|
      ensures head[i].value == Some(|Bucket(events, a + i)| as real)
    {
      TotalOfHour(src, device, Bucket(events, a + i));
    }
    TotalOf(head, events, a);
    SummedDay(r, device, EventsTotal, start, HourStart(NextDay(a)), head, rest);
  }

  /** An event the window reads lies in one of its hours, or is a fraction of the second it ends at. */
  lemma ReadIsNear(raw: map<Id, RawRow>, device: Id, a: Hour, c: Hour, r: RawRow)
    requires a < c && ValidRaw(raw) && r in WindowRows(raw, device, HourStart(a), HourStart(c))
    ensures Between(r, a, c) || FracAtHour(r, c)
    ensures r.event.device == device && r.event.id in raw && raw[r.event.id] == r
  {
    hide IsoUtc, Accepted, InTextWindow, HourOf, FracAtHour, WindowRows, Selected, HourStart;
    var start, end := HourStart(a), HourStart(c);
    RowsInWindow(raw, device, start, end, r);
    var k :| k in WindowKeys(raw, device, start, end, None) && raw[k.id] == r;
    KeyOfDevice(raw, device, start, end, k);
    WindowHour(raw, device, a, c, k);
    assert ValidRow(k.id, raw[k.id]);
  }

  lemma ReadsSplit(raw: map<Id, RawRow>, device: Id, a: Hour, m: Hour, c: Hour)
    requires a < m <= c && ValidRaw(raw)
    ensures var events := WindowRows(raw, device, HourStart(a), HourStart(c));
            |events| == |Filter(events, InHours(a, m))| + |Filter(events, FromHourOn(m))|
  {
    hide Accepted, HourOf, FracAtHour, WindowRows, Filter, HourStart, ValidRaw;
    var events := WindowRows(raw, device, HourStart(a), HourStart(c));
    forall r | r in events
      ensures InHours(a, m)(r) <==> !FromHourOn(m)(r)
    {
      ReadIsNear(raw, device, a, c, r);
      if FracAtHour(r, c) {
        FracHour(r, c);
      }
    }
    FilterSplit(events, InHours(a, m), FromHourOn(m));
    assert |multiset(events)| == |events|;
  }

  lemma LateReads(raw: map<Id, RawRow>, device: Id, a: Hour, m: Hour, c: Hour)
    requires a < m <= c && ValidRaw(raw) && Fits(raw, device, HourStart(a), HourStart(c))
    ensures var late := Filter(WindowRows(raw, device, HourStart(a), HourStart(c)), FromHourOn(m));
            late == [] <==> NoEventIn(raw, device, m, c) && NoFracAt(raw, device, c)
  {
    hide Accepted, HourOf, FracAtHour, WindowRows, Filter, HourStart, ValidRaw, Fits;
    var events := WindowRows(raw, device, HourStart(a), HourStart(c));
    var late := Filter(events, FromHourOn(m));
    if late != [] {
      var r := late[0];
      assert r in late;
      ReadIsNear(raw, device, a, c, r);
      assert Between(r, m, c) || FracAtHour(r, c);
    }
    if id :| id in raw && raw[id].event.device == device && (Between(raw[id], m, c) || FracAtHour(raw[id], c)) {
      LateIsRead(raw, device, a, m, c, id);
      if FracAtHour(raw[id], c) {
        FracHour(raw[id], c);
      }
      assert raw[id] in late;
    }
  }

  lemma LateIsRead(raw: map<Id, RawRow>, device: Id, a: Hour, m: Hour, c: Hour, id: Id)
    requires a < m <= c && ValidRaw(raw) && Fits(raw, device, HourStart(a), HourStart(c))
    requires id in raw && raw[id].event.device == device && (Between(raw[id], m, c) || FracAtHour(raw[id], c))
    ensures raw[id] in WindowRows(raw, device, HourStart(a), HourStart(c))
  {
    hide IsoUtc, Accepted, InTextWindow, HourOf, FracAtHour, WindowRows, HourStart, Fits;
    var start, end := HourStart(a), HourStart(c);
    var k := Key(raw[id].event.time, id);
    assert ValidRow(id, raw[id]);
    WindowHour(raw, device, a, c, k);
    if Between(raw[id], m, c) {
      KeptByAligned(raw[id], a, c, HourOf(raw[id]));
    }
    assert k in WindowKeys(raw, device, start, end, None);
    RowsInWindow(raw, device, start, end, raw[id]);
  }

  lemma KeyOfDevice(raw: map<Id, RawRow>, device: Id, start: Moment, end: Moment, k: Key)
    requires k in WindowKeys(raw, device, start, end, None)
    ensures k.id in raw && raw[k.id].event.device == device && k.time == raw[k.id].event.time
  {
  }
}
