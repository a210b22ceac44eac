/** Recomputing a window of derived rows, and how recomputations compose. */
module Recompute {
  import opened Wrappers
  import opened Seqs
  import opened Order
  import opened Timestamps
  import opened TimeOrder
  import opened Types
  import opened Queries
  import opened Derivation

  datatype HourKey = HourKey(device: Id, hour: int)
  datatype FeatureKey = FeatureKey(device: Id, feature: Feature, hour: int)

  /** The derived tables of one feature version; `computed_at_utc` is left out, so equality is up to it. */
  datatype Derived = Derived(coverage: map<HourKey, CoverageRow>, hourly: map<FeatureKey, FeatureRow>)

  /** What a recomputation reads. */
  datatype Source = Source(raw: map<Id, RawRow>, beats: map<Id, BeatRow>)

  /** The hours of `hour_range(start, end)`: from the floor of the start, as long as they begin before the end. */
  function HoursOf(start: Moment, end: Moment): (hs: set<int>)
    ensures forall h :: h in hs <==> start / HOUR <= h && h * HOUR < end
  {
    var hs := HourSpan(start / HOUR, (end + HOUR - 1) / HOUR);
    forall h
      ensures h in hs <==> start / HOUR <= h && h * HOUR < end
    {
      LastHour(end, h);
    }
    hs
  }

  /** The hours from `a` up to, not including, `c`. */
  function HourSpan(a: int, c: int): (hs: set<int>)
    ensures forall h :: h in hs <==> a <= h < c
    decreases c - a
  {
    if a >= c then {} else HourSpan(a, c - 1) + {c - 1}
  }

  lemma LastHour(end: nat, h: int)
    ensures h < (end + HOUR - 1) / HOUR <==> h * HOUR < end
  {
    var q, r := (end + HOUR - 1) / HOUR, (end + HOUR - 1) % HOUR;
    assert end + HOUR - 1 == HOUR * q + r;
  }

  lemma HoursAreHours(start: Moment, end: Moment, h: int)
    requires start / HOUR <= h && h * HOUR < end
    ensures YEAR_1000 / HOUR <= h < YEAR_10000 / HOUR
  {
    assert YEAR_1000 == HOUR * (YEAR_1000 / HOUR) && YEAR_10000 == HOUR * (YEAR_10000 / HOUR);
  }

  /** The text filter with which stored hours are read back: `window_start_utc >= start AND window_start_utc < end`. */
  predicate Visible(h: int, start: Moment, end: Moment) {
    YEAR_1000 / HOUR <= h < YEAR_10000 / HOUR && InTextWindow(IsoUtc(HourStart(h)), IsoUtc(start), IsoUtc(end))
  }

  /** An hour label passes the filter when its second is not before the start's and is before the end's. */
  lemma VisibleHours(h: Hour, start: Moment, end: Moment)
    ensures Visible(h, start, end) <==> start / SECOND <= 3600 * h < end / SECOND
  {
    hide IsoUtc;
    HourKeyOrder(HourStart(h), start);
    HourKeyOrder(HourStart(h), end);
    assert HourStart(h) / SECOND == 3600 * h;
  }

  function CoverageKeys(device: Id, hs: set<int>): (ks: set<HourKey>)
    ensures forall k :: k in ks <==> k.device == device && k.hour in hs
  {
    var ks := set h | h in hs :: HourKey(device, h);
    forall k: HourKey | k.device == device && k.hour in hs
      ensures k in ks
    {
      assert k == HourKey(device, k.hour) && HourKey(device, k.hour) in ks;
    }
    ks
  }

  const FEATURES := {BatteryMean, ChargingMinutes, WifiMinutes, LocationCoverage, Movement,
                     Calls, Sms, HeartbeatCoverage, EventsTotal, MissingFlag}

  function FeatureKeys(device: Id, hs: set<int>): (ks: set<FeatureKey>)
    ensures forall k :: k in ks <==> k.device == device && k.hour in hs
  {
    var ks := set f, h | f in FEATURES && h in hs :: FeatureKey(device, f, h);
    forall k: FeatureKey | k.device == device && k.hour in hs
      ensures k in ks
    {
      EveryFeature(k.feature);
      assert k == FeatureKey(device, k.feature, k.hour) && FeatureKey(device, k.feature, k.hour) in ks;
    }
    ks
  }

  lemma EveryFeature(f: Feature)
    ensures f in FEATURES
  {
    match f {
      case BatteryMean =>
      case ChargingMinutes =>
      case WifiMinutes =>
      case LocationCoverage =>
      case Movement =>
      case Calls =>
      case Sms =>
      case HeartbeatCoverage =>
      case EventsTotal =>
      case MissingFlag =>
    }
  }

  function CoverageAfter(coverage: map<HourKey, CoverageRow>, src: Source, device: Id, start: Moment,
                         end: Moment): map<HourKey, CoverageRow> {
    var rows := WindowRows(src.raw, device, start, end);
    var expected := ExpectedSources(src.beats, device);
    map k | k in coverage.Keys + CoverageKeys(device, HoursOf(start, end)) ::
      if k.device == device && k.hour in HoursOf(start, end) then CoverageOf(Bucket(rows, k.hour), expected)
      else coverage[k]
  }

  /** The proportion the feature rows of an hour get: that of the coverage row read back, or zero. */
  function ProportionRead(coverage: map<HourKey, CoverageRow>, device: Id, h: int, start: Moment, end: Moment): real {
    if Visible(h, start, end) && HourKey(device, h) in coverage then coverage[HourKey(device, h)].proportion else 0.0
  }

  function HourlyAfter(hourly: map<FeatureKey, FeatureRow>, coverage: map<HourKey, CoverageRow>, src: Source,
                       device: Id, start: Moment, end: Moment): map<FeatureKey, FeatureRow> {
    var rows := WindowRows(src.raw, device, start, end);
    map k | k in hourly.Keys + FeatureKeys(device, HoursOf(start, end)) ::
      if k.device == device && k.hour in HoursOf(start, end) then
        FeatureOf(k.feature, Bucket(rows, k.hour), ProportionRead(coverage, device, k.hour, start, end))
      else hourly[k]
  }

  /** `compute_hourly_features`, which recomputes coverage first. */
  function RecomputeWindow(d: Derived, src: Source, device: Id, start: Moment, end: Moment): Derived {
    var coverage := CoverageAfter(d.coverage, src, device, start, end);
    Derived(coverage, HourlyAfter(d.hourly, coverage, src, device, start, end))
  }

  // ---------------------------------------------------------------- the specification of an hour

  /** The rows an hour should have: computed from `rows`, read back or not. */
  function CoverageSpec(src: Source, device: Id, rows: seq<RawRow>): CoverageRow {
    CoverageOf(rows, ExpectedSources(src.beats, device))
  }

  function FeatureSpec(src: Source, device: Id, f: Feature, rows: seq<RawRow>): FeatureRow {
    FeatureOf(f, rows, CoverageSpec(src, device, rows).proportion)
  }

  /** The tables with the hours in `hs` set from the rows that `rowsAt` gives them. */
  function Overwrite(d: Derived, src: Source, device: Id, hs: set<int>, rowsAt: int -> seq<RawRow>): Derived {
    Derived(
      map k | k in d.coverage.Keys + CoverageKeys(device, hs) ::
        if k.device == device && k.hour in hs then CoverageSpec(src, device, rowsAt(k.hour)) else d.coverage[k],
      map k | k in d.hourly.Keys + FeatureKeys(device, hs) ::
        if k.device == device && k.hour in hs then FeatureSpec(src, device, k.feature, rowsAt(k.hour)) else d.hourly[k])
  }

  /** Every event of the hour. */
  function FullHour(raw: map<Id, RawRow>, device: Id): int -> seq<RawRow> {
    (h: int) => HourRows(raw, device, h)
  }

  /** The hour without the fractional events of its first second. */
  function TrimmedKeys(raw: map<Id, RawRow>, device: Id, h: int): set<Key> {
    set k | k in HourKeys(raw, device, h) && !FracAtHour(raw[k.id], h)
  }

  function TrimmedRows(raw: map<Id, RawRow>, device: Id, h: int): seq<RawRow> {
    RowsOf(raw, Enumerate(TrimmedKeys(raw, device, h)))
  }

  /** What a window that starts at hour `a` reads for each of its hours. */
  function FromHour(raw: map<Id, RawRow>, device: Id, a: int): int -> seq<RawRow> {
    (h: int) => if h == a then TrimmedRows(raw, device, h) else HourRows(raw, device, h)
  }

  lemma AlignedSpan(a: Hour, c: Hour)
    ensures HoursOf(HourStart(a), HourStart(c)) == HourSpan(a, c)
  {
    assert HourStart(a) / HOUR == a;
  }

  lemma AlignedClip(raw: map<Id, RawRow>, device: Id, a: Hour, c: Hour, h: int)
    requires ValidRaw(raw) && a <= h < c
    ensures ClippedRows(raw, device, h, HourStart(a), HourStart(c)) == FromHour(raw, device, a)(h)
  {
    hide IsoUtc, Accepted, Instant, HourOf, FracAtHour, InTextWindow;
    forall k | k in HourKeys(raw, device, h)
      ensures InTextWindow(k.time, IsoUtc(HourStart(a)), IsoUtc(HourStart(c))) <==>
              !(h == a && FracAtHour(raw[k.id], a))
    {
      KeptByAligned(raw[k.id], a, c, h);
    }
    if h == a {
      assert ClippedKeys(raw, device, h, HourStart(a), HourStart(c)) == TrimmedKeys(raw, device, h);
    } else {
      assert ClippedKeys(raw, device, h, HourStart(a), HourStart(c)) == HourKeys(raw, device, h);
    }
  }

  lemma TrimmedSize(raw: map<Id, RawRow>, device: Id, h: int)
    ensures NoFracAt(raw, device, h) ==> TrimmedRows(raw, device, h) == HourRows(raw, device, h)
    ensures !NoFracAt(raw, device, h) ==> |TrimmedRows(raw, device, h)| < |HourRows(raw, device, h)|
  {
    hide Accepted, FracInSecond, HourOf, FracAtHour;
    var full, cut := HourKeys(raw, device, h), TrimmedKeys(raw, device, h);
    if NoFracAt(raw, device, h) {
      assert cut == full;
    } else {
      var id :| id in raw && raw[id].event.device == device && FracAtHour(raw[id], h);
      FracHour(raw[id], h);
      var k := Key(raw[id].event.time, id);
      assert k in full && k !in cut;
      SubsetSize(cut, full - {k});
    }
  }

  lemma AlignedVisible(a: Hour, c: Hour, h: int)
    requires a <= h < c
    ensures Visible(h, HourStart(a), HourStart(c))
  {
    hide Visible;
    assert HourStart(a) / SECOND == 3600 * a && HourStart(c) / SECOND == 3600 * c;
    VisibleHours(h, HourStart(a), HourStart(c));
  }

  /** A recomputation of whole hours writes, for each of them, the specification of the rows it reads. */
  lemma AlignedRecompute(d: Derived, src: Source, device: Id, a: Hour, c: Hour)
    requires ValidRaw(src.raw) && Fits(src.raw, device, HourStart(a), HourStart(c))
    ensures RecomputeWindow(d, src, device, HourStart(a), HourStart(c)) ==
            Overwrite(d, src, device, HourSpan(a, c), FromHour(src.raw, device, a))
  {
    hide *;
    var start, end := HourStart(a), HourStart(c);
    AlignedSpan(a, c);
    forall h | h in HourSpan(a, c)
      ensures Bucket(WindowRows(src.raw, device, start, end), h) == FromHour(src.raw, device, a)(h) &&
              Visible(h, start, end)
    {
      SpanMember(a, c, h);
      BucketIsClipped(src.raw, device, h, start, end);
      AlignedClip(src.raw, device, a, c, h);
      AlignedVisible(a, c, h);
    }
    RecomputeIsOverwrite(d, src, device, start, end, FromHour(src.raw, device, a));
  }

  lemma SpanMember(a: int, c: int, h: int)
    ensures h in HourSpan(a, c) <==> a <= h < c
  {
  }

  lemma RecomputeIsOverwrite(d: Derived, src: Source, device: Id, start: Moment, end: Moment,
                             rowsAt: int -> seq<RawRow>)
    requires forall h :: h in HoursOf(start, end) ==>
               Bucket(WindowRows(src.raw, device, start, end), h) == rowsAt(h) && Visible(h, start, end)
    ensures RecomputeWindow(d, src, device, start, end) == Overwrite(d, src, device, HoursOf(start, end), rowsAt)
  {
    hide CoverageOf, FeatureOf, Bucket, WindowRows, HoursOf, CoverageKeys, FeatureKeys, Visible, ExpectedSources;
    var r, o := RecomputeWindow(d, src, device, start, end), Overwrite(d, src, device, HoursOf(start, end), rowsAt);
    assert r.coverage == o.coverage;
    forall k | k in r.hourly
      ensures r.hourly[k] == o.hourly[k]
    {
      assert k.device == device && k.hour in HoursOf(start, end) ==> HourKey(device, k.hour) in r.coverage;
    }
    assert r.hourly.Keys == o.hourly.Keys;
  }

  // ---------------------------------------------------------------- composition

  lemma OverwriteTwice(d: Derived, src: Source, device: Id, p: set<int>, f: int -> seq<RawRow>, q: set<int>,
                       g: int -> seq<RawRow>, r: int -> seq<RawRow>)
    requires forall h :: h in p && h !in q ==> r(h) == f(h)
    requires forall h :: h in q ==> r(h) == g(h)
    ensures Overwrite(Overwrite(d, src, device, p, f), src, device, q, g) == Overwrite(d, src, device, p + q, r)
  {
    hide CoverageSpec, FeatureSpec, CoverageKeys, FeatureKeys;
    var i := Overwrite(d, src, device, p, f);
    var x, y := Overwrite(i, src, device, q, g), Overwrite(d, src, device, p + q, r);
    forall k
      ensures k in x.coverage <==> k in y.coverage
      ensures k in x.coverage ==> x.coverage[k] == y.coverage[k]
    {
      assert k.hour in q ==> r(k.hour) == g(k.hour);
      assert k.hour in p && k.hour !in q ==> r(k.hour) == f(k.hour);
    }
    forall k
      ensures k in x.hourly <==> k in y.hourly
      ensures k in x.hourly ==> x.hourly[k] == y.hourly[k]
    {
      assert k.hour in q ==> r(k.hour) == g(k.hour);
      assert k.hour in p && k.hour !in q ==> r(k.hour) == f(k.hour);
    }
  }

  lemma OverwriteSame(d: Derived, src: Source, device: Id, p: set<int>, f: int -> seq<RawRow>, g: int -> seq<RawRow>)
    requires forall h :: h in p ==> f(h) == g(h)
    ensures Overwrite(d, src, device, p, f) == Overwrite(d, src, device, p, g)
  {
    hide CoverageSpec, FeatureSpec, CoverageKeys, FeatureKeys;
    var x, y := Overwrite(d, src, device, p, f), Overwrite(d, src, device, p, g);
    forall k
      ensures k in x.coverage <==> k in y.coverage
      ensures k in x.coverage ==> x.coverage[k] == y.coverage[k]
    {
      assert k.hour in p ==> f(k.hour) == g(k.hour);
    }
    forall k
      ensures k in x.hourly <==> k in y.hourly
      ensures k in x.hourly ==> x.hourly[k] == y.hourly[k]
    {
      assert k.hour in p ==> f(k.hour) == g(k.hour);
    }
  }

  /**
   Recomputing two adjacent windows gives the tables of one recomputation over both, exactly when no event of
   the device has a fraction in the first second of the hour where they meet.
   */
  lemma AdjacentWindows(d: Derived, src: Source, device: Id, a: Hour, b: Hour, c: Hour)
    requires a < b < c && ValidRaw(src.raw)
    requires Fits(src.raw, device, HourStart(a), HourStart(b)) && Fits(src.raw, device, HourStart(b), HourStart(c)) &&
             Fits(src.raw, device, HourStart(a), HourStart(c))
    ensures var left := RecomputeWindow(d, src, device, HourStart(a), HourStart(b));
            RecomputeWindow(left, src, device, HourStart(b), HourStart(c)) ==
              RecomputeWindow(d, src, device, HourStart(a), HourStart(c)) <==>
            NoFracAt(src.raw, device, b)
  {
    hide *;
    var raw := src.raw;
    var left := RecomputeWindow(d, src, device, HourStart(a), HourStart(b));
    AlignedRecompute(d, src, device, a, b);
    AlignedRecompute(left, src, device, b, c);
    AlignedRecompute(d, src, device, a, c);
    JoinSpans(d, src, device, a, b, c);
    TrimmedSize(raw, device, b);
    if NoFracAt(raw, device, b) {
      OverwriteSame(d, src, device, HourSpan(a, c), Joined(raw, device, a, b), FromHour(raw, device, a)) by {
        forall h | h in HourSpan(a, c)
          ensures Joined(raw, device, a, b)(h) == FromHour(raw, device, a)(h)
        {
          JoinedAt(raw, device, a, b, h);
        }
      }
    } else {
      DifferAt(d, src, device, a, b, c);
    }
  }

  /** What two adjacent windows read for each hour. */
  function Joined(raw: map<Id, RawRow>, device: Id, a: int, b: int): int -> seq<RawRow> {
    (h: int) => if h == a || h == b then TrimmedRows(raw, device, h) else HourRows(raw, device, h)
  }

  lemma JoinedAt(raw: map<Id, RawRow>, device: Id, a: int, b: int, h: int)
    requires TrimmedRows(raw, device, b) == HourRows(raw, device, b)
    ensures Joined(raw, device, a, b)(h) == FromHour(raw, device, a)(h)
  {
  }

  lemma JoinSpans(d: Derived, src: Source, device: Id, a: int, b: int, c: int)
    requires a < b < c
    ensures Overwrite(Overwrite(d, src, device, HourSpan(a, b), FromHour(src.raw, device, a)), src, device,
            HourSpan(b, c), FromHour(src.raw, device, b)) ==
            Overwrite(d, src, device, HourSpan(a, c), Joined(src.raw, device, a, b))
  {
    hide TrimmedRows, HourRows, Overwrite;
    OverwriteTwice(d, src, device, HourSpan(a, b), FromHour(src.raw, device, a), HourSpan(b, c),
      FromHour(src.raw, device, b), Joined(src.raw, device, a, b));
    assert HourSpan(a, b) + HourSpan(b, c) == HourSpan(a, c);
  }

  lemma DifferAt(d: Derived, src: Source, device: Id, a: int, b: int, c: int)
    requires a < b < c && |TrimmedRows(src.raw, device, b)| < |HourRows(src.raw, device, b)|
    ensures Overwrite(d, src, device, HourSpan(a, c), Joined(src.raw, device, a, b)) !=
            Overwrite(d, src, device, HourSpan(a, c), FromHour(src.raw, device, a))
  {
    hide TrimmedRows, HourRows, FeatureSpec, ExpectedSources, FeatureKeys;
    var x := Overwrite(d, src, device, HourSpan(a, c), Joined(src.raw, device, a, b));
    var y := Overwrite(d, src, device, HourSpan(a, c), FromHour(src.raw, device, a));
    assert b in HourSpan(a, c) && HourKey(device, b) in x.coverage;
    assert x.coverage[HourKey(device, b)].events != y.coverage[HourKey(device, b)].events;
  }

  // ---------------------------------------------------------------- any number of recomputations

  datatype Window = Window(first: Hour, last: Hour)

  function RecomputeAll(d: Derived, src: Source, device: Id, ws: seq<Window>): Derived {
    if ws == [] then d
    else
      var w := ws[|ws| - 1];
      RecomputeWindow(RecomputeAll(d, src, device, ws[..|ws| - 1]), src, device, HourStart(w.first), HourStart(w.last))
  }

  function Covered(ws: seq<Window>): set<int> {
    if ws == [] then {} else Covered(ws[..|ws| - 1]) + HourSpan(ws[|ws| - 1].first, ws[|ws| - 1].last)
  }

  ghost predicate Clean(src: Source, device: Id, ws: seq<Window>) {
    forall w :: w in ws ==>
             NoFracAt(src.raw, device, w.first) &&
             Fits(src.raw, device, HourStart(w.first), HourStart(w.last))
  }

  /**
   After any list of recomputations of whole hours, in any order and with any overlaps, every hour covered has
   the rows of its full specification and every other row is as it was.
   */
  lemma {:induction false} RecomputeAllIsSpec(d: Derived, src: Source, device: Id, ws: seq<Window>)
    requires ValidRaw(src.raw) && Clean(src, device, ws)
    ensures RecomputeAll(d, src, device, ws) == Overwrite(d, src, device, Covered(ws), FullHour(src.raw, device))
  {
    if ws == [] {
      OverwriteNothing(d, src, device, FullHour(src.raw, device));
    } else {
      var n := |ws| - 1;
      assert ws[n] in ws && forall x :: x in ws[..n] ==> x in ws;
      RecomputeAllIsSpec(d, src, device, ws[..n]);
      OneMoreWindow(d, src, device, Covered(ws[..n]), ws[n]);
    }
  }

  lemma OneMoreWindow(d: Derived, src: Source, device: Id, hs: set<int>, w: Window)
    requires ValidRaw(src.raw) && NoFracAt(src.raw, device, w.first) &&
             Fits(src.raw, device, HourStart(w.first), HourStart(w.last))
    ensures RecomputeWindow(Overwrite(d, src, device, hs, FullHour(src.raw, device)), src, device, HourStart(w.first),
            HourStart(w.last)) ==
            Overwrite(d, src, device, hs + HourSpan(w.first, w.last), FullHour(src.raw, device))
  {
    hide *;
    var full, from := FullHour(src.raw, device), FromHour(src.raw, device, w.first);
    AlignedRecompute(Overwrite(d, src, device, hs, full), src, device, w.first, w.last);
    forall h
      ensures from(h) == full(h)
    {
      CleanFrom(src.raw, device, w.first, h);
    }
    OverwriteTwice(d, src, device, hs, full, HourSpan(w.first, w.last), from, full);
  }

  lemma CleanFrom(raw: map<Id, RawRow>, device: Id, a: int, h: int)
    requires NoFracAt(raw, device, a)
    ensures FromHour(raw, device, a)(h) == FullHour(raw, device)(h)
  {
    hide TrimmedRows, HourRows, FracAtHour;
    TrimmedSize(raw, device, a);
  }

  lemma OverwriteNothing(d: Derived, src: Source, device: Id, f: int -> seq<RawRow>)
    ensures Overwrite(d, src, device, {}, f) == d
  {
  }

  /** So two lists of recomputations that cover the same hours leave the same tables. */
  lemma SameHoursSameTables(d: Derived, src: Source, device: Id, ws: seq<Window>, vs: seq<Window>)
    requires ValidRaw(src.raw) && Clean(src, device, ws) && Clean(src, device, vs) && Covered(ws) == Covered(vs)
    ensures RecomputeAll(d, src, device, ws) == RecomputeAll(d, src, device, vs)
  {
    RecomputeAllIsSpec(d, src, device, ws);
    RecomputeAllIsSpec(d, src, device, vs);
  }
}
