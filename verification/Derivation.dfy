/** Coverage and hourly features as functions of the events of an hour (coverage.py, features.py). */
module Derivation {
  import opened Wrappers
  import opened Seqs
  import opened Order
  import opened Timestamps
  import opened TimeOrder
  import opened Types
  import opened Queries

  // ---------------------------------------------------------------- rounding

  /** Python's `round`: to the nearest, ties to even. */
  function RoundHalfEven(x: real): int {
    var f := x.Floor;
    var r := x - f as real;
    if r < 0.5 then f
    else if r > 0.5 then f + 1
    else if f % 2 == 0 then f
    else f + 1
  }

  function Round2(x: real): real {
    RoundHalfEven(x * 100.0) as real / 100.0
  }

  function Round4(x: real): real {
    RoundHalfEven(x * 10_000.0) as real / 10_000.0
  }

  // ---------------------------------------------------------------- coverage

  /** A JSON list that was sorted before it was stored is the collection it lists. */
  datatype CoverageRow = CoverageRow(expected: multiset<string>, observed: set<string>, events: nat, heartbeats: nat,
                                     proportion: real, isMissing: bool)

  const DEFAULT_EXPECTED := ["battery", "wifi"]

  function BeatKeys(beats: map<Id, BeatRow>, device: Id): set<Key> {
    set id | id in beats && beats[id].device == device :: Key(beats[id].time, id)
  }

  /** The latest heartbeat by text; SQLite leaves ties open, here the greatest id wins. */
  function LatestHeartbeat(beats: map<Id, BeatRow>, device: Id): Option<BeatRow> {
    var ks := Enumerate(BeatKeys(beats, device));
    if ks == [] then None
    else
      assert ks[|ks| - 1] in BeatKeys(beats, device);
      Some(beats[ks[|ks| - 1].id])
  }

  function ExpectedSources(beats: map<Id, BeatRow>, device: Id): seq<string> {
    match LatestHeartbeat(beats, device)
    case Some(b) => if b.enabledCollectors != [] then b.enabledCollectors else DEFAULT_EXPECTED
    case None => DEFAULT_EXPECTED
  }

  function SourcesOf(rows: seq<RawRow>): set<string> {
    set r | r in rows :: r.event.source
  }

  function OfSource(source: string): RawRow -> bool {
    (r: RawRow) => r.event.source == source
  }

  function Ratio(part: nat, whole: nat): real
    requires whole > 0
  {
    part as real / whole as real
  }

  /** The coverage row of an hour whose events are `rows`. */
  function CoverageOf(rows: seq<RawRow>, expected: seq<string>): CoverageRow {
    var wanted := ToSet(expected);
    var observed := SourcesOf(rows) * wanted;
    CoverageRow(multiset(expected), observed, |rows|, |Filter(rows, OfSource(HEARTBEAT))|,
                if wanted == {} then 0.0 else Round4(Ratio(|observed|, |wanted|)), rows == [])
  }

  // ---------------------------------------------------------------- hourly features

  datatype Feature = BatteryMean | ChargingMinutes | WifiMinutes | LocationCoverage | Movement
                   | Calls | Sms | HeartbeatCoverage | EventsTotal | MissingFlag

  datatype Flag = Partial | Experimental

  datatype FeatureRow = FeatureRow(value: Option<real>, bySource: Option<map<string, nat>>, coverage: real,
                                   flags: set<Flag>)

  function OfKind(kind: string): RawRow -> bool {
    (r: RawRow) => r.event.kind == kind
  }

  function Kind(rows: seq<RawRow>, kind: string): seq<RawRow> {
    Filter(rows, OfKind(kind))
  }

  function Mean(values: seq<real>): Option<real> {
    if values == [] then None else Some(Sum(values) / |values| as real)
  }

  function SampleMinutes(count: nat, window: nat, expected: nat): real {
    if expected == 0 then 0.0
    else
      var share := Ratio(count, expected);
      Round2((if share < 1.0 then share else 1.0) * window as real)
  }

  /** The numbers a list comprehension picks out of the payloads that have one. */
  function Numbers(rows: seq<RawRow>, get: Payload -> Option<real>): seq<real> {
    if rows == [] then []
    else (match get(rows[0].event.payload) case Some(v) => [v] case None => []) + Numbers(rows[1..], get)
  }

  function Percentage(): Payload -> Option<real> {
    (p: Payload) => p.percentage
  }

  function Magnitude(): Payload -> Option<real> {
    (p: Payload) => p.magnitude
  }

  function Charging(): RawRow -> bool {
    (r: RawRow) => r.event.payload.charging
  }

  function Connected(): RawRow -> bool {
    (r: RawRow) => r.event.payload.connected
  }

  function Located(): RawRow -> bool {
    (r: RawRow) => r.event.payload.locationAvailable
  }

  function AtLeastOne(n: nat): nat {
    if n == 0 then 1 else n
  }

  /** `by_source`: how many rows each source has. */
  function BySource(rows: seq<RawRow>): map<string, nat> {
    map s | s in SourcesOf(rows) :: |Filter(rows, OfSource(s))|
  }

  /** Value, text and flags of a feature, from the events by type, the counts by source and the number of events. */
  function ValueFrom(f: Feature, of: string -> seq<RawRow>, bySource: map<string, nat>, count: nat):
      (Option<real>, Option<map<string, nat>>, set<Flag>) {
    match f
    case BatteryMean =>
      var v := Numbers(of("battery_sample"), Percentage());
      (Mean(v), None, if v == [] then {Partial} else {})
    case ChargingMinutes =>
      var b := of("battery_sample");
      (Some(SampleMinutes(|Filter(b, Charging())|, 60, AtLeastOne(|b|))), None, {})
    case WifiMinutes =>
      var w := of("wifi_sample");
      (Some(SampleMinutes(|Filter(w, Connected())|, 60, AtLeastOne(|w|))), None, {})
    case LocationCoverage =>
      var l := of("location_sample");
      (Some(if l == [] then 0.0 else Round4(Ratio(|Filter(l, Located())|, |l|))), None,
       if l == [] then {Partial} else {})
    case Movement =>
      var v := Numbers(of("sensor_summary"), Magnitude());
      (Mean(v), None, if v == [] then {Experimental, Partial} else {Experimental})
    case Calls => (Some(|of("call_record")| as real), None, {})
    case Sms => (Some(|of("sms_record")| as real), None, {})
    case HeartbeatCoverage => (Some(if of("collector_heartbeat") == [] then 0.0 else 1.0), None, {})
    case EventsTotal => (Some(count as real), Some(bySource), {})
    case MissingFlag => (Some(if count == 0 then 1.0 else 0.0), None, {})
  }

  function OfType(rows: seq<RawRow>): string -> seq<RawRow> {
    (kind: string) => Kind(rows, kind)
  }

  /** Value, text and flags of a feature for the events of an hour. */
  function FeatureValue(f: Feature, rows: seq<RawRow>): (Option<real>, Option<map<string, nat>>, set<Flag>) {
    ValueFrom(f, OfType(rows), BySource(rows), |rows|)
  }

  function FeatureOf(f: Feature, rows: seq<RawRow>, coverage: real): FeatureRow {
    var (value, text, flags) := FeatureValue(f, rows);
    FeatureRow(value, text, Round4(coverage), flags)
  }

  // ---------------------------------------------------------------- what the values mean

  lemma RoundBounds(x: real, n: nat)
    requires 0.0 <= x <= n as real
    ensures 0 <= RoundHalfEven(x) <= n
  {
  }

  /** Rounding never turns the order of two numbers around. */
  lemma RoundMonotone(x: real, y: real)
    requires x <= y
    ensures RoundHalfEven(x) <= RoundHalfEven(y)
  {
    if x.Floor == y.Floor {
    } else {
      assert x.Floor + 1 <= y.Floor;
    }
  }

  lemma RatioBounds(part: nat, whole: nat)
    requires part <= whole && 0 < whole
    ensures 0.0 <= Ratio(part, whole) <= 1.0
  {
  }

  lemma Round4Bounds(x: real)
    requires 0.0 <= x <= 1.0
    ensures 0.0 <= Round4(x) <= 1.0
  {
    RoundBounds(x * 10_000.0, 10_000);
  }

  lemma MinutesBounds(count: nat, expected: nat)
    ensures 0.0 <= SampleMinutes(count, 60, expected) <= 60.0
  {
    if expected > 0 {
      var share := Ratio(count, expected);
      var clipped := if share < 1.0 then share else 1.0;
      assert 0.0 <= share by {
        assert count as real / expected as real >= 0.0;
      }
      RoundBounds(clipped * 60.0 * 100.0, 6000);
    }
  }

  /** Minutes stay in the hour, proportions in the unit interval, counts and flags are what they count. */
  lemma FeatureRanges(rows: seq<RawRow>)
    ensures forall f :: f == ChargingMinutes || f == WifiMinutes ==>
              FeatureValue(f, rows).0.Some? && 0.0 <= FeatureValue(f, rows).0.value <= 60.0
    ensures var l := FeatureValue(LocationCoverage, rows).0; l.Some? && 0.0 <= l.value <= 1.0
    ensures FeatureValue(MissingFlag, rows).0 == Some(1.0) <==> FeatureValue(EventsTotal, rows).0 == Some(0.0)
  {
    hide FeatureValue;
    MinutesInHour(rows);
    LocationInUnit(rows);
    MissingIsEmpty(rows);
  }

  lemma MinutesInHour(rows: seq<RawRow>)
    ensures forall f :: f == ChargingMinutes || f == WifiMinutes ==>
              FeatureValue(f, rows).0.Some? && 0.0 <= FeatureValue(f, rows).0.value <= 60.0
  {
    hide RoundHalfEven, SampleMinutes, Kind, Filter, AtLeastOne;
    var b, w := Kind(rows, "battery_sample"), Kind(rows, "wifi_sample");
    MinutesBounds(|Filter(b, Charging())|, AtLeastOne(|b|));
    MinutesBounds(|Filter(w, Connected())|, AtLeastOne(|w|));
  }

  lemma LocationInUnit(rows: seq<RawRow>)
    ensures var l := FeatureValue(LocationCoverage, rows).0; l.Some? && 0.0 <= l.value <= 1.0
  {
    hide Round4, Ratio, Kind;
    var l := Kind(rows, "location_sample");
    if l != [] {
      RatioBounds(|Filter(l, Located())|, |l|);
      Round4Bounds(Ratio(|Filter(l, Located())|, |l|));
    }
  }

  lemma MissingIsEmpty(rows: seq<RawRow>)
    ensures FeatureValue(MissingFlag, rows).0 == Some(1.0) <==> FeatureValue(EventsTotal, rows).0 == Some(0.0)
  {
    hide Kind, BySource;
  }

  // ---------------------------------------------------------------- means and counts

  /** All values lie in the interval. */
  ghost predicate Within(values: seq<real>, lo: real, hi: real) {
    forall v :: v in values ==> lo <= v <= hi
  }

  function Times(x: real, n: nat): real {
    x * n as real
  }

  lemma OneMore(x: real, n: nat)
    ensures Times(x, 0) == 0.0 && Times(x, n + 1) == x + Times(x, n)
  {
    assert (n + 1) as real == n as real + 1.0;
  }

  lemma {:induction false} SumWithin(values: seq<real>, lo: real, hi: real)
    requires Within(values, lo, hi)
    ensures Times(lo, |values|) <= Sum(values) <= Times(hi, |values|)
  {
    hide Times;
    if values == [] {
      OneMore(lo, 0);
      OneMore(hi, 0);
    } else {
      assert values[0] in values && forall v :: v in values[1..] ==> v in values;
      SumWithin(values[1..], lo, hi);
      OneMore(lo, |values| - 1);
      OneMore(hi, |values| - 1);
    }
  }

  lemma Quotient(sum: real, n: nat, lo: real, hi: real)
    requires n > 0 && Times(lo, n) <= sum <= Times(hi, n)
    ensures lo <= sum / n as real <= hi
  {
  }

  /** A mean lies between any bounds of its values, and is absent exactly when there are none. */
  lemma MeanWithin(values: seq<real>, lo: real, hi: real)
    requires Within(values, lo, hi)
    ensures Mean(values).None? <==> values == []
    ensures Mean(values).Some? ==> lo <= Mean(values).value <= hi
  {
    if values != [] {
      SumWithin(values, lo, hi);
      Quotient(Sum(values), |values|, lo, hi);
    }
  }

  lemma {:induction false} NumbersMember(rows: seq<RawRow>, get: Payload -> Option<real>, v: real)
    ensures v in Numbers(rows, get) <==> exists r :: r in rows && get(r.event.payload) == Some(v)
  {
    if rows != [] {
      assert rows == [rows[0]] + rows[1..];
      NumbersMember(rows[1..], get, v);
      if r :| r in rows && get(r.event.payload) == Some(v) {
        assert r == rows[0] || r in rows[1..];
      }
    }
  }

  /** The numbers that events of one type report. */
  ghost predicate Reported(rows: seq<RawRow>, kind: string, get: Payload -> Option<real>, v: real) {
    exists r :: r in rows && r.event.kind == kind && get(r.event.payload) == Some(v)
  }

  lemma MeanOfReported(rows: seq<RawRow>, kind: string, get: Payload -> Option<real>, lo: real, hi: real)
    ensures var m := Mean(Numbers(Kind(rows, kind), get));
            && (m.None? <==> forall v :: !Reported(rows, kind, get, v))
            && ((forall v :: Reported(rows, kind, get, v) ==> lo <= v <= hi) && m.Some? ==> lo <= m.value <= hi)
  {
    hide Numbers, Mean;
    var values := Numbers(Kind(rows, kind), get);
    forall v
      ensures v in values <==> Reported(rows, kind, get, v)
    {
      NumbersMember(Kind(rows, kind), get, v);
    }
    MeanSome(values);
    if values != [] {
      assert values[0] in values && Reported(rows, kind, get, values[0]);
    } else {
      forall v
        ensures !Reported(rows, kind, get, v)
      {
        assert v !in values;
      }
    }
    if forall v :: Reported(rows, kind, get, v) ==> lo <= v <= hi {
      MeanWithin(values, lo, hi);
    }
  }

  lemma MeanSome(values: seq<real>)
    ensures Mean(values).None? <==> values == []
  {
  }

  /**
   The two means lie between any bounds of the numbers reported, and are absent exactly when none is, which is
   what the partial flag says.
   */
  lemma FeatureMeans(rows: seq<RawRow>, lo: real, hi: real)
    ensures var b := FeatureValue(BatteryMean, rows);
            && (b.0.None? <==> forall v :: !Reported(rows, "battery_sample", Percentage(), v))
            && (b.0.None? <==> Partial in b.2)
            && ((forall v :: Reported(rows, "battery_sample", Percentage(), v) ==> lo <= v <= hi) && b.0.Some? ==>
                  lo <= b.0.value <= hi)
    ensures var m := FeatureValue(Movement, rows);
            && (m.0.None? <==> forall v :: !Reported(rows, "sensor_summary", Magnitude(), v))
            && (m.0.None? <==> Partial in m.2) && Experimental in m.2
            && ((forall v :: Reported(rows, "sensor_summary", Magnitude(), v) ==> lo <= v <= hi) && m.0.Some? ==>
                  lo <= m.0.value <= hi)
  {
    hide Numbers, Mean, Kind, Reported;
    MeanOfReported(rows, "battery_sample", Percentage(), lo, hi);
    MeanOfReported(rows, "sensor_summary", Magnitude(), lo, hi);
    MeanSome(Numbers(Kind(rows, "battery_sample"), Percentage()));
    MeanSome(Numbers(Kind(rows, "sensor_summary"), Magnitude()));
  }

  /** Calls, messages and heartbeats are events of disjoint types, and a heartbeat is what the coverage asks for. */
  lemma FeatureCounts(rows: seq<RawRow>)
    ensures var calls, sms := FeatureValue(Calls, rows).0, FeatureValue(Sms, rows).0;
            var total, heartbeat := FeatureValue(EventsTotal, rows).0, FeatureValue(HeartbeatCoverage, rows).0;
            && calls.Some? && sms.Some? && total.Some? && heartbeat.Some?
            && 0.0 <= calls.value && 0.0 <= sms.value && calls.value + sms.value + heartbeat.value <= total.value
            && heartbeat == Some(if exists r :: r in rows && r.event.kind == "collector_heartbeat" then 1.0 else 0.0)
  {
    KindsApart(rows);
    SomeKind(rows, "collector_heartbeat");
  }

  lemma {:induction false} KindsApart(rows: seq<RawRow>)
    ensures |Kind(rows, "call_record")| + |Kind(rows, "sms_record")| + |Kind(rows, "collector_heartbeat")| <= |rows|
  {
    if rows != [] {
      KindsApart(rows[1..]);
    }
  }

  lemma SomeKind(rows: seq<RawRow>, kind: string)
    ensures Kind(rows, kind) != [] <==> exists r :: r in rows && r.event.kind == kind
  {
    var found := Kind(rows, kind);
    assert found != [] ==> found[0] in found;
    forall r | r in rows && r.event.kind == kind
      ensures found != []
    {
      assert r in found;
    }
  }

  /**
   Coverage is a proportion.  It reads as complete exactly when at most one expected source in twenty thousand
   is unobserved (the four digits it is rounded to), so for any shorter list exactly when none is.
   */
  lemma CoverageRange(rows: seq<RawRow>, expected: seq<string>)
    requires expected != []
    ensures var c := CoverageOf(rows, expected);
            var wanted := ToSet(expected);
            0.0 <= c.proportion <= 1.0 && (c.proportion == 1.0 <==> 20_000 * |wanted - SourcesOf(rows)| <= |wanted|)
  {
    var wanted := ToSet(expected);
    var observed := SourcesOf(rows) * wanted;
    assert expected[0] in wanted;
    var missing := wanted - SourcesOf(rows);
    assert wanted == observed + missing && observed !! missing;
    hide RoundHalfEven, Round4, Ratio;
    RatioBounds(|observed|, |wanted|);
    Round4Bounds(Ratio(|observed|, |wanted|));
    RoundsToOne(|observed|, |wanted|);
  }

  lemma RoundsToOne(part: nat, whole: nat)
    requires part <= whole && 0 < whole
    ensures Round4(Ratio(part, whole)) == 1.0 <==> 20_000 * (whole - part) <= whole
  {
    var q := Ratio(part, whole);
    RatioBounds(part, whole);
    TopOfScale(q * 10_000.0);
    ScaleUp(q, part as real, whole as real);
  }

  lemma TopOfScale(x: real)
    requires 0.0 <= x <= 10_000.0
    ensures RoundHalfEven(x) == 10_000 <==> x >= 9999.5
  {
    if x >= 9999.5 {
      assert x < 10_000.0 ==> x.Floor == 9999;
    }
  }

  lemma ScaleUp(q: real, part: real, whole: real)
    requires whole > 0.0 && q == part / whole
    ensures q * 10_000.0 >= 9999.5 <==> 20_000.0 * (whole - part) <= whole
  {
    assert q * whole == part;
    var d := q * 10_000.0 - 9999.5;
    assert d * whole == 10_000.0 * part - 9999.5 * whole;
    if d >= 0.0 {
      assert d * whole >= 0.0;
    } else {
      assert d * whole < 0.0;
    }
  }

  function Total(m: map<string, nat>): nat {
    SumOver(m, m.Keys)
  }

  function SumOver(m: map<string, nat>, keys: set<string>): nat
    requires keys <= m.Keys
  {
    if keys == {} then 0
    else
      var k := Smallest(keys);
      m[k] + SumOver(m, keys - {k})
  }

  function Smallest(keys: set<string>): (k: string)
    requires keys != {}
    ensures k in keys
  {
    var s := set x | x in keys :: Key("", x);
    assert s != {} by {
      var x :| x in keys;
      assert Key("", x) in s;
    }
    var ks := Enumerate(s);
    assert ks[0] in ks;
    ks[0].id
  }

  lemma {:induction false} SumOverAt(m: map<string, nat>, keys: set<string>, k: string)
    requires keys <= m.Keys && k in keys
    ensures SumOver(m, keys) == m[k] + SumOver(m, keys - {k})
    decreases keys
  {
    hide SumOver, Smallest;
    SumOverFirst(m, keys);
    var c := Smallest(keys);
    if c != k {
      SumOverAt(m, keys - {c}, k);
      SumOverAt(m, keys - {k}, c);
      assert keys - {c} - {k} == keys - {k} - {c};
    }
  }

  lemma SumOverFirst(m: map<string, nat>, keys: set<string>)
    requires keys <= m.Keys && keys != {}
    ensures SumOver(m, keys) == m[Smallest(keys)] + SumOver(m, keys - {Smallest(keys)})
  {
    hide Smallest;
  }

  lemma {:induction false} SumOverSame(m: map<string, nat>, m': map<string, nat>, keys: set<string>)
    requires keys <= m.Keys && keys <= m'.Keys && forall k :: k in keys ==> m[k] == m'[k]
    ensures SumOver(m, keys) == SumOver(m', keys)
    decreases keys
  {
    if keys != {} {
      SumOverSame(m, m', keys - {Smallest(keys)});
    }
  }

  lemma TotalUpdate(m: map<string, nat>, k: string, v: nat)
    ensures Total(m[k := v]) == Total(m) - (if k in m then m[k] else 0) + v
  {
    var m' := m[k := v];
    SumOverAt(m', m'.Keys, k);
    SumOverSame(m, m', m.Keys - {k});
    if k in m {
      SumOverAt(m, m.Keys, k);
      assert m'.Keys - {k} == m.Keys - {k};
    } else {
      assert m'.Keys - {k} == m.Keys && m.Keys - {k} == m.Keys;
    }
  }

  /** The per-source breakdown adds up to the number of events. */
  lemma {:induction false} BySourceTotal(rows: seq<RawRow>)
    ensures Total(BySource(rows)) == |rows|
  {
    hide BySource, Total;
    if rows == [] {
      NoSources();
    } else {
      var n := |rows| - 1;
      BySourceTotal(rows[..n]);
      assert rows == rows[..n] + [rows[n]];
      TotalSnoc(rows[..n], rows[n]);
    }
  }

  lemma NoSources()
    ensures Total(BySource([])) == 0
  {
    assert BySource([]) == map[];
  }

  lemma TotalSnoc(rows: seq<RawRow>, r: RawRow)
    ensures Total(BySource(rows + [r])) == Total(BySource(rows)) + 1
  {
    hide BySource, Total;
    BySourceSnoc(rows, r);
    var m, s := BySource(rows), r.event.source;
    TotalUpdate(m, s, (if s in m then m[s] else 0) + 1);
  }

  lemma CountSnoc(rows: seq<RawRow>, r: RawRow, s: string)
    ensures |Filter(rows + [r], OfSource(s))| == |Filter(rows, OfSource(s))| + (if r.event.source == s then 1 else 0)
    ensures s !in SourcesOf(rows) ==> |Filter(rows, OfSource(s))| == 0
  {
    hide Filter;
    FilterSnoc(rows, r, OfSource(s));
    if s !in SourcesOf(rows) {
      FilterNone(rows, OfSource(s));
    }
  }

  lemma SourcesSnoc(rows: seq<RawRow>, r: RawRow)
    ensures SourcesOf(rows + [r]) == SourcesOf(rows) + {r.event.source}
  {
  }

  /** `by_source[s] = by_source.get(s, 0) + 1`. */
  lemma BySourceSnoc(rows: seq<RawRow>, r: RawRow)
    ensures var m, s := BySource(rows), r.event.source;
            BySource(rows + [r]) == m[s := (if s in m then m[s] else 0) + 1]
  {
    hide Filter, SourcesOf, OfSource;
    SourcesSnoc(rows, r);
    var m, s := BySource(rows), r.event.source;
    var m' := BySource(rows + [r]);
    forall x | x in m'
      ensures m'[x] == m[s := (if s in m then m[s] else 0) + 1][x]
    {
      CountSnoc(rows, r, x);
    }
  }
}
