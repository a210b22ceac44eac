/**
 What the stored numbers of an hour are, counted off the events themselves (coverage.py, features.py): no statement
 here names the function that computes the number it is about.
 */
module HourMeaning {
  import opened Wrappers
  import opened Seqs
  import opened Order
  import opened Timestamps
  import opened Types
  import opened Queries
  import opened Derivation
  import opened Recompute
  import Text

  // ---------------------------------------------------------------- rounding

  /** `n` is a nearest integer, and the even one of two. */
  predicate Nearest(x: real, n: int) {
    var d := x - n as real;
    -0.5 <= d <= 0.5 && (d == 0.5 || d == -0.5 ==> n % 2 == 0)
  }

  lemma RoundExact(x: real)
    ensures forall n :: RoundHalfEven(x) == n <==> Nearest(x, n)
  {
    var r := RoundHalfEven(x);
    forall n
      ensures r == n <==> Nearest(x, n)
    {
      if Nearest(x, n) {
        assert -1.0 <= n as real - r as real <= 1.0;
      }
    }
  }

  /** Rounded to `scale` parts: a whole number of parts, and the nearest one. */
  predicate RoundedTo(x: real, scale: real, y: real) {
    var n := (y * scale).Floor;
    n as real == y * scale && Nearest(x * scale, n)
  }

  lemma RoundedExact(x: real)
    ensures RoundedTo(x, 10_000.0, Round4(x)) && RoundedTo(x, 100.0, Round2(x))
  {
    hide RoundHalfEven;
    RoundExact(x * 10_000.0);
    RoundExact(x * 100.0);
    Parts(RoundHalfEven(x * 10_000.0), 10_000.0, Round4(x));
    Parts(RoundHalfEven(x * 100.0), 100.0, Round2(x));
  }

  lemma Parts(n: int, scale: real, y: real)
    requires scale > 0.0 && y == n as real / scale
    ensures y * scale == n as real
  {
  }

  // ---------------------------------------------------------------- the latest heartbeat

  /** No heartbeat of the device is later, by text; of several at one time the greatest id stands. */
  predicate IsLatest(beats: map<Id, BeatRow>, device: Id, id: Id) {
    && id in beats && beats[id].device == device
    && forall x :: x in beats && beats[x].device == device ==>
         x == id || Text.Less(beats[x].time, beats[id].time) ||
         (beats[x].time == beats[id].time && Text.Less(x, id))
  }

  lemma LatestExact(beats: map<Id, BeatRow>, device: Id)
    ensures LatestHeartbeat(beats, device).None? <==> forall id :: id in beats ==> beats[id].device != device
    ensures LatestHeartbeat(beats, device).Some? ==>
              exists id :: IsLatest(beats, device, id) && beats[id] == LatestHeartbeat(beats, device).value
    ensures forall id :: IsLatest(beats, device, id) ==> LatestHeartbeat(beats, device) == Some(beats[id])
  {
    hide Enumerate, Text.Less;
    var keys := BeatKeys(beats, device);
    var ks := Enumerate(keys);
    forall id | id in beats && beats[id].device == device
      ensures Key(beats[id].time, id) in ks
    {
      assert Key(beats[id].time, id) in keys;
    }
    if ks != [] {
      var last := ks[|ks| - 1];
      assert last in keys;
      forall x | x in beats && beats[x].device == device
        ensures x == last.id || Text.Less(beats[x].time, beats[last.id].time) ||
                (beats[x].time == beats[last.id].time && Text.Less(x, last.id))
      {
        var k := Key(beats[x].time, x);
        var i :| 0 <= i < |ks| && ks[i] == k;
        assert i == |ks| - 1 || Before(ks[i], last);
      }
      assert IsLatest(beats, device, last.id);
      forall id | IsLatest(beats, device, id)
        ensures id == last.id
      {
        OnlyLatest(beats, device, id, last.id);
      }
    }
  }

  lemma OnlyLatest(beats: map<Id, BeatRow>, device: Id, a: Id, b: Id)
    requires IsLatest(beats, device, a) && IsLatest(beats, device, b)
    ensures a == b
  {
    hide Text.Less;
    if a != b {
      BeforeIrreflexive(Key(beats[a].time, a));
      if Before(Key(beats[a].time, a), Key(beats[b].time, b)) && Before(Key(beats[b].time, b), Key(beats[a].time, a)) {
        BeforeTransitive(Key(beats[a].time, a), Key(beats[b].time, b), Key(beats[a].time, a));
      }
    }
  }

  /** Expected are the collectors of the latest heartbeat, or battery and wifi when it lists none or there is none. */
  lemma ExpectedExact(beats: map<Id, BeatRow>, device: Id)
    ensures forall id :: IsLatest(beats, device, id) && beats[id].enabledCollectors != [] ==>
              ExpectedSources(beats, device) == beats[id].enabledCollectors
    ensures forall id :: IsLatest(beats, device, id) && beats[id].enabledCollectors == [] ==>
              ExpectedSources(beats, device) == ["battery", "wifi"]
    ensures (forall id :: id in beats ==> beats[id].device != device) ==>
              ExpectedSources(beats, device) == ["battery", "wifi"]
    ensures ExpectedSources(beats, device) != []
  {
    hide LatestHeartbeat, IsLatest;
    LatestExact(beats, device);
  }

  // ---------------------------------------------------------------- coverage

  /** A coverage row, counted off the events of its hour and the sources expected. */
  ghost predicate Covers(row: CoverageRow, rows: seq<RawRow>, expected: seq<string>) {
    && (forall s :: row.expected[s] == |set i | 0 <= i < |expected| && expected[i] == s|)
    && (forall s :: s in row.observed <==> s in expected && exists r :: r in rows && r.event.source == s)
    && row.events == |rows|
    && row.heartbeats == |set i | 0 <= i < |rows| && rows[i].event.source == "heartbeat"|
    && (row.isMissing <==> |rows| == 0)
    && (expected == [] ==> row.proportion == 0.0)
    && (expected != [] ==>
          |set s | s in expected| > 0 &&
          RoundedTo(|row.observed| as real / |set s | s in expected| as real, 10_000.0, row.proportion))
  }

  lemma {:induction false} BagCount(s: seq<string>, x: string)
    ensures multiset(s)[x] == |Places(s, (y: string) => y == x)|
  {
    hide Places;
    if s == [] {
      NoPlaces((y: string) => y == x);
    } else {
      var n := |s| - 1;
      BagCount(s[..n], x);
      assert s == s[..n] + [s[n]];
      PlacesSnoc(s[..n], s[n], (y: string) => y == x);
    }
  }

  lemma CoverageExact(rows: seq<RawRow>, expected: seq<string>)
    ensures Covers(CoverageOf(rows, expected), rows, expected)
  {
    hide Round4, Filter, RoundedTo;
    var row := CoverageOf(rows, expected);
    var wanted := ToSet(expected);
    assert wanted == set s | s in expected;
    forall s
      ensures row.expected[s] == |set i | 0 <= i < |expected| && expected[i] == s|
    {
      BagCount(expected, s);
      assert Places(expected, (y: string) => y == s) == set i | 0 <= i < |expected| && expected[i] == s;
    }
    HeartbeatCount(rows);
    if expected == [] {
      assert wanted == {};
    } else {
      assert expected[0] in wanted;
      RoundedExact(Ratio(|row.observed|, |wanted|));
    }
  }

  lemma HeartbeatCount(rows: seq<RawRow>)
    ensures |Filter(rows, OfSource(HEARTBEAT))| == |set i | 0 <= i < |rows| && rows[i].event.source == "heartbeat"|
  {
    hide Filter;
    FilterSize(rows, OfSource(HEARTBEAT));
    assert Places(rows, OfSource(HEARTBEAT)) == set i | 0 <= i < |rows| && rows[i].event.source == "heartbeat";
  }

  // ---------------------------------------------------------------- counts of events

  lemma KindCount(rows: seq<RawRow>, kind: string)
    ensures |Kind(rows, kind)| == |set i | 0 <= i < |rows| && rows[i].event.kind == kind|
  {
    hide Filter;
    FilterSize(rows, OfKind(kind));
    assert Places(rows, OfKind(kind)) == set i | 0 <= i < |rows| && rows[i].event.kind == kind;
  }

  lemma SourceCount(rows: seq<RawRow>, source: string)
    ensures |Filter(rows, OfSource(source))| == |set i | 0 <= i < |rows| && rows[i].event.source == source|
  {
    hide Filter;
    FilterSize(rows, OfSource(source));
    assert Places(rows, OfSource(source)) == set i | 0 <= i < |rows| && rows[i].event.source == source;
  }

  function Both(p: RawRow -> bool, q: RawRow -> bool): RawRow -> bool {
    (r: RawRow) => p(r) && q(r)
  }

  /** Filtering twice counts the places that meet both tests. */
  lemma {:induction false} BothCount(rows: seq<RawRow>, p: RawRow -> bool, q: RawRow -> bool)
    ensures |Filter(Filter(rows, p), q)| == |Places(rows, Both(p, q))|
  {
    hide Places, Filter;
    var both := Both(p, q);
    if rows == [] {
      NoPlaces(both);
      EmptyFilter(p);
      EmptyFilter(q);
    } else {
      var n := |rows| - 1;
      var r := rows[n];
      BothCount(rows[..n], p, q);
      assert rows == rows[..n] + [r];
      FilterSnoc(rows[..n], r, p);
      FilterSnoc(Filter(rows[..n], p), r, q);
      assert Filter(rows[..n], p) + [] == Filter(rows[..n], p);
      PlacesSnoc(rows[..n], r, both);
    }
  }

  lemma EmptyFilter(p: RawRow -> bool)
    ensures Filter([], p) == []
  {
  }

  /** Value, text and flags of each feature. */
  type ValueTable = Feature -> (Option<real>, Option<map<string, nat>>, set<Flag>)

  /** Calls, messages, heartbeats and totals count the events of their own types. */
  ghost predicate CountsHold(v: ValueTable, rows: seq<RawRow>) {
    && v(Calls) == (Some(|set i | 0 <= i < |rows| && rows[i].event.kind == "call_record"| as real), None, {})
    && v(Sms) == (Some(|set i | 0 <= i < |rows| && rows[i].event.kind == "sms_record"| as real), None, {})
    && v(HeartbeatCoverage) ==
       (Some(if exists r :: r in rows && r.event.kind == "collector_heartbeat" then 1.0 else 0.0), None, {})
    && v(MissingFlag) == (Some(if |rows| == 0 then 1.0 else 0.0), None, {})
    && v(EventsTotal).0 == Some(|rows| as real) && v(EventsTotal).2 == {}
    && v(EventsTotal).1.Some? && CountsSources(v(EventsTotal).1.value, rows)
  }

  /** How many events each source has; a source without one is not listed. */
  ghost predicate CountsSources(m: map<string, nat>, rows: seq<RawRow>) {
    && (forall s :: s in m <==> exists r :: r in rows && r.event.source == s)
    && (forall s :: s in m ==> m[s] == |set i | 0 <= i < |rows| && rows[i].event.source == s|)
  }

  lemma CountsExact(rows: seq<RawRow>)
    ensures CountsHold((f: Feature) => FeatureValue(f, rows), rows)
  {
    hide Kind, BySource;
    KindCount(rows, "call_record");
    KindCount(rows, "sms_record");
    SomeKind(rows, "collector_heartbeat");
    SourcesExact(rows);
  }

  lemma SourcesExact(rows: seq<RawRow>)
    ensures CountsSources(BySource(rows), rows)
  {
    hide Filter;
    forall s
      ensures |Filter(rows, OfSource(s))| == |set i | 0 <= i < |rows| && rows[i].event.source == s|
    {
      SourceCount(rows, s);
    }
  }

  // ---------------------------------------------------------------- shares of samples

  /** Minutes of the hour, by the share of positive samples among all; none when there is no sample. */
  ghost predicate ShareOfHour(minutes: real, positive: nat, all: nat) {
    (all == 0 ==> minutes == 0.0) &&
    (all > 0 ==> positive <= all && RoundedTo(positive as real / all as real * 60.0, 100.0, minutes))
  }

  lemma MinutesExact(positive: nat, all: nat)
    requires positive <= all
    ensures ShareOfHour(SampleMinutes(positive, 60, AtLeastOne(all)), positive, all)
  {
    hide RoundedTo, Round2;
    if all == 0 {
      NoMinutes();
    } else {
      RatioBounds(positive, all);
      RoundedExact(Ratio(positive, all) * 60.0);
    }
  }

  lemma NoMinutes()
    ensures SampleMinutes(0, 60, 1) == 0.0
  {
  }

  /** Charging and connected minutes and the share of located samples, by type and payload field. */
  ghost predicate SharesHold(v: ValueTable, rows: seq<RawRow>) {
    && v(ChargingMinutes).0.Some? && v(ChargingMinutes).1 == None && v(ChargingMinutes).2 == {}
    && ShareOfHour(v(ChargingMinutes).0.value,
         |set i | 0 <= i < |rows| && rows[i].event.kind == "battery_sample" && rows[i].event.payload.charging|,
         |set i | 0 <= i < |rows| && rows[i].event.kind == "battery_sample"|)
    && v(WifiMinutes).0.Some? && v(WifiMinutes).1 == None && v(WifiMinutes).2 == {}
    && ShareOfHour(v(WifiMinutes).0.value,
         |set i | 0 <= i < |rows| && rows[i].event.kind == "wifi_sample" && rows[i].event.payload.connected|,
         |set i | 0 <= i < |rows| && rows[i].event.kind == "wifi_sample"|)
    && v(LocationCoverage).0.Some? && v(LocationCoverage).1 == None
    && LocationShare(v(LocationCoverage).0.value, v(LocationCoverage).2,
         |set i | 0 <= i < |rows| && rows[i].event.kind == "location_sample" &&
           rows[i].event.payload.locationAvailable|,
         |set i | 0 <= i < |rows| && rows[i].event.kind == "location_sample"|)
  }

  /** The located share of the samples; without a sample it is 0 and flagged partial. */
  ghost predicate LocationShare(share: real, flags: set<Flag>, located: nat, all: nat) {
    && (all == 0 ==> share == 0.0 && flags == {Partial})
    && (all > 0 ==> RoundedTo(located as real / all as real, 10_000.0, share) && flags == {})
  }

  lemma SharesExact(rows: seq<RawRow>)
    ensures SharesHold((f: Feature) => FeatureValue(f, rows), rows)
  {
    hide RoundedTo, Round4, Kind, SampleMinutes, Filter, ShareOfHour;
    ChargingCount(rows);
    ConnectedCount(rows);
    LocatedCount(rows);
    KindCount(rows, "battery_sample");
    KindCount(rows, "wifi_sample");
    KindCount(rows, "location_sample");
    var b, w, l := Kind(rows, "battery_sample"), Kind(rows, "wifi_sample"), Kind(rows, "location_sample");
    MinutesExact(|Filter(b, Charging())|, |b|);
    MinutesExact(|Filter(w, Connected())|, |w|);
    if l != [] {
      RoundedExact(Ratio(|Filter(l, Located())|, |l|));
    }
  }

  lemma ChargingCount(rows: seq<RawRow>)
    ensures |Filter(Kind(rows, "battery_sample"), Charging())| ==
            |set i | 0 <= i < |rows| && rows[i].event.kind == "battery_sample" && rows[i].event.payload.charging|
  {
    hide Filter;
    BothCount(rows, OfKind("battery_sample"), Charging());
    assert Places(rows, Both(OfKind("battery_sample"), Charging())) ==
           set i | 0 <= i < |rows| && rows[i].event.kind == "battery_sample" && rows[i].event.payload.charging;
  }

  lemma ConnectedCount(rows: seq<RawRow>)
    ensures |Filter(Kind(rows, "wifi_sample"), Connected())| ==
            |set i | 0 <= i < |rows| && rows[i].event.kind == "wifi_sample" && rows[i].event.payload.connected|
  {
    hide Filter;
    BothCount(rows, OfKind("wifi_sample"), Connected());
    assert Places(rows, Both(OfKind("wifi_sample"), Connected())) ==
           set i | 0 <= i < |rows| && rows[i].event.kind == "wifi_sample" && rows[i].event.payload.connected;
  }

  lemma LocatedCount(rows: seq<RawRow>)
    ensures |Filter(Kind(rows, "location_sample"), Located())| ==
            |set i | 0 <= i < |rows| && rows[i].event.kind == "location_sample" &&
              rows[i].event.payload.locationAvailable|
  {
    hide Filter;
    BothCount(rows, OfKind("location_sample"), Located());
    assert Places(rows, Both(OfKind("location_sample"), Located())) ==
           set i | 0 <= i < |rows| && rows[i].event.kind == "location_sample" &&
             rows[i].event.payload.locationAvailable;
  }

  // ---------------------------------------------------------------- means

  /** The mean of `n` numbers that add up to `sum`; none without a number. */
  predicate MeanIs(v: Option<real>, sum: real, n: nat) {
    if n == 0 then v == None else v == Some(sum / n as real)
  }

  /** What an event adds to the sum of the numbers of its type. */
  function Adds(kind: string, get: Payload -> Option<real>): RawRow -> real {
    (r: RawRow) =>
      if r.event.kind == kind then (match get(r.event.payload) case Some(v) => v case None => 0.0) else 0.0
  }

  function HasNumber(kind: string, get: Payload -> Option<real>): RawRow -> bool {
    (r: RawRow) => r.event.kind == kind && get(r.event.payload).Some?
  }

  lemma {:induction false} NumbersExact(rows: seq<RawRow>, kind: string, get: Payload -> Option<real>)
    ensures var values := Numbers(Kind(rows, kind), get);
            Sum(values) == SumBy(rows, Adds(kind, get)) && |values| == |Places(rows, HasNumber(kind, get))|
  {
    hide Places, Numbers, Kind, SumBy;
    if rows == [] {
      NoPlaces(HasNumber(kind, get));
      NoNumbers(kind, get);
    } else {
      var n := |rows| - 1;
      var r := rows[n];
      NumbersExact(rows[..n], kind, get);
      assert rows == rows[..n] + [r];
      SumBySnoc(rows[..n], r, Adds(kind, get));
      PlacesSnoc(rows[..n], r, HasNumber(kind, get));
      NumbersSnoc(rows[..n], r, kind, get);
    }
  }

  lemma NoNumbers(kind: string, get: Payload -> Option<real>)
    ensures Numbers(Kind([], kind), get) == [] && SumBy([], Adds(kind, get)) == 0.0
  {
  }

  lemma NumbersSnoc(rows: seq<RawRow>, r: RawRow, kind: string, get: Payload -> Option<real>)
    ensures var before, after := Numbers(Kind(rows, kind), get), Numbers(Kind(rows + [r], kind), get);
            && |after| == |before| + (if HasNumber(kind, get)(r) then 1 else 0)
            && Sum(after) == Sum(before) + Adds(kind, get)(r)
  {
    hide Filter, Numbers;
    FilterSnoc(rows, r, OfKind(kind));
    var k := Kind(rows, kind);
    var one := if get(r.event.payload).Some? then [get(r.event.payload).value] else [];
    SumOfOne(one);
    if r.event.kind == kind {
      assert Kind(rows + [r], kind) == k + [r];
      NumbersAppend(k, r, get);
      SumAppend(Numbers(k, get), one);
    } else {
      assert Kind(rows + [r], kind) == k + [] == k;
    }
  }

  lemma SumOfOne(s: seq<real>)
    requires |s| <= 1
    ensures Sum(s) == if s == [] then 0.0 else s[0]
  {
    assert |s| == 1 ==> s[1..] == [];
  }

  lemma {:induction false} NumbersAppend(rows: seq<RawRow>, r: RawRow, get: Payload -> Option<real>)
    ensures Numbers(rows + [r], get) ==
            Numbers(rows, get) + (if get(r.event.payload).Some? then [get(r.event.payload).value] else [])
  {
    if rows == [] {
      assert rows + [r] == [r];
    } else {
      assert (rows + [r])[1..] == rows[1..] + [r];
      NumbersAppend(rows[1..], r, get);
    }
  }

  /** The two means, by type and payload field. */
  ghost predicate MeansHold(v: ValueTable, rows: seq<RawRow>) {
    && v(BatteryMean).1 == None && v(Movement).1 == None
    && MeanIs(v(BatteryMean).0, SumBy(rows, BatteryPart()), BatteryCount(rows))
    && v(BatteryMean).2 == (if BatteryCount(rows) == 0 then {Partial} else {})
    && MeanIs(v(Movement).0, SumBy(rows, MovementPart()), MovementCount(rows))
    && v(Movement).2 == (if MovementCount(rows) == 0 then {Experimental, Partial} else {Experimental})
  }

  lemma MeansExact(rows: seq<RawRow>)
    ensures MeansHold((f: Feature) => FeatureValue(f, rows), rows)
  {
    hide Numbers, Kind, SumBy, Places, Sum, BatteryPart, MovementPart, BatteryCount, MovementCount;
    BatteryNumbers(rows);
    MovementNumbers(rows);
    MeanExact(Numbers(Kind(rows, "battery_sample"), Percentage()));
    MeanExact(Numbers(Kind(rows, "sensor_summary"), Magnitude()));
  }

  lemma MeanExact(values: seq<real>)
    ensures MeanIs(Mean(values), Sum(values), |values|)
  {
  }

  lemma BatteryNumbers(rows: seq<RawRow>)
    ensures var values := Numbers(Kind(rows, "battery_sample"), Percentage());
            && Sum(values) == SumBy(rows, BatteryPart())
            && |values| == BatteryCount(rows)
  {
    hide Numbers, Kind, SumBy;
    NumbersExact(rows, "battery_sample", Percentage());
    SumBySame(rows, Adds("battery_sample", Percentage()), BatteryPart());
    assert Places(rows, HasNumber("battery_sample", Percentage())) ==
           set i | 0 <= i < |rows| && rows[i].event.kind == "battery_sample" && rows[i].event.payload.percentage.Some?;
  }

  lemma MovementNumbers(rows: seq<RawRow>)
    ensures var values := Numbers(Kind(rows, "sensor_summary"), Magnitude());
            && Sum(values) == SumBy(rows, MovementPart())
            && |values| == MovementCount(rows)
  {
    hide Numbers, Kind, SumBy;
    NumbersExact(rows, "sensor_summary", Magnitude());
    SumBySame(rows, Adds("sensor_summary", Magnitude()), MovementPart());
    assert Places(rows, HasNumber("sensor_summary", Magnitude())) ==
           set i | 0 <= i < |rows| && rows[i].event.kind == "sensor_summary" && rows[i].event.payload.magnitude.Some?;
  }

  function BatteryCount(rows: seq<RawRow>): nat {
    |set i | 0 <= i < |rows| && rows[i].event.kind == "battery_sample" && rows[i].event.payload.percentage.Some?|
  }

  function MovementCount(rows: seq<RawRow>): nat {
    |set i | 0 <= i < |rows| && rows[i].event.kind == "sensor_summary" && rows[i].event.payload.magnitude.Some?|
  }

  /** The percentage of a battery sample that has one. */
  function BatteryPart(): RawRow -> real {
    (r: RawRow) =>
      if r.event.kind == "battery_sample" && r.event.payload.percentage.Some? then r.event.payload.percentage.value
      else 0.0
  }

  /** The mean magnitude of a sensor summary that has one. */
  function MovementPart(): RawRow -> real {
    (r: RawRow) =>
      if r.event.kind == "sensor_summary" && r.event.payload.magnitude.Some? then r.event.payload.magnitude.value
      else 0.0
  }

  // ---------------------------------------------------------------- the rows a recomputation leaves

  /** The sources expected of a device, told from its heartbeat rows. */
  ghost predicate ExpectedFrom(beats: map<Id, BeatRow>, device: Id, expected: seq<string>) {
    && (forall id :: IsLatest(beats, device, id) ==>
          expected == if beats[id].enabledCollectors != [] then beats[id].enabledCollectors else ["battery", "wifi"])
    && ((forall id :: id in beats ==> beats[id].device != device) ==> expected == ["battery", "wifi"])
    && expected != []
  }

  /** The stored feature rows of an hour: all ten values off its events, each with the coverage read back. */
  ghost predicate FeaturesStored(hourly: map<FeatureKey, FeatureRow>, device: Id, h: int, rows: seq<RawRow>,
                                 coverage: real) {
    && (forall f: Feature :: FeatureKey(device, f, h) in hourly)
    && (forall f: Feature :: RoundedTo(coverage, 10_000.0, hourly[FeatureKey(device, f, h)].coverage))
    && var v := (f: Feature) => if FeatureKey(device, f, h) in hourly then
                  (hourly[FeatureKey(device, f, h)].value, hourly[FeatureKey(device, f, h)].bySource,
                   hourly[FeatureKey(device, f, h)].flags)
                else (None, None, {});
       CountsHold(v, rows) && SharesHold(v, rows) && MeansHold(v, rows)
  }

  lemma RowsWritten(d: Derived, src: Source, device: Id, start: Moment, end: Moment, h: int)
    requires h in HoursOf(start, end)
    ensures var r := RecomputeWindow(d, src, device, start, end);
            var rows := Bucket(WindowRows(src.raw, device, start, end), h);
            && HourKey(device, h) in r.coverage
            && r.coverage[HourKey(device, h)] == CoverageOf(rows, ExpectedSources(src.beats, device))
            && forall f: Feature ::
                 FeatureKey(device, f, h) in r.hourly &&
                 r.hourly[FeatureKey(device, f, h)] ==
                 FeatureOf(f, rows, if Visible(h, start, end) then r.coverage[HourKey(device, h)].proportion else 0.0)
  {
    hide CoverageOf, Bucket, WindowRows, HoursOf, Visible, ExpectedSources, FeatureOf;
  }

  lemma SameValues(v: ValueTable, w: ValueTable, rows: seq<RawRow>)
    requires forall f: Feature :: v(f) == w(f)
    ensures CountsHold(v, rows) <==> CountsHold(w, rows)
    ensures SharesHold(v, rows) <==> SharesHold(w, rows)
    ensures MeansHold(v, rows) <==> MeansHold(w, rows)
  {
    hide CountsSources, ShareOfHour, LocationShare, MeanIs;
  }

  lemma RowExact(f: Feature, rows: seq<RawRow>, coverage: real)
    ensures var row := FeatureOf(f, rows, coverage);
            && (row.value, row.bySource, row.flags) == FeatureValue(f, rows)
            && RoundedTo(coverage, 10_000.0, row.coverage)
  {
    hide FeatureValue, RoundedTo, Round4;
    RoundedExact(coverage);
  }

  lemma FeaturesWritten(hourly: map<FeatureKey, FeatureRow>, device: Id, h: int, rows: seq<RawRow>, coverage: real)
    requires forall f: Feature ::
               FeatureKey(device, f, h) in hourly && hourly[FeatureKey(device, f, h)] == FeatureOf(f, rows, coverage)
    ensures FeaturesStored(hourly, device, h, rows, coverage)
  {
    hide FeatureOf, FeatureValue, CountsHold, SharesHold, MeansHold, RoundedTo;
    var w := (f: Feature) => FeatureValue(f, rows);
    var v := (f: Feature) => if FeatureKey(device, f, h) in hourly then
               (hourly[FeatureKey(device, f, h)].value, hourly[FeatureKey(device, f, h)].bySource,
                hourly[FeatureKey(device, f, h)].flags)
             else (None, None, {});
    forall f: Feature
      ensures v(f) == w(f) && RoundedTo(coverage, 10_000.0, hourly[FeatureKey(device, f, h)].coverage)
    {
      RowExact(f, rows, coverage);
    }
    SameValues(v, w, rows);
    CountsExact(rows);
    SharesExact(rows);
    MeansExact(rows);
  }

  /**
   After recomputing any window, each of its hours has the coverage row and the ten feature rows that its events in
   the window and the latest heartbeat call for.
   */
  lemma RecomputedHour(d: Derived, src: Source, device: Id, start: Moment, end: Moment, h: int)
    requires h in HoursOf(start, end)
    ensures var r := RecomputeWindow(d, src, device, start, end);
            var rows := Bucket(WindowRows(src.raw, device, start, end), h);
            && HourKey(device, h) in r.coverage
            && (exists expected :: ExpectedFrom(src.beats, device, expected) &&
                  Covers(r.coverage[HourKey(device, h)], rows, expected))
            && FeaturesStored(r.hourly, device, h, rows,
                 if Visible(h, start, end) then r.coverage[HourKey(device, h)].proportion else 0.0)
  {
    hide *;
    var r := RecomputeWindow(d, src, device, start, end);
    var rows := Bucket(WindowRows(src.raw, device, start, end), h);
    RowsWritten(d, src, device, start, end, h);
    var expected := ExpectedSources(src.beats, device);
    CoverageExact(rows, expected);
    ExpectedIs(src.beats, device);
    assert ExpectedFrom(src.beats, device, expected) && Covers(r.coverage[HourKey(device, h)], rows, expected);
    FeaturesWritten(r.hourly, device, h, rows, if Visible(h, start, end) then
      r.coverage[HourKey(device, h)].proportion else 0.0);
  }

  lemma ExpectedIs(beats: map<Id, BeatRow>, device: Id)
    ensures ExpectedFrom(beats, device, ExpectedSources(beats, device))
  {
    hide IsLatest, ExpectedSources;
    ExpectedExact(beats, device);
  }
}
