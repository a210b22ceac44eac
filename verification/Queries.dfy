/** The reads behind every derivation: `events_in_window` and its hours. */
module Queries {
  import opened Wrappers
  import opened Seqs
  import opened Order
  import opened Timestamps
  import opened TimeOrder
  import opened Types
  import Text

  const ROW_LIMIT := 200_000

  /** A whole hour, counted from 0001-01-01T00:00:00Z. */
  type Hour = h: int | YEAR_1000 / HOUR <= h < YEAR_10000 / HOUR witness YEAR_1000 / HOUR

  function HourStart(h: Hour): Moment {
    h * HOUR
  }

  /** Rows as ingestion leaves them. */
  ghost predicate ValidRaw(raw: map<Id, RawRow>) {
    forall id :: id in raw ==> ValidRow(id, raw[id])
  }

  predicate ValidRow(id: Id, row: RawRow) {
    row.event.id == id && Accepted(row.event.time) && YEAR_2000 <= Instant(row.event.time) < YEAR_10000
  }

  /** `floor_hour(parse_iso_utc(...))`; rows that ingestion stored always parse. */
  function HourOf(r: RawRow): int {
    match ParseIsoUtc(r.event.time)
    case Some(t) => t / HOUR
    case None => -1
  }

  /** An absent or an empty list of sources filters nothing. */
  predicate SourceWanted(source: string, sources: Option<seq<string>>) {
    sources.None? || sources.value == [] || source in sources.value
  }

  predicate Selected(r: RawRow, device: Id, start: Moment, end: Moment, sources: Option<seq<string>>) {
    r.event.device == device && InTextWindow(r.event.time, IsoUtc(start), IsoUtc(end)) &&
      SourceWanted(r.event.source, sources)
  }

  function WindowKeys(raw: map<Id, RawRow>, device: Id, start: Moment, end: Moment,
                      sources: Option<seq<string>>): (s: set<Key>)
    ensures forall k :: k in s <==>
              k.id in raw && k.time == raw[k.id].event.time &&
              Selected(raw[k.id], device, start, end, sources)
  {
    var s := set id | id in raw && Selected(raw[id], device, start, end, sources) :: Key(raw[id].event.time, id);
    assert forall k: Key :: k.id in raw && k.time == raw[k.id].event.time ==> k == Key(raw[k.id].event.time, k.id);
    s
  }

  function RowsOf(raw: map<Id, RawRow>, ks: seq<Key>): (rows: seq<RawRow>)
    requires forall k :: k in ks ==> k.id in raw
    ensures |rows| == |ks| && forall i :: 0 <= i < |ks| ==> rows[i] == raw[ks[i].id]
  {
    if ks == [] then [] else [raw[ks[0].id]] + RowsOf(raw, ks[1..])
  }

  /** `LIMIT limit OFFSET offset`. */
  function Page<T>(s: seq<T>, limit: nat, offset: nat): (p: seq<T>)
    ensures |p| == if offset >= |s| then 0 else if offset + limit >= |s| then |s| - offset else limit
    ensures forall i :: 0 <= i < |p| ==> p[i] == s[offset + i]
  {
    if offset >= |s| then []
    else if offset + limit >= |s| then s[offset..]
    else s[offset..offset + limit]
  }

  function EventsInWindow(raw: map<Id, RawRow>, device: Id, start: Moment, end: Moment, sources: Option<seq<string>>,
                          limit: nat, offset: nat): seq<RawRow> {
    RowsOf(raw, Page(Enumerate(WindowKeys(raw, device, start, end, sources)), limit, offset))
  }

  /** What every derivation reads. */
  function WindowRows(raw: map<Id, RawRow>, device: Id, start: Moment, end: Moment): seq<RawRow> {
    EventsInWindow(raw, device, start, end, None, ROW_LIMIT, 0)
  }

  function InHour(h: int): RawRow -> bool {
    (r: RawRow) => HourOf(r) == h
  }

  function Bucket(rows: seq<RawRow>, h: int): seq<RawRow> {
    Filter(rows, InHour(h))
  }

  // ---------------------------------------------------------------- the specification of an hour

  function HourKeys(raw: map<Id, RawRow>, device: Id, h: int): (s: set<Key>)
    ensures forall k :: k in s <==>
              k.id in raw && k.time == raw[k.id].event.time &&
              raw[k.id].event.device == device && HourOf(raw[k.id]) == h
  {
    var s := set id | id in raw && raw[id].event.device == device && HourOf(raw[id]) == h ::
        Key(raw[id].event.time, id);
    assert forall k: Key :: k.id in raw && k.time == raw[k.id].event.time ==> k == Key(raw[k.id].event.time, k.id);
    s
  }

  /** All events of a device in an hour, by instant, in time order. */
  function HourRows(raw: map<Id, RawRow>, device: Id, h: int): seq<RawRow> {
    RowsOf(raw, Enumerate(HourKeys(raw, device, h)))
  }

  function ClippedKeys(raw: map<Id, RawRow>, device: Id, h: int, start: Moment, end: Moment): set<Key> {
    set k | k in HourKeys(raw, device, h) && InTextWindow(k.time, IsoUtc(start), IsoUtc(end))
  }

  /** The part of an hour that a text window lets through. */
  function ClippedRows(raw: map<Id, RawRow>, device: Id, h: int, start: Moment, end: Moment): seq<RawRow> {
    RowsOf(raw, Enumerate(ClippedKeys(raw, device, h, start, end)))
  }

  /** The window holds no more rows than a derivation reads. */
  predicate Fits(raw: map<Id, RawRow>, device: Id, start: Moment, end: Moment) {
    |WindowKeys(raw, device, start, end, None)| <= ROW_LIMIT
  }

  // ---------------------------------------------------------------- buckets are clipped hours

  lemma {:induction false} FilterRowsOf(raw: map<Id, RawRow>, ks: seq<Key>, p: RawRow -> bool, q: Key -> bool)
    requires forall k :: k in ks ==> k.id in raw
    requires forall k :: k in ks ==> (q(k) <==> p(raw[k.id]))
    ensures Filter(RowsOf(raw, ks), p) == RowsOf(raw, Filter(ks, q))
  {
    if ks != [] {
      FilterRowsOf(raw, ks[1..], p, q);
    }
  }

  function KeyInHour(raw: map<Id, RawRow>, h: int): Key -> bool {
    (k: Key) => k.id in raw && HourOf(raw[k.id]) == h
  }

  lemma WindowHourKeys(raw: map<Id, RawRow>, device: Id, h: int, start: Moment, end: Moment)
    ensures (set k | k in WindowKeys(raw, device, start, end, None) && KeyInHour(raw, h)(k)) ==
            ClippedKeys(raw, device, h, start, end)
  {
    hide IsoUtc, InTextWindow, HourOf, WindowKeys, HourKeys;
  }

  /** Grouping the rows of a window by hour gives each hour its clipped rows, in order. */
  lemma BucketIsClipped(raw: map<Id, RawRow>, device: Id, h: int, start: Moment, end: Moment)
    requires Fits(raw, device, start, end)
    ensures Bucket(WindowRows(raw, device, start, end), h) == ClippedRows(raw, device, h, start, end)
  {
    hide IsoUtc, InTextWindow, HourOf, WindowKeys, HourKeys, Enumerate, RowsOf, Filter, ClippedKeys;
    var s := WindowKeys(raw, device, start, end, None);
    var ks := Enumerate(s);
    assert Page(ks, ROW_LIMIT, 0) == ks;
    FilterRowsOf(raw, ks, InHour(h), KeyInHour(raw, h));
    FilterEnumerate(s, KeyInHour(raw, h));
    WindowHourKeys(raw, device, h, start, end);
  }

  // ---------------------------------------------------------------- which hours are clipped

  lemma SecondInHour(t: string, h: int)
    requires Accepted(t) && Instant(t) / HOUR == h
    ensures 3600 * h <= Second(t) < 3600 * (h + 1)
    ensures h * HOUR <= Instant(t) < (h + 1) * HOUR
  {
    hide Accepted, FracValue, Frac;
    FracBelowSecond(t);
  }

  lemma SecondOfBound(start: nat, h: int)
    requires start < h * HOUR
    ensures start / SECOND < 3600 * h
  {
  }

  lemma SecondOfLateBound(end: nat, h: int)
    requires h * HOUR <= end
    ensures 3600 * h <= end / SECOND
  {
  }

  /** Every event of an hour that begins after the window's start is at or after the start, as text too. */
  lemma HourAfterStart(t: string, h: int, start: Moment)
    requires Accepted(t) && Instant(t) / HOUR == h && start < h * HOUR
    ensures !Text.Less(t, IsoUtc(start))
  {
    hide IsoUtc, Accepted, Instant, Second;
    SecondInHour(t, h);
    SecondOfBound(start, h);
    BoundOutsideSecond(t, start);
  }

  /** Every event of an hour that is over by the window's end is before the end, as text too. */
  lemma HourBeforeEnd(t: string, h: int, end: Moment)
    requires Accepted(t) && Instant(t) / HOUR == h && (h + 1) * HOUR <= end
    ensures Text.Less(t, IsoUtc(end))
  {
    hide IsoUtc, Accepted, Instant, Second;
    SecondInHour(t, h);
    SecondOfLateBound(end, h + 1);
    BoundOutsideSecond(t, end);
  }

  /** An event with a fraction in the very first second of an hour. */
  predicate FracAtHour(r: RawRow, h: int) {
    Accepted(r.event.time) && HourOf(r) == h && FracInSecond(r.event.time, 3600 * h)
  }

  /** At a whole hour the window cuts off exactly the fractional events of its first second. */
  lemma AlignedStart(r: RawRow, h: Hour)
    requires Accepted(r.event.time) && HourOf(r) == h
    ensures Text.Less(r.event.time, IsoUtc(HourStart(h))) <==> FracAtHour(r, h)
  {
    hide IsoUtc, Accepted, Instant;
    ParsedHour(r);
    var start := HourStart(h);
    WholeHour(start);
    assert start / SECOND == 3600 * h;
    WholeSecondBound(r.event.time, start);
    SecondInHour(r.event.time, h);
  }

  /** The events of a device with a fraction in the first second of hour `h`. */
  ghost predicate NoFracAt(raw: map<Id, RawRow>, device: Id, h: int) {
    forall id :: id in raw && raw[id].event.device == device ==> !FracAtHour(raw[id], h)
  }

  /**
   For a window of whole hours, each hour after the first is read in full; the first one is read in full
   exactly when it has no event with a fraction in its first second.
   */
  lemma AlignedHours(raw: map<Id, RawRow>, device: Id, a: Hour, c: Hour, h: int)
    requires ValidRaw(raw) && a <= h < c
    ensures a < h || NoFracAt(raw, device, a) ==>
              ClippedRows(raw, device, h, HourStart(a), HourStart(c)) == HourRows(raw, device, h)
    ensures h == a && !NoFracAt(raw, device, a) ==>
              |ClippedRows(raw, device, h, HourStart(a), HourStart(c))| < |HourRows(raw, device, h)|
  {
    hide IsoUtc, Accepted, Instant, Second, FracInSecond, HourOf, FracAtHour;
    var full := HourKeys(raw, device, h);
    var cut := ClippedKeys(raw, device, h, HourStart(a), HourStart(c));
    forall k | k in full
      ensures k in cut <==> !(h == a && FracAtHour(raw[k.id], a))
    {
      KeptByAligned(raw[k.id], a, c, h);
    }
    if a < h || NoFracAt(raw, device, a) {
      assert cut == full;
    } else {
      var id :| id in raw && raw[id].event.device == device && FracAtHour(raw[id], a);
      FracHour(raw[id], a);
      var k := Key(raw[id].event.time, id);
      assert k in full && k !in cut;
      SubsetSize(cut, full - {k});
    }
  }

  lemma FracHour(r: RawRow, h: int)
    requires FracAtHour(r, h)
    ensures HourOf(r) == h
  {
  }

  lemma KeptByAligned(r: RawRow, a: Hour, c: Hour, h: int)
    requires Accepted(r.event.time) && HourOf(r) == h && a <= h < c
    ensures InTextWindow(r.event.time, IsoUtc(HourStart(a)), IsoUtc(HourStart(c))) <==> !(h == a && FracAtHour(r, a))
  {
    hide IsoUtc, Accepted, Instant, FracAtHour;
    assert Instant(r.event.time) / HOUR == h by {
      ParsedHour(r);
    }
    HourBeforeEnd(r.event.time, h, HourStart(c));
    if a < h {
      HourAfterStart(r.event.time, h, HourStart(a));
    } else {
      AlignedStart(r, a);
    }
  }

  lemma ParsedHour(r: RawRow)
    requires Accepted(r.event.time)
    ensures HourOf(r) == Instant(r.event.time) / HOUR
  {
  }

  /**
   For any window, an hour wholly inside it is read in full: always when the window starts before the hour,
   and at an aligned start unless a fraction in the first second is cut off.
   */
  lemma InnerHours(raw: map<Id, RawRow>, device: Id, start: Moment, end: Moment, h: int)
    requires ValidRaw(raw) && (h + 1) * HOUR <= end
    requires start < h * HOUR || (start == h * HOUR && NoFracAt(raw, device, h))
    ensures ClippedRows(raw, device, h, start, end) == HourRows(raw, device, h)
  {
    hide IsoUtc, Accepted, Instant, FracAtHour, HourOf;
    var full := HourKeys(raw, device, h);
    forall k | k in full
      ensures InTextWindow(k.time, IsoUtc(start), IsoUtc(end))
    {
      var r := raw[k.id];
      ParsedHour(r);
      HourBeforeEnd(r.event.time, h, end);
      if start < h * HOUR {
        HourAfterStart(r.event.time, h, start);
      } else {
        AlignedStart(r, h);
      }
    }
    assert full == ClippedKeys(raw, device, h, start, end);
  }

  // ---------------------------------------------------------------- what a query answers

  /** The rows asked for: of the device, between the printed bounds as text, of a listed source if any is listed. */
  ghost predicate Asked(r: RawRow, device: Id, start: Moment, end: Moment, sources: Option<seq<string>>) {
    && r.event.device == device
    && !Text.Less(r.event.time, IsoUtc(start)) && Text.Less(r.event.time, IsoUtc(end))
    && (sources.Some? && |sources.value| > 0 ==> exists i ::
         0 <= i < |sources.value| &&
         sources.value[i] == r.event.source)
  }

  /** In the order of an answer: by time text, and by id at one time. */
  predicate InOrder(a: Key, b: Key) {
    Text.Less(a.time, b.time) || (a.time == b.time && Text.Less(a.id, b.id))
  }

  /** The selection holds the keys of exactly the rows asked for, in order. */
  lemma SelectionExact(raw: map<Id, RawRow>, device: Id, start: Moment, end: Moment, sources: Option<seq<string>>)
    ensures var ks := Enumerate(WindowKeys(raw, device, start, end, sources));
            && (forall k :: k in ks <==>
                  k.id in raw && k.time == raw[k.id].event.time && Asked(raw[k.id], device, start, end, sources))
            && (forall i, j :: 0 <= i < j < |ks| ==> InOrder(ks[i], ks[j]))
  {
    hide IsoUtc, Enumerate, Text.Less;
    var ks := Enumerate(WindowKeys(raw, device, start, end, sources));
    forall k
      ensures k in ks <==>
                k.id in raw && k.time == raw[k.id].event.time && Asked(raw[k.id], device, start, end, sources)
    {
    }
    forall i, j | 0 <= i < j < |ks|
      ensures InOrder(ks[i], ks[j])
    {
      assert Before(ks[i], ks[j]);
    }
  }

  /** A query answers the rows asked for, in order, from `offset` on and no more than `limit`. */
  lemma EventsExact(raw: map<Id, RawRow>, device: Id, start: Moment, end: Moment, sources: Option<seq<string>>,
                    limit: nat, offset: nat)
    ensures var rows := EventsInWindow(raw, device, start, end, sources, limit, offset);
            var all := |set id | id in raw && Asked(raw[id], device, start, end, sources)|;
            && (forall r :: r in rows ==>
                 (exists id :: id in raw && raw[id] == r) &&
                 Asked(r, device, start, end, sources))
            && |rows| == (if offset >= all then 0 else if offset + limit >= all then all - offset else limit)
            && (offset == 0 && all <= limit ==>
                  forall id :: id in raw && Asked(raw[id], device, start, end, sources) ==> raw[id] in rows)
  {
    hide IsoUtc, Enumerate, Text.Less, Asked, Selected, RowsOf, WindowKeys;
    var ks := Enumerate(WindowKeys(raw, device, start, end, sources));
    KeysCounted(raw, device, start, end, sources);
    var rows := EventsInWindow(raw, device, start, end, sources, limit, offset);
    forall r | r in rows
      ensures (exists id :: id in raw && raw[id] == r) && Asked(r, device, start, end, sources)
    {
      AnsweredIsAsked(raw, device, start, end, sources, limit, offset, r);
    }
    if offset == 0 && |ks| <= limit {
      forall id | id in raw && Asked(raw[id], device, start, end, sources)
        ensures raw[id] in rows
      {
        AskedIsAnswered(raw, device, start, end, sources, limit, id);
      }
    }
  }

  lemma AnsweredIsAsked(raw: map<Id, RawRow>, device: Id, start: Moment, end: Moment, sources: Option<seq<string>>,
                        limit: nat, offset: nat, r: RawRow)
    requires r in EventsInWindow(raw, device, start, end, sources, limit, offset)
    ensures (exists id :: id in raw && raw[id] == r) && Asked(r, device, start, end, sources)
  {
    hide IsoUtc, Enumerate, Text.Less, Asked, Selected, RowsOf;
    var ks := Enumerate(WindowKeys(raw, device, start, end, sources));
    SelectionExact(raw, device, start, end, sources);
    var page := Page(ks, limit, offset);
    var rows := RowsOf(raw, page);
    var i :| 0 <= i < |rows| && rows[i] == r;
    assert page[i] in ks;
  }

  lemma AskedIsAnswered(raw: map<Id, RawRow>, device: Id, start: Moment, end: Moment, sources: Option<seq<string>>,
                        limit: nat, id: Id)
    requires id in raw && Asked(raw[id], device, start, end, sources)
    requires |Enumerate(WindowKeys(raw, device, start, end, sources))| <= limit
    ensures raw[id] in EventsInWindow(raw, device, start, end, sources, limit, 0)
  {
    hide IsoUtc, Enumerate, Text.Less, Asked, Selected, RowsOf;
    var ks := Enumerate(WindowKeys(raw, device, start, end, sources));
    SelectionExact(raw, device, start, end, sources);
    var page := Page(ks, limit, 0);
    var k := Key(raw[id].event.time, id);
    assert k in ks;
    var i :| 0 <= i < |ks| && ks[i] == k;
    assert page[i] == k && RowsOf(raw, page)[i] == raw[id];
  }

  /** One key for each row asked for. */
  lemma KeysCounted(raw: map<Id, RawRow>, device: Id, start: Moment, end: Moment, sources: Option<seq<string>>)
    ensures |Enumerate(WindowKeys(raw, device, start, end, sources))| ==
            |set id | id in raw && Asked(raw[id], device, start, end, sources)|
  {
    hide IsoUtc, Enumerate, Text.Less, Asked, Selected;
    var ks := Enumerate(WindowKeys(raw, device, start, end, sources));
    SelectionExact(raw, device, start, end, sources);
    SortedDistinct(ks);
    var ids := set id | id in raw && Asked(raw[id], device, start, end, sources);
    KeyIds(raw, ks, ids);
  }

  lemma {:induction false} KeyIds(raw: map<Id, RawRow>, ks: seq<Key>, ids: set<Id>)
    requires Distinct(ks)
    requires forall k :: k in ks <==> k.id in ids && k.id in raw && k.time == raw[k.id].event.time
    requires forall id :: id in ids ==> id in raw
    ensures |ks| == |ids|
    decreases |ks|
  {
    if ks == [] {
      forall id: Id
        ensures id !in ids
      {
        assert Key(if id in raw then raw[id].event.time else "", id) !in ks;
      }
      assert ids == {};
    } else {
      var k := ks[0];
      assert k in ks;
      forall x: Key
        ensures x in ks[1..] <==> x.id in ids - {k.id} && x.id in raw && x.time == raw[x.id].event.time
      {
        assert x in ks <==> x == k || x in ks[1..];
        if x in ks[1..] {
          assert x in ks && x != k;
        }
      }
      KeyIds(raw, ks[1..], ids - {k.id});
    }
  }

  /** What every derivation reads: at most 200 000 rows of the window, whatever their source. */
  lemma WindowExact(raw: map<Id, RawRow>, device: Id, start: Moment, end: Moment)
    ensures var rows := WindowRows(raw, device, start, end);
            var all := |set id | id in raw && Asked(raw[id], device, start, end, None)|;
            && |rows| == (if all <= 200_000 then all else 200_000)
            && (forall r :: r in rows ==>
                 (exists id :: id in raw && raw[id] == r) &&
                 Asked(r, device, start, end, None))
            && (all <= 200_000 ==> forall id :: id in raw && Asked(raw[id], device, start, end, None) ==>
               raw[id] in rows)
  {
    hide EventsInWindow, Asked;
    EventsExact(raw, device, start, end, None, ROW_LIMIT, 0);
  }
}
