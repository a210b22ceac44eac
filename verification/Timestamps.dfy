/** Timestamps as the text that crosses the wire and the text that SQLite compares (models.py). */
module Timestamps {
  import opened Text
  import opened Calendar
  import opened Wrappers

  const SECOND := 1_000_000
  const HOUR := 3_600_000_000
  const DAY := 86_400_000_000

  /** Microseconds since 0001-01-01T00:00:00Z.  `IsoUtc` is modelled on the years 1000 to 9999. */
  const YEAR_1000 := 31_525_372_800_000_000
  const YEAR_2000 := 63_082_281_600_000_000
  const YEAR_10000 := 315_537_897_600_000_000

  type Moment = t: int | YEAR_1000 <= t < YEAR_10000 witness YEAR_1000

  /** The fields of a timestamp text.  `newline` is the line feed that `$` lets through at the end. */
  datatype Stamp = Stamp(year: nat, month: nat, day: nat, hour: nat, minute: nat, second: nat,
                         frac: seq<nat>, newline: bool)

  // ---------------------------------------------------------------- grammar

  predicate IsDigit(c: char) {
    '0' <= c <= '9'
  }

  function DigitChar(d: nat): char
    requires d < 10
  {
    (48 + d) as char
  }

  function Digit(c: char): nat
    requires IsDigit(c)
  {
    c as int - 48
  }

  predicate Digits(ds: seq<nat>) {
    forall i :: 0 <= i < |ds| ==> ds[i] < 10
  }

  predicate Printable(s: Stamp) {
    && s.year < 10_000 && s.month < 100 && s.day < 100
    && s.hour < 100 && s.minute < 100 && s.second < 100
    && |s.frac| <= 6 && Digits(s.frac)
  }

  function Two(n: nat): string
    requires n < 100
  {
    [DigitChar(n / 10), DigitChar(n % 10)]
  }

  function Four(n: nat): string
    requires n < 10_000
  {
    Two(n / 100) + Two(n % 100)
  }

  function Chars(ds: seq<nat>): string
    requires Digits(ds)
  {
    if ds == [] then "" else [DigitChar(ds[0])] + Chars(ds[1..])
  }

  function Head(s: Stamp): string
    requires Printable(s)
  {
    Four(s.year) + "-" + Two(s.month) + "-" + Two(s.day) + "T" + Two(s.hour) + ":" + Two(s.minute) + ":" + Two(s.second)
  }

  function Tail(s: Stamp): string
    requires Printable(s)
  {
    (if s.frac == [] then "" else "." + Chars(s.frac)) + "Z" + (if s.newline then "\n" else "")
  }

  function Render(s: Stamp): string
    requires Printable(s)
  {
    Head(s) + Tail(s)
  }

  predicate DigitsAt(t: string, lo: nat, hi: nat) {
    hi <= |t| && forall i :: lo <= i < hi ==> IsDigit(t[i])
  }

  predicate HeadMatches(t: string) {
    && |t| == 19
    && DigitsAt(t, 0, 4) && t[4] == '-' && DigitsAt(t, 5, 7) && t[7] == '-' && DigitsAt(t, 8, 10)
    && t[10] == 'T' && DigitsAt(t, 11, 13) && t[13] == ':' && DigitsAt(t, 14, 16) && t[16] == ':' && DigitsAt(t, 17, 19)
  }

  /** What follows the whole seconds: an optional fraction of one to six digits, then `Z`. */
  predicate TailMatches(t: string) {
    || t == "Z"
    || (3 <= |t| <= 8 && t[0] == '.' && t[|t| - 1] == 'Z' && DigitsAt(t, 1, |t| - 1))
  }

  /** `$` also matches just before one final line feed. */
  function Chomp(t: string): string {
    if t != "" && t[|t| - 1] == '\n' then t[..|t| - 1] else t
  }

  predicate Matches(t: string) {
    |t| >= 19 && HeadMatches(t[..19]) && TailMatches(Chomp(t[19..]))
  }

  function Pair(t: string, i: nat): nat
    requires DigitsAt(t, i, i + 2)
  {
    10 * Digit(t[i]) + Digit(t[i + 1])
  }

  function DigitsOf(t: string): seq<nat>
    requires DigitsAt(t, 0, |t|)
  {
    if t == "" then [] else [Digit(t[0])] + DigitsOf(t[1..])
  }

  /** Read the fields of a matching text, as the pattern's groups would. */
  function Scan(t: string): Stamp
    requires Matches(t)
  {
    var h, tail := t[..19], Chomp(t[19..]);
    Stamp(100 * Pair(h, 0) + Pair(h, 2), Pair(h, 5), Pair(h, 8), Pair(h, 11), Pair(h, 14), Pair(h, 17),
          if tail == "Z" then [] else DigitsOf(tail[1..|tail| - 1]),
          |tail| + 19 < |t|)
  }

  lemma {:induction false} CharsDigits(ds: seq<nat>)
    requires Digits(ds)
    ensures |Chars(ds)| == |ds| && DigitsAt(Chars(ds), 0, |ds|) && DigitsOf(Chars(ds)) == ds
  {
    if ds != [] {
      CharsDigits(ds[1..]);
      assert Chars(ds)[1..] == Chars(ds[1..]);
    }
  }

  lemma {:induction false} DigitsChars(t: string)
    requires DigitsAt(t, 0, |t|)
    ensures var ds := DigitsOf(t); |ds| == |t| && Digits(ds) && Chars(ds) == t
  {
    if t != "" {
      DigitsChars(t[1..]);
      assert DigitsOf(t)[1..] == DigitsOf(t[1..]);
      assert t == [t[0]] + t[1..];
    }
  }

  lemma HeadChars(s: Stamp)
    requires Printable(s)
    ensures |Head(s)| == 19 && HeadMatches(Head(s))
    ensures var h := Head(s);
            100 * Pair(h, 0) + Pair(h, 2) == s.year && Pair(h, 5) == s.month && Pair(h, 8) == s.day &&
            Pair(h, 11) == s.hour && Pair(h, 14) == s.minute && Pair(h, 17) == s.second
  {
    var h := Head(s);
    assert h[0..4] == Four(s.year) && h[5..7] == Two(s.month) && h[8..10] == Two(s.day);
    assert h[11..13] == Two(s.hour) && h[14..16] == Two(s.minute) && h[17..19] == Two(s.second);
  }

  lemma TailChars(s: Stamp)
    requires Printable(s)
    ensures var body := (if s.frac == [] then "" else "." + Chars(s.frac)) + "Z";
            Chomp(Tail(s)) == body && TailMatches(body) && |Tail(s)| == |body| + (if s.newline then 1 else 0)
  {
    CharsDigits(s.frac);
    var body := (if s.frac == [] then "" else "." + Chars(s.frac)) + "Z";
    assert Tail(s) == if s.newline then body + "\n" else body;
    assert s.newline ==> Tail(s)[..|Tail(s)| - 1] == body;
  }

  lemma HeadText(h: string, s: Stamp)
    requires Printable(s) && HeadMatches(h)
    requires 100 * Pair(h, 0) + Pair(h, 2) == s.year && Pair(h, 5) == s.month && Pair(h, 8) == s.day
    requires Pair(h, 11) == s.hour && Pair(h, 14) == s.minute && Pair(h, 17) == s.second
    ensures Head(s) == h
  {
    hide Head, Pair, Digit;
    var g := Head(s);
    HeadChars(s);
    PairText(g, h, 0);
    PairText(g, h, 2);
    PairText(g, h, 5);
    PairText(g, h, 8);
    PairText(g, h, 11);
    PairText(g, h, 14);
    PairText(g, h, 17);
    SameHead(g, h);
  }

  lemma SameHead(g: string, h: string)
    requires HeadMatches(g) && HeadMatches(h)
    requires g[0..2] == h[0..2] && g[2..4] == h[2..4] && g[5..7] == h[5..7] && g[8..10] == h[8..10]
    requires g[11..13] == h[11..13] && g[14..16] == h[14..16] && g[17..19] == h[17..19]
    ensures g == h
  {
    hide DigitsAt, IsDigit;
    forall i | 0 <= i < 19
      ensures g[i] == h[i]
    {
      SamePairs(g, h, 0, i);
      SamePairs(g, h, 2, i);
      SamePairs(g, h, 5, i);
      SamePairs(g, h, 8, i);
      SamePairs(g, h, 11, i);
      SamePairs(g, h, 14, i);
      SamePairs(g, h, 17, i);
    }
  }

  lemma SamePairs(g: string, h: string, p: nat, i: nat)
    requires p + 2 <= |g| && p + 2 <= |h| && g[p..p + 2] == h[p..p + 2]
    ensures p <= i < p + 2 ==> g[i] == h[i]
  {
    assert g[p..p + 2][0] == g[p] && g[p..p + 2][1] == g[p + 1];
    assert h[p..p + 2][0] == h[p] && h[p..p + 2][1] == h[p + 1];
  }

  lemma PairText(g: string, h: string, i: nat)
    requires DigitsAt(g, i, i + 2) && DigitsAt(h, i, i + 2)
    ensures 0 <= Pair(g, i) < 100 && 0 <= Pair(h, i) < 100
    ensures Pair(g, i) == Pair(h, i) ==> g[i..i + 2] == h[i..i + 2]
  {
    assert DigitChar(Digit(g[i])) == g[i] && DigitChar(Digit(h[i])) == h[i];
    assert DigitChar(Digit(g[i + 1])) == g[i + 1] && DigitChar(Digit(h[i + 1])) == h[i + 1];
  }

  lemma TailText(t: string, s: Stamp)
    requires TailMatches(Chomp(t)) && Printable(s)
    requires s.newline <==> |Chomp(t)| < |t|
    requires var b := Chomp(t); s.frac == if b == "Z" then [] else DigitsOf(b[1..|b| - 1])
    ensures Tail(s) == t
  {
    hide Digit, DigitChar, DigitsOf, Chars;
    var b := Chomp(t);
    assert t == b + (if s.newline then "\n" else "");
    if b != "Z" {
      DigitsChars(b[1..|b| - 1]);
      assert b == "." + b[1..|b| - 1] + "Z";
    }
  }

  /** Printing then scanning gives the fields back: every printable stamp satisfies the pattern. */
  lemma ScanRender(s: Stamp)
    requires Printable(s)
    ensures Matches(Render(s)) && Scan(Render(s)) == s
  {
    HeadChars(s);
    TailChars(s);
    assert Render(s)[..19] == Head(s) && Render(s)[19..] == Tail(s);
    if s.frac != [] {
      CharsDigits(s.frac);
      var body := "." + Chars(s.frac) + "Z";
      assert body[1..|body| - 1] == Chars(s.frac);
    }
  }

  /** Scanning then printing gives the text back: the pattern accepts nothing but printed stamps. */
  lemma RenderScan(t: string)
    requires Matches(t)
    ensures Printable(Scan(t)) && Render(Scan(t)) == t
  {
    var s, b := Scan(t), Chomp(t[19..]);
    assert Printable(s) by {
      if b != "Z" {
        DigitsChars(b[1..|b| - 1]);
      }
      PairText(t[..19], t[..19], 0);
    }
    assert Head(s) == t[..19] by {
      HeadText(t[..19], s);
    }
    assert Tail(s) == t[19..] by {
      TailText(t[19..], s);
    }
  }

  // ---------------------------------------------------------------- parsing

  predicate Civil(s: Stamp) {
    Valid(Date(s.year, s.month, s.day)) && s.hour < 24 && s.minute < 60 && s.second < 60
  }

  function Pow10(n: nat): nat {
    if n == 0 then 1 else 10 * Pow10(n - 1)
  }

  /** The value of a fraction in units of 10^-n seconds. */
  function FracValue(ds: seq<nat>, n: nat): nat
    requires |ds| <= n
  {
    if ds == [] then 0 else ds[0] * Pow10(n - 1) + FracValue(ds[1..], n - 1)
  }

  function WholeSeconds(s: Stamp): nat
    requires Civil(s)
  {
    86_400 * DayNumber(Date(s.year, s.month, s.day)) + 3_600 * s.hour + 60 * s.minute + s.second
  }

  /** An accepted text that names a real date and time. */
  predicate Accepted(t: string) {
    Matches(t) && Civil(Scan(t))
  }

  function Second(t: string): nat
    requires Accepted(t)
  {
    WholeSeconds(Scan(t))
  }

  function Frac(t: string): (ds: seq<nat>)
    requires Accepted(t)
    ensures |ds| <= 6 && Digits(ds)
  {
    RenderScan(t);
    Scan(t).frac
  }

  function Instant(t: string): nat
    requires Accepted(t)
  {
    SECOND * Second(t) + FracValue(Frac(t), 6)
  }

  /** `parse_iso_utc` on the texts the wire models let through; `None` is its ValueError. */
  function ParseIsoUtc(t: string): Option<nat> {
    if Accepted(t) then Some(Instant(t)) else None
  }

  lemma {:induction false} FracBound(ds: seq<nat>, n: nat)
    requires |ds| <= n && Digits(ds)
    ensures FracValue(ds, n) < Pow10(n)
    decreases n
  {
    if ds != [] {
      FracBound(ds[1..], n - 1);
      TopDigit(ds[0], Pow10(n - 1));
    } else if n > 0 {
      FracBound(ds, n - 1);
    }
  }

  lemma TopDigit(d: nat, p: nat)
    requires d < 10
    ensures d * p <= 9 * p
  {
    assert (9 - d) * p >= 0;
  }

  lemma FracBelowSecond(t: string)
    requires Accepted(t)
    ensures FracValue(Frac(t), 6) < SECOND
  {
    FracBound(Frac(t), 6);
    assert Pow10(6) == SECOND by {
      assert Pow10(3) == 1000;
      assert Pow10(5) == 100_000;
    }
  }

  /** The year field of a text places its instant. */
  lemma YearBounds(t: string)
    requires Accepted(t)
    ensures var y := Scan(t).year;
            1 <= y && DAY * DaysBeforeYear(y) <= Instant(t) < DAY * DaysBeforeYear(y + 1)
    ensures Instant(t) < YEAR_10000
    ensures Scan(t).year >= 2000 <==> YEAR_2000 <= Instant(t)
  {
    hide Matches;
    RenderScan(t);
    FracBelowSecond(t);
    var s := Scan(t);
    hide Scan, FracValue, Render;
    var d := Date(s.year, s.month, s.day);
    DateBounds(d);
    YearsIncrease(s.year, 10_000);
    if 2000 < s.year {
      YearsIncrease(2000, s.year);
    } else if s.year < 2000 {
      YearsIncrease(s.year, 2000);
    }
  }

  // ---------------------------------------------------------------- printing

  /** The three digits `%f` keeps after `[:-3]`. */
  function MillisDigits(us: nat): (ds: seq<nat>)
    requires us < SECOND
    ensures |ds| == 3 && Digits(ds) && FracValue(ds, 6) == 1000 * (us / 1000)
  {
    var ms := us / 1000;
    ThreeDigits(ms / 100, ms / 10 % 10, ms % 10);
    DigitSum(ms);
    [ms / 100, ms / 10 % 10, ms % 10]
  }

  lemma DigitSum(ms: nat)
    ensures ms == 100 * (ms / 100) + 10 * (ms / 10 % 10) + ms % 10
  {
    assert ms / 10 / 10 == ms / 100;
  }

  lemma ThreeDigits(a: nat, b: nat, c: nat)
    ensures FracValue([a, b, c], 6) == 100_000 * a + 10_000 * b + 1000 * c
  {
    assert [a, b, c][1..] == [b, c] && [b, c][1..] == [c] && [c][1..] == [];
    assert Pow10(3) == 1000;
    assert Pow10(4) == 10_000;
    assert Pow10(5) == 100_000;
    assert FracValue([c], 4) == 1000 * c;
    assert FracValue([b, c], 5) == 10_000 * b + 1000 * c;
  }

  function StampOf(t: Moment): (s: Stamp)
    ensures Printable(s) && Civil(s) && !s.newline && 1000 <= s.year
    ensures s.frac == if t % SECOND == 0 then [] else MillisDigits(t % SECOND)
    ensures WholeSeconds(s) == t / SECOND
  {
    var c := CivilOf(t / DAY);
    YearsOfMoments(t, c);
    SecondOfDay(t);
    var sec := t / SECOND % 86_400;
    Stamp(c.year, c.month, c.day, sec / 3_600, sec / 60 % 60, sec % 60,
          if t % SECOND == 0 then [] else MillisDigits(t % SECOND), false)
  }

  lemma SecondOfDay(t: nat)
    ensures var sec := t / SECOND % 86_400;
            86_400 * (t / DAY) + sec == t / SECOND &&
            sec / 3_600 < 24 && sec == 3_600 * (sec / 3_600) + 60 * (sec / 60 % 60) + sec % 60
    ensures t % SECOND / 1000 < 1000
  {
    assert t / DAY == t / SECOND / 86_400;
  }

  lemma YearsOfMoments(t: Moment, c: Date)
    requires Valid(c) && DayNumber(c) == t / DAY
    ensures 1000 <= c.year < 10_000
  {
    DateBounds(c);
  }

  function IsoUtc(t: Moment): string {
    Render(StampOf(t))
  }

  const SAMPLE := Stamp(2026, 3, 15, 8, 7, 6, [2, 5], false)

  lemma SampleText()
    ensures Printable(SAMPLE) && Render(SAMPLE) == "2026-03-15T08:07:06.25Z"
  {
    assert Four(2026) == "2026" && Two(3) == "03" && Two(15) == "15";
    assert Two(8) == "08" && Two(7) == "07" && Two(6) == "06";
    assert Head(SAMPLE) == "2026-03-15T08:07:06";
    assert [2, 5][1..] == [5] && [5][1..] == [];
    assert Chars([5]) == "5" && Chars([2, 5]) == "25";
    assert Tail(SAMPLE) == ".25Z";
  }

  lemma SampleTime()
    ensures Civil(SAMPLE) && WholeSeconds(SAMPLE) == 63_909_158_826 && FracValue([2, 5], 6) == 250_000
  {
    assert DaysBeforeMonth(2026, 2) == 31 && DaysBeforeMonth(2026, 3) == 59;
    assert [2, 5][1..] == [5] && [5][1..] == [];
    assert Pow10(3) == 1000 && Pow10(5) == 100_000;
    assert FracValue([5], 5) == 50_000;
  }

  /** One timestamp spelled out: its text is accepted and names that instant. */
  lemma Sample()
    ensures var t := "2026-03-15T08:07:06.25Z";
            Accepted(t) && Second(t) == 63_909_158_826 && Instant(t) == 63_909_158_826_250_000
  {
    hide Render, Scan, Matches, WholeSeconds, FracValue, Printable, Civil;
    SampleText();
    SampleTime();
    ScanRender(SAMPLE);
  }
}
