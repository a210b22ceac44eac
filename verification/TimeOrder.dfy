/**
 Where the text order of accepted timestamps agrees with the order of the instants they name.
 RFC 3339 section 5.1 promises agreement only when all fractions have the same number of digits;
 the server accepts zero to six.
 */
module TimeOrder {
  import opened Text
  import opened Calendar
  import opened Wrappers
  import opened Timestamps

  // ---------------------------------------------------------------- whole seconds

  lemma TwoOrder(p: string, x: nat, q: string, y: nat, sep: string)
    requires |p| == |q| && x < 100 && y < 100
    ensures Less(p + sep + Two(x), q + sep + Two(y)) <==> Less(p, q) || (p == q && x < y)
    ensures p + sep + Two(x) == q + sep + Two(y) <==> p == q && x == y
  {
    LessSplit(p + sep, Two(x), q + sep, Two(y));
    LessSplit(p, sep, q, sep);
    LessIrreflexive(sep);
    assert p == (p + sep)[..|p|] && q == (q + sep)[..|q|];
    LessSplit([DigitChar(x / 10)], [DigitChar(x % 10)], [DigitChar(y / 10)], [DigitChar(y % 10)]);
    assert Less(Two(x), Two(y)) <==> x < y by {
      assert Two(x) == [DigitChar(x / 10)] + [DigitChar(x % 10)];
      assert Two(y) == [DigitChar(y / 10)] + [DigitChar(y % 10)];
    }
    assert Two(x) == Two(y) ==> x == y by {
      assert Digit(Two(x)[0]) == x / 10 && Digit(Two(x)[1]) == x % 10;
      assert Digit(Two(y)[0]) == y / 10 && Digit(Two(y)[1]) == y % 10;
    }
    assert (p + sep + Two(x))[..|p + sep|] == p + sep && (p + sep + Two(x))[|p + sep|..] == Two(x);
    assert (q + sep + Two(y))[..|q + sep|] == q + sep && (q + sep + Two(y))[|q + sep|..] == Two(y);
  }

  lemma FourOrder(x: nat, y: nat)
    requires x < 10_000 && y < 10_000
    ensures Less(Four(x), Four(y)) <==> x < y
    ensures Four(x) == Four(y) <==> x == y
  {
    TwoOrder("", x / 100, "", y / 100, "");
    TwoOrder(Two(x / 100), x % 100, Two(y / 100), y % 100, "");
    assert "" + "" + Two(x / 100) == Two(x / 100) && Two(x / 100) + "" == Two(x / 100);
    assert "" + "" + Two(y / 100) == Two(y / 100) && Two(y / 100) + "" == Two(y / 100);
  }

  predicate FieldsBefore(a: Stamp, b: Stamp) {
    || a.year < b.year || (a.year == b.year && (
    || a.month < b.month || (a.month == b.month && (
    || a.day < b.day || (a.day == b.day && (
    || a.hour < b.hour || (a.hour == b.hour && (
    || a.minute < b.minute || (a.minute == b.minute && a.second < b.second)))))))))
  }

  lemma HeadFields(a: Stamp, b: Stamp)
    requires Printable(a) && Printable(b)
    ensures Less(Head(a), Head(b)) <==> FieldsBefore(a, b)
    ensures Head(a) == Head(b) <==>
            a.year == b.year && a.month == b.month && a.day == b.day &&
            a.hour == b.hour && a.minute == b.minute && a.second == b.second
  {
    FourOrder(a.year, b.year);
    var p, q := Four(a.year), Four(b.year);
    TwoOrder(p, a.month, q, b.month, "-");
    p, q := p + "-" + Two(a.month), q + "-" + Two(b.month);
    TwoOrder(p, a.day, q, b.day, "-");
    p, q := p + "-" + Two(a.day), q + "-" + Two(b.day);
    TwoOrder(p, a.hour, q, b.hour, "T");
    p, q := p + "T" + Two(a.hour), q + "T" + Two(b.hour);
    TwoOrder(p, a.minute, q, b.minute, ":");
    p, q := p + ":" + Two(a.minute), q + ":" + Two(b.minute);
    TwoOrder(p, a.second, q, b.second, ":");
  }

  lemma FieldsSeconds(a: Stamp, b: Stamp)
    requires Civil(a) && Civil(b)
    ensures FieldsBefore(a, b) <==> WholeSeconds(a) < WholeSeconds(b)
    ensures WholeSeconds(a) == WholeSeconds(b) <==>
            a.year == b.year && a.month == b.month && a.day == b.day &&
            a.hour == b.hour && a.minute == b.minute && a.second == b.second
  {
    DayNumberOrder(Date(a.year, a.month, a.day), Date(b.year, b.month, b.day));
  }

  // ---------------------------------------------------------------- fractions

  predicate ProperPrefix(x: seq<nat>, y: seq<nat>) {
    |x| < |y| && y[..|x|] == x
  }

  /** Fractions of which neither extends the other: the first differing digit decides both orders. */
  lemma {:induction false} FracOrder(x: seq<nat>, y: seq<nat>, n: nat, u: string, v: string)
    requires |x| <= n && |y| <= n
    requires Digits(x)
    requires Digits(y)
    requires x != y && !ProperPrefix(x, y) && !ProperPrefix(y, x)
    ensures Less(Chars(x) + "Z" + u, Chars(y) + "Z" + v) <==> FracValue(x, n) < FracValue(y, n)
    ensures FracValue(x, n) != FracValue(y, n)
    decreases n
  {
    assert x != [] && y != [];
    FirstDigit(x, u);
    FirstDigit(y, v);
    if x[0] == y[0] {
      PrefixStep(x, y);
      PrefixStep(y, x);
      FracOrder(x[1..], y[1..], n - 1, u, v);
    } else {
      FracBound(x[1..], n - 1);
      FracBound(y[1..], n - 1);
      LeadingDigit(x[0], FracValue(x[1..], n - 1), y[0], FracValue(y[1..], n - 1), Pow10(n - 1));
    }
  }

  lemma FirstDigit(x: seq<nat>, u: string)
    requires x != [] && Digits(x)
    ensures Digits(x[1..])
    ensures var s := Chars(x) + "Z" + u; s[0] == DigitChar(x[0]) && s[1..] == Chars(x[1..]) + "Z" + u
  {
    FirstChar(DigitChar(x[0]), Chars(x[1..]), u);
  }

  lemma FirstChar(d: char, c: string, u: string)
    ensures var s := [d] + c + "Z" + u; s[0] == d && s[1..] == c + "Z" + u
  {
    assert [d] + c + "Z" + u == [d] + (c + "Z" + u);
  }

  lemma PrefixStep(x: seq<nat>, y: seq<nat>)
    requires x != [] && y != [] && x[0] == y[0]
    ensures ProperPrefix(x, y) <==> ProperPrefix(x[1..], y[1..])
    ensures x == y <==> x[1..] == y[1..]
  {
    assert x == [x[0]] + x[1..] && y == [y[0]] + y[1..];
    if |x| < |y| {
      assert y[..|x|] == [y[0]] + y[1..][..|x| - 1];
    }
  }

  lemma LeadingDigit(d: nat, r: nat, e: nat, s: nat, p: nat)
    requires d != e && r < p && s < p
    ensures d * p + r < e * p + s <==> d < e
    ensures d * p + r != e * p + s
  {
    if d < e {
      assert (d + 1) * p <= e * p;
    } else {
      assert (e + 1) * p <= d * p;
    }
  }

  /** A longer fraction sorts before its own prefix, because `Z` follows every digit. */
  lemma {:induction false} PrefixOrder(x: seq<nat>, y: seq<nat>, n: nat, u: string, v: string)
    requires |y| <= n && ProperPrefix(x, y)
    requires Digits(y)
    ensures Digits(x)
    ensures Less(Chars(y) + "Z" + v, Chars(x) + "Z" + u)
    ensures !Less(Chars(x) + "Z" + u, Chars(y) + "Z" + v)
    ensures FracValue(x, n) <= FracValue(y, n)
    decreases n
  {
    assert forall i :: 0 <= i < |x| ==> x[i] == y[..|x|][i];
    var s, t := Chars(x) + "Z" + u, Chars(y) + "Z" + v;
    assert t[0] == DigitChar(y[0]) && t[1..] == Chars(y[1..]) + "Z" + v;
    if x == [] {
      assert s[0] == 'Z';
    } else {
      assert s[0] == DigitChar(x[0]) && s[1..] == Chars(x[1..]) + "Z" + u;
      assert y[1..][..|x| - 1] == y[..|x|][1..];
      PrefixOrder(x[1..], y[1..], n - 1, u, v);
    }
  }

  /** The order of the tails of two texts that share their whole seconds. */
  lemma TailOrder(a: Stamp, b: Stamp)
    requires Printable(a) && Printable(b)
    ensures ProperPrefix(a.frac, b.frac) ==>
              !Less(Tail(a), Tail(b)) && Less(Tail(b), Tail(a)) &&
              FracValue(a.frac, 6) <= FracValue(b.frac, 6)
    ensures a.frac == b.frac ==> (Less(Tail(a), Tail(b)) <==> !a.newline && b.newline)
    ensures a.frac != b.frac && !ProperPrefix(a.frac, b.frac) && !ProperPrefix(b.frac, a.frac) ==>
            FracValue(a.frac, 6) != FracValue(b.frac, 6) &&
            (Less(Tail(a), Tail(b)) <==> FracValue(a.frac, 6) < FracValue(b.frac, 6))
  {
    var u, v := if a.newline then "\n" else "", if b.newline then "\n" else "";
    var dot := if a.frac == [] || b.frac == [] then "" else ".";
    if a.frac == b.frac {
      var body := (if a.frac == [] then "" else "." + Chars(a.frac)) + "Z";
      assert Tail(a) == body + u && Tail(b) == body + v;
      LessSplit(body, u, body, v);
      LessIrreflexive(body);
    } else if a.frac == [] {
      assert Tail(a)[0] == 'Z' && Tail(b)[0] == '.';
    } else if b.frac == [] {
      assert Tail(b)[0] == 'Z' && Tail(a)[0] == '.';
      assert ProperPrefix(b.frac, a.frac);
    } else {
      assert Tail(a) == "." + (Chars(a.frac) + "Z" + u) && Tail(b) == "." + (Chars(b.frac) + "Z" + v);
      LessSplit(".", Chars(a.frac) + "Z" + u, ".", Chars(b.frac) + "Z" + v);
      LessSplit(".", Chars(b.frac) + "Z" + v, ".", Chars(a.frac) + "Z" + u);
      LessIrreflexive(".");
      if ProperPrefix(a.frac, b.frac) {
        PrefixOrder(a.frac, b.frac, 6, u, v);
      } else if !ProperPrefix(b.frac, a.frac) {
        FracOrder(a.frac, b.frac, 6, u, v);
      }
    }
  }

  // ---------------------------------------------------------------- the text order

  lemma InstantParts(t: string)
    requires Accepted(t)
    ensures FracValue(Frac(t), 6) < SECOND
    ensures Printable(Scan(t)) && Render(Scan(t)) == t
    ensures Second(t) == Instant(t) / SECOND
  {
    RenderScan(t);
    FracBelowSecond(t);
  }

  /**
   The text order, completely: whole seconds decide when they differ; within one second a text whose
   fraction is a proper prefix of the other's sorts after it, whatever instants they name; otherwise the
   instants decide, and equal fractions are told apart only by a trailing line feed.
   */
  lemma TextOrder(a: string, b: string)
    requires Accepted(a) && Accepted(b)
    ensures Less(a, b) <==>
            if Second(a) != Second(b) then Second(a) < Second(b)
            else if ProperPrefix(Frac(a), Frac(b)) then false
            else if ProperPrefix(Frac(b), Frac(a)) then true
            else if Frac(a) == Frac(b) then !Scan(a).newline && Scan(b).newline
            else Instant(a) < Instant(b)
  {
    InstantParts(a);
    InstantParts(b);
    var x, y := Scan(a), Scan(b);
    HeadFields(x, y);
    FieldsSeconds(x, y);
    HeadChars(x);
    HeadChars(y);
    LessSplit(Head(x), Tail(x), Head(y), Tail(y));
    TailOrder(x, y);
    TailOrder(y, x);
  }

  /** RFC 3339 section 5.1: with as many fractional digits on both sides text order is time order. */
  lemma EqualPrecisionOrder(a: string, b: string)
    requires Accepted(a) && Accepted(b)
    requires Second(a) != Second(b) || |Frac(a)| == |Frac(b)|
    requires Scan(b).newline ==> Scan(a).newline
    ensures Less(a, b) <==> Instant(a) < Instant(b)
  {
    TextOrder(a, b);
    InstantParts(a);
    InstantParts(b);
  }

  /**
   Exactly when "text less" and "earlier" differ: in the same second, when the first fraction extends the
   second, when the second extends the first and is later, or when only a line feed tells them apart.
   */
  predicate Misordered(a: string, b: string) {
    Accepted(a) && Accepted(b) && Second(a) == Second(b) &&
    (|| ProperPrefix(Frac(b), Frac(a))
     || (ProperPrefix(Frac(a), Frac(b)) && Instant(a) < Instant(b))
     || (Frac(a) == Frac(b) && !Scan(a).newline && Scan(b).newline))
  }

  lemma DisagreementSet(a: string, b: string)
    requires Accepted(a) && Accepted(b)
    ensures (Less(a, b) <==> Instant(a) < Instant(b)) <==> !Misordered(a, b)
  {
    TextOrder(a, b);
    InstantParts(a);
    InstantParts(b);
    if Second(a) == Second(b) {
      TailOrder(Scan(a), Scan(b));
      TailOrder(Scan(b), Scan(a));
    }
  }

  // ---------------------------------------------------------------- iso_utc

  /** What `iso_utc` prints always fits the wire grammar and names a real date and time. */
  lemma IsoAccepted(t: Moment)
    ensures Accepted(IsoUtc(t)) && Second(IsoUtc(t)) == t / SECOND && !Scan(IsoUtc(t)).newline
    ensures Frac(IsoUtc(t)) == [] <==> t % SECOND == 0
    ensures FracValue(Frac(IsoUtc(t)), 6) == 1000 * (t % SECOND / 1000)
  {
    ScanRender(StampOf(t));
  }

  lemma MillisOf(t: nat)
    ensures t - t % 1000 == SECOND * (t / SECOND) + 1000 * (t % SECOND / 1000)
  {
    assert t % SECOND % 1000 == t % 1000;
  }

  /** An instant cut to the millisecond. */
  function ToMillis(t: Moment): (u: Moment)
    ensures u % 1000 == 0 && u == t - t % 1000
  {
    FloorMillis(t);
    t - t % 1000
  }

  lemma FloorMillis(t: nat)
    ensures var u := t - t % 1000;
            u % 1000 == 0 && u / SECOND == t / SECOND && u % SECOND / 1000 == t % SECOND / 1000 &&
            (u % SECOND == 0 <==> t % SECOND < 1000)
    ensures YEAR_1000 <= t ==> YEAR_1000 <= t - t % 1000
  {
    MillisOf(t);
    var k := t % SECOND / 1000;
    assert (t - t % 1000) % SECOND == 1000 * k;
  }

  /** `parse_iso_utc(iso_utc(t))` is `t` floored to the millisecond. */
  lemma IsoRoundTrip(t: Moment)
    ensures ParseIsoUtc(IsoUtc(t)) == Some(t - t % 1000)
  {
    IsoAccepted(t);
    MillisInstant(IsoUtc(t), t);
  }

  lemma MillisInstant(x: string, t: nat)
    requires Accepted(x) && Second(x) == t / SECOND && FracValue(Frac(x), 6) == 1000 * (t % SECOND / 1000)
    ensures ParseIsoUtc(x) == Some(t - t % 1000)
  {
    MillisOf(t);
  }

  /** Printing and parsing again settles on the instant ... */
  lemma IsoIdempotentInstant(t: Moment)
    ensures ParseIsoUtc(IsoUtc(ToMillis(t))) == ParseIsoUtc(IsoUtc(t))
  {
    hide StampOf, IsoUtc;
    IsoRoundTrip(t);
    IsoRoundTrip(ToMillis(t));
    assert ToMillis(ToMillis(t)) == ToMillis(t);
  }

  /** ... but on the text only when the part below the second is nothing or at least a millisecond. */
  lemma IsoIdempotentText(t: Moment)
    ensures IsoUtc(ToMillis(t)) == IsoUtc(t) <==> t % SECOND == 0 || 1000 <= t % SECOND
  {
    hide StampOf, Accepted, Frac, Render;
    var u := ToMillis(t);
    FloorMillis(t);
    if t % SECOND == 0 || 1000 <= t % SECOND {
      assert t % SECOND == 0 <==> u % SECOND == 0;
      SameStamp(t, u);
    } else {
      IsoAccepted(t);
      IsoAccepted(u);
      assert Frac(IsoUtc(t)) != [] && Frac(IsoUtc(u)) == [];
    }
  }

  lemma SameStamp(t: Moment, u: Moment)
    requires t / SECOND == u / SECOND && t % SECOND / 1000 == u % SECOND / 1000
    requires t % SECOND == 0 <==> u % SECOND == 0
    ensures StampOf(t) == StampOf(u)
  {
    assert t / DAY == t / SECOND / 86_400 && u / DAY == u / SECOND / 86_400;
  }

  // ---------------------------------------------------------------- windows

  /** SQL's half-open window on texts: `event_time_utc >= start AND event_time_utc < end`. */
  predicate InTextWindow(t: string, start: string, end: string) {
    !Less(t, start) && Less(t, end)
  }

  predicate FracInSecond(t: string, second: nat)
    requires Accepted(t)
  {
    Second(t) == second && Frac(t) != []
  }

  /** Against a whole-second bound, the text of a fraction in the bound's own second counts as earlier. */
  lemma WholeSecondBound(t: string, bound: Moment)
    requires Accepted(t) && bound % SECOND == 0
    ensures Less(t, IsoUtc(bound)) <==> Instant(t) < bound || FracInSecond(t, bound / SECOND)
  {
    hide IsoUtc, Render, StampOf, Matches;
    IsoAccepted(bound);
    InstantParts(t);
    TextOrder(t, IsoUtc(bound));
  }

  /**
   A window with whole-second bounds, against the true half-open window of instants: the text window
   loses exactly the texts with a fraction in the start second and gains exactly the texts with a
   fraction in the end second.
   */
  lemma WholeSecondWindow(t: string, start: Moment, end: Moment)
    requires Accepted(t) && start % SECOND == 0 && end % SECOND == 0 && start < end
    ensures InTextWindow(t, IsoUtc(start), IsoUtc(end)) <==>
            (start <= Instant(t) < end && !FracInSecond(t, start / SECOND)) || FracInSecond(t, end / SECOND)
  {
    hide IsoUtc, Less, Accepted, Instant;
    WholeSecondBound(t, start);
    WholeSecondBound(t, end);
    InstantParts(t);
  }

  /** What any `iso_utc` bound decides on texts outside its own second. */
  lemma BoundOutsideSecond(t: string, bound: Moment)
    requires Accepted(t) && Second(t) != bound / SECOND
    ensures Less(t, IsoUtc(bound)) <==> Instant(t) < bound
  {
    IsoAccepted(bound);
    IsoRoundTrip(bound);
    InstantParts(t);
    TextOrder(t, IsoUtc(bound));
  }

  /** Hour labels sort as hours, whichever way they are compared with another `iso_utc` text. */
  lemma HourKeyOrder(h: Moment, bound: Moment)
    requires h % HOUR == 0
    ensures Less(IsoUtc(h), IsoUtc(bound)) <==> h / SECOND < bound / SECOND
  {
    WholeHour(h);
    IsoAccepted(h);
    IsoAccepted(bound);
    TextOrder(IsoUtc(h), IsoUtc(bound));
  }

  /** A text bound is equal to an hour label only when it is that hour: labels are unambiguous keys. */
  lemma HourKeyInjective(h: Moment, bound: Moment)
    requires h % HOUR == 0 && IsoUtc(h) == IsoUtc(bound)
    ensures h == bound
  {
    WholeHour(h);
    IsoAccepted(h);
    IsoAccepted(bound);
    SameWholeSecond(h, bound);
  }

  lemma SameWholeSecond(x: nat, y: nat)
    requires x % SECOND == 0 && y % SECOND == 0 && x / SECOND == y / SECOND
    ensures x == y
  {
  }

  lemma WholeHour(h: nat)
    requires h % HOUR == 0
    ensures h % SECOND == 0 && h % 1000 == 0
  {
    assert h == SECOND * (3_600 * (h / HOUR));
  }
}
