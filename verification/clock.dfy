/**
 * Wall-clock arithmetic shared by the solver, the slot search and the booking route:
 * minutes from midnight, the hour/minute conversion, the half-open overlap test,
 * `timedelta` addition followed by `.time()`, and the zero-padded `HH:MM` form
 * that the solver sorts and deduplicates on.
 */
module Clock {

  const MinutesPerDay := 24 * 60

  /** A minute of the day, 00:00 .. 23:59. */
  type Minute = m: int | 0 <= m < MinutesPerDay

  /** A `datetime.time` without seconds. */
  datatype TimeOfDay = TimeOfDay(hour: int, minute: int) {
    predicate Valid() {
      0 <= hour < 24 && 0 <= minute < 60
    }
  }

  type Time = t: TimeOfDay | t.Valid() witness TimeOfDay(0, 0)

  /** `t.hour * 60 + t.minute`: the minute offset of a time of day. */
  function MinuteOf(t: Time): (m: Minute)
    ensures m / 60 == t.hour && m % 60 == t.minute
  {
    t.hour * 60 + t.minute
  }

  /** `time(hour=m // 60, minute=m % 60)`: the time of day of a minute offset. */
  function TimeOf(m: Minute): (t: Time)
    ensures MinuteOf(t) == m
  {
    TimeOfDay(m / 60, m % 60)
  }

  /** Converting a time of day to minutes and back gives the same time. */
  lemma TimeRoundTrip(t: Time)
    ensures TimeOf(MinuteOf(t)) == t
  {
  }

  /** Two half-open intervals [s1, e1) and [s2, e2) overlap. */
  predicate Overlaps(s1: int, e1: int, s2: int, e2: int) {
    s1 < e2 && s2 < e1
  }

  /** Minute `t` lies in the half-open interval [s, e). */
  predicate Covers(s: int, e: int, t: int) {
    s <= t < e
  }

  /**
   * For non-empty intervals, overlap means sharing a minute. (An empty interval strictly
   * inside another still passes the test, although it shares no minute.)
   */
  lemma OverlapsIffSharedMinute(s1: int, e1: int, s2: int, e2: int)
    requires s1 < e1 && s2 < e2
    ensures Overlaps(s1, e1, s2, e2) <==> exists t :: Covers(s1, e1, t) && Covers(s2, e2, t)
  {
    if Overlaps(s1, e1, s2, e2) {
      var t := if s1 < s2 then s2 else s1;
      assert Covers(s1, e1, t) && Covers(s2, e2, t);
    }
  }

  /** An interval that ends where the other starts, or starts where it ends, does not overlap it. */
  lemma TouchingDoesNotOverlap(s: int, e: int, s2: int, e2: int)
    requires e == s2 || s == e2
    requires s <= e && s2 <= e2
    ensures !Overlaps(s, e, s2, e2)
  {
  }

  /**
   * `(datetime.combine(day, t) + timedelta(minutes=d)).time()`: the time of day reached after
   * `d` minutes; the date is dropped, so the result wraps at midnight.
   */
  function AddMinutes(t: Minute, d: int): (r: Minute)
    ensures exists days: int :: t + d == days * MinutesPerDay + r
  {
    var r := (t + d) % MinutesPerDay;
    assert t + d == ((t + d) / MinutesPerDay) * MinutesPerDay + r;
    r
  }

  /** Without crossing midnight the end time is the plain sum. */
  lemma AddMinutesWithinDay(t: Minute, d: int)
    requires 0 <= t + d < MinutesPerDay
    ensures AddMinutes(t, d) == t + d
  {
  }

  /** Crossing midnight once lands `MinutesPerDay` minutes back, before the start when d < one day. */
  lemma AddMinutesPastMidnight(t: Minute, d: int)
    requires MinutesPerDay <= t + d < 2 * MinutesPerDay
    ensures AddMinutes(t, d) == t + d - MinutesPerDay
    ensures d < MinutesPerDay ==> AddMinutes(t, d) < t
  {
    var q := (t + d) / MinutesPerDay;
    var r := (t + d) % MinutesPerDay;
    assert t + d == q * MinutesPerDay + r;
    assert q == 1;
  }

  // ---------------------------------------------------------------------------
  // The zero-padded HH:MM form (`strftime('%H:%M')`)
  // ---------------------------------------------------------------------------

  function Digit(d: int): (c: char)
    requires 0 <= d < 10
  {
    ('0' as int + d) as char
  }

  /** `strftime('%H:%M')` of the time at minute `m`. */
  function FormatHHMM(m: Minute): (s: string)
    ensures |s| == 5 && s[2] == ':'
  {
    var h, mm := m / 60, m % 60;
    [Digit(h / 10), Digit(h % 10), ':', Digit(mm / 10), Digit(mm % 10)]
  }

  /** Python's `<` on `str`: lexicographic by code point, a proper prefix first. */
  predicate LexLess(s: string, t: string) {
    if s == [] then t != []
    else if t == [] then false
    else if s[0] != t[0] then s[0] < t[0]
    else LexLess(s[1..], t[1..])
  }

  /** The four digits of `FormatHHMM(m)` as numbers. */
  function DigitsOf(m: Minute): (int, int, int, int) {
    (m / 60 / 10, m / 60 % 10, m % 60 / 10, m % 60 % 10)
  }

  predicate TupleLess(a: (int, int, int, int), b: (int, int, int, int)) {
    a.0 < b.0 || (a.0 == b.0 && (a.1 < b.1 || (a.1 == b.1 && (a.2 < b.2 || (a.2 == b.2 && a.3 < b.3)))))
  }

  lemma DigitOrder(x: int, y: int)
    requires 0 <= x < 10 && 0 <= y < 10
    ensures Digit(x) < Digit(y) <==> x < y
    ensures Digit(x) == Digit(y) <==> x == y
  {
  }

  /** On strings of equal length, the first differing character decides. */
  lemma LexLessStep(s: string, t: string)
    requires |s| == |t| > 0
    ensures LexLess(s, t) <==> s[0] < t[0] || (s[0] == t[0] && LexLess(s[1..], t[1..]))
  {
  }

  lemma LexLessOfFormats(a: Minute, b: Minute)
    ensures LexLess(FormatHHMM(a), FormatHHMM(b)) <==> TupleLess(DigitsOf(a), DigitsOf(b))
  {
    var s, t := FormatHHMM(a), FormatHHMM(b);
    var (a0, a1, a2, a3) := DigitsOf(a);
    var (b0, b1, b2, b3) := DigitsOf(b);
    DigitOrder(a0, b0);
    DigitOrder(a1, b1);
    DigitOrder(a3, b3);
    DigitOrder(a2, b2);
    LexLessStep(s, t);
    LexLessStep(s[1..], t[1..]);
    LexLessStep(s[2..], t[2..]);
    LexLessStep(s[3..], t[3..]);
    LexLessStep(s[4..], t[4..]);
    assert s[1..][1..] == s[2..] && t[1..][1..] == t[2..];
    assert s[2..][1..] == s[3..] && t[2..][1..] == t[3..];
    assert s[3..][1..] == s[4..] && t[3..][1..] == t[4..];
    assert s[4..][1..] == [] && t[4..][1..] == [];
  }

  lemma DigitTupleOrder(a: Minute, b: Minute)
    ensures TupleLess(DigitsOf(a), DigitsOf(b)) <==> a < b
  {
    var ha, ma, hb, mb := a / 60, a % 60, b / 60, b % 60;
    assert a == 60 * ha + ma && b == 60 * hb + mb;
    assert ha == 10 * (ha / 10) + ha % 10 && hb == 10 * (hb / 10) + hb % 10;
    assert ma == 10 * (ma / 10) + ma % 10 && mb == 10 * (mb / 10) + mb % 10;
    assert a < b <==> ha < hb || (ha == hb && ma < mb);
  }

  /**
   * Comparing zero-padded `HH:MM` strings is comparing the times: sorting by the
   * `start_time` string sorts chronologically.
   */
  lemma FormatOrder(a: Minute, b: Minute)
    ensures LexLess(FormatHHMM(a), FormatHHMM(b)) <==> a < b
  {
    LexLessOfFormats(a, b);
    DigitTupleOrder(a, b);
  }

  /** Different minutes have different `HH:MM` strings, so a key of formatted times is a key of minutes. */
  lemma FormatInjective(a: Minute, b: Minute)
    ensures FormatHHMM(a) == FormatHHMM(b) <==> a == b
  {
    if FormatHHMM(a) == FormatHHMM(b) {
      var s := FormatHHMM(a);
      assert DigitsOf(a) == DigitsOf(b) by {
        assert s[0] == Digit(a / 60 / 10) == Digit(b / 60 / 10);
        assert s[1] == Digit(a / 60 % 10) == Digit(b / 60 % 10);
        assert s[3] == Digit(a % 60 / 10) == Digit(b % 60 / 10);
        assert s[4] == Digit(a % 60 % 10) == Digit(b % 60 % 10);
      }
      DigitTupleOrder(a, b);
      DigitTupleOrder(b, a);
    }
  }
}
