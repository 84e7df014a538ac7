/**
 * Wall-clock times of one day. A time is the zero-padded 24-hour string
 * "HH:mm"; internally it is the number of minutes since midnight. Formatting
 * an instant as "HH:mm" keeps only the time of day, so it wraps past midnight.
 */
module Clock {
  import opened JsValues

  const MinutesPerDay: nat := 1440

  /** A zero-padded 24-hour "HH:mm" string. */
  predicate IsHHmm(s: string)
  {
    && |s| == 5
    && IsDecimalDigit(s[0]) && IsDecimalDigit(s[1]) && s[2] == ':'
    && IsDecimalDigit(s[3]) && IsDecimalDigit(s[4])
    && DigitValue(s[0]) * 10 + DigitValue(s[1]) < 24
    && DigitValue(s[3]) < 6
  }

  predicate AllHHmm(ts: seq<string>)
  {
    forall i :: 0 <= i < |ts| ==> IsHHmm(ts[i])
  }

  function Hours(s: string): (h: nat)
    requires IsHHmm(s)
    ensures h < 24
  {
    DigitValue(s[0]) * 10 + DigitValue(s[1])
  }

  function MinuteOfHour(s: string): (m: nat)
    requires IsHHmm(s)
    ensures m < 60
  {
    DigitValue(s[3]) * 10 + DigitValue(s[4])
  }

  /** The minutes since midnight that an "HH:mm" string denotes. */
  function Minutes(s: string): (m: nat)
    requires IsHHmm(s)
    ensures m < MinutesPerDay
  {
    Hours(s) * 60 + MinuteOfHour(s)
  }

  /** `String(n).padStart(2, '0')` for n < 100. */
  function Pad2(n: nat): (r: string)
    requires n < 100
    ensures |r| == 2 && IsDecimalDigit(r[0]) && IsDecimalDigit(r[1])
    ensures DigitValue(r[0]) * 10 + DigitValue(r[1]) == n
  {
    [DigitChar(n / 10), DigitChar(n % 10)]
  }

  lemma Pad2IsPaddedNumeral(n: nat)
    requires n < 100
    ensures Pad2(n) == PadStart(NatToDecimal(n), 2, '0')
  {
    var d := NatToDecimal(n);
    if n >= 10 {
      assert d == [DigitChar(n / 10)] + [DigitChar(n % 10)];
      assert PadStart(d, 2, '0') == d;
    } else {
      assert d == [DigitChar(n)];
      assert PadStart(d, 2, '0') == ['0'] + d;
      assert DigitChar(0) == '0';
    }
  }

  /** The "HH:mm" string of hours h and minutes m. */
  function TimeString(h: nat, m: nat): (r: string)
    requires h < 24 && m < 60
    ensures IsHHmm(r) && Hours(r) == h && MinuteOfHour(r) == m
  {
    Pad2(h) + ":" + Pad2(m)
  }

  /** `format(t, 'HH:mm')` for the instant t minutes after midnight of the
      reservation date: only the time of day is kept. */
  function FormatHHmm(t: int): (r: string)
    ensures IsHHmm(r)
    ensures Minutes(r) == t % MinutesPerDay
  {
    var m := t % MinutesPerDay;
    TimeString(m / 60, m % 60)
  }

  lemma HHmmDeterminedByFields(a: string, b: string)
    requires IsHHmm(a) && IsHHmm(b)
    requires Hours(a) == Hours(b) && MinuteOfHour(a) == MinuteOfHour(b)
    ensures a == b
  {
    assert DigitValue(a[0]) == DigitValue(b[0]) && DigitValue(a[1]) == DigitValue(b[1]);
    assert DigitValue(a[3]) == DigitValue(b[3]) && DigitValue(a[4]) == DigitValue(b[4]);
    assert forall i :: 0 <= i < 5 ==> a[i] == b[i];
  }

  /** Formatting the minutes of a well-formed time gives the time back. */
  lemma FormatOfMinutes(s: string)
    requires IsHHmm(s)
    ensures FormatHHmm(Minutes(s)) == s
  {
    var h, m := Hours(s), MinuteOfHour(s);
    var t := Minutes(s);
    assert t == h * 60 + m;
    SplitMinutes(h, m);
    var r := TimeString(h, m);
    FormatIsTimeString(t, h, m);
    HHmmDeterminedByFields(r, s);
  }

  lemma FormatIsTimeString(t: int, h: nat, m: nat)
    requires h < 24 && m < 60
    requires t % MinutesPerDay / 60 == h && t % MinutesPerDay % 60 == m
    ensures FormatHHmm(t) == TimeString(h, m)
  {
  }

  /** Hours and minutes of the hour are the quotient and remainder by 60. */
  lemma SplitMinutes(h: nat, m: nat)
    requires h < 24 && m < 60
    ensures (h * 60 + m) % MinutesPerDay / 60 == h && (h * 60 + m) % MinutesPerDay % 60 == m
  {
  }

  /** Two well-formed times with the same minutes are the same string. */
  lemma MinutesInjective(a: string, b: string)
    requires IsHHmm(a) && IsHHmm(b) && Minutes(a) == Minutes(b)
    ensures a == b
  {
    FormatOfMinutes(a);
    FormatOfMinutes(b);
  }

  lemma DigitOrder(c: char, d: char)
    requires IsDecimalDigit(c) && IsDecimalDigit(d)
    ensures c < d <==> DigitValue(c) < DigitValue(d)
    ensures c == d <==> DigitValue(c) == DigitValue(d)
  {
  }

  /** On well-formed times, the string order `<` used by the source is the
      order of the clock. */
  lemma LexOrderIsClockOrder(a: string, b: string)
    requires IsHHmm(a) && IsHHmm(b)
    ensures LexLess(a, b) <==> Minutes(a) < Minutes(b)
  {
    LexLessFromStep(a, b, 0);
    LexLessFromStep(a, b, 1);
    LexLessFromStep(a, b, 2);
    LexLessFromStep(a, b, 3);
    LexLessFromStep(a, b, 4);
    assert !LexLessFrom(a, b, 5);
    DigitOrder(a[0], b[0]);
    DigitOrder(a[1], b[1]);
    DigitOrder(a[3], b[3]);
    DigitOrder(a[4], b[4]);
  }

  lemma LexLessEqIsClockOrder(a: string, b: string)
    requires IsHHmm(a) && IsHHmm(b)
    ensures LexLessEq(a, b) <==> Minutes(a) <= Minutes(b)
  {
    LexOrderIsClockOrder(b, a);
  }
}
