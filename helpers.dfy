/**
 * Small helpers: left-padding a time and the six-character reservation code.
 * The clock (`Date.now()`) and the three random picks are inputs.
 */
module Helpers {
  import opened JsValues
  import opened Clock

  /** `formatTime`: `time.padStart(5, '0')`. */
  function FormatTime(time: string): string
  {
    PadStart(time, 5, '0')
  }

  /** Padding keeps the input as a suffix, pads with '0' to five characters,
      leaves longer strings alone, and is idempotent. */
  lemma FormatTimePadsToFive(time: string)
    ensures var r := FormatTime(time);
      && (|time| >= 5 ==> r == time)
      && (|time| < 5 ==> |r| == 5 && r == seq(5 - |time|, _ => '0') + time)
      && FormatTime(r) == r
  {
    var r := FormatTime(time);
    if |time| < 5 {
      assert r[..5 - |time|] == seq(5 - |time|, _ => '0');
      assert r == r[..5 - |time|] + r[5 - |time|..];
    }
  }

  /** A time with a one-digit hour, such as "9:30", becomes the zero-padded
      "HH:mm" of the same clock time. */
  lemma FormatTimeOfShortHour(time: string)
    requires |time| == 4 && IsDecimalDigit(time[0]) && time[1] == ':'
    requires IsDecimalDigit(time[2]) && IsDecimalDigit(time[3]) && DigitValue(time[2]) < 6
    ensures IsHHmm(FormatTime(time))
    ensures Hours(FormatTime(time)) == DigitValue(time[0])
    ensures MinuteOfHour(FormatTime(time)) == DigitValue(time[2]) * 10 + DigitValue(time[3])
  {
    var r := FormatTime(time);
    assert r == ['0'] + time;
  }

  // ------------------------------------------------------- reservation code

  /** The 36 characters a code is drawn from. */
  const CodeAlphabet: string := "ABCDEFGHIJKLMNOPQRSTUVWXYZ0123456789"

  /** A digit of `toString(36)`: 0-9 then a-z. */
  function Digit36(d: nat): (c: char)
    requires d < 36
    ensures ('0' <= c <= '9') || ('a' <= c <= 'z')
  {
    if d < 10 then ((('0' as int) + d) as char) else ((('a' as int) + d - 10) as char)
  }

  /** `n.toString(36)` */
  function ToBase36(n: nat): (r: string)
    ensures |r| >= 1
    ensures forall i :: 0 <= i < |r| ==> ('0' <= r[i] <= '9') || ('a' <= r[i] <= 'z')
    decreases n
  {
    if n < 36 then [Digit36(n)] else ToBase36(n / 36) + [Digit36(n % 36)]
  }

  /** `s.slice(-k)`: the last k characters, or all of a shorter string. */
  function SliceLast(s: string, k: nat): (r: string)
    ensures |r| == if |s| < k then |s| else k
    ensures r == s[|s| - |r|..]
  {
    if |s| <= k then s else s[|s| - k..]
  }

  /** The value of an upper-case base-36 digit. */
  function Value36(c: char): nat
  {
    if '0' <= c <= '9' then (c as int - '0' as int) as nat
    else if 'A' <= c <= 'Z' then (c as int - 'A' as int + 10) as nat
    else 0
  }

  lemma Value36OfDigit(d: nat)
    requires d < 36
    ensures Value36(UpperChar(Digit36(d))) == d
    ensures UpperChar(Digit36(d)) in CodeAlphabet
  {
    var c := UpperChar(Digit36(d));
    if d < 10 {
      assert c == CodeAlphabet[26 + d];
    } else {
      assert c == CodeAlphabet[d - 10];
    }
  }

  /** `generateReservationCode`: the last three characters of the upper-cased
      base-36 clock, then the three picked characters. `picks` are the values
      `Math.floor(Math.random() * 36)`. */
  function GenerateReservationCode(now: nat, picks: seq<nat>): (code: string)
    requires |picks| == 3 && forall i :: 0 <= i < 3 ==> picks[i] < 36
    ensures |code| == |SliceLast(ToBase36(now), 3)| + 3
    ensures code[|code| - 3..] == [CodeAlphabet[picks[0]], CodeAlphabet[picks[1]], CodeAlphabet[picks[2]]]
  {
    var timestamp := ToUpper(ToBase36(now));
    var random := [CodeAlphabet[picks[0]], CodeAlphabet[picks[1]], CodeAlphabet[picks[2]]];
    SliceLast(timestamp, 3) + random
  }

  /** Every character of a code is in A-Z0-9; it has six characters once the
      clock has three base-36 digits (from 1296 ms after the epoch on). */
  lemma CodeShape(now: nat, picks: seq<nat>)
    requires |picks| == 3 && forall i :: 0 <= i < 3 ==> picks[i] < 36
    ensures var code := GenerateReservationCode(now, picks);
      && (forall i :: 0 <= i < |code| ==> code[i] in CodeAlphabet)
      && (now >= 36 * 36 ==> |code| == 6)
  {
    var b := ToBase36(now);
    var timestamp := ToUpper(b);
    var code := GenerateReservationCode(now, picks);
    var head := SliceLast(timestamp, 3);
    forall i | 0 <= i < |timestamp| ensures timestamp[i] in CodeAlphabet {
      var c := b[i];
      if '0' <= c <= '9' {
        Value36OfDigit(c as int - '0' as int);
        assert Digit36(c as int - '0' as int) == c;
      } else {
        Value36OfDigit(c as int - 'a' as int + 10);
        assert Digit36(c as int - 'a' as int + 10) == c;
      }
    }
    assert code == head + code[|head|..];
    forall i | 0 <= i < |code| ensures code[i] in CodeAlphabet {
      if i < |head| {
        assert code[i] == timestamp[|timestamp| - |head| + i];
      }
    }
    if now >= 36 * 36 {
      assert ToBase36(now) == ToBase36(now / 36) + [Digit36(now % 36)];
      assert now / 36 >= 36;
      assert |ToBase36(now / 36)| >= 2;
    }
  }

  lemma DivDiv36(n: nat)
    ensures n / 36 / 36 == n / 1296
  {
    var q1 := n / 36;
    var q2 := q1 / 36;
    assert n == 36 * q1 + n % 36;
    assert q1 == 36 * q2 + q1 % 36;
    assert n == 1296 * q2 + (36 * (q1 % 36) + n % 36);
    assert 0 <= 36 * (q1 % 36) + n % 36 < 1296;
  }

  lemma LastBase36Digit(n: nat)
    ensures var b := ToBase36(n); b[|b| - 1] == Digit36(n % 36)
  {
  }

  lemma LastThreeBase36Digits(n: nat)
    requires n >= 36 * 36
    ensures var b := ToBase36(n);
      |b| >= 3 && b[|b| - 3..] == [Digit36((n / 1296) % 36), Digit36((n / 36) % 36), Digit36(n % 36)]
  {
    var q := n / 36;
    DivDiv36(n);
    QuotientsOfLargeClock(n);
    var p := ToBase36(q / 36);
    LastBase36Digit(q / 36);
    assert ToBase36(q) == p + [Digit36(q % 36)];
    assert ToBase36(n) == ToBase36(q) + [Digit36(n % 36)];
    LastThree(p, Digit36(q % 36), Digit36(n % 36));
  }

  lemma QuotientsOfLargeClock(n: nat)
    requires n >= 36 * 36
    ensures n / 36 >= 36 && n / 36 / 36 >= 1
  {
  }

  lemma LastThree(p: string, x: char, y: char)
    requires |p| >= 1
    ensures var b := p + [x] + [y]; |b| >= 3 && b[|b| - 3..] == [p[|p| - 1], x, y]
  {
  }

  lemma ThreeDigitArithmetic(n: nat)
    ensures ((n / 1296) % 36) * 1296 + ((n / 36) % 36) * 36 + n % 36 == n % 46656
  {
    var c := n % 36;
    var q1 := n / 36;
    var b := q1 % 36;
    var q2 := q1 / 36;
    var a := q2 % 36;
    var q3 := q2 / 36;
    assert n == 36 * q1 + c;
    assert q1 == 36 * q2 + b;
    assert q2 == 36 * q3 + a;
    assert n / 1296 == q2 by {
      assert n == 1296 * q2 + (36 * b + c);
      assert 0 <= 36 * b + c < 1296;
    }
    assert n == 46656 * q3 + (a * 1296 + b * 36 + c);
    assert 0 <= a * 1296 + b * 36 + c < 46656;
  }

  /** Read as a base-36 numeral, the first three characters of a code are the
      clock modulo 36^3 = 46656 ms. */
  lemma CodeHeadEncodesClock(now: nat, picks: seq<nat>)
    requires |picks| == 3 && forall i :: 0 <= i < 3 ==> picks[i] < 36
    requires now >= 36 * 36
    ensures var code := GenerateReservationCode(now, picks);
      Value36(code[0]) * 1296 + Value36(code[1]) * 36 + Value36(code[2]) == now % 46656
  {
    var b := ToBase36(now);
    var code := GenerateReservationCode(now, picks);
    LastThreeBase36Digits(now);
    CodeShape(now, picks);
    var head := SliceLast(ToUpper(b), 3);
    assert code[..3] == head;
    assert head == ToUpper(b)[|b| - 3..];
    assert code[0] == UpperChar(Digit36((now / 1296) % 36));
    assert code[1] == UpperChar(Digit36((now / 36) % 36));
    assert code[2] == UpperChar(Digit36(now % 36));
    Value36OfDigit((now / 1296) % 36);
    Value36OfDigit((now / 36) % 36);
    Value36OfDigit(now % 36);
    ThreeDigitArithmetic(now);
  }

  /** Codes made at two different clock readings less than 46656 ms apart
      differ in their first three characters, whatever the random picks. */
  lemma CloseClocksGiveDistinctHeads(n1: nat, n2: nat, picks1: seq<nat>, picks2: seq<nat>)
    requires |picks1| == 3 && forall i :: 0 <= i < 3 ==> picks1[i] < 36
    requires |picks2| == 3 && forall i :: 0 <= i < 3 ==> picks2[i] < 36
    requires 36 * 36 <= n1 < n2 < n1 + 46656
    ensures GenerateReservationCode(n1, picks1)[..3] != GenerateReservationCode(n2, picks2)[..3]
  {
    var c1 := GenerateReservationCode(n1, picks1);
    var c2 := GenerateReservationCode(n2, picks2);
    CodeHeadEncodesClock(n1, picks1);
    CodeHeadEncodesClock(n2, picks2);
    CodeShape(n1, picks1);
    CodeShape(n2, picks2);
    assert n1 % 46656 != n2 % 46656;
    assert Value36(c1[0]) * 1296 + Value36(c1[1]) * 36 + Value36(c1[2])
        != Value36(c2[0]) * 1296 + Value36(c2[1]) * 36 + Value36(c2[2]);
    assert c1[..3][0] == c1[0] && c1[..3][1] == c1[1] && c1[..3][2] == c1[2];
    assert c2[..3][0] == c2[0] && c2[..3][1] == c2[1] && c2[..3][2] == c2[2];
  }
}
