/**
 * The half-hour time picker: the slot list between a minimum and a maximum
 * time, and picking a slot. The bounds are "HH:mm" strings.
 */
module TimePicker {
  import opened JsValues
  import opened Clock

  /** The slot of hour h and minute m, kept when it is within the bounds. */
  function Keep(h: nat, m: nat, minTime: string, maxTime: string): seq<string>
    requires h < 24 && m < 60
  {
    var t := TimeString(h, m);
    if LexLessEq(minTime, t) && LexLessEq(t, maxTime) then [t] else []
  }

  /** The slots of hour h that are kept: its whole hour, then its half hour. */
  function HourSlotsOf(h: nat, minTime: string, maxTime: string): seq<string>
    requires h < 24
  {
    Keep(h, 0, minTime, maxTime) + Keep(h, 30, minTime, maxTime)
  }

  /** The slots of hours h to maxHour, in loop order. */
  function SlotsFrom(h: nat, maxHour: nat, minTime: string, maxTime: string): seq<string>
    requires maxHour < 24
    decreases maxHour + 1 - h
  {
    if h > maxHour then []
    else HourSlotsOf(h, minTime, maxTime) + SlotsFrom(h + 1, maxHour, minTime, maxTime)
  }

  /** `generateTimeSlots`, as a value: the loops run over the hour parts of
      the bounds, and the full strings filter the results. */
  function Slots(minTime: string, maxTime: string): seq<string>
    requires IsHHmm(minTime) && IsHHmm(maxTime)
  {
    SlotsFrom(Hours(minTime), Hours(maxTime), minTime, maxTime)
  }

  /** `generateTimeSlots`: two nested loops pushing the padded strings. */
  method GenerateTimeSlots(minTime: string, maxTime: string) returns (slots: seq<string>)
    requires IsHHmm(minTime) && IsHHmm(maxTime)
    ensures slots == Slots(minTime, maxTime)
  {
    slots := [];
    var minHour := Hours(minTime);
    var maxHour := Hours(maxTime);
    var hour := minHour;
    while hour <= maxHour
      invariant slots + SlotsFrom(hour, maxHour, minTime, maxTime) == SlotsFrom(minHour, maxHour, minTime, maxTime)
    {
      ghost var before := slots;
      slots := PushHourSlots(slots, hour, minTime, maxTime);
      NextHour(before, slots, hour, maxHour, minTime, maxTime, SlotsFrom(minHour, maxHour, minTime, maxTime));
      hour := hour + 1;
    }
    AppendEmpty(slots, SlotsFrom(hour, maxHour, minTime, maxTime));
  }

  lemma AppendEmpty<T>(a: seq<T>, b: seq<T>)
    requires b == []
    ensures a + b == a
  {
  }

  /** The kept slots of hour h whose minute is below `minute`. */
  function KeptBefore(h: nat, minute: nat, minTime: string, maxTime: string): seq<string>
    requires h < 24
  {
    (if minute > 0 then Keep(h, 0, minTime, maxTime) else [])
    + (if minute > 30 then Keep(h, 30, minTime, maxTime) else [])
  }

  /** The inner loop of `generateTimeSlots`: minutes 0 and 30 of one hour. */
  method PushHourSlots(slots0: seq<string>, hour: nat, minTime: string, maxTime: string) returns (slots: seq<string>)
    requires hour < 24
    ensures slots == slots0 + HourSlotsOf(hour, minTime, maxTime)
  {
    slots := slots0;
    var minute := 0;
    while minute < 60
      invariant minute == 0 || minute == 30 || minute == 60
      invariant slots == slots0 + KeptBefore(hour, minute, minTime, maxTime)
    {
      var timeString := FormatSlot(hour, minute);
      ghost var prev := slots;
      if LexLessEq(minTime, timeString) && LexLessEq(timeString, maxTime) {
        slots := slots + [timeString];
      }
      assert slots == prev + Keep(hour, minute, minTime, maxTime);
      NextMinute(slots0, hour, minute, minTime, maxTime);
      minute := minute + 30;
    }
    assert KeptBefore(hour, minute, minTime, maxTime) == HourSlotsOf(hour, minTime, maxTime);
  }

  lemma NextMinute(slots0: seq<string>, h: nat, minute: nat, minTime: string, maxTime: string)
    requires h < 24 && (minute == 0 || minute == 30)
    ensures slots0 + KeptBefore(h, minute, minTime, maxTime) + Keep(h, minute, minTime, maxTime)
         == slots0 + KeptBefore(h, minute + 30, minTime, maxTime)
  {
    var k0, k30 := Keep(h, 0, minTime, maxTime), Keep(h, 30, minTime, maxTime);
    if minute == 0 {
      assert KeptBefore(h, minute, minTime, maxTime) == [];
      assert KeptBefore(h, minute + 30, minTime, maxTime) == k0;
    } else {
      assert KeptBefore(h, minute, minTime, maxTime) == k0;
      assert KeptBefore(h, minute + 30, minTime, maxTime) == k0 + k30;
    }
  }

  /** One turn of the outer loop moves hour h from the pending slots to the
      generated ones. */
  lemma NextHour(before: seq<string>, slots: seq<string>, h: nat, maxHour: nat, minTime: string, maxTime: string,
                 all: seq<string>)
    requires h <= maxHour < 24
    requires before + SlotsFrom(h, maxHour, minTime, maxTime) == all
    requires slots == before + HourSlotsOf(h, minTime, maxTime)
    ensures slots + SlotsFrom(h + 1, maxHour, minTime, maxTime) == all
  {
    var head := HourSlotsOf(h, minTime, maxTime);
    var rest := SlotsFrom(h + 1, maxHour, minTime, maxTime);
    assert SlotsFrom(h, maxHour, minTime, maxTime) == head + rest;
    AppendAssociates(before, head, rest);
  }

  lemma AppendAssociates<T>(a: seq<T>, b: seq<T>, c: seq<T>)
    ensures a + b + c == a + (b + c)
  {
  }

  /** The label of one slot, built as the picker builds it. */
  method FormatSlot(hour: nat, minute: nat) returns (timeString: string)
    requires hour < 24 && minute < 60
    ensures timeString == TimeString(hour, minute)
  {
    timeString := PadStart(NatToDecimal(hour), 2, '0') + ":" + PadStart(NatToDecimal(minute), 2, '0');
    PaddedSlot(hour, minute);
  }

  /** `${String(h).padStart(2, '0')}:${String(m).padStart(2, '0')}` */
  lemma PaddedSlot(h: nat, m: nat)
    requires h < 24 && m < 60
    ensures PadStart(NatToDecimal(h), 2, '0') + ":" + PadStart(NatToDecimal(m), 2, '0') == TimeString(h, m)
  {
    Pad2IsPaddedNumeral(h);
    Pad2IsPaddedNumeral(m);
  }

  /** With well-formed bounds, a slot is kept exactly when its minutes are
      within theirs. */
  lemma KeepByMinutes(h: nat, m: nat, minTime: string, maxTime: string)
    requires h < 24 && m < 60 && IsHHmm(minTime) && IsHHmm(maxTime)
    ensures Keep(h, m, minTime, maxTime) ==
      if Minutes(minTime) <= h * 60 + m <= Minutes(maxTime) then [TimeString(h, m)] else []
  {
    var t := TimeString(h, m);
    LexLessEqIsClockOrder(minTime, t);
    LexLessEqIsClockOrder(t, maxTime);
  }

  /** A slot of an hour from lo to hi, on the hour or the half hour, within
      the bounds. */
  predicate SlotWithin(t: string, lo: nat, hi: nat, minTime: string, maxTime: string)
  {
    && IsHHmm(t) && lo <= Hours(t) <= hi
    && (MinuteOfHour(t) == 0 || MinuteOfHour(t) == 30)
    && LexLessEq(minTime, t) && LexLessEq(t, maxTime)
  }

  predicate AllWithin(s: seq<string>, lo: nat, hi: nat, minTime: string, maxTime: string)
  {
    forall t :: t in s ==> SlotWithin(t, lo, hi, minTime, maxTime)
  }

  /** A kept slot is the whole or half hour it was made from, within the bounds. */
  lemma KeepShape(h: nat, m: nat, hi: nat, minTime: string, maxTime: string)
    requires h <= hi < 24 && (m == 0 || m == 30)
    ensures AllWithin(Keep(h, m, minTime, maxTime), h, hi, minTime, maxTime)
  {
  }

  lemma AllWithinAppend(a: seq<string>, b: seq<string>, lo: nat, hi: nat, minTime: string, maxTime: string)
    requires AllWithin(a, lo, hi, minTime, maxTime)
    requires AllWithin(b, lo + 1, hi, minTime, maxTime)
    ensures AllWithin(a + b, lo, hi, minTime, maxTime)
  {
  }

  /** Both slots of hour h are within hour h. */
  lemma HourSlotsShape(h: nat, hi: nat, minTime: string, maxTime: string)
    requires h <= hi < 24
    ensures AllWithin(HourSlotsOf(h, minTime, maxTime), h, hi, minTime, maxTime)
  {
    KeepShape(h, 0, hi, minTime, maxTime);
    KeepShape(h, 30, hi, minTime, maxTime);
  }

  /** Every slot generated from hour h on is a whole or half hour at hour h
      or later, within the bounds. */
  lemma {:induction false} SlotsFromShape(h: nat, maxHour: nat, minTime: string, maxTime: string)
    requires maxHour < 24
    ensures AllWithin(SlotsFrom(h, maxHour, minTime, maxTime), h, maxHour, minTime, maxTime)
    decreases maxHour + 1 - h
  {
    if h <= maxHour {
      SlotsFromShape(h + 1, maxHour, minTime, maxTime);
      HourSlotsShape(h, maxHour, minTime, maxTime);
      AllWithinAppend(HourSlotsOf(h, minTime, maxTime), SlotsFrom(h + 1, maxHour, minTime, maxTime),
        h, maxHour, minTime, maxTime);
    }
  }

  /** The clock position of a slot, -1 for anything else. */
  function Rank(t: string): int
  {
    if IsHHmm(t) then Minutes(t) else -1
  }

  /** Strictly ascending clock positions. */
  predicate Ascending(s: seq<string>)
  {
    forall i, j :: 0 <= i < j < |s| ==> Rank(s[i]) < Rank(s[j])
  }

  predicate RanksBelow(s: seq<string>, bound: int)
  {
    forall k :: 0 <= k < |s| ==> Rank(s[k]) < bound
  }

  predicate RanksFrom(s: seq<string>, bound: int)
  {
    forall t :: t in s ==> Rank(t) >= bound
  }

  /** Every slot of hour h comes after the slots of earlier hours. */
  lemma SlotsFromLowerBound(h: nat, maxHour: nat, minTime: string, maxTime: string)
    requires maxHour < 24
    ensures RanksFrom(SlotsFrom(h, maxHour, minTime, maxTime), h * 60)
  {
    SlotsFromShape(h, maxHour, minTime, maxTime);
  }

  /** The slots of one hour: at most two, in order, within that hour. */
  lemma HourSlots(h: nat, minTime: string, maxTime: string)
    requires h < 24
    ensures RanksBelow(HourSlotsOf(h, minTime, maxTime), (h + 1) * 60)
    ensures Ascending(HourSlotsOf(h, minTime, maxTime))
  {
    var a := Keep(h, 0, minTime, maxTime);
    var b := Keep(h, 30, minTime, maxTime);
    KeepShape(h, 0, h, minTime, maxTime);
    KeepShape(h, 30, h, minTime, maxTime);
    var head := a + b;
    assert forall k :: 0 <= k < |head| ==> head[k] in a || head[k] in b;
    assert |head| <= 2;
    if |head| == 2 {
      assert head[0] in a && head[1] in b;
    }
  }

  /** Slots strictly ascend in clock order. */
  lemma {:induction false} SlotsFromAscending(h: nat, maxHour: nat, minTime: string, maxTime: string)
    requires maxHour < 24
    ensures Ascending(SlotsFrom(h, maxHour, minTime, maxTime))
    decreases maxHour + 1 - h
  {
    if h <= maxHour {
      SlotsFromAscending(h + 1, maxHour, minTime, maxTime);
      SlotsFromLowerBound(h + 1, maxHour, minTime, maxTime);
      AscendingStep(h, maxHour, minTime, maxTime);
    }
  }

  /** Hour h's slots put in front of the later, ascending ones still ascend. */
  lemma AscendingStep(h: nat, maxHour: nat, minTime: string, maxTime: string)
    requires h <= maxHour < 24
    requires Ascending(SlotsFrom(h + 1, maxHour, minTime, maxTime))
    requires RanksFrom(SlotsFrom(h + 1, maxHour, minTime, maxTime), (h + 1) * 60)
    ensures Ascending(SlotsFrom(h, maxHour, minTime, maxTime))
  {
    HourSlots(h, minTime, maxTime);
    ConcatAscending(HourSlotsOf(h, minTime, maxTime), SlotsFrom(h + 1, maxHour, minTime, maxTime), (h + 1) * 60);
  }

  /** Two ascending lists, all of the first below a bound that all of the
      second reaches, ascend when appended. */
  lemma ConcatAscending(a: seq<string>, b: seq<string>, bound: int)
    requires Ascending(a) && Ascending(b)
    requires RanksBelow(a, bound) && RanksFrom(b, bound)
    ensures Ascending(a + b)
  {
    var s := a + b;
    forall i, j | 0 <= i < j < |s| ensures Rank(s[i]) < Rank(s[j]) {
      if j < |a| {
        assert s[i] == a[i] && s[j] == a[j];
      } else if i < |a| {
        assert s[i] == a[i] && s[j] == b[j - |a|] && s[j] in b;
      } else {
        assert s[i] == b[i - |a|] && s[j] == b[j - |a|];
      }
    }
  }

  /** Every slot is a zero-padded "HH:mm" on the hour or the half hour,
      within the bounds; the slots strictly ascend as strings, so there are
      no duplicates. */
  lemma SlotsShape(minTime: string, maxTime: string)
    requires IsHHmm(minTime) && IsHHmm(maxTime)
    ensures var s := Slots(minTime, maxTime);
      && (forall t :: t in s ==> IsHHmm(t) && (t[3..] == "00" || t[3..] == "30")
                                 && LexLessEq(minTime, t) && LexLessEq(t, maxTime))
      && (forall i, j :: 0 <= i < j < |s| ==> LexLess(s[i], s[j]))
  {
    SlotsFromShape(Hours(minTime), Hours(maxTime), minTime, maxTime);
    SlotsFromAscending(Hours(minTime), Hours(maxTime), minTime, maxTime);
    WithinAsStrings(Slots(minTime, maxTime), Hours(minTime), Hours(maxTime), minTime, maxTime);
    AscendingAsStrings(Slots(minTime, maxTime));
  }

  lemma WithinAsStrings(s: seq<string>, lo: nat, hi: nat, minTime: string, maxTime: string)
    requires AllWithin(s, lo, hi, minTime, maxTime)
    ensures forall t :: t in s ==> IsHHmm(t) && (t[3..] == "00" || t[3..] == "30")
                                   && LexLessEq(minTime, t) && LexLessEq(t, maxTime)
  {
    forall t | t in s ensures t[3..] == "00" || t[3..] == "30" {
      assert t[3..] == [t[3], t[4]];
    }
  }

  /** Ascending clock positions of "HH:mm" strings are ascending strings. */
  lemma AscendingAsStrings(s: seq<string>)
    requires AllHHmm(s) && Ascending(s)
    ensures forall i, j :: 0 <= i < j < |s| ==> LexLess(s[i], s[j])
  {
    forall i, j | 0 <= i < j < |s| ensures LexLess(s[i], s[j]) {
      assert Rank(s[i]) < Rank(s[j]);
      LexOrderIsClockOrder(s[i], s[j]);
    }
  }

  /** Exactly the whole and half hours between the bounds are offered. */
  lemma {:induction false} SlotsFromMembers(h: nat, maxHour: nat, minTime: string, maxTime: string, t: string)
    requires maxHour < 24
    requires IsHHmm(t) && (MinuteOfHour(t) == 0 || MinuteOfHour(t) == 30)
    requires h <= Hours(t) <= maxHour && LexLessEq(minTime, t) && LexLessEq(t, maxTime)
    ensures t in SlotsFrom(h, maxHour, minTime, maxTime)
    decreases maxHour + 1 - h
  {
    if Hours(t) == h {
      HHmmDeterminedByFields(t, TimeString(h, MinuteOfHour(t)));
    } else {
      SlotsFromMembers(h + 1, maxHour, minTime, maxTime, t);
    }
  }

  lemma SlotsAreTheHalfHoursInRange(minTime: string, maxTime: string, t: string)
    requires IsHHmm(minTime) && IsHHmm(maxTime)
    ensures t in Slots(minTime, maxTime) <==>
      && IsHHmm(t) && (MinuteOfHour(t) == 0 || MinuteOfHour(t) == 30)
      && Minutes(minTime) <= Minutes(t) <= Minutes(maxTime)
  {
    SlotsFromShape(Hours(minTime), Hours(maxTime), minTime, maxTime);
    if IsHHmm(t) {
      LexLessEqIsClockOrder(minTime, t);
      LexLessEqIsClockOrder(t, maxTime);
      if (MinuteOfHour(t) == 0 || MinuteOfHour(t) == 30) && Minutes(minTime) <= Minutes(t) <= Minutes(maxTime) {
        SlotsFromMembers(Hours(minTime), Hours(maxTime), minTime, maxTime, t);
      }
    }
  }

  /** The slot count between two whole hours h0 <= h1: both slots of every
      hour before h1, and h1:00 itself. */
  lemma {:induction false} SlotsFromCount(h: nat, minTime: string, maxTime: string)
    requires IsHHmm(minTime) && IsHHmm(maxTime) && MinuteOfHour(minTime) == 0 && MinuteOfHour(maxTime) == 0
    requires Hours(minTime) <= h <= Hours(maxTime)
    ensures var s := SlotsFrom(h, Hours(maxTime), minTime, maxTime);
      && |s| == 2 * (Hours(maxTime) - h) + 1
      && s[0] == TimeString(h, 0) && s[|s| - 1] == maxTime
    decreases Hours(maxTime) - h
  {
    if h == Hours(maxTime) {
      LastHour(h, minTime, maxTime);
    } else {
      SlotsFromCount(h + 1, minTime, maxTime);
      FullHour(h, minTime, maxTime);
    }
  }

  /** The hour of a whole-hour maximum offers only the maximum itself. */
  lemma LastHour(h: nat, minTime: string, maxTime: string)
    requires IsHHmm(minTime) && IsHHmm(maxTime) && MinuteOfHour(minTime) == 0 && MinuteOfHour(maxTime) == 0
    requires Hours(minTime) <= h == Hours(maxTime)
    ensures SlotsFrom(h, h, minTime, maxTime) == [maxTime]
    ensures TimeString(h, 0) == maxTime
  {
    KeepByMinutes(h, 0, minTime, maxTime);
    KeepByMinutes(h, 30, minTime, maxTime);
    assert Minutes(minTime) == Hours(minTime) * 60 <= h * 60 == Minutes(maxTime);
    HHmmDeterminedByFields(TimeString(h, 0), maxTime);
    assert SlotsFrom(h, h, minTime, maxTime) == [maxTime] + [] + [];
  }

  /** An hour from a whole-hour minimum up to, not including, the maximum's
      offers both its slots. */
  lemma FullHour(h: nat, minTime: string, maxTime: string)
    requires IsHHmm(minTime) && IsHHmm(maxTime) && MinuteOfHour(minTime) == 0
    requires Hours(minTime) <= h < Hours(maxTime)
    ensures SlotsFrom(h, Hours(maxTime), minTime, maxTime)
         == [TimeString(h, 0), TimeString(h, 30)] + SlotsFrom(h + 1, Hours(maxTime), minTime, maxTime)
  {
    assert Minutes(minTime) == Hours(minTime) * 60 <= h * 60;
    assert h * 60 + 30 < Hours(maxTime) * 60 <= Minutes(maxTime);
    KeepByMinutes(h, 0, minTime, maxTime);
    KeepByMinutes(h, 30, minTime, maxTime);
    var rest := SlotsFrom(h + 1, Hours(maxTime), minTime, maxTime);
    assert SlotsFrom(h, Hours(maxTime), minTime, maxTime) == [TimeString(h, 0)] + [TimeString(h, 30)] + rest;
  }

  /** With the defaults 06:00 and 22:00: 33 slots from "06:00" to "22:00";
      "22:30" is not offered. */
  lemma DefaultSlots()
    ensures IsHHmm("06:00") && IsHHmm("22:00")
    ensures var s := Slots("06:00", "22:00");
      |s| == 33 && s[0] == "06:00" && s[32] == "22:00" && "22:30" !in s
  {
    assert IsHHmm("06:00") && IsHHmm("22:00") && IsHHmm("22:30");
    SlotsFromCount(6, "06:00", "22:00");
    var first := TimeString(6, 0);
    HHmmDeterminedByFields(first, "06:00");
    SlotsAreTheHalfHoursInRange("06:00", "22:00", "22:30");
  }

  class TimePickerState {
    var isOpen: bool

    constructor()
      ensures !isOpen
    {
      isOpen := false;
    }

    /** Clicking the field opens or closes the list. */
    method Toggle()
      modifies this
      ensures isOpen == !old(isOpen)
    {
      isOpen := !isOpen;
    }

    /** `handleTimeClick`: the chosen slot goes to `onChange` as it is, and
        the list closes. */
    method HandleTimeClick(time: string) returns (changedTo: string)
      modifies this
      ensures changedTo == time
      ensures !isOpen
    {
      changedTo := time;
      isOpen := false;
    }
  }
}
