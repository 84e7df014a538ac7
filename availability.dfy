/**
 * The table-availability engine. A candidate placement (salon, table, date,
 * time) is checked against the active reservations of the same salon, table
 * and date. VIP tables have two fixed sessions a day (midday and evening);
 * every other table is occupied for 120 minutes from the reservation time.
 *
 * The store query is an input: the times of the active reservations already
 * filtered to the candidate's salon, table and date, or a query failure.
 * Times are minutes since midnight of that date (`Clock.Minutes`).
 */
module Availability {
  import opened JsValues
  import opened Clock

  // ------------------------------------------------------------ the catalog

  /** The tables with the two-session policy, per salon. */
  const VipTables: map<string, seq<string>> :=
    map["Eblehan VIP Salon" := ["Masa 1"], "Galaaltı VIP Salon" := ["Masa 1"]]

  /** The midday session's start times. */
  const MorningHours: seq<string> := ["12:00", "13:00", "14:00", "15:00", "16:00"]

  /** The evening session's start times. */
  const EveningHours: seq<string> := ["17:00", "18:00", "19:00", "20:00"]

  /** How long a reservation occupies a regular table, in minutes. */
  const RegularDuration: nat := 120

  /** `VIP_TABLES[salon]?.includes(masa) || false` */
  predicate IsVipTable(salon: string, masa: string)
  {
    salon in VipTables && masa in VipTables[salon]
  }

  lemma VipTablesAreTheTwoSingleTables(salon: string, masa: string)
    ensures IsVipTable(salon, masa) <==>
      masa == "Masa 1" && (salon == "Eblehan VIP Salon" || salon == "Galaaltı VIP Salon")
  {
  }

  // ------------------------------------------------------- inputs, results

  /** The outcome of the store query for the candidate's salon, table and date. */
  datatype Snapshot = QueryError | Loaded(times: seq<string>)

  /** Why a placement is refused; `Text` is the message shown. */
  datatype Refusal =
    | CheckFailed
    | EveningFull(salon: string, masa: string)
    | MiddayFull(salon: string, masa: string)
    | Taken(salon: string, masa: string, next: string)

  /** `{ available, message? }` */
  datatype Verdict = Verdict(available: bool, message: Option<Refusal>)

  predicate WellFormed(snap: Snapshot)
  {
    snap.Loaded? ==> AllHHmm(snap.times)
  }

  /** The message of each refusal. */
  function Text(r: Refusal): string
  {
    match r
    case CheckFailed => "Masa müsaitliği kontrol edilirken bir hata oluştu"
    case EveningFull(salon, masa) =>
      salon + " - " + masa + " için seçilen tarihte akşam rezervasyonu dolu (17:00-20:00)"
    case MiddayFull(salon, masa) =>
      salon + " - " + masa + " için seçilen tarihte öğlen rezervasyonu dolu (12:00-16:00)"
    case Taken(salon, masa, next) =>
      salon + " - " + masa + " için seçilen saatte rezervasyon bulunmaktadır. Bir sonraki müsait saat: " + next
  }

  // ------------------------------------------------------------ VIP policy

  /** `times.some(t => hours.includes(t))` */
  predicate SomeIn(times: seq<string>, hours: seq<string>)
  {
    exists i :: 0 <= i < |times| && times[i] in hours
  }

  /** The two-session policy. An evening candidate is blocked by an existing
      evening reservation; any other candidate counts as midday and is blocked
      by an existing midday reservation. */
  function CheckVipTableAvailability(salon: string, masa: string, time: string, snap: Snapshot): (r: Verdict)
    ensures snap.QueryError? ==> r == Verdict(false, Some(CheckFailed))
    ensures r.available <==> r.message.None?
  {
    var isEvening := time in EveningHours;
    match snap
    case QueryError => Verdict(false, Some(CheckFailed))
    case Loaded(ts) =>
      if isEvening && SomeIn(ts, EveningHours) then Verdict(false, Some(EveningFull(salon, masa)))
      else if !isEvening && SomeIn(ts, MorningHours) then Verdict(false, Some(MiddayFull(salon, masa)))
      else Verdict(true, None)
  }

  lemma VipEveningCandidate(salon: string, masa: string, time: string, ts: seq<string>)
    requires time in EveningHours
    ensures var r := CheckVipTableAvailability(salon, masa, time, Loaded(ts));
      && (!r.available <==> exists i :: 0 <= i < |ts| && ts[i] in EveningHours)
      && (!r.available ==> r.message == Some(EveningFull(salon, masa)))
  {
  }

  /** Every time outside the evening set, listed midday or not ("10:00",
      "16:30"), is treated as midday. */
  lemma VipOtherCandidate(salon: string, masa: string, time: string, ts: seq<string>)
    requires time !in EveningHours
    ensures var r := CheckVipTableAvailability(salon, masa, time, Loaded(ts));
      && (!r.available <==> exists i :: 0 <= i < |ts| && ts[i] in MorningHours)
      && (!r.available ==> r.message == Some(MiddayFull(salon, masa)))
  {
  }

  lemma SomeInIgnoresOthers(before: seq<string>, t: string, after: seq<string>, hours: seq<string>)
    requires t !in hours
    ensures SomeIn(before + [t] + after, hours) == SomeIn(before + after, hours)
  {
    var ts, us := before + [t] + after, before + after;
    if SomeIn(ts, hours) {
      var i :| 0 <= i < |ts| && ts[i] in hours;
      if i < |before| { assert us[i] == ts[i]; } else { assert us[i - 1] == ts[i]; }
    }
    if SomeIn(us, hours) {
      var i :| 0 <= i < |us| && us[i] in hours;
      if i < |before| { assert ts[i] == us[i]; } else { assert ts[i + 1] == us[i]; }
    }
  }

  /** An existing reservation at a time in neither session never blocks. */
  lemma VipUnlistedExistingNeverBlocks(salon: string, masa: string, time: string,
                                       before: seq<string>, t: string, after: seq<string>)
    requires t !in MorningHours && t !in EveningHours
    ensures CheckVipTableAvailability(salon, masa, time, Loaded(before + [t] + after))
         == CheckVipTableAvailability(salon, masa, time, Loaded(before + after))
  {
    SomeInIgnoresOthers(before, t, after, MorningHours);
    SomeInIgnoresOthers(before, t, after, EveningHours);
  }

  // -------------------------------------------------------- regular policy

  /** `isWithinInterval(x, { start: lo, end: hi })`: both ends included. */
  predicate Within(x: int, lo: int, hi: int)
  {
    lo <= x <= hi
  }

  /** The three-way test of a requested start against an existing start. */
  predicate Conflicts(requested: int, existing: int)
  {
    || Within(requested, existing, existing + RegularDuration)
    || Within(requested + RegularDuration, existing, existing + RegularDuration)
    || Within(existing, requested, requested + RegularDuration)
  }

  /** With both windows 120 minutes long the three-way test is a distance test:
      two bookings exactly 120 minutes apart conflict. */
  lemma ConflictIsDistanceAtMost120(requested: int, existing: int)
    ensures Conflicts(requested, existing) <==> -120 <= requested - existing <= 120
  {
  }

  /** The start minutes of well-formed reservation times, in the same order. */
  function Starts(ts: seq<string>): (r: seq<int>)
    requires AllHHmm(ts)
    ensures |r| == |ts| && forall i :: 0 <= i < |ts| ==> r[i] == Minutes(ts[i])
  {
    seq(|ts|, i requires 0 <= i < |ts| => Minutes(ts[i]))
  }

  /** The index of the first existing start that conflicts with the request. */
  function FirstConflict(requested: int, starts: seq<int>): (k: Option<nat>)
    ensures k.Some? ==> k.value < |starts| && Conflicts(requested, starts[k.value])
    ensures k.Some? ==> forall j :: 0 <= j < k.value ==> !Conflicts(requested, starts[j])
    ensures k.None? <==> forall j :: 0 <= j < |starts| ==> !Conflicts(requested, starts[j])
    decreases |starts|
  {
    if starts == [] then None
    else if Conflicts(requested, starts[0]) then Some(0)
    else match FirstConflict(requested, starts[1..])
      case None => None
      case Some(k) => Some(k + 1)
  }

  /** The regular policy. The suggested time names the end of the first
      conflicting reservation in query order plus one minute. */
  function RegularAvailability(salon: string, masa: string, time: string, snap: Snapshot): (r: Verdict)
    requires IsHHmm(time) && WellFormed(snap)
  {
    match snap
    case QueryError => Verdict(false, Some(CheckFailed))
    case Loaded(ts) =>
      match FirstConflict(Minutes(time), Starts(ts))
      case None => Verdict(true, None)
      case Some(k) =>
        Verdict(false, Some(Taken(salon, masa, FormatHHmm(Minutes(ts[k]) + RegularDuration + 1))))
  }

  /** A first conflict at k is a rejection naming the end of reservation k
      plus one minute. */
  lemma RegularVerdictAt(salon: string, masa: string, time: string, ts: seq<string>, k: nat)
    requires IsHHmm(time) && AllHHmm(ts)
    requires FirstConflict(Minutes(time), Starts(ts)) == Some(k)
    ensures k < |ts|
    ensures RegularAvailability(salon, masa, time, Loaded(ts))
         == Verdict(false, Some(Taken(salon, masa, FormatHHmm(Minutes(ts[k]) + RegularDuration + 1))))
  {
  }

  /** The regular policy accepts exactly when there is no first conflict. */
  lemma RegularAvailableIffNoConflict(salon: string, masa: string, time: string, ts: seq<string>)
    requires IsHHmm(time) && AllHHmm(ts)
    ensures RegularAvailability(salon, masa, time, Loaded(ts)).available
        <==> FirstConflict(Minutes(time), Starts(ts)).None?
  {
  }

  /** No conflict is an acceptance. */
  lemma RegularVerdictNone(salon: string, masa: string, time: string, ts: seq<string>)
    requires IsHHmm(time) && AllHHmm(ts)
    requires forall j :: 0 <= j < |ts| ==> !Conflicts(Minutes(time), Minutes(ts[j]))
    ensures RegularAvailability(salon, masa, time, Loaded(ts)) == Verdict(true, None)
  {
    var starts := Starts(ts);
    assert forall j :: 0 <= j < |starts| ==> !Conflicts(Minutes(time), starts[j]);
  }

  /** The regular policy rejects exactly when some existing reservation starts
      within 120 minutes of the request, either side, bounds included; a query
      failure is a rejection. */
  lemma RegularRejectsIffWithin120(salon: string, masa: string, time: string, snap: Snapshot)
    requires IsHHmm(time) && WellFormed(snap)
    ensures var r := RegularAvailability(salon, masa, time, snap);
      && (snap.QueryError? ==> r == Verdict(false, Some(CheckFailed)))
      && (snap.Loaded? ==>
            (!r.available <==> exists i :: 0 <= i < |snap.times| && -120 <= Minutes(time) - Minutes(snap.times[i]) <= 120))
      && (r.available <==> r.message.None?)
  {
    if snap.Loaded? {
      var starts := Starts(snap.times);
      forall i | 0 <= i < |starts|
        ensures Conflicts(Minutes(time), starts[i]) <==> -120 <= Minutes(time) - Minutes(snap.times[i]) <= 120
      {
        ConflictIsDistanceAtMost120(Minutes(time), starts[i]);
      }
    }
  }

  /** A conflict preceded by none is the first conflict. */
  lemma FirstConflictIsFirst(requested: int, starts: seq<int>, i: nat)
    requires i < |starts| && Conflicts(requested, starts[i])
    requires forall j :: 0 <= j < i ==> !Conflicts(requested, starts[j])
    ensures FirstConflict(requested, starts) == Some(i)
  {
    var k := FirstConflict(requested, starts);
    assert k.Some?;
    assert !(k.value < i) && !(i < k.value);
  }

  /** On a rejection, the message suggests the end of the first conflicting
      reservation plus one minute. */
  lemma RegularSuggestionIsFirstConflictEnd(salon: string, masa: string, time: string, ts: seq<string>)
    requires IsHHmm(time) && AllHHmm(ts)
    requires !RegularAvailability(salon, masa, time, Loaded(ts)).available
    ensures exists k :: (
      && 0 <= k < |ts|
      && Conflicts(Minutes(time), Minutes(ts[k]))
      && (forall j :: 0 <= j < k ==> !Conflicts(Minutes(time), Minutes(ts[j])))
      && RegularAvailability(salon, masa, time, Loaded(ts)).message
         == Some(Taken(salon, masa, FormatHHmm(Minutes(ts[k]) + 121))))
  {
    var starts := Starts(ts);
    RegularAvailableIffNoConflict(salon, masa, time, ts);
    var c := FirstConflict(Minutes(time), starts);
    var k := c.value;
    RegularVerdictAt(salon, masa, time, ts, k);
    assert starts[k] == Minutes(ts[k]);
    assert forall j :: 0 <= j < k ==> starts[j] == Minutes(ts[j]);
    assert && 0 <= k < |ts|
           && Conflicts(Minutes(time), Minutes(ts[k]))
           && (forall j :: 0 <= j < k ==> !Conflicts(Minutes(time), Minutes(ts[j])))
           && RegularAvailability(salon, masa, time, Loaded(ts)).message
              == Some(Taken(salon, masa, FormatHHmm(Minutes(ts[k]) + 121)));
  }

  /** `checkRegularTableAvailability`: the loop stops at the first conflict. */
  method CheckRegularTableAvailability(salon: string, masa: string, time: string, snap: Snapshot)
    returns (r: Verdict)
    requires IsHHmm(time) && WellFormed(snap)
    ensures r == RegularAvailability(salon, masa, time, snap)
  {
    if snap.QueryError? {
      return Verdict(false, Some(CheckFailed));
    }
    var existing := snap.times;
    ghost var starts := Starts(existing);
    var requestedStart := Minutes(time);
    var requestedEnd := requestedStart + RegularDuration;
    var i := 0;
    while i < |existing|
      invariant 0 <= i <= |existing|
      invariant forall j :: 0 <= j < i ==> !Conflicts(requestedStart, Minutes(existing[j]))
    {
      var reservationStart := Minutes(existing[i]);
      assert starts[i] == reservationStart;
      var reservationEnd := reservationStart + RegularDuration;
      if Within(requestedStart, reservationStart, reservationEnd)
        || Within(requestedEnd, reservationStart, reservationEnd)
        || Within(reservationStart, requestedStart, requestedEnd)
      {
        var nextAvailableTime := FormatHHmm(reservationEnd + 1);
        assert forall j :: 0 <= j < i ==> starts[j] == Minutes(existing[j]);
        FirstConflictIsFirst(requestedStart, starts, i);
        RegularVerdictAt(salon, masa, time, existing, i);
        return Verdict(false, Some(Taken(salon, masa, nextAvailableTime)));
      }
      i := i + 1;
    }
    RegularVerdictNone(salon, masa, time, existing);
    return Verdict(true, None);
  }

  /** The policy a table follows, as a function of the candidate. */
  function TableAvailability(salon: string, masa: string, time: string, snap: Snapshot): (r: Verdict)
    requires !IsVipTable(salon, masa) ==> IsHHmm(time) && WellFormed(snap)
  {
    if IsVipTable(salon, masa) then CheckVipTableAvailability(salon, masa, time, snap)
    else RegularAvailability(salon, masa, time, snap)
  }

  /** `checkTableAvailability`: dispatch on the table's policy. */
  method CheckTableAvailability(salon: string, masa: string, date: string, time: string, snap: Snapshot)
    returns (r: Verdict)
    requires !IsVipTable(salon, masa) ==> IsHHmm(time) && WellFormed(snap)
    ensures IsVipTable(salon, masa) ==> r == CheckVipTableAvailability(salon, masa, time, snap)
    ensures !IsVipTable(salon, masa) ==> r == RegularAvailability(salon, masa, time, snap)
  {
    if IsVipTable(salon, masa) {
      return CheckVipTableAvailability(salon, masa, time, snap);
    }
    r := CheckRegularTableAvailability(salon, masa, time, snap);
  }

  /** No reservation yet: every candidate is accepted; a failed query: every
      candidate is rejected (fail closed). */
  lemma EmptyAcceptsFailureRejects(salon: string, masa: string, time: string)
    requires !IsVipTable(salon, masa) ==> IsHHmm(time)
    ensures TableAvailability(salon, masa, time, Loaded([])) == Verdict(true, None)
    ensures TableAvailability(salon, masa, time, QueryError) == Verdict(false, Some(CheckFailed))
  {
    assert !SomeIn([], EveningHours) && !SomeIn([], MorningHours);
  }

  // ---------------------------------------------------- end-time calculator

  /** `calculateEndTime`: the end of the occupancy shown on a reservation. */
  function CalculateEndTime(date: string, time: string, salon: string, masa: string): (r: string)
    requires !IsVipTable(salon, masa) ==> IsHHmm(time)
    ensures IsVipTable(salon, masa) && time in EveningHours ==> r == "20:00"
    ensures IsVipTable(salon, masa) && time !in EveningHours ==> r == "16:00"
    ensures !IsVipTable(salon, masa) ==> IsHHmm(r) && Minutes(r) == (Minutes(time) + 120) % MinutesPerDay
  {
    if IsVipTable(salon, masa) then
      if time in EveningHours then "20:00" else "16:00"
    else
      FormatHHmm(Minutes(time) + RegularDuration)
  }

  /** The end time depends on the time and on whether the table is VIP only. */
  lemma EndTimeDependsOnTimeAndPolicyOnly(d1: string, d2: string, time: string,
                                          s1: string, m1: string, s2: string, m2: string)
    requires IsVipTable(s1, m1) == IsVipTable(s2, m2)
    requires !IsVipTable(s1, m1) ==> IsHHmm(time)
    ensures CalculateEndTime(d1, time, s1, m1) == CalculateEndTime(d2, time, s2, m2)
  {
  }

  // --------------------------------------------------------- next free slot

  predicate SortedAsc(xs: seq<int>)
  {
    forall i, j :: 0 <= i < j < |xs| ==> xs[i] <= xs[j]
  }

  function Insert(x: int, xs: seq<int>): (r: seq<int>)
    requires SortedAsc(xs)
    ensures SortedAsc(r) && multiset(r) == multiset(xs) + multiset{x}
    decreases |xs|
  {
    if xs == [] || x <= xs[0] then
      InsertFront(x, xs);
      [x] + xs
    else
      var rest := Insert(x, xs[1..]);
      InsertBehind(x, xs, rest);
      [xs[0]] + rest
  }

  lemma InsertFront(x: int, xs: seq<int>)
    requires SortedAsc(xs) && (xs == [] || x <= xs[0])
    ensures SortedAsc([x] + xs) && multiset([x] + xs) == multiset(xs) + multiset{x}
  {
  }

  lemma InsertBehind(x: int, xs: seq<int>, rest: seq<int>)
    requires SortedAsc(xs) && xs != [] && xs[0] < x
    requires SortedAsc(rest) && multiset(rest) == multiset(xs[1..]) + multiset{x}
    ensures SortedAsc([xs[0]] + rest) && multiset([xs[0]] + rest) == multiset(xs) + multiset{x}
  {
    assert xs == [xs[0]] + xs[1..];
    forall k | 0 <= k < |rest| ensures xs[0] <= rest[k] {
      assert rest[k] in multiset(rest);
      if rest[k] != x {
        assert rest[k] in multiset(xs[1..]);
      }
    }
  }

  /** The reservations in ascending time order (`sort` by `localeCompare` of
      the zero-padded times, which orders them as the clock does; equal times
      are equal minutes, so the sorted sequence is unique). */
  function SortAscending(xs: seq<int>): (r: seq<int>)
    ensures SortedAsc(r) && multiset(r) == multiset(xs)
    decreases |xs|
  {
    if xs == [] then [] else
      assert xs == [xs[0]] + xs[1..];
      Insert(xs[0], SortAscending(xs[1..]))
  }

  /** The probe lies in the closed window of an existing start. */
  predicate InWindow(p: int, s: int)
  {
    s <= p <= s + RegularDuration
  }

  /** One step of the scan: a probe inside a window moves one minute past it. */
  function Advance(p: int, s: int): int
  {
    if InWindow(p, s) then s + RegularDuration + 1 else p
  }

  /** The probe after one pass over the starts, in order. */
  function ProbeAfter(p: int, starts: seq<int>): int
    decreases |starts|
  {
    if starts == [] then p else Advance(ProbeAfter(p, starts[..|starts| - 1]), starts[|starts| - 1])
  }

  /** The minute `getNextAvailableTime` settles on, before formatting. */
  function NextAvailableMinute(requested: int, starts: seq<int>): int
  {
    ProbeAfter(requested, SortAscending(starts))
  }

  /** One pass suffices over sorted windows of equal length: the probe never
      moves back and ends inside no window. */
  lemma {:induction false} ProbeAfterIsFree(p: int, xs: seq<int>)
    requires SortedAsc(xs)
    ensures ProbeAfter(p, xs) >= p
    ensures forall i :: 0 <= i < |xs| ==> !InWindow(ProbeAfter(p, xs), xs[i])
    decreases |xs|
  {
    if xs != [] {
      var init, last := xs[..|xs| - 1], xs[|xs| - 1];
      assert SortedAsc(init);
      ProbeAfterIsFree(p, init);
      var q := ProbeAfter(p, init);
      assert forall i :: 0 <= i < |init| ==> xs[i] == init[i];
    }
  }

  /** A request inside no window comes back unchanged. */
  lemma {:induction false} ProbeAfterKeepsFreeRequest(p: int, xs: seq<int>)
    requires forall i :: 0 <= i < |xs| ==> !InWindow(p, xs[i])
    ensures ProbeAfter(p, xs) == p
    decreases |xs|
  {
    if xs != [] {
      ProbeAfterKeepsFreeRequest(p, xs[..|xs| - 1]);
    }
  }

  /** `getNextAvailableTime`: the request itself when there is nothing to scan
      or the query fails; otherwise one pass over the reservations sorted by
      time, moving the probe one minute past every window it lies in. */
  method GetNextAvailableTime(date: string, time: string, snap: Snapshot) returns (r: string)
    requires IsHHmm(time) && WellFormed(snap)
    ensures snap.QueryError? ==> r == time
    ensures snap.Loaded? && snap.times == [] ==> r == time
    ensures snap.Loaded? ==> r == FormatHHmm(NextAvailableMinute(Minutes(time), Starts(snap.times)))
  {
    if snap.QueryError? {
      return time;
    }
    var existing := SortAscending(Starts(snap.times));
    SortedLength(snap.times);
    if |existing| == 0 {
      FormatOfMinutes(time);
      return time;
    }
    var nextTime := Minutes(time);
    var i := 0;
    while i < |existing|
      invariant 0 <= i <= |existing|
      invariant nextTime == ProbeAfter(Minutes(time), existing[..i])
    {
      var reservationStart := existing[i];
      var reservationEnd := reservationStart + RegularDuration;
      ProbeStep(Minutes(time), existing, i);
      if nextTime >= reservationStart && nextTime <= reservationEnd {
        nextTime := reservationEnd + 1;
      }
      i := i + 1;
    }
    ProbeWhole(Minutes(time), existing);
    return FormatHHmm(nextTime);
  }

  lemma SortedLength(ts: seq<string>)
    requires AllHHmm(ts)
    ensures |SortAscending(Starts(ts))| == |ts|
  {
    var starts := Starts(ts);
    assert |multiset(SortAscending(starts))| == |multiset(starts)|;
  }

  /** One more start scanned. */
  lemma ProbeStep(p: int, xs: seq<int>, i: int)
    requires 0 <= i < |xs|
    ensures ProbeAfter(p, xs[..i + 1]) == Advance(ProbeAfter(p, xs[..i]), xs[i])
  {
    assert xs[..i + 1][..i] == xs[..i];
  }

  lemma ProbeWhole(p: int, xs: seq<int>)
    ensures ProbeAfter(p, xs[..|xs|]) == ProbeAfter(p, xs)
  {
    assert xs[..|xs|] == xs;
  }

  /** The suggested minute is not before the request and lies inside no
      existing window [s, s + 120]. */
  lemma NextAvailableMinuteIsFree(time: string, ts: seq<string>)
    requires IsHHmm(time) && AllHHmm(ts)
    ensures var q := NextAvailableMinute(Minutes(time), Starts(ts));
      && q >= Minutes(time)
      && forall i :: 0 <= i < |ts| ==> !InWindow(q, Minutes(ts[i]))
  {
    var starts := Starts(ts);
    var sorted := SortAscending(starts);
    ProbeAfterIsFree(Minutes(time), sorted);
    forall i | 0 <= i < |ts| ensures !InWindow(ProbeAfter(Minutes(time), sorted), Minutes(ts[i])) {
      assert starts[i] in multiset(starts);
      assert starts[i] in multiset(sorted);
      var k :| 0 <= k < |sorted| && sorted[k] == starts[i];
    }
  }

  /** A request inside no existing window is returned unchanged. */
  lemma NextAvailableKeepsFreeRequest(time: string, ts: seq<string>)
    requires IsHHmm(time) && AllHHmm(ts)
    requires forall i :: 0 <= i < |ts| ==> !InWindow(Minutes(time), Minutes(ts[i]))
    ensures FormatHHmm(NextAvailableMinute(Minutes(time), Starts(ts))) == time
  {
    var starts := Starts(ts);
    var sorted := SortAscending(starts);
    forall k | 0 <= k < |sorted| ensures !InWindow(Minutes(time), sorted[k]) {
      assert sorted[k] in multiset(starts);
      var i :| 0 <= i < |starts| && starts[i] == sorted[k];
    }
    ProbeAfterKeepsFreeRequest(Minutes(time), sorted);
    FormatOfMinutes(time);
  }

  // ------------------------------------------ the next slot can be rejected

  /** As written, the next-slot finder tests the probe minute only, not the
      probe's whole 120-minute window: with a reservation at 19:00, a request
      at 18:00 comes back as "18:00", which the regular check rejects because
      20:00 lies in [19:00, 21:00]. */
  lemma NextAvailableCanBeRejected()
    ensures NextAvailableMinute(18 * 60, [19 * 60]) == 18 * 60
    ensures Minutes("18:00") == 18 * 60 && Minutes("19:00") == 19 * 60
    ensures !RegularAvailability("Avlu Salon", "Masa 1", "18:00", Loaded(["19:00"])).available
  {
    MinutesOfSampleTimes();
    assert SortAscending([1140]) == [1140];
    assert [1140][..0] == [];
    assert Starts(["19:00"]) == [1140];
    assert FirstConflict(1080, [1140]) == Some(0);
  }

  /** One scan step of the corrected finder: a probe whose window meets an
      existing window moves one minute past that window. */
  function AdvanceBookable(p: int, s: int): int
  {
    if Conflicts(p, s) then s + RegularDuration + 1 else p
  }

  function BookableProbeAfter(p: int, starts: seq<int>): int
    decreases |starts|
  {
    if starts == [] then p
    else AdvanceBookable(BookableProbeAfter(p, starts[..|starts| - 1]), starts[|starts| - 1])
  }

  /** The corrected next-slot finder: one pass over the sorted starts with the
      regular check's own conflict test. */
  function NextBookableMinute(requested: int, starts: seq<int>): int
  {
    BookableProbeAfter(requested, SortAscending(starts))
  }

  lemma {:induction false} BookableProbeAfterIsFree(p: int, xs: seq<int>)
    requires SortedAsc(xs)
    ensures BookableProbeAfter(p, xs) >= p
    ensures forall i :: 0 <= i < |xs| ==> !Conflicts(BookableProbeAfter(p, xs), xs[i])
    decreases |xs|
  {
    if xs != [] {
      var init := xs[..|xs| - 1];
      assert SortedAsc(init);
      BookableProbeAfterIsFree(p, init);
      assert forall i :: 0 <= i < |init| ==> xs[i] == init[i];
    }
  }

  /** The corrected finder's slot is never before the request and conflicts
      with no existing reservation. */
  lemma NextBookableIsFree(time: string, ts: seq<string>)
    requires IsHHmm(time) && AllHHmm(ts)
    ensures var q := NextBookableMinute(Minutes(time), Starts(ts));
      && q >= Minutes(time)
      && forall i :: 0 <= i < |ts| ==> !Conflicts(q, Minutes(ts[i]))
  {
    var starts := Starts(ts);
    var sorted := SortAscending(starts);
    var q := BookableProbeAfter(Minutes(time), sorted);
    BookableProbeAfterIsFree(Minutes(time), sorted);
    forall i | 0 <= i < |ts| ensures !Conflicts(q, Minutes(ts[i])) {
      assert starts[i] in multiset(sorted);
      var k :| 0 <= k < |sorted| && sorted[k] == starts[i];
    }
  }

  /** When the corrected finder's slot falls on the same day, the regular
      check accepts it. */
  lemma NextBookableIsAccepted(salon: string, masa: string, time: string, ts: seq<string>)
    requires IsHHmm(time) && AllHHmm(ts)
    requires NextBookableMinute(Minutes(time), Starts(ts)) < MinutesPerDay
    ensures RegularAvailability(salon, masa, FormatHHmm(NextBookableMinute(Minutes(time), Starts(ts))), Loaded(ts)).available
  {
    NextBookableIsFree(time, ts);
    FreeMinuteIsAccepted(salon, masa, NextBookableMinute(Minutes(time), Starts(ts)), ts);
  }

  /** A minute of the day that conflicts with no reservation is accepted. */
  lemma FreeMinuteIsAccepted(salon: string, masa: string, q: int, ts: seq<string>)
    requires 0 <= q < MinutesPerDay && AllHHmm(ts)
    requires forall i :: 0 <= i < |ts| ==> !Conflicts(q, Minutes(ts[i]))
    ensures RegularAvailability(salon, masa, FormatHHmm(q), Loaded(ts)).available
  {
    var slot := FormatHHmm(q);
    assert Minutes(slot) == q;
    RegularVerdictNone(salon, masa, slot, ts);
  }

  // ------------------------------------------- bookings accepted one by one

  /** Each reservation was accepted against the ones placed before it. */
  predicate AcceptedInTurn(salon: string, masa: string, ts: seq<string>)
    requires !IsVipTable(salon, masa) ==> AllHHmm(ts)
  {
    forall k :: 0 <= k < |ts| ==> TableAvailability(salon, masa, ts[k], Loaded(ts[..k])).available
  }

  /** On a regular table, reservations accepted one at a time start more than
      120 minutes apart. */
  lemma AcceptedRegularBookingsKeepApart(salon: string, masa: string, ts: seq<string>)
    requires AllHHmm(ts) && !IsVipTable(salon, masa) && AcceptedInTurn(salon, masa, ts)
    ensures forall i, j :: 0 <= i < j < |ts| ==> Minutes(ts[j]) - Minutes(ts[i]) > 120 || Minutes(ts[i]) - Minutes(ts[j]) > 120
  {
    forall i, j | 0 <= i < j < |ts|
      ensures Minutes(ts[j]) - Minutes(ts[i]) > 120 || Minutes(ts[i]) - Minutes(ts[j]) > 120
    {
      var before := ts[..j];
      assert AllHHmm(before);
      assert RegularAvailability(salon, masa, ts[j], Loaded(before)).available;
      RegularRejectsIffWithin120(salon, masa, ts[j], Loaded(before));
      assert before[i] == ts[i];
    }
  }

  /** On a VIP table, reservations accepted one at a time hold at most one
      midday and at most one evening session. */
  lemma AcceptedVipBookingsOnePerSession(salon: string, masa: string, ts: seq<string>)
    requires IsVipTable(salon, masa) && AcceptedInTurn(salon, masa, ts)
    ensures forall i, j :: 0 <= i < j < |ts| ==> !(ts[i] in EveningHours && ts[j] in EveningHours)
    ensures forall i, j :: 0 <= i < j < |ts| ==> !(ts[i] in MorningHours && ts[j] in MorningHours)
  {
    forall i, j | 0 <= i < j < |ts|
      ensures !(ts[i] in EveningHours && ts[j] in EveningHours)
      ensures !(ts[i] in MorningHours && ts[j] in MorningHours)
    {
      var before := ts[..j];
      assert before[i] == ts[i];
      assert CheckVipTableAvailability(salon, masa, ts[j], Loaded(before)).available;
      if ts[i] in EveningHours { assert SomeIn(before, EveningHours); }
      if ts[i] in MorningHours { assert SomeIn(before, MorningHours); }
    }
  }

  // ------------------------------------------------------------- scenarios

  lemma MinutesOfSampleTimes()
    ensures IsHHmm("18:00") && Minutes("18:00") == 1080
    ensures IsHHmm("19:00") && Minutes("19:00") == 1140
    ensures IsHHmm("20:00") && Minutes("20:00") == 1200
    ensures IsHHmm("21:00") && Minutes("21:00") == 1260
  {
  }

  /** A regular table with a reservation at 19:00: a request at 20:00 is
      rejected with 21:01 suggested, and a request exactly 120 minutes later
      (21:00) is rejected too. */
  lemma ScenarioRegularTableRejects()
    ensures RegularAvailability("Avlu Salon", "Masa 7", "20:00", Loaded(["19:00"]))
         == Verdict(false, Some(Taken("Avlu Salon", "Masa 7", "21:01")))
    ensures !RegularAvailability("Avlu Salon", "Masa 7", "21:00", Loaded(["19:00"])).available
  {
    MinutesOfSampleTimes();
    assert Starts(["19:00"]) == [1140];
    assert FirstConflict(1200, [1140]) == Some(0);
    assert FirstConflict(1260, [1140]) == Some(0);
    assert FormatHHmm(1261) == "21:01" by { assert TimeString(21, 1) == "21:01"; }
  }

  /** The next-slot finder answers 21:01 for a request at 20:00 next to a
      reservation at 19:00. */
  lemma ScenarioRegularTableNextSlot()
    ensures FormatHHmm(NextAvailableMinute(Minutes("20:00"), Starts(["19:00"]))) == "21:01"
  {
    MinutesOfSampleTimes();
    assert Starts(["19:00"]) == [1140];
    assert SortAscending([1140]) == [1140];
    assert [1140][..0] == [];
    assert ProbeAfter(1200, [1140]) == 1261;
    assert FormatHHmm(1261) == "21:01" by { assert TimeString(21, 1) == "21:01"; }
  }

  /** The VIP table of Eblehan with a midday reservation at 13:00: 15:00 is
      rejected naming 12:00-16:00, 18:00 is accepted. */
  lemma ScenarioVipTable()
    ensures CheckVipTableAvailability("Eblehan VIP Salon", "Masa 1", "15:00", Loaded(["13:00"]))
         == Verdict(false, Some(MiddayFull("Eblehan VIP Salon", "Masa 1")))
    ensures CheckVipTableAvailability("Eblehan VIP Salon", "Masa 1", "18:00", Loaded(["13:00"]))
         == Verdict(true, None)
  {
    assert SomeIn(["13:00"], MorningHours);
    assert !SomeIn(["13:00"], EveningHours);
  }
}
