/**
 * The reservation list page: the change log its three write handlers append
 * to (status change, table assignment, information save), the list filter,
 * the guest statistics over the filtered list and the status-filter toggle.
 * Each handler's document write is returned as a `DocUpdate` value; the
 * signed-in e-mail, the generated entry id and the clock readings are a
 * `Context`.
 */
module ReservationList {
  import opened JsValues
  import opened Types

  // ------------------------------------------------------------ change log

  /** What a handler knows besides the reservation: the signed-in e-mail
      (missing when nobody is signed in), the id `generateHistoryId` returned,
      and the two clock readings (entry timestamp, document `updatedAt`). */
  datatype Context = Context(email: Option<string>, historyId: string, entryTime: string, writeTime: string)

  /** `currentUser?.email || 'unknown'` */
  function EntryAuthor(email: Option<string>): (a: string)
    ensures a != ""
    ensures email.Some? && email.value != "" ==> a == email.value
    ensures !(email.Some? && email.value != "") ==> a == "unknown"
  {
    if email.Some? && email.value != "" then email.value else "unknown"
  }

  /** `reservation.history || []` */
  function ExistingHistory(r: Reservation): seq<HistoryEntry>
  {
    if r.history.Some? then r.history.value else []
  }

  /** `x || ''` for an optional string. */
  function OrEmpty(o: Option<string>): string
  {
    if o.Some? then o.value else ""
  }

  function NewEntry(ctx: Context, changes: seq<Change>): HistoryEntry
  {
    HistoryEntry(ctx.historyId, ctx.entryTime, EntryAuthor(ctx.email), changes)
  }

  /** The `updateDoc` payload: the changed properties, then `updatedAt`,
      `updatedBy`, `updateType` and the new `history`. */
  datatype DocUpdate = DocUpdate(id: string, data: seq<Field>, updatedAt: string, updatedBy: Option<string>,
                                 updateType: UpdateType, history: seq<HistoryEntry>)

  /** The write appends one entry to the existing log and keeps the rest. */
  predicate AppendsOne(r: Reservation, u: DocUpdate, ctx: Context)
  {
    && u.id == r.id
    && |u.history| == |ExistingHistory(r)| + 1
    && u.history[..|ExistingHistory(r)|] == ExistingHistory(r)
    && u.history[|ExistingHistory(r)|].id == ctx.historyId
    && u.history[|ExistingHistory(r)|].timestamp == ctx.entryTime
    && u.history[|ExistingHistory(r)|].updatedBy == EntryAuthor(ctx.email)
    && u.updatedAt == ctx.writeTime
    && u.updatedBy == ctx.email
  }

  /** `handleStatusChange`: one change, the status from old to new. */
  function StatusChange(r: Reservation, newStatus: Status, ctx: Context): (u: DocUpdate)
    ensures AppendsOne(r, u, ctx)
    ensures Last(u.history).changes == [Change("status", Str(StatusName(r.status)), Str(StatusName(newStatus)))]
    ensures u.data == [Field("status", Str(StatusName(newStatus)))]
    ensures u.updateType == Durum
  {
    var entry := NewEntry(ctx, [Change("status", Str(StatusName(r.status)), Str(StatusName(newStatus)))]);
    DocUpdate(r.id, [Field("status", Str(StatusName(newStatus)))], ctx.writeTime, ctx.email, Durum,
              ExistingHistory(r) + [entry])
  }

  function Last<T>(s: seq<T>): T
    requires |s| > 0
  {
    s[|s| - 1]
  }

  /** `handleTableAssignment`: nothing without a reservation; otherwise two
      changes, salon then table, a missing old value recorded as ''. */
  function TableAssignment(current: Option<Reservation>, salon: string, masa: string, ctx: Context): (u: Option<DocUpdate>)
    ensures u.Some? <==> current.Some?
    ensures u.Some? ==> AppendsOne(current.value, u.value, ctx)
    ensures u.Some? ==> (Last(u.value.history).changes ==
      [ Change("salon", Str(OrEmpty(current.value.salon)), Str(salon)),
        Change("masa", Str(OrEmpty(current.value.masa)), Str(masa)) ])
    ensures u.Some? ==> u.value.data == [Field("salon", Str(salon)), Field("masa", Str(masa))]
    ensures u.Some? ==> u.value.updateType == Masa
  {
    if current.None? then None
    else
      var r := current.value;
      var entry := NewEntry(ctx, [ Change("salon", Str(OrEmpty(r.salon)), Str(salon)),
                                   Change("masa", Str(OrEmpty(r.masa)), Str(masa)) ]);
      Some(DocUpdate(r.id, [Field("salon", Str(salon)), Field("masa", Str(masa))], ctx.writeTime, ctx.email, Masa,
                     ExistingHistory(r) + [entry]))
  }

  /** `reservation[field]` as a JavaScript value. A missing optional
      property, any other name, and the `history` array, read as undefined. */
  function FieldValue(r: Reservation, field: string): JsValue
  {
    match field
    case "id" => Str(r.id)
    case "code" => Str(r.code)
    case "fullName" => Str(r.fullName)
    case "phone" => Str(r.phone)
    case "date" => Str(r.date)
    case "time" => Str(r.time)
    case "endTime" => Str(r.endTime)
    case "guests" => Num(r.guests)
    case "childCount" => r.childCount
    case "notes" => if r.notes.Some? then Str(r.notes.value) else Undefined
    case "status" => Str(StatusName(r.status))
    case "createdAt" => Str(r.createdAt)
    case "updatedAt" => Str(r.updatedAt)
    case "updatedBy" => if r.updatedBy.Some? then Str(r.updatedBy.value) else Undefined
    case "updateType" => if r.updateType.Some? then Str(UpdateTypeName(r.updateType.value)) else Undefined
    case "salon" => if r.salon.Some? then Str(r.salon.value) else Undefined
    case "masa" => if r.masa.Some? then Str(r.masa.value) else Undefined
    case _ => Undefined
  }

  /** The properties the editor's payload carries read as the stored values. */
  lemma FieldValuesOfPayloadKeys(r: Reservation)
    ensures FieldValue(r, "id") == Str(r.id)
    ensures FieldValue(r, "code") == Str(r.code)
    ensures FieldValue(r, "fullName") == Str(r.fullName)
    ensures FieldValue(r, "phone") == Str(r.phone)
    ensures FieldValue(r, "date") == Str(r.date)
    ensures FieldValue(r, "time") == Str(r.time)
    ensures FieldValue(r, "guests") == Num(r.guests)
    ensures FieldValue(r, "childCount") == r.childCount
    ensures FieldValue(r, "notes") == (if r.notes.Some? then Str(r.notes.value) else Undefined)
    ensures FieldValue(r, "updatedAt") == Str(r.updatedAt)
  {
  }

  /** The change a property of the update describes. */
  function ChangeOf(r: Reservation, f: Field): Change
  {
    Change(f.key, FieldValue(r, f.key), f.value)
  }

  /** `Object.entries(updatedData).map(...).filter(c => c.oldValue !== c.newValue)`:
      the entries that differ from the stored value, in entry order. */
  function Diff(r: Reservation, updatedData: seq<Field>): (d: seq<Change>)
    ensures |d| <= |updatedData|
    ensures forall c :: c in d ==>
      && Field(c.field, c.newValue) in updatedData
      && c.oldValue == FieldValue(r, c.field)
      && !StrictEquals(c.oldValue, c.newValue)
    ensures forall f :: f in updatedData ==> (ChangeOf(r, f) in d <==> !StrictEquals(FieldValue(r, f.key), f.value))
  {
    if updatedData == [] then []
    else
      var rest := Diff(r, updatedData[1..]);
      var f := updatedData[0];
      if StrictEquals(FieldValue(r, f.key), f.value) then rest else [ChangeOf(r, f)] + rest
  }

  /** The diff of a concatenation is the concatenation of the diffs: changes
      keep the order of the update's entries. */
  lemma {:induction false} DiffKeepsEntryOrder(r: Reservation, a: seq<Field>, b: seq<Field>)
    ensures Diff(r, a + b) == Diff(r, a) + Diff(r, b)
  {
    if a == [] {
      assert a + b == b;
    } else {
      assert (a + b)[0] == a[0];
      assert (a + b)[1..] == a[1..] + b;
      DiffKeepsEntryOrder(r, a[1..], b);
    }
  }

  /** An update is empty of changes exactly when every entry is `===` to the
      stored value. */
  lemma DiffEmptyIffAllEqual(r: Reservation, updatedData: seq<Field>)
    ensures Diff(r, updatedData) == [] <==> forall f :: f in updatedData ==> StrictEquals(FieldValue(r, f.key), f.value)
  {
    var d := Diff(r, updatedData);
    if d != [] {
      assert d[0] in d;
      assert Field(d[0].field, d[0].newValue) in updatedData;
    }
  }

  /** The index form of `DiffEmptyIffAllEqual`, one direction. */
  lemma {:induction false} DiffEmptyByIndex(r: Reservation, d: seq<Field>)
    requires forall k :: 0 <= k < |d| ==> StrictEquals(FieldValue(r, d[k].key), d[k].value)
    ensures Diff(r, d) == []
  {
    if d != [] {
      assert forall k :: 0 <= k < |d[1..]| ==> d[1..][k] == d[k + 1];
      DiffEmptyByIndex(r, d[1..]);
    }
  }

  /** The entries of `o` whose key is not among `keys`, in order. */
  function Without(o: seq<Field>, keys: seq<string>): (r: seq<Field>)
    ensures forall f :: f in r <==> f in o && f.key !in keys
  {
    if o == [] then []
    else (if o[0].key in keys then [] else [o[0]]) + Without(o[1..], keys)
  }

  /** Leaving out keys that only the entries after a prefix carry keeps the prefix. */
  lemma {:induction false} WithoutKeepsOthers(o: seq<Field>, keys: seq<string>, n: nat)
    requires n <= |o|
    requires forall k :: 0 <= k < n ==> o[k].key !in keys
    requires forall k :: n <= k < |o| ==> o[k].key in keys
    ensures Without(o, keys) == o[..n]
  {
    if o != [] {
      if n > 0 {
        WithoutKeepsOthers(o[1..], keys, n - 1);
        assert o[..n] == [o[0]] + o[1..][..n - 1];
      } else {
        WithoutKeepsOthers(o[1..], keys, 0);
      }
    }
  }

  /** The properties the write spreads from the update: the properties it
      then sets itself are overridden. */
  function OwnData(updatedData: seq<Field>): seq<Field>
  {
    Without(updatedData, ["updatedAt", "updatedBy", "updateType", "history"])
  }

  /** `handleSaveReservation`: nothing without a selected reservation or
      when no entry differs; otherwise one entry holding the diff. */
  function SaveInfo(selected: Option<Reservation>, updatedData: seq<Field>, ctx: Context): (u: Option<DocUpdate>)
    ensures u.Some? <==> selected.Some? && Diff(selected.value, updatedData) != []
    ensures u.Some? ==> AppendsOne(selected.value, u.value, ctx)
    ensures u.Some? ==> Last(u.value.history).changes == Diff(selected.value, updatedData)
    ensures u.Some? ==> u.value.data == OwnData(updatedData) && u.value.updateType == Bilgi
  {
    if selected.None? then None
    else
      var r := selected.value;
      var changes := Diff(r, updatedData);
      if |changes| > 0 then
        Some(DocUpdate(r.id, OwnData(updatedData), ctx.writeTime, ctx.email, Bilgi,
                       ExistingHistory(r) + [NewEntry(ctx, changes)]))
      else None
  }

  // --------------------------------------------------- a sequence of writes

  /** One handler invocation on the page. */
  datatype Op = SetStatus(status: Status) | AssignTable(salon: string, masa: string) | Save(data: seq<Field>)

  /** The reservation as stored after a write: its new log and write
      metadata. */
  function Stored(r: Reservation, u: DocUpdate): Reservation
  {
    r.(history := Some(u.history), updatedAt := u.updatedAt, updatedBy := u.updatedBy,
       updateType := Some(u.updateType))
  }

  /** One handler and its write; a status or table write also stores the
      new status or table. */
  function Step(r: Reservation, op: Op, ctx: Context): Reservation
  {
    match op
    case SetStatus(s) => Stored(r, StatusChange(r, s, ctx)).(status := s)
    case AssignTable(salon, masa) =>
      Stored(r, TableAssignment(Some(r), salon, masa, ctx).value).(salon := Some(salon), masa := Some(masa))
    case Save(data) =>
      var u := SaveInfo(Some(r), data, ctx);
      if u.Some? then Stored(r, u.value) else r
  }

  /** The handlers applied in turn, each to the reservation the previous one
      stored. */
  function Run(r: Reservation, ops: seq<Op>, ctxs: seq<Context>): Reservation
    requires |ops| == |ctxs|
    decreases |ops|
  {
    if ops == [] then r else Run(Step(r, ops[0], ctxs[0]), ops[1..], ctxs[1..])
  }

  /** The number of status and table writes: these always append. */
  function AlwaysLogged(ops: seq<Op>): nat
  {
    if ops == [] then 0 else (if ops[0].Save? then 0 else 1) + AlwaysLogged(ops[1..])
  }

  lemma StepAppendsAtMostOne(r: Reservation, op: Op, ctx: Context)
    ensures var h := ExistingHistory(Step(r, op, ctx));
      && ExistingHistory(r) <= h
      && |h| <= |ExistingHistory(r)| + 1
      && (!op.Save? ==> |h| == |ExistingHistory(r)| + 1)
      && (op.Save? ==> (|h| == |ExistingHistory(r)| + 1 <==> Diff(r, op.data) != []))
  {
    match op
    case SetStatus(s) =>
    case AssignTable(salon, masa) =>
    case Save(data) =>
      var u := SaveInfo(Some(r), data, ctx);
      if u.Some? {
        assert ExistingHistory(Stored(r, u.value)) == u.value.history;
      }
  }

  /** The change log is append-only: over any run of handlers the old log
      stays a prefix, each handler adds at most one entry, and every status
      or table write adds exactly one. */
  lemma {:induction false} HistoryIsAppendOnly(r: Reservation, ops: seq<Op>, ctxs: seq<Context>)
    requires |ops| == |ctxs|
    ensures var h := ExistingHistory(Run(r, ops, ctxs));
      && ExistingHistory(r) <= h
      && |ExistingHistory(r)| + AlwaysLogged(ops) <= |h| <= |ExistingHistory(r)| + |ops|
    decreases |ops|
  {
    if ops != [] {
      var r1 := Step(r, ops[0], ctxs[0]);
      StepAppendsAtMostOne(r, ops[0], ctxs[0]);
      HistoryIsAppendOnly(r1, ops[1..], ctxs[1..]);
    }
  }

  // ------------------------------------------------------------ the list

  /** `'all' | 'active' | 'cancelled'` */
  datatype FilterState = All | Active | Cancelled

  const FilterCycle: seq<FilterState> := [Active, Cancelled, All]

  function IndexOfState(s: FilterState): (i: nat)
    ensures i < |FilterCycle| && FilterCycle[i] == s
  {
    match s
    case Active => 0
    case Cancelled => 1
    case All => 2
  }

  /** `toggleFilterState`: the next state in the cycle. */
  function ToggleFilterState(s: FilterState): FilterState
  {
    FilterCycle[(IndexOfState(s) + 1) % |FilterCycle|]
  }

  /** The toggle goes active, cancelled, all, and back to active. */
  lemma ToggleCycles(s: FilterState)
    ensures ToggleFilterState(Active) == Cancelled
    ensures ToggleFilterState(Cancelled) == All
    ensures ToggleFilterState(All) == Active
    ensures ToggleFilterState(s) != s
    ensures ToggleFilterState(ToggleFilterState(ToggleFilterState(s))) == s
  {
  }

  /** Name or code contain the search text ignoring case, or the phone
      contains it as typed. */
  predicate MatchesSearch(r: Reservation, search: string)
  {
    || Contains(ToLower(r.fullName), ToLower(search))
    || Contains(ToLower(r.code), ToLower(search))
    || Contains(r.phone, search)
  }

  predicate MatchesStatus(r: Reservation, state: FilterState)
  {
    match state
    case All => true
    case Active => r.status == Aktif
    case Cancelled => r.status == Iptal
  }

  predicate Keeps(r: Reservation, search: string, dateFilter: string, state: FilterState)
  {
    MatchesSearch(r, search) && (dateFilter == "" || r.date == dateFilter) && MatchesStatus(r, state)
  }

  /** `filteredReservations` */
  function FilteredReservations(rs: seq<Reservation>, search: string, dateFilter: string, state: FilterState)
    : (kept: seq<Reservation>)
    ensures |kept| <= |rs|
    ensures forall r :: r in kept <==> r in rs && Keeps(r, search, dateFilter, state)
  {
    if rs == [] then []
    else
      var rest := FilteredReservations(rs[1..], search, dateFilter, state);
      if Keeps(rs[0], search, dateFilter, state) then [rs[0]] + rest else rest
  }

  /** Filtering keeps the list order. */
  lemma {:induction false} FilterKeepsOrder(a: seq<Reservation>, b: seq<Reservation>, search: string,
                                            dateFilter: string, state: FilterState)
    ensures FilteredReservations(a + b, search, dateFilter, state)
         == FilteredReservations(a, search, dateFilter, state) + FilteredReservations(b, search, dateFilter, state)
  {
    if a == [] {
      assert a + b == b;
    } else {
      assert (a + b)[0] == a[0];
      assert (a + b)[1..] == a[1..] + b;
      FilterKeepsOrder(a[1..], b, search, dateFilter, state);
    }
  }

  /** The empty search matches every reservation, so with no date filter the
      'all' state keeps the whole list. */
  lemma {:induction false} EmptySearchKeepsAll(rs: seq<Reservation>)
    ensures FilteredReservations(rs, "", "", All) == rs
  {
    if rs != [] {
      assert MatchesSearch(rs[0], "") by {
        assert ToLower("") == "";
        assert "" <= ToLower(rs[0].fullName);
      }
      EmptySearchKeepsAll(rs[1..]);
    }
  }

  // ------------------------------------------------------------- statistics

  /** `childCount` holds a number or nothing, as its declared type says. */
  predicate NumericChildCount(r: Reservation)
  {
    r.childCount.Num? || r.childCount.NaN? || r.childCount.Undefined? || r.childCount.Null?
  }

  /** `reservation.childCount || 0` */
  function ChildrenOf(r: Reservation): (n: int)
    requires NumericChildCount(r)
    ensures r.childCount.Num? ==> n == r.childCount.n
    ensures !r.childCount.Num? ==> n == 0
  {
    var v := Or(r.childCount, Num(0));
    v.n
  }

  /** `getTotalGuests` */
  function TotalGuests(r: Reservation): int
    requires NumericChildCount(r)
  {
    r.guests + ChildrenOf(r)
  }

  /** Adults and children over the active reservations of a list. */
  function ActiveAdults(rs: seq<Reservation>): int
  {
    if rs == [] then 0 else (if rs[0].status == Aktif then rs[0].guests else 0) + ActiveAdults(rs[1..])
  }

  function ActiveChildren(rs: seq<Reservation>): int
    requires forall r :: r in rs ==> NumericChildCount(r)
  {
    if rs == [] then 0 else (if rs[0].status == Aktif then ChildrenOf(rs[0]) else 0) + ActiveChildren(rs[1..])
  }

  function ActiveOnly(rs: seq<Reservation>): (a: seq<Reservation>)
    ensures forall r :: r in a <==> r in rs && r.status == Aktif
  {
    if rs == [] then [] else (if rs[0].status == Aktif then [rs[0]] else []) + ActiveOnly(rs[1..])
  }

  /** The statistics over a list are those of its active reservations, and
      count only them. */
  lemma {:induction false} StatsCountOnlyActive(rs: seq<Reservation>)
    requires forall r :: r in rs ==> NumericChildCount(r)
    ensures ActiveAdults(ActiveOnly(rs)) == ActiveAdults(rs)
    ensures ActiveChildren(ActiveOnly(rs)) == ActiveChildren(rs)
    ensures (forall r :: r in rs ==> r.status == Iptal) ==> ActiveAdults(rs) == 0 && ActiveChildren(rs) == 0
  {
    if rs != [] {
      StatsCountOnlyActive(rs[1..]);
      var a := ActiveOnly(rs);
      if rs[0].status == Aktif {
        assert a == [rs[0]] + ActiveOnly(rs[1..]);
        assert a[0] == rs[0] && a[1..] == ActiveOnly(rs[1..]);
      } else {
        assert a == ActiveOnly(rs[1..]);
      }
    }
  }

  lemma ActiveSumsStep(rs: seq<Reservation>, i: nat)
    requires i < |rs| && forall r :: r in rs ==> NumericChildCount(r)
    ensures ActiveAdults(rs[..i + 1]) == ActiveAdults(rs[..i]) + (if rs[i].status == Aktif then rs[i].guests else 0)
    ensures ActiveChildren(rs[..i + 1]) == ActiveChildren(rs[..i]) + (if rs[i].status == Aktif then ChildrenOf(rs[i]) else 0)
  {
    AdultsSplit(rs[..i], [rs[i]]);
    ChildrenSplit(rs[..i], [rs[i]]);
    assert rs[..i] + [rs[i]] == rs[..i + 1];
  }

  lemma {:induction false} AdultsSplit(a: seq<Reservation>, b: seq<Reservation>)
    ensures ActiveAdults(a + b) == ActiveAdults(a) + ActiveAdults(b)
  {
    if a == [] {
      assert a + b == b;
    } else {
      assert (a + b)[0] == a[0];
      assert (a + b)[1..] == a[1..] + b;
      AdultsSplit(a[1..], b);
    }
  }

  lemma {:induction false} ChildrenSplit(a: seq<Reservation>, b: seq<Reservation>)
    requires forall r :: r in a + b ==> NumericChildCount(r)
    ensures ActiveChildren(a + b) == ActiveChildren(a) + ActiveChildren(b)
  {
    if a == [] {
      assert a + b == b;
    } else {
      assert (a + b)[0] == a[0];
      assert (a + b)[1..] == a[1..] + b;
      ChildrenSplit(a[1..], b);
    }
  }

  /** `getReservationStats`: the `forEach` accumulation over the filtered
      list; the total is the sum of adults and children. */
  method GetReservationStats(filtered: seq<Reservation>) returns (totalAdults: int, totalChildren: int, totalGuests: int)
    requires forall r :: r in filtered ==> NumericChildCount(r)
    ensures totalAdults == ActiveAdults(filtered)
    ensures totalChildren == ActiveChildren(filtered)
    ensures totalGuests == totalAdults + totalChildren
  {
    totalAdults, totalChildren, totalGuests := 0, 0, 0;
    var i := 0;
    while i < |filtered|
      invariant 0 <= i <= |filtered|
      invariant totalAdults == ActiveAdults(filtered[..i])
      invariant totalChildren == ActiveChildren(filtered[..i])
      invariant totalGuests == totalAdults + totalChildren
    {
      var reservation := filtered[i];
      ActiveSumsStep(filtered, i);
      if reservation.status == Aktif {
        totalAdults := totalAdults + reservation.guests;
        totalChildren := totalChildren + ChildrenOf(reservation);
        totalGuests := totalGuests + TotalGuests(reservation);
      }
      i := i + 1;
    }
    assert filtered[..i] == filtered;
  }
}
