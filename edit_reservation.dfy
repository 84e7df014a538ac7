/**
 * The reservation editor: its form state, initialised from the stored
 * reservation, the two number-field guards and the payload its submit hands
 * to the list page's save handler. Converting the picked date to its ISO
 * day (`toISOString().split('T')[0]`) is a parameter `isoDay`; the page's
 * `new Date(reservation.date)` is kept as the date string itself.
 */
module EditReservation {
  import opened JsValues
  import opened Types
  import ReservationList

  /** The form fields, all strings as the inputs hold them. */
  datatype FormData = FormData(fullName: string, phone: string, date: string, time: string,
                               guests: string, childCount: string, notes: string)

  /** `reservation.childCount?.toString() || ''` */
  function ChildCountText(v: JsValue): (t: string)
    ensures (v.Undefined? || v.Null?) ==> t == ""
    ensures v.Num? ==> t == IntToString(v.n)
  {
    if v.Undefined? || v.Null? then "" else ToJsString(v)
  }

  /** The form as the reservation fills it: guests as its decimal numeral, a
      missing child count and missing notes as ''. */
  function InitialForm(r: Reservation): (f: FormData)
    ensures f.guests != "" && ParseIntString(f.guests) == Num(r.guests)
    ensures (r.childCount.Undefined? || r.childCount.Null?) ==> f.childCount == ""
    ensures r.notes.None? ==> f.notes == ""
    ensures r.notes.Some? ==> f.notes == r.notes.value
  {
    ParseIntOfIntToString(r.guests);
    FormData(r.fullName, r.phone, r.date, r.time, IntToString(r.guests), ChildCountText(r.childCount),
             if r.notes.Some? then r.notes.value else "")
  }

  /** The guests input accepts '' or a value whose `parseInt` is in [1, 100]. */
  predicate GuestsAccepted(value: string)
  {
    value == "" || (ParseIntString(value).Num? && 1 <= ParseIntString(value).n <= 100)
  }

  /** The child-count input accepts '' or a value whose `parseInt` is in [0, 50]. */
  predicate ChildCountAccepted(value: string)
  {
    value == "" || (ParseIntString(value).Num? && 0 <= ParseIntString(value).n <= 50)
  }

  /** The `onSave` argument: the form spread, with guests parsed, the child
      count parsed or 0 when empty, the date as its ISO day, and a fresh
      `updatedAt` appended. */
  function Payload(f: FormData, isoDay: string -> string, now: string): (p: seq<Field>)
    ensures Keys(p) == ["fullName", "phone", "date", "time", "guests", "childCount", "notes", "updatedAt"]
    ensures p[2].value == Str(isoDay(f.date))
    ensures p[4].value == ParseIntString(f.guests)
    ensures f.childCount == "" ==> p[5].value == Num(0)
    ensures f.childCount != "" ==> p[5].value == ParseIntString(f.childCount)
    ensures p[7].value == Str(now)
  {
    var childCount := if f.childCount != "" then ParseIntString(f.childCount) else Num(0);
    Fields(f, isoDay(f.date), ParseIntString(f.guests), childCount, now)
  }

  /** The eight properties of the payload, once the values are computed. */
  function Fields(f: FormData, isoDate: string, guests: JsValue, childCount: JsValue, now: string): (p: seq<Field>)
    ensures Keys(p) == ["fullName", "phone", "date", "time", "guests", "childCount", "notes", "updatedAt"]
    ensures p[2].value == Str(isoDate) && p[4].value == guests && p[5].value == childCount && p[7].value == Str(now)
  {
    [ Field("fullName", Str(f.fullName)), Field("phone", Str(f.phone)), Field("date", Str(isoDate)),
      Field("time", Str(f.time)), Field("guests", guests), Field("childCount", childCount),
      Field("notes", Str(f.notes)), Field("updatedAt", Str(now)) ]
  }

  class EditReservationForm {
    const reservation: Option<Reservation>
    var fullName: string
    var phone: string
    var date: string
    var time: string
    var guests: string
    var childCount: string
    var notes: string

    function Form(): FormData
      reads this
    {
      FormData(fullName, phone, date, time, guests, childCount, notes)
    }

    /** The empty form, filled from the reservation when there is one. */
    constructor(reservation: Option<Reservation>)
      ensures this.reservation == reservation
      ensures reservation.Some? ==> Form() == InitialForm(reservation.value)
      ensures reservation.None? ==> Form() == FormData("", "", "", "", "", "", "")
    {
      this.reservation := reservation;
      if reservation.Some? {
        var f := InitialForm(reservation.value);
        fullName, phone, date, time := f.fullName, f.phone, f.date, f.time;
        guests, childCount, notes := f.guests, f.childCount, f.notes;
      } else {
        fullName, phone, date, time := "", "", "", "";
        guests, childCount, notes := "", "", "";
      }
    }

    /** `handleGuestChange`: '' clears the field, an accepted value is taken
        as typed, anything else is ignored. */
    method HandleGuestChange(value: string)
      modifies this
      ensures GuestsAccepted(value) ==> Form() == old(Form()).(guests := value)
      ensures !GuestsAccepted(value) ==> Form() == old(Form())
      ensures GuestsAccepted(guests) || guests == old(guests)
    {
      if value == "" {
        guests := "";
      } else {
        var numValue := ParseIntString(value);
        if numValue.Num? && numValue.n >= 1 && numValue.n <= 100 {
          guests := value;
        }
      }
    }

    /** `handleChildCountChange`: the same guard with the range [0, 50]. */
    method HandleChildCountChange(value: string)
      modifies this
      ensures ChildCountAccepted(value) ==> Form() == old(Form()).(childCount := value)
      ensures !ChildCountAccepted(value) ==> Form() == old(Form())
      ensures ChildCountAccepted(childCount) || childCount == old(childCount)
    {
      if value == "" {
        childCount := "";
      } else {
        var numValue := ParseIntString(value);
        if numValue.Num? && numValue.n >= 0 && numValue.n <= 50 {
          childCount := value;
        }
      }
    }

    /** `handleSubmit`: nothing without a reservation or with empty guests;
        otherwise the payload of the current form. */
    function SubmitPayload(isoDay: string -> string, now: string): (p: Option<seq<Field>>)
      reads this
      ensures p.None? <==> reservation.None? || guests == ""
      ensures p.Some? ==> p.value == Payload(Form(), isoDay, now)
    {
      if reservation.None? || guests == "" then None else Some(Payload(Form(), isoDay, now))
    }

    /** The cancel button is offered only for an active reservation. */
    function CanCancel(): (b: bool)
      ensures b <==> reservation.Some? && reservation.value.status == Aktif
    {
      reservation.Some? && StatusName(reservation.value.status) == "aktif"
    }
  }

  // ------------------------------------------------- saving an unchanged form

  /** As written: saving the form exactly as it opened still produces a
      change, the fresh `updatedAt`, so the list page appends a log entry
      although nothing was edited. */
  lemma UnchangedFormStillLogs(r: Reservation, isoDay: string -> string, now: string, ctx: ReservationList.Context)
    requires now != r.updatedAt
    ensures var u := ReservationList.SaveInfo(Some(r), Payload(InitialForm(r), isoDay, now), ctx);
      && u.Some?
      && Change("updatedAt", Str(r.updatedAt), Str(now)) in ReservationList.Last(u.value.history).changes
  {
    PayloadHoldsStamp(InitialForm(r), isoDay, now);
    StampIsLogged(r, Payload(InitialForm(r), isoDay, now), now, ctx);
  }

  lemma PayloadHoldsStamp(f: FormData, isoDay: string -> string, now: string)
    ensures Field("updatedAt", Str(now)) in Payload(f, isoDay, now)
  {
    var p := Payload(f, isoDay, now);
    assert p[7] == Field("updatedAt", Str(now));
  }

  /** A fresh `updatedAt` in an update is always among the changes logged. */
  lemma StampIsLogged(r: Reservation, p: seq<Field>, now: string, ctx: ReservationList.Context)
    requires Field("updatedAt", Str(now)) in p && now != r.updatedAt
    ensures var u := ReservationList.SaveInfo(Some(r), p, ctx);
      && u.Some?
      && Change("updatedAt", Str(r.updatedAt), Str(now)) in ReservationList.Last(u.value.history).changes
  {
    StampIsAChange(r, p, now);
  }

  lemma StampIsAChange(r: Reservation, p: seq<Field>, now: string)
    requires Field("updatedAt", Str(now)) in p && now != r.updatedAt
    ensures Change("updatedAt", Str(r.updatedAt), Str(now)) in ReservationList.Diff(r, p)
  {
    ReservationList.FieldValuesOfPayloadKeys(r);
    assert ReservationList.ChangeOf(r, Field("updatedAt", Str(now))) == Change("updatedAt", Str(r.updatedAt), Str(now));
  }

  /** Corrected save: the diff leaves out the properties the write sets
      itself (`updatedAt`, `updatedBy`, `updateType`, `history`). */
  function SaveInfoCorrected(selected: Option<Reservation>, updatedData: seq<Field>, ctx: ReservationList.Context)
    : Option<ReservationList.DocUpdate>
  {
    ReservationList.SaveInfo(selected, ReservationList.OwnData(updatedData), ctx)
  }

  /** The properties of the form as it opened, for a record holding notes
      and a numeric child count: exactly the stored values. */
  function StoredPart(r: Reservation): seq<Field>
    requires r.notes.Some?
  {
    [ Field("fullName", Str(r.fullName)), Field("phone", Str(r.phone)), Field("date", Str(r.date)),
      Field("time", Str(r.time)), Field("guests", Num(r.guests)), Field("childCount", r.childCount),
      Field("notes", Str(r.notes.value)) ]
  }

  lemma PayloadOfUnchangedForm(r: Reservation, isoDay: string -> string, now: string)
    requires r.notes.Some? && r.childCount.Num? && isoDay(r.date) == r.date
    ensures Payload(InitialForm(r), isoDay, now) == StoredPart(r) + [Field("updatedAt", Str(now))]
  {
    var f := InitialForm(r);
    ParseIntOfIntToString(r.childCount.n);
    assert f.childCount == IntToString(r.childCount.n) != "";
  }

  lemma OwnDataOfUnchangedForm(r: Reservation, now: string)
    requires r.notes.Some?
    ensures ReservationList.OwnData(StoredPart(r) + [Field("updatedAt", Str(now))]) == StoredPart(r)
  {
    var keys := ["updatedAt", "updatedBy", "updateType", "history"];
    var d := StoredPart(r) + [Field("updatedAt", Str(now))];
    forall k | 0 <= k < 7 ensures d[k].key !in keys {
      assert d[k].key[0] != 'u' && d[k].key[0] != 'h';
    }
    ReservationList.WithoutKeepsOthers(d, keys, 7);
  }

  lemma StoredPartIsUnchanged(r: Reservation)
    requires r.notes.Some? && r.childCount.Num?
    ensures ReservationList.Diff(r, StoredPart(r)) == []
  {
    var d := StoredPart(r);
    ReservationList.FieldValuesOfPayloadKeys(r);
    assert StrictEquals(ReservationList.FieldValue(r, d[0].key), d[0].value);
    assert StrictEquals(ReservationList.FieldValue(r, d[1].key), d[1].value);
    assert StrictEquals(ReservationList.FieldValue(r, d[2].key), d[2].value);
    assert StrictEquals(ReservationList.FieldValue(r, d[3].key), d[3].value);
    assert StrictEquals(ReservationList.FieldValue(r, d[4].key), d[4].value);
    assert StrictEquals(ReservationList.FieldValue(r, d[5].key), d[5].value);
    assert StrictEquals(ReservationList.FieldValue(r, d[6].key), d[6].value);
    ReservationList.DiffEmptyByIndex(r, d);
  }

  /** With the corrected diff, saving the form as it opened logs nothing,
      as long as the stored record holds notes and a numeric child count
      and its date reads back as the same ISO day. */
  lemma UnchangedFormLogsNothing(r: Reservation, isoDay: string -> string, now: string, ctx: ReservationList.Context)
    requires r.notes.Some? && r.childCount.Num? && isoDay(r.date) == r.date
    ensures SaveInfoCorrected(Some(r), Payload(InitialForm(r), isoDay, now), ctx).None?
  {
    PayloadOfUnchangedForm(r, isoDay, now);
    OwnDataOfUnchangedForm(r, now);
    StoredPartIsUnchanged(r);
  }
}
