/**
 * The record normaliser applied to reservation input before it is stored:
 * every field gets a default or a normal form, then properties whose value
 * is undefined are deleted. Date parsing and `yyyy-MM-dd` formatting are a
 * parameter (`formatDay`), as is the rendering of the current date (`today`)
 * and the current ISO timestamp (`now`).
 */
module ReservationUtils {
  import opened JsValues
  import Phone

  /** A property of the raw input object; missing properties are undefined. */
  function Prop(data: map<string, JsValue>, key: string): JsValue
  {
    if key in data then data[key] else Undefined
  }

  /** The properties of the input the normaliser reads. */
  datatype Input = Input(fullName: JsValue, phone: JsValue, date: JsValue, time: JsValue, guests: JsValue,
                         childCount: JsValue, notes: JsValue, code: JsValue, status: JsValue,
                         salon: JsValue, masa: JsValue)

  function InputOf(data: map<string, JsValue>): Input
  {
    Input(Prop(data, "fullName"), Prop(data, "phone"), Prop(data, "date"), Prop(data, "time"),
          Prop(data, "guests"), Prop(data, "childCount"), Prop(data, "notes"), Prop(data, "code"),
          Prop(data, "status"), Prop(data, "salon"), Prop(data, "masa"))
  }

  /** The source calls string methods on `phone` and `code` when they are
      truthy, which throws on any other kind of value. */
  predicate StringMethodsApply(input: Input)
  {
    && (Truthy(input.phone) ==> input.phone.Str?)
    && (Truthy(input.code) ==> input.code.Str?)
  }

  /** The string `formatPhoneToE164` receives and returns: a missing phone is
      falsy and maps to ''. */
  function CleanPhone(v: JsValue): string
    requires Truthy(v) ==> v.Str?
  {
    if Truthy(v) then Phone.FormatPhoneToE164(v.s) else ""
  }

  /** The normalised values, one per property of `cleanData`. */
  datatype CleanData = CleanData(fullName: JsValue, phone: JsValue, date: string, time: JsValue,
                                 guests: JsValue, childCount: JsValue, notes: JsValue, code: string,
                                 status: JsValue, salon: JsValue, masa: JsValue, updatedAt: string)

  /** The value of every property of `cleanData`. */
  function Normalise(input: Input, today: string, formatDay: JsValue -> string, now: string): CleanData
    requires StringMethodsApply(input)
  {
    CleanData(
      Or(input.fullName, Str("")),
      Or(Str(CleanPhone(input.phone)), Str("")),
      if Truthy(input.date) then formatDay(input.date) else today,
      Or(input.time, Str("19:00")),
      Or(ParseInt(input.guests), Num(0)),
      if Truthy(input.childCount) then ParseInt(input.childCount) else Num(0),
      Or(input.notes, Str("")),
      if Truthy(input.code) then ToUpper(input.code.s) else "",
      Or(input.status, Str("aktif")),
      Or(input.salon, Str("")),
      Or(input.masa, Str("")),
      now)
  }

  const CleanKeys: seq<string> :=
    ["fullName", "phone", "date", "time", "guests", "childCount", "notes", "code", "status", "salon", "masa", "updatedAt"]

  /** The object literal `cleanData`, in its key order. */
  function Fields(c: CleanData): (o: seq<Field>)
    ensures Keys(o) == CleanKeys
  {
    [ Field("fullName", c.fullName), Field("phone", c.phone), Field("date", Str(c.date)),
      Field("time", c.time), Field("guests", c.guests), Field("childCount", c.childCount),
      Field("notes", c.notes), Field("code", Str(c.code)), Field("status", c.status),
      Field("salon", c.salon), Field("masa", c.masa), Field("updatedAt", Str(c.updatedAt)) ]
  }

  /** No property of the normalised record is undefined: every `||` has a
      defined right operand and the other properties are strings or parse
      results. */
  lemma NormaliseDefinesEveryValue(input: Input, today: string, formatDay: JsValue -> string, now: string)
    requires StringMethodsApply(input)
    ensures var o := Fields(Normalise(input, today, formatDay, now));
      forall k :: 0 <= k < |o| ==> o[k].value != Undefined
  {
    var c := Normalise(input, today, formatDay, now);
    TextValuesDefined(input, today, formatDay, now);
    OtherValuesDefined(input, today, formatDay, now);
    FieldsDefined(c);
  }

  lemma TextValuesDefined(input: Input, today: string, formatDay: JsValue -> string, now: string)
    requires StringMethodsApply(input)
    ensures var c := Normalise(input, today, formatDay, now);
      c.fullName != Undefined && c.phone != Undefined && c.time != Undefined && c.notes != Undefined
  {
  }

  lemma OtherValuesDefined(input: Input, today: string, formatDay: JsValue -> string, now: string)
    requires StringMethodsApply(input)
    ensures var c := Normalise(input, today, formatDay, now);
      && c.guests != Undefined && c.childCount != Undefined
      && c.status != Undefined && c.salon != Undefined && c.masa != Undefined
  {
    var c := Normalise(input, today, formatDay, now);
    assert c.guests == Or(ParseInt(input.guests), Num(0));
    assert c.childCount == if Truthy(input.childCount) then ParseInt(input.childCount) else Num(0);
  }

  lemma FieldsDefined(c: CleanData)
    requires c.fullName != Undefined && c.phone != Undefined && c.time != Undefined
    requires c.guests != Undefined && c.childCount != Undefined && c.notes != Undefined
    requires c.status != Undefined && c.salon != Undefined && c.masa != Undefined
    ensures forall k :: 0 <= k < |Fields(c)| ==> Fields(c)[k].value != Undefined
  {
  }

  /** `cleanReservationData`: build the object, then delete every property
      whose value is undefined; none is, so the object is returned whole. */
  method CleanReservationData(data: map<string, JsValue>, today: string, formatDay: JsValue -> string, now: string)
    returns (cleanData: seq<Field>)
    requires StringMethodsApply(InputOf(data))
    ensures Keys(cleanData) == CleanKeys
    ensures forall k :: 0 <= k < |cleanData| ==> cleanData[k].value != Undefined
    ensures cleanData == Fields(Normalise(InputOf(data), today, formatDay, now))
  {
    cleanData := Fields(Normalise(InputOf(data), today, formatDay, now));
    NormaliseDefinesEveryValue(InputOf(data), today, formatDay, now);
    ghost var built := cleanData;
    var keys := Keys(cleanData);
    var i := 0;
    while i < |keys|
      invariant 0 <= i <= |keys| == |built|
      invariant cleanData == built
    {
      var key := keys[i];
      GetOfDefinedValues(cleanData, key);
      if Get(cleanData, key) == Undefined {
        cleanData := Delete(cleanData, key);
      }
      i := i + 1;
    }
  }

  /** A key that is present reads back as one of the object's values. */
  lemma {:induction false} GetOfDefinedValues(o: seq<Field>, key: string)
    requires key in Keys(o)
    requires forall k :: 0 <= k < |o| ==> o[k].value != Undefined
    ensures Get(o, key) != Undefined
  {
    if o[0].key != key {
      assert key in Keys(o[1..]);
      assert forall k :: 0 <= k < |o[1..]| ==> o[1..][k] == o[k + 1];
      GetOfDefinedValues(o[1..], key);
    }
  }

  /** The defaults of the normaliser: falsy input fields become '' (name,
      phone, notes, code, salon, table), '19:00' (time) or 'aktif' (status);
      a truthy code is upper-cased; a falsy date is today's. */
  lemma NormaliseDefaults(input: Input, today: string, formatDay: JsValue -> string, now: string)
    requires StringMethodsApply(input)
    ensures var c := Normalise(input, today, formatDay, now);
      && (!Truthy(input.fullName) ==> c.fullName == Str(""))
      && (!Truthy(input.phone) ==> c.phone == Str(""))
      && (!Truthy(input.date) ==> c.date == today)
      && (!Truthy(input.time) ==> c.time == Str("19:00"))
      && (!Truthy(input.notes) ==> c.notes == Str(""))
      && (!Truthy(input.code) ==> c.code == "")
      && (!Truthy(input.status) ==> c.status == Str("aktif"))
      && (!Truthy(input.salon) ==> c.salon == Str(""))
      && (!Truthy(input.masa) ==> c.masa == Str(""))
      && (Truthy(input.code) ==> c.code == ToUpper(input.code.s))
      && c.updatedAt == now
  {
  }

  /** Guests is never NaN, and is 0 when the input does not parse; a falsy
      child count is 0 and a truthy one is parsed, so a non-numeric string
      such as "iki" is stored as NaN. */
  lemma NormaliseNumbers(input: Input, today: string, formatDay: JsValue -> string, now: string)
    requires StringMethodsApply(input)
    ensures var c := Normalise(input, today, formatDay, now);
      && c.guests.Num?
      && (ParseInt(input.guests).Num? ==> c.guests == ParseInt(input.guests))
      && (ParseInt(input.guests) == NaN ==> c.guests == Num(0))
      && (!Truthy(input.childCount) ==> c.childCount == Num(0))
      && (Truthy(input.childCount) ==> c.childCount == ParseInt(input.childCount))
      && (input.childCount == Str("iki") ==> c.childCount == NaN)
  {
    var c := Normalise(input, today, formatDay, now);
    if input.childCount == Str("iki") {
      NoDigitsParseToNaN();
    }
  }

  lemma NoDigitsParseToNaN()
    ensures ParseInt(Str("iki")) == NaN
  {
    var s := "iki";
    assert s[0] == 'i';
    NoLeadingDigitIsNaN(s);
  }

  /** Text that starts with a character other than white space, a sign or a
      digit parses to NaN. */
  lemma NoLeadingDigitIsNaN(s: string)
    requires |s| > 0 && !IsJsSpace(s[0]) && !IsDecimalDigit(s[0]) && s[0] != '-' && s[0] != '+'
    ensures ParseIntString(s) == NaN
  {
    assert TrimStart(s) == s;
    assert DigitPrefix(s) == [];
  }

  /** The object `cleanData` as a property map. */
  function AsObject(c: CleanData): map<string, JsValue>
  {
    var o := Fields(c);
    map[ "fullName" := o[0].value, "phone" := o[1].value, "date" := o[2].value, "time" := o[3].value,
         "guests" := o[4].value, "childCount" := o[5].value, "notes" := o[6].value, "code" := o[7].value,
         "status" := o[8].value, "salon" := o[9].value, "masa" := o[10].value, "updatedAt" := o[11].value ]
  }

  /** What the normaliser reads when given its own output. */
  function ReadBack(c: CleanData): (input: Input)
    ensures input == InputOf(AsObject(c))
  {
    Input(c.fullName, c.phone, Str(c.date), c.time, c.guests, c.childCount, c.notes, Str(c.code),
          c.status, c.salon, c.masa)
  }

  /** A `|| d` default applied twice is applied once. */
  lemma OrDefaultIdempotent(v: JsValue, d: JsValue)
    ensures Or(Or(v, d), d) == Or(v, d)
  {
  }

  /** `parseInt(String(n))` is n. */
  lemma ParseIntOfNum(n: int)
    ensures ParseInt(Num(n)) == Num(n)
  {
    ParseIntOfIntToString(n);
  }

  lemma PhoneNormalIdempotent(v: JsValue)
    requires Truthy(v) ==> v.Str?
    ensures var p := Or(Str(CleanPhone(v)), Str(""));
      p.Str? && Or(Str(CleanPhone(p)), Str("")) == p
  {
    if Truthy(v) {
      Phone.FormatIdempotent(v.s);
    }
  }

  lemma CodeNormalIdempotent(v: JsValue)
    requires Truthy(v) ==> v.Str?
    ensures var code := if Truthy(v) then ToUpper(v.s) else "";
      (if Truthy(Str(code)) then ToUpper(code) else "") == code
  {
    if Truthy(v) {
      ToUpperIdempotent(v.s);
    }
  }

  /** Normalising a normalised record changes only the timestamp, as long as
      the record holds a numeric child count and the date formatter, on the
      date it produced, is stable and not empty. */
  lemma NormaliseIsIdempotentUpToTimestamp(input: Input, today: string, formatDay: JsValue -> string,
                                           now1: string, now2: string)
    requires StringMethodsApply(input)
    requires Truthy(input.date) ==> formatDay(input.date) != "" && formatDay(Str(formatDay(input.date))) == formatDay(input.date)
    requires today != "" && formatDay(Str(today)) == today
    requires Normalise(input, today, formatDay, now1).childCount != NaN
    ensures var c1 := Normalise(input, today, formatDay, now1);
      && StringMethodsApply(ReadBack(c1))
      && Normalise(ReadBack(c1), today, formatDay, now2) == c1.(updatedAt := now2)
  {
    var c1 := Normalise(input, today, formatDay, now1);
    PhoneNormalIdempotent(input.phone);
    CodeNormalIdempotent(input.code);
    var r := ReadBack(c1);
    assert StringMethodsApply(r);
    var c2 := Normalise(r, today, formatDay, now2);
    OrDefaultIdempotent(input.fullName, Str(""));
    OrDefaultIdempotent(input.time, Str("19:00"));
    OrDefaultIdempotent(input.notes, Str(""));
    OrDefaultIdempotent(input.status, Str("aktif"));
    OrDefaultIdempotent(input.salon, Str(""));
    OrDefaultIdempotent(input.masa, Str(""));
    GuestsNormalIdempotent(input.guests);
    ChildCountNormalIdempotent(input.childCount);
    DateNormalIdempotent(input.date, today, formatDay);
    assert c2 == c1.(updatedAt := now2);
  }

  /** The guests value reads back as itself. */
  lemma GuestsNormalIdempotent(v: JsValue)
    ensures var g := Or(ParseInt(v), Num(0)); Or(ParseInt(g), Num(0)) == g
  {
    var g := Or(ParseInt(v), Num(0));
    assert g.Num?;
    ParseIntOfNum(g.n);
  }

  /** A child count that is not NaN reads back as itself. */
  lemma ChildCountNormalIdempotent(v: JsValue)
    requires (if Truthy(v) then ParseInt(v) else Num(0)) != NaN
    ensures var c := if Truthy(v) then ParseInt(v) else Num(0);
      (if Truthy(c) then ParseInt(c) else Num(0)) == c
  {
    var c := if Truthy(v) then ParseInt(v) else Num(0);
    assert c.Num?;
    ParseIntOfNum(c.n);
  }

  /** A date the formatter keeps reads back as itself. */
  lemma DateNormalIdempotent(v: JsValue, today: string, formatDay: JsValue -> string)
    requires Truthy(v) ==> formatDay(v) != "" && formatDay(Str(formatDay(v))) == formatDay(v)
    requires today != "" && formatDay(Str(today)) == today
    ensures var d := if Truthy(v) then formatDay(v) else today;
      (if Truthy(Str(d)) then formatDay(Str(d)) else today) == d
  {
  }
}
