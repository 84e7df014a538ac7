/**
 * The change-log viewer: field labels, value rendering and the one-line
 * description of each recorded change. Turkish date rendering
 * (`format(new Date(v), 'dd MMMM yyyy', { locale: tr })`) is a parameter
 * `formatDay`, as is the entry timestamp rendering `formatStamp`.
 */
module HistoryView {
  import opened JsValues
  import opened Types

  /** The ten fields the viewer has a label for. */
  const LabelledFields: seq<string> :=
    ["fullName", "phone", "date", "time", "guests", "childCount", "notes", "status", "salon", "masa"]

  /** `getFieldLabel`: the label of a known field, any other name as it is. */
  function FieldLabel(field: string): (l: string)
    ensures l != "" || field == ""
    ensures field !in LabelledFields ==> l == field
  {
    match field
    case "fullName" => "Ad Soyad"
    case "phone" => "Telefon"
    case "date" => "Tarih"
    case "time" => "Saat"
    case "guests" => "Yetişkin Sayısı"
    case "childCount" => "Çocuk Sayısı"
    case "notes" => "Notlar"
    case "status" => "Durum"
    case "salon" => "Salon"
    case "masa" => "Masa"
    case _ => field
  }

  /** Exactly the labelled fields are renamed. */
  lemma FieldLabelRenamesExactlyTheKnownFields(field: string)
    ensures FieldLabel(field) != field <==> field in LabelledFields
  {
    if field in LabelledFields {
      var k :| 0 <= k < |LabelledFields| && LabelledFields[k] == field;
      assert FieldLabel(field)[0] != field[0] || |FieldLabel(field)| != |field|;
    }
  }

  /** Rendering of a status value: 'aktif' and everything else. */
  function StatusText(v: JsValue): (t: string)
    ensures t == "Aktif" || t == "İptal"
    ensures t == "Aktif" <==> v == Str("aktif")
  {
    if v == Str("aktif") then "Aktif" else "İptal"
  }

  /** `value?.toString() || '-'` */
  function ShownValue(v: JsValue): (t: string)
    ensures t != ""
    ensures (v.Undefined? || v.Null? || v == Str("")) ==> t == "-"
    ensures v.Str? && v.s != "" ==> t == v.s
    ensures v.Num? ==> t == IntToString(v.n)
  {
    if v.Undefined? || v.Null? then "-"
    else if ToJsString(v) == "" then "-"
    else ToJsString(v)
  }

  /** `formatValue` */
  function FormatValue(field: string, value: JsValue, formatDay: JsValue -> string): (t: string)
    ensures field == "date" ==> t == formatDay(value)
    ensures field == "status" ==> t == StatusText(value)
    ensures field != "date" && field != "status" ==> t == ShownValue(value)
  {
    if field == "date" then formatDay(value)
    else if field == "status" then StatusText(value)
    else ShownValue(value)
  }

  /** A rendered value is never empty, apart from what the date formatter returns. */
  lemma FormatValueNeverEmpty(field: string, value: JsValue, formatDay: JsValue -> string)
    requires field != "date"
    ensures FormatValue(field, value, formatDay) != ""
  {
  }

  /** `${v}` in a template literal. */
  function Text(v: JsValue): string
  {
    ToJsString(v)
  }

  /** `getChangeDescription` */
  function ChangeDescription(field: string, oldValue: JsValue, newValue: JsValue, formatDay: JsValue -> string)
    : (d: string)
    ensures field == "status" ==> d == "Durum " + StatusText(oldValue) + " iken " + StatusText(newValue) + " olarak güncellendi"
    ensures field == "salon" || field == "masa" ==>
      (if !Truthy(oldValue) && Truthy(newValue) then d == FieldLabel(field) + " " + Text(newValue) + " olarak atandı"
       else if Truthy(oldValue) && !Truthy(newValue) then d == FieldLabel(field) + " kaldırıldı"
       else d == FieldLabel(field) + " " + Text(oldValue) + " iken " + Text(newValue) + " olarak güncellendi")
  {
    match field
    case "time" => "Saat " + Text(oldValue) + " iken " + Text(newValue) + " olarak güncellendi"
    case "date" => "Tarih " + formatDay(oldValue) + " iken " + formatDay(newValue) + " olarak güncellendi"
    case "guests" => "Yetişkin sayısı " + Text(oldValue) + " iken " + Text(newValue) + " olarak güncellendi"
    case "childCount" =>
      "Çocuk sayısı " + Text(Or(oldValue, Num(0))) + " iken " + Text(Or(newValue, Num(0))) + " olarak güncellendi"
    case "status" => "Durum " + StatusText(oldValue) + " iken " + StatusText(newValue) + " olarak güncellendi"
    case "salon" => TableDescription(field, oldValue, newValue)
    case "masa" => TableDescription(field, oldValue, newValue)
    case _ => FieldLabel(field) + " güncellendi"
  }

  /** The salon and table case: an assignment, a removal or a replacement. */
  function TableDescription(field: string, oldValue: JsValue, newValue: JsValue): string
  {
    if !Truthy(oldValue) && Truthy(newValue) then FieldLabel(field) + " " + Text(newValue) + " olarak atandı"
    else if Truthy(oldValue) && !Truthy(newValue) then FieldLabel(field) + " kaldırıldı"
    else FieldLabel(field) + " " + Text(oldValue) + " iken " + Text(newValue) + " olarak güncellendi"
  }

  /** The fields whose description shows the recorded values. */
  const DescribedFields: seq<string> := ["time", "date", "guests", "childCount", "status", "salon", "masa"]

  /** Any other field is described by its label alone, whatever the values. */
  lemma OtherFieldsIgnoreValues(field: string, a: JsValue, b: JsValue, c: JsValue, d: JsValue,
                                formatDay: JsValue -> string)
    requires field !in DescribedFields
    ensures ChangeDescription(field, a, b, formatDay) == FieldLabel(field) + " güncellendi"
    ensures ChangeDescription(field, a, b, formatDay) == ChangeDescription(field, c, d, formatDay)
  {
    assert field != "time" && field != "date" && field != "guests" && field != "childCount";
    assert field != "status" && field != "salon" && field != "masa";
  }

  /** A falsy child count reads as 0: null, undefined, NaN and 0 itself give
      the same description. */
  lemma ChildCountFalsyIsZero(a: JsValue, b: JsValue, formatDay: JsValue -> string)
    requires !Truthy(a)
    ensures ChangeDescription("childCount", a, b, formatDay) == ChangeDescription("childCount", Num(0), b, formatDay)
    ensures ChangeDescription("childCount", b, a, formatDay) == ChangeDescription("childCount", b, Num(0), formatDay)
  {
  }

  /** Only 'aktif' is told apart among status values: every other value,
      'iptal' included, reads as "İptal". */
  lemma StatusOnlyTellsActive(a: JsValue, b: JsValue, n: JsValue, formatDay: JsValue -> string)
    requires a != Str("aktif") && b != Str("aktif")
    ensures ChangeDescription("status", a, n, formatDay) == ChangeDescription("status", b, n, formatDay)
    ensures ChangeDescription("status", n, a, formatDay) == ChangeDescription("status", n, b, formatDay)
  {
  }

  /** The three salon/table outcomes are told apart by their endings, and
      each description starts with the field's label. */
  lemma TableOutcomesAreDistinct(field: string, oldValue: JsValue, newValue: JsValue, formatDay: JsValue -> string)
    requires field == "salon" || field == "masa"
    ensures var d := ChangeDescription(field, oldValue, newValue, formatDay);
      && StartsWith(d, FieldLabel(field))
      && (EndsWith(d, " atandı") <==> !Truthy(oldValue) && Truthy(newValue))
      && (EndsWith(d, " kaldırıldı") <==> Truthy(oldValue) && !Truthy(newValue))
  {
    var l := FieldLabel(field);
    if !Truthy(oldValue) && Truthy(newValue) {
      var p := l + " " + Text(newValue);
      assert p[..|l|] == l;
      Shape(l, p, " olarak atandı");
    } else if Truthy(oldValue) && !Truthy(newValue) {
      Shape(l, l, " kaldırıldı");
    } else {
      var p := l + " " + Text(oldValue) + " iken " + Text(newValue);
      assert p[..|l|] == l;
      Shape(l, p, " olarak güncellendi");
    }
  }

  /** A description is a part starting with the label, then one of three endings. */
  lemma Shape(l: string, p: string, e: string)
    requires StartsWith(p, l)
    requires e == " olarak atandı" || e == " kaldırıldı" || e == " olarak güncellendi"
    ensures StartsWith(p + e, l)
    ensures EndsWith(p + e, " atandı") <==> e == " olarak atandı"
    ensures EndsWith(p + e, " kaldırıldı") <==> e == " kaldırıldı"
  {
    var d := p + e;
    assert d[..|l|] == p[..|l|];
    assert d[|d| - 1] == e[|e| - 1];
    assert d[|d| - 3] == e[|e| - 3];
    if e == " olarak atandı" {
      assert d[|d| - 7..] == e[|e| - 7..];
    } else if e == " kaldırıldı" {
      assert d[|d| - 11..] == e;
    }
  }

  predicate EndsWith(s: string, suffix: string)
  {
    |suffix| <= |s| && s[|s| - |suffix|..] == suffix
  }

  // ---------------------------------------------------------------- the list

  /** One rendered log entry: its key, timestamp, author and one line per change. */
  datatype EntryView = EntryView(key: string, stamp: string, author: string, lines: seq<string>)

  /** The modal body: the placeholder, or the entries. */
  datatype View = Placeholder(message: string) | Entries(entries: seq<EntryView>)

  const NoHistoryMessage: string := "Henüz değişiklik geçmişi bulunmuyor"

  function Lines(changes: seq<Change>, formatDay: JsValue -> string): (ls: seq<string>)
    ensures |ls| == |changes|
    ensures forall i :: 0 <= i < |changes| ==>
      ls[i] == ChangeDescription(changes[i].field, changes[i].oldValue, changes[i].newValue, formatDay)
  {
    seq(|changes|, i requires 0 <= i < |changes| =>
      ChangeDescription(changes[i].field, changes[i].oldValue, changes[i].newValue, formatDay))
  }

  function RenderEntry(e: HistoryEntry, formatDay: JsValue -> string, formatStamp: string -> string): EntryView
  {
    EntryView(e.id, formatStamp(e.timestamp), e.updatedBy, Lines(e.changes, formatDay))
  }

  /** The modal's list; a missing log defaults to the empty one. */
  function RenderHistory(history: Option<seq<HistoryEntry>>, formatDay: JsValue -> string,
                         formatStamp: string -> string): (v: View)
    ensures (history.None? || history.value == []) <==> v == Placeholder(NoHistoryMessage)
    ensures v.Entries? ==> |v.entries| == |history.value|
    ensures v.Entries? ==> forall i :: 0 <= i < |history.value| ==>
      v.entries[i] == RenderEntry(history.value[i], formatDay, formatStamp)
  {
    var h := if history.Some? then history.value else [];
    if |h| == 0 then Placeholder(NoHistoryMessage)
    else Entries(seq(|h|, i requires 0 <= i < |h| => RenderEntry(h[i], formatDay, formatStamp)))
  }

  /** Appending an entry to the log appends its view and keeps the others:
      entries render in stored order. */
  lemma RenderAppend(h: seq<HistoryEntry>, e: HistoryEntry, formatDay: JsValue -> string,
                     formatStamp: string -> string)
    ensures var v := RenderHistory(Some(h + [e]), formatDay, formatStamp);
      && v.Entries?
      && v.entries[|h|] == RenderEntry(e, formatDay, formatStamp)
      && (h != [] ==> v.entries[..|h|] == RenderHistory(Some(h), formatDay, formatStamp).entries)
  {
    var v := RenderHistory(Some(h + [e]), formatDay, formatStamp);
    assert (h + [e])[|h|] == e;
    if h != [] {
      var w := RenderHistory(Some(h), formatDay, formatStamp);
      assert forall i :: 0 <= i < |h| ==> (h + [e])[i] == h[i];
      assert v.entries[..|h|] == w.entries;
    }
  }
}
