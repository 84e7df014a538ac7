/**
 * The spreadsheet export: the fifteen column headers, one row per
 * reservation, the date-then-time ordering of the listing, and the values
 * written below the headers. Rendering a stored timestamp as
 * 'dd.MM.yyyy HH:mm:ss' is a parameter `formatStamp`.
 */
module Sheets {
  import opened JsValues
  import opened Types

  const Headers: seq<string> := [
    "Rezervasyon Kodu", "Müşteri Adı", "Telefon", "Tarih", "Saat", "Yetişkin Sayısı", "Çocuk Sayısı",
    "Toplam Misafir", "Salon", "Masa", "Durum", "Notlar", "Oluşturulma Tarihi", "Son Güncelleme", "Güncelleyen"]

  /** The cleared range `A:O`: its first and last column letters. */
  const FirstColumn: char := 'A'
  const LastColumn: char := 'O'

  /** The header row fills the cleared range exactly, one column per letter. */
  lemma HeadersFillTheRange()
    ensures |Headers| == LastColumn as int - FirstColumn as int + 1 == 15
  {
  }

  /** `value || ''` for an optional string property. */
  function TextOrEmpty(v: Option<string>): (t: string)
    ensures v.None? ==> t == ""
    ensures v.Some? ==> t == v.value
  {
    if v.Some? && v.value != "" then v.value else ""
  }

  /** `(childCount || 0).toString()`: a falsy count prints as "0". */
  function ChildCell(childCount: JsValue): (t: string)
    ensures !Truthy(childCount) ==> t == "0"
    ensures childCount.Num? ==> t == IntToString(childCount.n)
  {
    ToJsString(Or(childCount, Num(0)))
  }

  /** `(guests + (childCount || 0)).toString()`. JavaScript's `+` adds a
      number or a boolean to the guests and concatenates a string onto them. */
  function TotalCell(guests: int, childCount: JsValue): (t: string)
    ensures !Truthy(childCount) ==> t == IntToString(guests)
    ensures childCount.Num? ==> t == IntToString(guests + childCount.n)
  {
    match Or(childCount, Num(0))
    case Num(n) => IntToString(guests + n)
    case Bool(b) => IntToString(guests + (if b then 1 else 0))
    case Str(s) => IntToString(guests) + s
    case _ => IntToString(guests)
  }

  /** `formatReservationForSheets`: one cell per header. */
  function FormatRow(r: Reservation, formatStamp: string -> string): (row: seq<string>)
    ensures |row| == 15
  {
    [ r.code, r.fullName, r.phone, r.date, r.time, IntToString(r.guests),
      ChildCell(r.childCount), TotalCell(r.guests, r.childCount),
      TextOrEmpty(r.salon), TextOrEmpty(r.masa), StatusName(r.status), TextOrEmpty(r.notes),
      formatStamp(r.createdAt), formatStamp(r.updatedAt), TextOrEmpty(r.updatedBy) ]
  }

  /** Each cell sits under its header: the code, name, phone, date and time
      columns copy the reservation. */
  lemma RowCells(r: Reservation, formatStamp: string -> string)
    ensures var row := FormatRow(r, formatStamp);
      && Headers[0] == "Rezervasyon Kodu" && row[0] == r.code
      && Headers[1] == "Müşteri Adı" && row[1] == r.fullName
      && Headers[2] == "Telefon" && row[2] == r.phone
      && Headers[3] == "Tarih" && row[3] == r.date
      && Headers[4] == "Saat" && row[4] == r.time
  {
  }

  /** The adult, child and total columns, under their headers. */
  lemma RowCounts(r: Reservation, formatStamp: string -> string)
    ensures var row := FormatRow(r, formatStamp);
      && Headers[5] == "Yetişkin Sayısı" && row[5] == IntToString(r.guests)
      && Headers[6] == "Çocuk Sayısı" && row[6] == ChildCell(r.childCount)
      && Headers[7] == "Toplam Misafir" && row[7] == TotalCell(r.guests, r.childCount)
  {
  }

  /** The salon, table, status, notes, timestamp and author columns, under
      their headers. */
  lemma RowCellsRest(r: Reservation, formatStamp: string -> string)
    ensures var row := FormatRow(r, formatStamp);
      && Headers[8] == "Salon" && row[8] == TextOrEmpty(r.salon)
      && Headers[9] == "Masa" && row[9] == TextOrEmpty(r.masa)
      && Headers[10] == "Durum" && row[10] == StatusName(r.status)
      && Headers[11] == "Notlar" && row[11] == TextOrEmpty(r.notes)
      && Headers[12] == "Oluşturulma Tarihi" && row[12] == formatStamp(r.createdAt)
      && Headers[13] == "Son Güncelleme" && row[13] == formatStamp(r.updatedAt)
      && Headers[14] == "Güncelleyen" && row[14] == TextOrEmpty(r.updatedBy)
  {
  }

  /** For a numeric or missing child count, the adult, child and total
      cells are the numerals of the guests, the children (0 when missing)
      and their sum; each numeral reads back as its number
      (`JsValues.ParseIntOfIntToString`). */
  lemma TotalIsAdultsPlusChildren(r: Reservation, formatStamp: string -> string)
    requires r.childCount.Num? || !Truthy(r.childCount)
    ensures var row := FormatRow(r, formatStamp);
      var c := if r.childCount.Num? then r.childCount.n else 0;
      && row[5] == IntToString(r.guests)
      && row[6] == IntToString(c)
      && row[7] == IntToString(r.guests + c)
  {
    RowCounts(r, formatStamp);
    if !r.childCount.Num? {
      assert IntToString(0) == "0";
    }
  }

  /** Missing optional properties print as empty cells, never as
      "undefined" or "null". */
  lemma MissingPropertiesAreEmpty(r: Reservation, formatStamp: string -> string)
    requires r.salon.None? && r.masa.None? && r.notes.None? && r.updatedBy.None?
    ensures var row := FormatRow(r, formatStamp);
      row[8] == row[9] == row[11] == row[14] == ""
  {
    RowCellsRest(r, formatStamp);
  }

  // ---------------------------------------------------------- the ordering

  /** The sort comparator returns at most 0: the date decides, then the time. */
  predicate InOrder(a: Reservation, b: Reservation)
  {
    LexLess(a.date, b.date) || (a.date == b.date && LexLessEq(a.time, b.time))
  }

  predicate SortedByDateTime(s: seq<Reservation>)
  {
    forall i, j :: 0 <= i < j < |s| ==> InOrder(s[i], s[j])
  }

  /** The comparator is total: of two reservations, one may precede the other. */
  lemma InOrderTotal(a: Reservation, b: Reservation)
    ensures InOrder(a, b) || InOrder(b, a)
  {
    LexLessTrichotomy(a.date, b.date);
    LexLessTrichotomy(a.time, b.time);
  }

  lemma InOrderTransitive(a: Reservation, b: Reservation, c: Reservation)
    requires InOrder(a, b) && InOrder(b, c)
    ensures InOrder(a, c)
  {
    LexLessEqIsLessOrEqual(a.time, b.time);
    LexLessEqIsLessOrEqual(b.time, c.time);
    LexLessEqIsLessOrEqual(a.time, c.time);
    if LexLess(a.date, b.date) && LexLess(b.date, c.date) {
      LexLessTransitive(a.date, b.date, c.date);
    }
    if LexLess(a.time, b.time) && LexLess(b.time, c.time) {
      LexLessTransitive(a.time, b.time, c.time);
    }
  }

  /** In a sorted listing the dates never decrease, and on one day the
      times never decrease. */
  lemma SortedMeansDateThenTime(s: seq<Reservation>, i: int, j: int)
    requires SortedByDateTime(s) && 0 <= i < j < |s|
    ensures LexLessEq(s[i].date, s[j].date)
    ensures s[i].date == s[j].date ==> LexLessEq(s[i].time, s[j].time)
  {
    assert InOrder(s[i], s[j]);
    LexLessTrichotomy(s[i].date, s[j].date);
    if LexLess(s[i].date, s[j].date) {
      LexLessIrreflexive(s[i].date);
    }
  }

  /** A stable insertion: `x` goes behind every element of `p` that does not
      come strictly after it under the comparator. */
  function InsertLast(p: seq<Reservation>, x: Reservation): (r: seq<Reservation>)
    ensures |r| == |p| + 1
    decreases |p|
  {
    if |p| == 0 then [x]
    else if InOrder(p[|p| - 1], x) then p + [x]
    else InsertLast(p[..|p| - 1], x) + [p[|p| - 1]]
  }

  /** The listing a stable sort by the comparator produces: each document in
      turn is inserted behind every earlier one that is not after it, so
      documents the comparator ties keep their snapshot order. */
  function SortedListing(s: seq<Reservation>): (r: seq<Reservation>)
    ensures |r| == |s|
    decreases |s|
  {
    if |s| == 0 then [] else InsertLast(SortedListing(s[..|s| - 1]), s[|s| - 1])
  }

  lemma {:induction false} InsertLastPermutes(p: seq<Reservation>, x: Reservation)
    ensures multiset(InsertLast(p, x)) == multiset(p) + multiset{x}
    decreases |p|
  {
    if |p| > 0 && !InOrder(p[|p| - 1], x) {
      var q := p[..|p| - 1];
      InsertLastPermutes(q, x);
      assert p == q + [p[|p| - 1]];
    }
  }

  lemma {:induction false} InsertLastSorted(p: seq<Reservation>, x: Reservation)
    requires SortedByDateTime(p)
    ensures SortedByDateTime(InsertLast(p, x))
    decreases |p|
  {
    if |p| == 0 {
    } else if InOrder(p[|p| - 1], x) {
      var r := p + [x];
      forall i, j | 0 <= i < j < |r| ensures InOrder(r[i], r[j]) {
        if j == |p| && i < |p| - 1 {
          InOrderTransitive(p[i], p[|p| - 1], x);
        }
      }
    } else {
      var q, last := p[..|p| - 1], p[|p| - 1];
      assert SortedByDateTime(q) by {
        forall i, j | 0 <= i < j < |q| ensures InOrder(q[i], q[j]) {
          assert q[i] == p[i] && q[j] == p[j];
        }
      }
      InsertLastSorted(q, x);
      InsertLastPermutes(q, x);
      InOrderTotal(last, x);
      var m := InsertLast(q, x);
      forall k | 0 <= k < |m| ensures InOrder(m[k], last) {
        assert m[k] in multiset(q) + multiset{x};
        if m[k] != x {
          var i :| 0 <= i < |q| && q[i] == m[k];
          assert InOrder(p[i], p[|p| - 1]);
        }
      }
    }
  }

  /** The stable listing is sorted by date then time. */
  lemma {:induction false} SortedListingSorted(s: seq<Reservation>)
    ensures SortedByDateTime(SortedListing(s))
    decreases |s|
  {
    if |s| > 0 {
      SortedListingSorted(s[..|s| - 1]);
      InsertLastSorted(SortedListing(s[..|s| - 1]), s[|s| - 1]);
    }
  }

  /** The stable listing holds exactly the documents of the snapshot. */
  lemma {:induction false} SortedListingPermutes(s: seq<Reservation>)
    ensures multiset(SortedListing(s)) == multiset(s)
    decreases |s|
  {
    if |s| > 0 {
      var q, last := s[..|s| - 1], s[|s| - 1];
      SortedListingPermutes(q);
      InsertLastPermutes(SortedListing(q), last);
      SnocMultiset(s);
    }
  }

  lemma SnocMultiset(s: seq<Reservation>)
    requires |s| > 0
    ensures multiset(s) == multiset(s[..|s| - 1]) + multiset{s[|s| - 1]}
  {
    assert s == s[..|s| - 1] + [s[|s| - 1]];
  }

  /** Stability: a listing already in order, ties included, is left exactly
      as it is. */
  lemma {:induction false} SortedListingOfSorted(s: seq<Reservation>)
    requires SortedByDateTime(s)
    ensures SortedListing(s) == s
    decreases |s|
  {
    if |s| > 0 {
      var q := s[..|s| - 1];
      assert SortedByDateTime(q) by {
        forall i, j | 0 <= i < j < |q| ensures InOrder(q[i], q[j]) {
          assert q[i] == s[i] && q[j] == s[j];
        }
      }
      SortedListingOfSorted(q);
      if |q| > 0 {
        assert InOrder(s[|s| - 2], s[|s| - 1]);
      }
      assert s == q + [s[|s| - 1]];
    }
  }

  /** `reservations.sort(...)`, in place: an insertion sort by adjacent swaps,
      which yields the stable listing. */
  method SortByDateTime(a: array<Reservation>)
    modifies a
    ensures a[..] == SortedListing(old(a[..]))
    ensures SortedByDateTime(a[..]) && multiset(a[..]) == multiset(old(a[..]))
  {
    ghost var s := a[..];
    var i := 0;
    while i < a.Length
      invariant 0 <= i <= a.Length
      invariant a[..i] == SortedListing(s[..i])
      invariant a[i..] == s[i..]
    {
      assert a[i] == a[i..][0];
      assert s[..i + 1][..i] == s[..i];
      Insert(a, i);
      assert a[i + 1..] == s[i + 1..];
      i := i + 1;
    }
    assert a[..] == a[..i] && s == s[..i];
    SortedListingSorted(s);
    SortedListingPermutes(s);
  }

  /** One pass of the insertion sort: `a[i]` moves down past every element
      that comes strictly after it. */
  method Insert(a: array<Reservation>, i: int)
    requires 0 <= i < a.Length
    modifies a
    ensures a[..i + 1] == InsertLast(old(a[..i]), old(a[i]))
    ensures a[i + 1..] == old(a[i + 1..])
  {
    ghost var p, x := a[..i], a[i];
    var j := i;
    while j > 0 && !InOrder(a[j - 1], a[j])
      invariant 0 <= j <= i
      invariant a[j] == x
      invariant InsertLast(p, x) == InsertLast(a[..j], x) + a[j + 1..i + 1]
      invariant a[i + 1..] == old(a[i + 1..])
    {
      ghost var before := a[..];
      a[j - 1], a[j] := a[j], a[j - 1];
      SwapStep(before, a[..], i, j, x);
      j := j - 1;
    }
    InsertDone(a[..], i, j, x);
  }

  /** Moving `x` from `j` down to `j - 1` keeps the insertion's outcome. */
  lemma SwapStep(b: seq<Reservation>, c: seq<Reservation>, i: int, j: int, x: Reservation)
    requires 0 < j <= i < |b| == |c| && b[j] == x && !InOrder(b[j - 1], x)
    requires c == b[j - 1 := b[j]][j := b[j - 1]]
    ensures InsertLast(b[..j], x) + b[j + 1..i + 1] == InsertLast(c[..j - 1], x) + c[j..i + 1]
  {
    assert b[..j][..j - 1] == b[..j - 1] == c[..j - 1];
    assert c[j..i + 1] == [b[j - 1]] + b[j + 1..i + 1];
  }

  /** When the inner loop stops, the first `i + 1` cells are the insertion. */
  lemma InsertDone(c: seq<Reservation>, i: int, j: int, x: Reservation)
    requires 0 <= j <= i < |c| && c[j] == x
    requires j == 0 || InOrder(c[j - 1], x)
    ensures InsertLast(c[..j], x) + c[j + 1..i + 1] == c[..i + 1]
  {
    assert c[..i + 1] == c[..j] + [x] + c[j + 1..i + 1];
  }

  // ---------------------------------------------------------- the values

  /** The values `updateSheet` writes: the header row, then one row per
      reservation in the given order. */
  function SheetValues(rs: seq<Reservation>, formatStamp: string -> string): (v: seq<seq<string>>)
    ensures |v| == |rs| + 1 && v[0] == Headers
    ensures forall i :: 0 <= i < |rs| ==> v[i + 1] == FormatRow(rs[i], formatStamp)
    ensures forall i :: 0 <= i < |v| ==> |v[i]| == 15
  {
    var rows := Rows(rs, formatStamp);
    assert forall i :: 0 <= i < |rows| ==> ([Headers] + rows)[i + 1] == rows[i];
    [Headers] + rows
  }

  function Rows(rs: seq<Reservation>, formatStamp: string -> string): (rows: seq<seq<string>>)
    ensures |rows| == |rs|
    ensures forall i :: 0 <= i < |rs| ==> rows[i] == FormatRow(rs[i], formatStamp) && |rows[i]| == 15
  {
    seq(|rs|, i requires 0 <= i < |rs| => FormatRow(rs[i], formatStamp))
  }

  /** The rows below the headers are those of the reservations, one each:
      reading the code column back gives the codes in order. */
  lemma SheetRowsKeepCodes(rs: seq<Reservation>, formatStamp: string -> string)
    ensures var v := SheetValues(rs, formatStamp);
      forall i :: 1 <= i < |v| ==> v[i][0] == rs[i - 1].code
  {
    var v := SheetValues(rs, formatStamp);
    forall i | 1 <= i < |v| ensures v[i][0] == rs[i - 1].code {
      assert v[(i - 1) + 1] == FormatRow(rs[i - 1], formatStamp);
      RowCells(rs[i - 1], formatStamp);
    }
  }

  /** One snapshot of the collection: the documents sorted in place, then the
      values written. */
  method SyncValues(docs: seq<Reservation>, formatStamp: string -> string)
    returns (sorted: seq<Reservation>, values: seq<seq<string>>)
    ensures sorted == SortedListing(docs)
    ensures SortedByDateTime(sorted) && multiset(sorted) == multiset(docs)
    ensures values == SheetValues(sorted, formatStamp)
  {
    var a := new Reservation[|docs|](i requires 0 <= i < |docs| => docs[i]);
    assert a[..] == docs;
    SortByDateTime(a);
    sorted := a[..];
    values := SheetValues(sorted, formatStamp);
  }
}
