/**
 * The salon occupancy dialog: the static salon catalog, the per-table
 * occupancy grid built from the day's active reservations, and table
 * selection. The Firestore query (`date == date`, `status == 'aktif'`) is
 * an input snapshot.
 */
module SalonAvailability {
  import opened JsValues
  import opened Types
  import Clock

  /** A salon of the catalog and its number of tables. */
  datatype Salon = Salon(id: string, name: string, tables: nat)

  /** `SALONLAR` */
  const Salons: seq<Salon> := [
    Salon("avlu", "Avlu Salon", 50),
    Salon("sehrekustu", "Şehreküstü Salon", 50),
    Salon("eblehan-vip", "Eblehan VIP Salon", 1),
    Salon("galaalti-vip", "Galaaltı VIP Salon", 1),
    Salon("yazicik", "Yazıcık Salon", 50)
  ]

  /** The catalog's salon names are distinct. */
  lemma SalonNamesDistinct(i: nat, j: nat)
    requires i < j < |Salons|
    ensures Salons[i].name != Salons[j].name
  {
  }

  /** The reservation a reserved table shows. */
  datatype TableReservation = TableReservation(fullName: string, phone: string, time: string, guests: int,
                                               childCount: JsValue)

  datatype TableState = Free | Reserved(reservation: TableReservation)

  type Grid = map<string, map<string, TableState>>

  /** `Masa ${i}` */
  function TableKey(i: nat): (k: string)
    ensures |k| > 5 && k[..5] == "Masa "
  {
    "Masa " + IntToString(i)
  }

  lemma TableKeyInjective(i: nat, j: nat)
    requires TableKey(i) == TableKey(j)
    ensures i == j
  {
    assert TableKey(i)[5..] == IntToString(i);
    assert TableKey(j)[5..] == IntToString(j);
    ParseIntOfIntToString(i);
    ParseIntOfIntToString(j);
  }

  /** Tables 1 to n, all free. */
  function FreeTables(n: nat): map<string, TableState>
  {
    if n == 0 then map[] else FreeTables(n - 1)[TableKey(n) := Free]
  }

  /** Before marking, a salon of n tables has exactly the keys "Masa 1" to
      "Masa n", n of them, each free. */
  lemma FreeTablesShape(n: nat)
    ensures forall k :: k in FreeTables(n) <==> exists i :: 1 <= i <= n && k == TableKey(i)
    ensures forall k :: k in FreeTables(n) ==> FreeTables(n)[k] == Free
    ensures |FreeTables(n)| == n
  {
    FreeTablesKeys(n);
    FreeTablesFree(n);
    FreeTablesSize(n);
  }

  lemma {:induction false} FreeTablesKeys(n: nat)
    ensures forall k :: k in FreeTables(n) <==> exists i :: 1 <= i <= n && k == TableKey(i)
  {
    if n > 0 {
      FreeTablesKeys(n - 1);
      forall k ensures k in FreeTables(n) <==> exists i :: 1 <= i <= n && k == TableKey(i) {
        if k == TableKey(n) {
          assert 1 <= n <= n && k == TableKey(n);
        } else if exists i :: 1 <= i <= n && k == TableKey(i) {
          var i :| 1 <= i <= n && k == TableKey(i);
          assert 1 <= i <= n - 1;
        }
      }
    }
  }

  lemma {:induction false} FreeTablesFree(n: nat)
    ensures forall k :: k in FreeTables(n) ==> FreeTables(n)[k] == Free
  {
    if n > 0 {
      FreeTablesFree(n - 1);
    }
  }

  /** A table numbered beyond n is not among tables 1 to n. */
  lemma {:induction false} KeyAbsentBeyond(n: nat, m: nat)
    requires m > n
    ensures TableKey(m) !in FreeTables(n)
  {
    if n > 0 {
      KeyAbsentBeyond(n - 1, m);
      if TableKey(m) == TableKey(n) {
        TableKeyInjective(m, n);
      }
    }
  }

  lemma {:induction false} FreeTablesSize(n: nat)
    ensures |FreeTables(n)| == n
  {
    if n > 0 {
      FreeTablesSize(n - 1);
      KeyAbsentBeyond(n - 1, n);
    }
  }

  /** The grid of the first k salons of a catalog, every table free. */
  function GridOf(catalog: seq<Salon>, k: nat): Grid
    requires k <= |catalog|
  {
    if k == 0 then map[] else GridOf(catalog, k - 1)[catalog[k - 1].name := FreeTables(catalog[k - 1].tables)]
  }

  /** The grid of the first k salons, every table free. */
  function InitialGrid(k: nat): Grid
    requires k <= |Salons|
  {
    GridOf(Salons, k)
  }

  /** The initial grid has exactly the catalog's salons, each with its own
      free tables. */
  lemma InitialGridShape(k: nat)
    requires k <= |Salons|
    ensures forall s :: s in InitialGrid(k) <==> exists j :: 0 <= j < k && s == Salons[j].name
    ensures forall j :: 0 <= j < k ==> InitialGrid(k)[Salons[j].name] == FreeTables(Salons[j].tables)
  {
    forall i, j | 0 <= i < j < |Salons| ensures Salons[i].name != Salons[j].name {
      SalonNamesDistinct(i, j);
    }
    GridOfKeys(Salons, k);
    GridOfValues(Salons, k);
  }

  predicate DistinctNames(catalog: seq<Salon>)
  {
    forall i, j :: 0 <= i < j < |catalog| ==> catalog[i].name != catalog[j].name
  }

  lemma {:induction false} GridOfKeys(catalog: seq<Salon>, k: nat)
    requires k <= |catalog|
    ensures forall s :: s in GridOf(catalog, k) <==> exists j :: 0 <= j < k && s == catalog[j].name
  {
    if k > 0 {
      GridOfKeys(catalog, k - 1);
      forall s ensures s in GridOf(catalog, k) <==> exists j :: 0 <= j < k && s == catalog[j].name {
        if s == catalog[k - 1].name {
          assert 0 <= k - 1 < k && s == catalog[k - 1].name;
        } else if exists j :: 0 <= j < k && s == catalog[j].name {
          var j :| 0 <= j < k && s == catalog[j].name;
          assert j < k - 1;
        }
      }
    }
  }

  lemma {:induction false} GridOfValues(catalog: seq<Salon>, k: nat)
    requires k <= |catalog| && DistinctNames(catalog)
    ensures forall j :: 0 <= j < k ==> catalog[j].name in GridOf(catalog, k)
    ensures forall j :: 0 <= j < k ==> GridOf(catalog, k)[catalog[j].name] == FreeTables(catalog[j].tables)
  {
    if k > 0 {
      GridOfValues(catalog, k - 1);
    }
  }

  /** The catalog: five salons with 50, 50, 1, 1 and 50 tables. */
  lemma CatalogTableCounts()
    ensures |Salons| == 5
    ensures forall j :: 0 <= j < 5 ==> InitialGrid(5)[Salons[j].name] == FreeTables(Salons[j].tables)
    ensures |FreeTables(Salons[0].tables)| == 50 && |FreeTables(Salons[1].tables)| == 50
    ensures |FreeTables(Salons[2].tables)| == 1 && |FreeTables(Salons[3].tables)| == 1
    ensures |FreeTables(Salons[4].tables)| == 50
  {
    InitialGridShape(5);
    FreeTablesShape(50);
    FreeTablesShape(1);
  }

  /** `isTimeInRange`: `t >= start && t <= end` on strings. */
  predicate InRange(t: string, start: string, end: string)
  {
    LexLessEq(start, t) && LexLessEq(t, end)
  }

  /** Both ends are in the range; on "HH:mm" strings the range is the
      clock interval [start, end]. */
  lemma InRangeIsInclusive(t: string, start: string, end: string)
    ensures InRange(t, start, end) <==> (t == start || LexLess(start, t)) && (t == end || LexLess(t, end))
    ensures Clock.IsHHmm(t) && Clock.IsHHmm(start) && Clock.IsHHmm(end) ==>
      (InRange(t, start, end) <==> Clock.Minutes(start) <= Clock.Minutes(t) <= Clock.Minutes(end))
  {
    LexLessEqIsLessOrEqual(start, t);
    LexLessEqIsLessOrEqual(t, end);
    if Clock.IsHHmm(t) && Clock.IsHHmm(start) && Clock.IsHHmm(end) {
      Clock.LexLessEqIsClockOrder(start, t);
      Clock.LexLessEqIsClockOrder(t, end);
    }
  }

  /** A reservation marks its table when salon and table are both set and
      its time is in the range. */
  predicate Marks(d: Reservation, start: string, end: string)
  {
    && d.salon.Some? && d.salon.value != ""
    && d.masa.Some? && d.masa.value != ""
    && InRange(d.time, start, end)
  }

  function Info(d: Reservation): TableReservation
  {
    TableReservation(d.fullName, d.phone, d.time, d.guests, d.childCount)
  }

  /** The marking pass, in query order; `None` when a marking reservation
      names a salon the grid does not have (the assignment throws). */
  function MarkAll(g: Grid, docs: seq<Reservation>, start: string, end: string): Option<Grid>
    decreases |docs|
  {
    if docs == [] then Some(g)
    else
      var d := docs[0];
      if Marks(d, start, end) then
        if d.salon.value in g then
          MarkAll(g[d.salon.value := g[d.salon.value][d.masa.value := Reserved(Info(d))]], docs[1..], start, end)
        else None
      else MarkAll(g, docs[1..], start, end)
  }

  /** `tableStatus[salon]?.[masa]` */
  function Lookup(g: Grid, salon: string, masa: string): Option<TableState>
  {
    if salon in g && masa in g[salon] then Some(g[salon][masa]) else None
  }

  /** The last reservation in query order that marks the given table. */
  function LastMark(docs: seq<Reservation>, salon: string, masa: string, start: string, end: string)
    : Option<Reservation>
    decreases |docs|
  {
    if docs == [] then None
    else
      var later := LastMark(docs[1..], salon, masa, start, end);
      if later.Some? then later
      else if MarksTable(docs[0], salon, masa, start, end) then Some(docs[0])
      else None
  }

  predicate MarksTable(d: Reservation, salon: string, masa: string, start: string, end: string)
  {
    Marks(d, start, end) && d.salon.value == salon && d.masa.value == masa
  }

  /** `LastMark` is the marking reservation after which no other one marks
      the same table, and there is none exactly when no reservation marks it. */
  lemma {:induction false} LastMarkIsLast(docs: seq<Reservation>, salon: string, masa: string, start: string, end: string)
    ensures LastMark(docs, salon, masa, start, end).None? <==>
      forall i :: 0 <= i < |docs| ==> !MarksTable(docs[i], salon, masa, start, end)
    ensures LastMark(docs, salon, masa, start, end).Some? ==>
      exists i :: (0 <= i < |docs|
                   && docs[i] == LastMark(docs, salon, masa, start, end).value
                   && MarksTable(docs[i], salon, masa, start, end)
                   && forall j :: i < j < |docs| ==> !MarksTable(docs[j], salon, masa, start, end))
    decreases |docs|
  {
    if docs != [] {
      var rest := docs[1..];
      LastMarkIsLast(rest, salon, masa, start, end);
      assert forall i :: 0 <= i < |rest| ==> rest[i] == docs[i + 1];
      var later := LastMark(rest, salon, masa, start, end);
      if later.Some? {
        var i :| 0 <= i < |rest| && rest[i] == later.value && MarksTable(rest[i], salon, masa, start, end)
          && forall j :: i < j < |rest| ==> !MarksTable(rest[j], salon, masa, start, end);
        assert docs[i + 1] == later.value;
        assert forall j :: i + 1 < j < |docs| ==> docs[j] == rest[j - 1];
      } else if MarksTable(docs[0], salon, masa, start, end) {
        assert forall j :: 0 < j < |docs| ==> docs[j] == rest[j - 1];
      } else {
        forall i | 0 <= i < |docs| ensures !MarksTable(docs[i], salon, masa, start, end) {
          if i > 0 { assert docs[i] == rest[i - 1]; }
        }
      }
    }
  }

  /** After a successful pass the grid has the same salons, and a table
      holds the last reservation marking it, or its old state when none does:
      a later reservation for the same table overwrites an earlier one. */
  lemma {:induction false} MarkAllResult(g: Grid, docs: seq<Reservation>, start: string, end: string,
                                         salon: string, masa: string)
    requires MarkAll(g, docs, start, end).Some?
    ensures MarkAll(g, docs, start, end).value.Keys == g.Keys
    ensures var l := LastMark(docs, salon, masa, start, end);
      Lookup(MarkAll(g, docs, start, end).value, salon, masa) ==
        if l.Some? then Some(Reserved(Info(l.value))) else Lookup(g, salon, masa)
    decreases |docs|
  {
    if docs != [] {
      var d := docs[0];
      if Marks(d, start, end) {
        var g1 := g[d.salon.value := g[d.salon.value][d.masa.value := Reserved(Info(d))]];
        MarkAllResult(g1, docs[1..], start, end, salon, masa);
      } else {
        MarkAllResult(g, docs[1..], start, end, salon, masa);
      }
    }
  }

  /** The pass fails exactly when some marking reservation names a salon
      outside the grid. */
  lemma {:induction false} MarkAllFailure(g: Grid, docs: seq<Reservation>, start: string, end: string)
    ensures MarkAll(g, docs, start, end).None? <==>
      exists i :: 0 <= i < |docs| && Marks(docs[i], start, end) && docs[i].salon.value !in g
    decreases |docs|
  {
    if docs != [] {
      var d := docs[0];
      var rest := docs[1..];
      assert forall i :: 0 < i < |docs| ==> docs[i] == rest[i - 1];
      if Marks(d, start, end) && d.salon.value !in g {
        assert Marks(docs[0], start, end) && docs[0].salon.value !in g;
      } else {
        var g1 := if Marks(d, start, end) then g[d.salon.value := g[d.salon.value][d.masa.value := Reserved(Info(d))]] else g;
        assert g1.Keys == g.Keys;
        MarkAllFailure(g1, rest, start, end);
        if exists i :: 0 <= i < |docs| && Marks(docs[i], start, end) && docs[i].salon.value !in g {
          var i :| 0 <= i < |docs| && Marks(docs[i], start, end) && docs[i].salon.value !in g;
          assert i > 0 && rest[i - 1] == docs[i];
        }
      }
    }
  }

  /** What the query returns. */
  datatype Snapshot = QueryFailed | Docs(docs: seq<Reservation>)

  /** The grid a fetch stores, or `None` when it keeps the old one. */
  function FetchedGrid(snapshot: Snapshot, start: string, end: string): Option<Grid>
  {
    if snapshot.QueryFailed? then None else MarkAll(InitialGrid(|Salons|), snapshot.docs, start, end)
  }

  /** The outer loop of `fetchTableStatus`: every salon of the catalog, in
      order, with all its tables free. */
  method BuildGrid(catalog: seq<Salon>) returns (grid: Grid)
    ensures grid == GridOf(catalog, |catalog|)
  {
    grid := map[];
    var k := 0;
    while k < |catalog|
      invariant 0 <= k <= |catalog|
      invariant grid == GridOf(catalog, k)
    {
      var salon := catalog[k];
      var tables := BuildFreeTables(salon.tables);
      grid := grid[salon.name := tables];
      k := k + 1;
    }
  }

  /** The inner loop: tables 1 to n, each free. */
  method BuildFreeTables(n: nat) returns (tables: map<string, TableState>)
    ensures tables == FreeTables(n)
  {
    tables := map[];
    var i := 1;
    while i <= n
      invariant 1 <= i <= n + 1
      invariant tables == FreeTables(i - 1)
    {
      tables := tables[TableKey(i) := Free];
      i := i + 1;
    }
  }

  /** The `forEach` over the documents; `None` when the assignment to an
      unknown salon throws. */
  method MarkReservations(g: Grid, docs: seq<Reservation>, start: string, end: string) returns (r: Option<Grid>)
    ensures r == MarkAll(g, docs, start, end)
  {
    var grid := g;
    var j := 0;
    while j < |docs|
      invariant 0 <= j <= |docs|
      invariant MarkAll(grid, docs[j..], start, end) == MarkAll(g, docs, start, end)
    {
      var d := docs[j];
      MarkStep(grid, docs, j, start, end);
      if d.salon.Some? && d.salon.value != "" && d.masa.Some? && d.masa.value != ""
        && InRange(d.time, start, end)
      {
        if d.salon.value !in grid {
          return None;
        }
        grid := grid[d.salon.value := grid[d.salon.value][d.masa.value := Reserved(Info(d))]];
      }
      j := j + 1;
    }
    assert docs[j..] == [];
    return Some(grid);
  }

  /** The pass from document j on is one step, then the pass from j + 1. */
  lemma MarkStep(g: Grid, docs: seq<Reservation>, j: nat, start: string, end: string)
    requires j < |docs|
    ensures var d := docs[j];
      MarkAll(g, docs[j..], start, end) ==
        if Marks(d, start, end) then
          if d.salon.value in g then
            MarkAll(g[d.salon.value := g[d.salon.value][d.masa.value := Reserved(Info(d))]], docs[j + 1..], start, end)
          else None
        else MarkAll(g, docs[j + 1..], start, end)
  {
    assert docs[j..][0] == docs[j] && docs[j..][1..] == docs[j + 1..];
  }

  /** The table the user picked, with the reservation it shows. */
  datatype Selection = Selection(salon: string, masa: string, reservation: TableReservation)

  class SalonAvailabilityModal {
    var date: string
    var startTime: string
    var endTime: string
    var loading: bool
    var tableStatus: Grid
    var selectedTable: Option<Selection>

    constructor(today: string)
      ensures date == today && startTime == "06:00" && endTime == "22:00"
      ensures !loading && tableStatus == map[] && selectedTable == None
    {
      date, startTime, endTime := today, "06:00", "22:00";
      loading, tableStatus, selectedTable := false, map[], None;
    }

    /** `fetchTableStatus`: build the free grid, mark the reservations in
        query order, store it; a failed query or an unknown salon leaves the
        stored grid as it was. */
    method FetchTableStatus(snapshot: Snapshot)
      modifies this
      ensures var fetched := FetchedGrid(snapshot, old(startTime), old(endTime));
        tableStatus == if fetched.Some? then fetched.value else old(tableStatus)
      ensures !loading
      ensures date == old(date) && startTime == old(startTime) && endTime == old(endTime)
      ensures selectedTable == old(selectedTable)
    {
      loading := true;
      if snapshot.QueryFailed? {
        loading := false;
        return;
      }
      var newTableStatus := BuildGrid(Salons);
      var marked := MarkReservations(newTableStatus, snapshot.docs, startTime, endTime);
      if marked.None? {
        loading := false;
        return;
      }
      tableStatus := marked.value;
      loading := false;
    }

    /** `handleTableClick`: only a reserved table is selected. */
    method HandleTableClick(salon: string, masa: string)
      modifies this
      ensures var s := Lookup(old(tableStatus), salon, masa);
        selectedTable == if s.Some? && s.value.Reserved? then Some(Selection(salon, masa, s.value.reservation))
                         else old(selectedTable)
      ensures tableStatus == old(tableStatus) && loading == old(loading)
      ensures date == old(date) && startTime == old(startTime) && endTime == old(endTime)
    {
      var status := Lookup(tableStatus, salon, masa);
      if status.Some? && status.value.Reserved? {
        selectedTable := Some(Selection(salon, masa, status.value.reservation));
      }
    }
  }
}
