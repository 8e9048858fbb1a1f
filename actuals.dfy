// The actuals page (src/pages/Actuals.tsx): realised monthly capital costs,
// at most one per (resource, project, month) cell, entered against the
// forecast of the month before.

module Actuals {
  import opened Wrappers
  import Seqs
  import opened Calendar
  import opened OrderedMaps
  import opened Model
  import opened Forecasts

  /** The composite key of an actual: resource, project and month. */
  datatype Cell = Cell(resourceId: string, projectPvNumber: string, month: MonthKey)

  function CellOf(a: Actual): Cell {
    Cell(a.resourceId, a.projectPvNumber, a.month)
  }

  /** Actual ids are unique. */
  ghost predicate ActualIdsUnique(xs: seq<Actual>) {
    forall i, j :: 0 <= i < j < |xs| ==> xs[i].id != xs[j].id
  }

  /** At most one actual per (resource, project, month) cell. */
  ghost predicate CellsUnique(xs: seq<Actual>) {
    forall i, j :: 0 <= i < j < |xs| ==> CellOf(xs[i]) != CellOf(xs[j])
  }

  ghost predicate CostsNonNegative(xs: seq<Actual>) {
    forall a :: a in xs ==> a.capitalCost >= 0.0
  }

  /** `actuals.find(...)` on the composite key. */
  function FindActual(xs: seq<Actual>, c: Cell): (r: Option<Actual>)
    ensures r.Some? ==> r.value in xs && CellOf(r.value) == c
    ensures r.None? <==> forall a :: a in xs ==> CellOf(a) != c
  {
    Seqs.Find(xs, (a: Actual) => CellOf(a) == c)
  }

  /** `getActualValue`: the cost recorded for a cell, or `None`. */
  function GetActualValue(xs: seq<Actual>, c: Cell): (v: Option<real>)
    ensures v.None? <==> forall a :: a in xs ==> CellOf(a) != c
    ensures v.Some? ==> exists a :: a in xs && CellOf(a) == c && a.capitalCost == v.value
  {
    var found := FindActual(xs, c);
    if found.Some? then Some(found.value.capitalCost) else None
  }

  /** With one actual per cell, the lookup finds the cell's own actual. */
  lemma FindActualAt(xs: seq<Actual>, i: int)
    requires CellsUnique(xs) && 0 <= i < |xs|
    ensures FindActual(xs, CellOf(xs[i])) == Some(xs[i])
    ensures GetActualValue(xs, CellOf(xs[i])) == Some(xs[i].capitalCost)
  {
    var p := (a: Actual) => CellOf(a) == CellOf(xs[i]);
    assert xs[i] in xs && p(xs[i]);
    var r := Seqs.Find(xs, p);
    var j :| 0 <= j < |xs| && xs[j] == r.value && forall k :: 0 <= k < j ==> !p(xs[k]);
    assert p(xs[j]);
    assert j == i;
  }

  /** Every actual carrying `id` gets the new cost; nothing else changes. */
  function WithCost(xs: seq<Actual>, id: string, cost: real): (r: seq<Actual>)
    ensures |r| == |xs|
    ensures forall i :: 0 <= i < |xs| ==> CellOf(r[i]) == CellOf(xs[i]) && r[i].id == xs[i].id
    ensures forall i :: 0 <= i < |xs| && xs[i].id != id ==> r[i] == xs[i]
    ensures forall i :: 0 <= i < |xs| && xs[i].id == id ==> r[i].capitalCost == cost
  {
    seq(|xs|, i requires 0 <= i < |xs| => if xs[i].id == id then xs[i].(capitalCost := cost) else xs[i])
  }

  /** `handleActualChange`: the collection after writing `value` into cell `c`.
      `None` deletes the cell's actual (a no-op when there is none); a number
      replaces the cost of the existing actual, or appends a new actual with
      id `newId` (the page's `crypto.randomUUID()`). */
  function Changed(xs: seq<Actual>, c: Cell, value: Option<real>, newId: string): seq<Actual> {
    var existing := FindActual(xs, c);
    match value
    case None =>
      if existing.Some? then Seqs.Filter(xs, (a: Actual) => a.id != existing.value.id) else xs
    case Some(v) =>
      if existing.Some? then WithCost(xs, existing.value.id, v)
      else xs + [Actual(newId, c.resourceId, c.projectPvNumber, c.month, v)]
  }

  /** The invariant of the collection survives every write, provided the id
      handed in for a new actual is fresh. */
  lemma ChangedKeepsInvariant(xs: seq<Actual>, c: Cell, value: Option<real>, newId: string)
    requires ActualIdsUnique(xs) && CellsUnique(xs)
    requires forall a :: a in xs ==> a.id != newId
    ensures ActualIdsUnique(Changed(xs, c, value, newId)) && CellsUnique(Changed(xs, c, value, newId))
    ensures CostsNonNegative(xs) && (value.Some? ==> value.value >= 0.0) ==>
      CostsNonNegative(Changed(xs, c, value, newId))
  {
    var existing := FindActual(xs, c);
    var r := Changed(xs, c, value, newId);
    if value.None? && existing.Some? {
      var keep := (a: Actual) => a.id != existing.value.id;
      Seqs.FilterKeepsDistinct(xs, keep, (a: Actual) => a.id);
      Seqs.FilterKeepsDistinct(xs, keep, CellOf);
    } else if value.Some? && existing.None? {
      forall i, j | 0 <= i < j < |r| ensures r[i].id != r[j].id && CellOf(r[i]) != CellOf(r[j]) {
        if j == |xs| {
          assert r[i] in xs;
        }
      }
    } else if value.Some? && existing.Some? {
      forall a | a in r && CostsNonNegative(xs) && value.value >= 0.0 ensures a.capitalCost >= 0.0 {
        var i :| 0 <= i < |r| && r[i] == a;
        assert xs[i] in xs;
      }
    }
  }

  /** Read after write: the cell now holds exactly the value written, and
      `None` leaves no actual for the cell. */
  lemma ChangedReadsBack(xs: seq<Actual>, c: Cell, value: Option<real>, newId: string)
    requires ActualIdsUnique(xs) && CellsUnique(xs)
    requires forall a :: a in xs ==> a.id != newId
    ensures GetActualValue(Changed(xs, c, value, newId), c) == value
  {
    var existing := FindActual(xs, c);
    var r := Changed(xs, c, value, newId);
    ChangedKeepsInvariant(xs, c, value, newId);
    if value.None? && existing.Some? {
      forall a | a in r ensures CellOf(a) != c {
        var i :| 0 <= i < |xs| && xs[i] == a;
        var k :| 0 <= k < |xs| && xs[k] == existing.value;
        assert i != k;
      }
    } else if value.Some? && existing.Some? {
      var k :| 0 <= k < |xs| && xs[k] == existing.value;
      FindActualAt(r, k);
    } else if value.Some? && existing.None? {
      FindActualAt(r, |xs|);
    }
  }

  /** Dropping the actuals with `id` leaves every cell they do not occupy
      reading as before. */
  lemma RemovalLeavesOtherCells(xs: seq<Actual>, id: string, other: Cell)
    requires CellsUnique(xs)
    requires forall a :: a in xs && a.id == id ==> CellOf(a) != other
    ensures GetActualValue(Seqs.Filter(xs, (a: Actual) => a.id != id), other) == GetActualValue(xs, other)
  {
    var keep := (a: Actual) => a.id != id;
    var r := Seqs.Filter(xs, keep);
    Seqs.FilterKeepsDistinct(xs, keep, CellOf);
    if GetActualValue(xs, other).Some? {
      var a :| a in xs && CellOf(a) == other;
      var i :| 0 <= i < |xs| && xs[i] == a;
      FindActualAt(xs, i);
      assert a in r;
      var j :| 0 <= j < |r| && r[j] == a;
      FindActualAt(r, j);
    }
  }

  /** Re-costing the actuals with `id` leaves every cell they do not occupy
      reading as before. */
  lemma RecostLeavesOtherCells(xs: seq<Actual>, id: string, cost: real, other: Cell)
    requires CellsUnique(xs)
    requires forall a :: a in xs && a.id == id ==> CellOf(a) != other
    ensures GetActualValue(WithCost(xs, id, cost), other) == GetActualValue(xs, other)
  {
    var r := WithCost(xs, id, cost);
    assert CellsUnique(r);
    if GetActualValue(xs, other).Some? {
      var a :| a in xs && CellOf(a) == other;
      var i :| 0 <= i < |xs| && xs[i] == a;
      FindActualAt(xs, i);
      FindActualAt(r, i);
    } else {
      forall b | b in r ensures CellOf(b) != other {
        var i :| 0 <= i < |r| && r[i] == b;
        assert xs[i] in xs;
      }
    }
  }

  /** Appending an actual for another cell leaves `other` reading as before. */
  lemma AppendLeavesOtherCells(xs: seq<Actual>, b: Actual, other: Cell)
    requires CellsUnique(xs) && CellsUnique(xs + [b]) && CellOf(b) != other
    ensures GetActualValue(xs + [b], other) == GetActualValue(xs, other)
  {
    var r := xs + [b];
    if GetActualValue(xs, other).Some? {
      var a :| a in xs && CellOf(a) == other;
      var i :| 0 <= i < |xs| && xs[i] == a;
      FindActualAt(xs, i);
      FindActualAt(r, i);
    }
  }

  /** A write to one cell leaves the value of every other cell as it was. */
  lemma ChangedLeavesOtherCells(xs: seq<Actual>, c: Cell, value: Option<real>, newId: string, other: Cell)
    requires ActualIdsUnique(xs) && CellsUnique(xs)
    requires forall a :: a in xs ==> a.id != newId
    requires other != c
    ensures GetActualValue(Changed(xs, c, value, newId), other) == GetActualValue(xs, other)
  {
    var existing := FindActual(xs, c);
    if existing.Some? {
      var e := existing.value;
      var k :| 0 <= k < |xs| && xs[k] == e;
      forall a | a in xs && a.id == e.id ensures CellOf(a) != other {
        var i :| 0 <= i < |xs| && xs[i] == a;
        assert i == k;
      }
      if value.None? {
        RemovalLeavesOtherCells(xs, e.id, other);
      } else {
        RecostLeavesOtherCells(xs, e.id, value.value, other);
      }
    } else if value.Some? {
      ChangedKeepsInvariant(xs, c, value, newId);
      AppendLeavesOtherCells(xs, Actual(newId, c.resourceId, c.projectPvNumber, c.month, value.value), other);
    }
  }

  /** Writing a cell twice leaves one actual for it, with the latest cost and
      the id it received on the first write. */
  lemma UpsertTwiceKeepsIdentity(xs: seq<Actual>, c: Cell, v1: real, v2: real, id1: string, id2: string)
    requires ActualIdsUnique(xs) && CellsUnique(xs)
    requires forall a :: a in xs ==> a.id != id1
    requires id2 != id1 && forall a :: a in xs ==> a.id != id2
    ensures var once := Changed(xs, c, Some(v1), id1);
            var twice := Changed(once, c, Some(v2), id2);
            && CellsUnique(twice)
            && FindActual(once, c).Some?
            && FindActual(twice, c) == Some(FindActual(once, c).value.(capitalCost := v2))
  {
    var once := Changed(xs, c, Some(v1), id1);
    ChangedKeepsInvariant(xs, c, Some(v1), id1);
    assert forall a :: a in once ==> a.id != id2 by {
      forall a | a in once ensures a.id != id2 {
        if FindActual(xs, c).Some? {
          var i :| 0 <= i < |once| && once[i] == a;
          assert xs[i] in xs;
        }
      }
    }
    ChangedKeepsInvariant(once, c, Some(v2), id2);
    ChangedReadsBack(xs, c, Some(v1), id1);
    var e := FindActual(once, c).value;
    var k :| 0 <= k < |once| && once[k] == e;
    var twice := Changed(once, c, Some(v2), id2);
    assert twice[k] == e.(capitalCost := v2);
    FindActualAt(twice, k);
  }

  /** `hasForecastForMonth`: the pair's first forecast exists and allocates
      more than 0 percent in that month; a zero or absent allocation gives
      false. */
  function HasForecastForMonth(fs: seq<Forecast>, resourceId: string, projectPvNumber: string, month: MonthKey): (b: bool)
    ensures b ==> exists f :: f in fs && f.resourceId == resourceId && f.projectPvNumber == projectPvNumber &&
                              Get(f.allocations, month).Some? && Get(f.allocations, month).value > 0.0
    ensures (forall f :: f in fs && f.resourceId == resourceId && f.projectPvNumber == projectPvNumber ==>
               Get(f.allocations, month).None? || Get(f.allocations, month).value <= 0.0) ==> !b
  {
    var forecast := FindForecast(fs, resourceId, projectPvNumber);
    if forecast.None? then false
    else
      var allocation := Get(forecast.value.allocations, month);
      allocation.Some? && allocation.value > 0.0
  }

  /** With one forecast per pair the test is exact: true if and only if the
      pair's forecast allocates a positive percentage in that month. */
  lemma HasForecastExactly(fs: seq<Forecast>, resourceId: string, projectPvNumber: string, month: MonthKey)
    requires PairsUnique(fs)
    ensures HasForecastForMonth(fs, resourceId, projectPvNumber, month) <==>
      exists f :: f in fs && f.resourceId == resourceId && f.projectPvNumber == projectPvNumber &&
                  Get(f.allocations, month).Some? && Get(f.allocations, month).value > 0.0
  {
    if f :| f in fs && f.resourceId == resourceId && f.projectPvNumber == projectPvNumber &&
            Get(f.allocations, month).Some? && Get(f.allocations, month).value > 0.0 {
      var i :| 0 <= i < |fs| && fs[i] == f;
      FindForecastUnique(fs, i);
    }
  }

  /** An actual cell for `actualMonth` is rendered as an input only when the
      forecast of the month before allocates a positive percentage. */
  predicate CellEditable(fs: seq<Forecast>, resourceId: string, projectPvNumber: string, actualMonth: MonthKey)
    requires Valid(actualMonth)
  {
    HasForecastForMonth(fs, resourceId, projectPvNumber, PreviousMonth(actualMonth))
  }

  /** January's actuals answer to December of the year before. */
  lemma JanuaryCellReadsDecember(fs: seq<Forecast>, resourceId: string, projectPvNumber: string, year: int)
    ensures CellEditable(fs, resourceId, projectPvNumber, MonthKey(year, 1)) ==
            HasForecastForMonth(fs, resourceId, projectPvNumber, MonthKey(year - 1, 12))
  {
  }

  /** What the user typed into an actual cell: nothing, or text that
      `parseFloat` turned into a number (`None` for NaN). */
  datatype CellInput = Empty | Typed(parsed: Option<real>)

  /** The cell's `onChange` rule: the write it asks for, if any. Empty input
      asks to delete (`Some(None)`); a number of 0 or more asks to store it;
      a negative or unparsable entry asks for nothing (`None`). */
  function InputToWrite(input: CellInput): (w: Option<Option<real>>)
    ensures input.Empty? <==> w == Some(None)
    ensures w.Some? && w.value.Some? ==> w.value.value >= 0.0 && input == Typed(Some(w.value.value))
    ensures input.Typed? && input.parsed.Some? && input.parsed.value >= 0.0 ==> w == Some(input.parsed)
  {
    match input
    case Empty => Some(None)
    case Typed(parsed) =>
      if parsed.Some? && parsed.value >= 0.0 then Some(parsed) else None
  }

  /** One row of the actuals table. */
  datatype Combo = Combo(resourceId: string, projectPvNumber: string)

  function ComboOf(f: Forecast): Combo {
    Combo(f.resourceId, f.projectPvNumber)
  }

  /** The page's row key: `${resourceId}-${projectPvNumber}`. */
  function StringKey(c: Combo): string {
    c.resourceId + "-" + c.projectPvNumber
  }

  /** The pair itself as the key. */
  function PairKey(c: Combo): Combo {
    c
  }

  /** The `Map` that the loop in `getUniqueResourceProjectCombos` builds over
      the forecasts, keyed by `key`: each forecast sets its key to its pair. */
  function RowTable<K(==,!new)>(fs: seq<Forecast>, key: Combo -> K): (t: OrderedMap<K, Combo>)
    decreases |fs|
  {
    if |fs| == 0 then []
    else Put(RowTable(fs[..|fs| - 1], key), key(ComboOf(fs[|fs| - 1])), ComboOf(fs[|fs| - 1]))
  }

  /** The rows: the values of that map, in first-seen key order. */
  function Rows<K(==,!new)>(fs: seq<Forecast>, key: Combo -> K): seq<Combo> {
    Values(RowTable(fs, key))
  }

  /** The table never holds a key twice. */
  lemma {:induction false} RowTableKeysDistinct<K(!new)>(fs: seq<Forecast>, key: Combo -> K)
    ensures KeysDistinct(RowTable(fs, key))
    decreases |fs|
  {
    if |fs| > 0 {
      var last := fs[|fs| - 1];
      RowTableKeysDistinct(fs[..|fs| - 1], key);
      PutKeysDistinct(RowTable(fs[..|fs| - 1], key), key(ComboOf(last)), ComboOf(last));
    }
  }

  /** Every forecast's key is in the table, and every key in the table maps
      to the pair of a forecast carrying that key. */
  lemma {:induction false} RowTableLookup<K(!new)>(fs: seq<Forecast>, key: Combo -> K)
    ensures forall f :: f in fs ==> Get(RowTable(fs, key), key(ComboOf(f))).Some?
    ensures forall k :: Get(RowTable(fs, key), k).Some? ==>
      exists f :: f in fs && key(ComboOf(f)) == k && Get(RowTable(fs, key), k).value == ComboOf(f)
    decreases |fs|
  {
    if |fs| > 0 {
      var prefix := fs[..|fs| - 1];
      var last := fs[|fs| - 1];
      assert fs == prefix + [last];
      RowTableLookup(prefix, key);
      var t := RowTable(fs, key);
      forall f | f in fs ensures Get(t, key(ComboOf(f))).Some? {
        if f != last {
          assert f in prefix;
        }
      }
      forall k | Get(t, k).Some?
        ensures exists f :: f in fs && key(ComboOf(f)) == k && Get(t, k).value == ComboOf(f)
      {
        if k == key(ComboOf(last)) {
          assert last in fs;
        } else {
          var f :| f in prefix && key(ComboOf(f)) == k && Get(RowTable(prefix, key), k).value == ComboOf(f);
          assert f in fs;
        }
      }
    }
  }

  /** The rows come only from forecasts, and the key of every forecast labels
      exactly one row. */
  lemma RowsByKey<K(!new)>(fs: seq<Forecast>, key: Combo -> K)
    ensures forall c :: c in Rows(fs, key) ==> exists f :: f in fs && c == ComboOf(f)
    ensures forall i, j :: 0 <= i < j < |Rows(fs, key)| ==> key(Rows(fs, key)[i]) != key(Rows(fs, key)[j])
    ensures forall f :: f in fs ==> exists i :: 0 <= i < |Rows(fs, key)| && key(Rows(fs, key)[i]) == key(ComboOf(f))
  {
    RowTableKeysDistinct(fs, key);
    RowTableLookup(fs, key);
    var t := RowTable(fs, key);
    var rows := Rows(fs, key);
    forall i | 0 <= i < |t| ensures key(rows[i]) == t[i].key {
      GetEntry(t, i);
    }
    forall f | f in fs ensures exists i :: 0 <= i < |rows| && key(rows[i]) == key(ComboOf(f)) {
      var g := Get(t, key(ComboOf(f)));
      var i :| 0 <= i < |t| && t[i] == Entry(key(ComboOf(f)), g.value);
      assert key(rows[i]) == t[i].key;
    }
    forall c | c in rows ensures exists f :: f in fs && c == ComboOf(f) {
      var i :| 0 <= i < |rows| && rows[i] == c;
      GetEntry(t, i);
    }
  }

  /** `getUniqueResourceProjectCombos`: one pass over the forecasts that sets
      each forecast's key in a `Map`, then the map's values. */
  method UniqueCombos<K(==,!new)>(fs: seq<Forecast>, key: Combo -> K) returns (rows: seq<Combo>)
    ensures rows == Rows(fs, key)
  {
    var combos: OrderedMap<K, Combo> := [];
    var i := 0;
    while i < |fs|
      invariant 0 <= i <= |fs|
      invariant combos == RowTable(fs[..i], key)
    {
      assert fs[..i + 1][..i] == fs[..i];
      combos := Put(combos, key(ComboOf(fs[i])), ComboOf(fs[i]));
      i := i + 1;
    }
    assert fs[..|fs|] == fs;
    rows := Values(combos);
  }

  /** The rows as the page builds them, keyed by the joined string. */
  function WrittenRows(fs: seq<Forecast>): seq<Combo> {
    Rows(fs, StringKey)
  }

  /** Two forecasts with different pairs whose joined keys coincide: the
      string-keyed rows drop the first pair, so its actuals have no row. */
  lemma StringKeysCollide()
    ensures var fs := [Forecast("f1", "a-b", "c", []), Forecast("f2", "a", "b-c", [])];
            && ComboOf(fs[0]) != ComboOf(fs[1])
            && WrittenRows(fs) == [Combo("a", "b-c")]
            && Combo("a-b", "c") !in WrittenRows(fs)
  {
    var fs := [Forecast("f1", "a-b", "c", []), Forecast("f2", "a", "b-c", [])];
    assert StringKey(ComboOf(fs[0])) == StringKey(ComboOf(fs[1]));
    assert fs[..1] == [fs[0]];
    assert fs[..1][..0] == [];
    assert StringKey(ComboOf(fs[0])) == "a-b-c";
    assert RowTable(fs[..1], StringKey) == [Entry("a-b-c", Combo("a-b", "c"))];
    assert RowTable(fs, StringKey) == [Entry("a-b-c", Combo("a", "b-c"))];
  }

  /** The rows keyed by the pair itself, as the row key evidently intends. */
  function PairRows(fs: seq<Forecast>): seq<Combo> {
    Rows(fs, PairKey)
  }

  /** Keyed by the pair, the rows are exactly the forecasts' pairs, each once. */
  lemma PairRowsExact(fs: seq<Forecast>)
    ensures forall c :: c in PairRows(fs) <==> exists f :: f in fs && c == ComboOf(f)
    ensures forall i, j :: 0 <= i < j < |PairRows(fs)| ==> PairRows(fs)[i] != PairRows(fs)[j]
  {
    RowsByKey(fs, PairKey);
    var rows := PairRows(fs);
    forall f | f in fs ensures ComboOf(f) in rows {
      var i :| 0 <= i < |rows| && PairKey(rows[i]) == PairKey(ComboOf(f));
    }
  }

  /** The Actuals page's own state: the actuals it edits, and the forecasts
      and year it only reads. */
  class ActualsPage {
    var actuals: seq<Actual>
    const forecasts: seq<Forecast>
    const selectedYear: int

    constructor (actuals: seq<Actual>, forecasts: seq<Forecast>, selectedYear: int)
      ensures this.actuals == actuals && this.forecasts == forecasts && this.selectedYear == selectedYear
    {
      this.actuals := actuals;
      this.forecasts := forecasts;
      this.selectedYear := selectedYear;
    }

    /** `handleActualChange`, with `newId` standing for `crypto.randomUUID()`. */
    method HandleActualChange(resourceId: string, projectPvNumber: string, month: MonthKey, value: Option<real>, newId: string)
      requires forall a :: a in actuals ==> a.id != newId
      modifies this
      ensures actuals == Changed(old(actuals), Cell(resourceId, projectPvNumber, month), value, newId)
      ensures ActualIdsUnique(old(actuals)) && CellsUnique(old(actuals)) ==>
        && ActualIdsUnique(actuals) && CellsUnique(actuals)
        && GetActualValue(actuals, Cell(resourceId, projectPvNumber, month)) == value
    {
      var c := Cell(resourceId, projectPvNumber, month);
      if ActualIdsUnique(actuals) && CellsUnique(actuals) {
        ChangedKeepsInvariant(actuals, c, value, newId);
        ChangedReadsBack(actuals, c, value, newId);
      }
      var existing := FindActual(actuals, c);
      if value.None? {
        if existing.Some? {
          actuals := Seqs.Filter(actuals, (a: Actual) => a.id != existing.value.id);
        }
        return;
      }
      if existing.Some? {
        actuals := WithCost(actuals, existing.value.id, value.value);
      } else {
        actuals := actuals + [Actual(newId, resourceId, projectPvNumber, month, value.value)];
      }
    }

    /** The `onChange` of an actual cell. The cell exists only in a row of the
        table, in a column of the selected year, and when the month before
        carries a positive allocation. */
    method EditCell(combo: Combo, actualMonth: MonthKey, input: CellInput, newId: string)
      requires combo in PairRows(forecasts)
      requires actualMonth in MonthsOfYear(selectedYear)
      requires CellEditable(forecasts, combo.resourceId, combo.projectPvNumber, actualMonth)
      requires forall a :: a in actuals ==> a.id != newId
      modifies this
      ensures InputToWrite(input).None? ==> actuals == old(actuals)
      ensures InputToWrite(input).Some? ==>
        actuals == Changed(old(actuals), Cell(combo.resourceId, combo.projectPvNumber, actualMonth), InputToWrite(input).value, newId)
      ensures ActualIdsUnique(old(actuals)) && CellsUnique(old(actuals)) && CostsNonNegative(old(actuals)) ==>
        ActualIdsUnique(actuals) && CellsUnique(actuals) && CostsNonNegative(actuals)
    {
      var write := InputToWrite(input);
      if write.Some? {
        if ActualIdsUnique(actuals) && CellsUnique(actuals) {
          ChangedKeepsInvariant(actuals, Cell(combo.resourceId, combo.projectPvNumber, actualMonth), write.value, newId);
        }
        HandleActualChange(combo.resourceId, combo.projectPvNumber, actualMonth, write.value, newId);
      }
    }
  }
}
