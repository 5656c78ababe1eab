/** Migration 0074: seven quantity columns widened to NUMERIC(18, 6) and two unit columns added; the way back
    refuses or loses nothing. */
module QuantityMigration {
  import opened Common

  datatype Table = StockEntries | ProjectEntries | OrderEntries | Lots | Parts

  datatype Column =
    | QuantityDelta | ProjectQuantity | QuantityOrdered | QuantityReceived
    | PurchaseQuantity | LowStockReportQuantity | AttritionMinQuantity

  const TABLES: seq<Table> := [StockEntries, ProjectEntries, OrderEntries, Lots, Parts]

  const WIDENED: seq<Column> :=
    [QuantityDelta, ProjectQuantity, QuantityOrdered, QuantityReceived,
     PurchaseQuantity, LowStockReportQuantity, AttritionMinQuantity]

  const UNIT_TABLES: seq<Table> := [Parts, StockEntries]

  function TableOf(c: Column): Table {
    match c
    case QuantityDelta => StockEntries
    case ProjectQuantity => ProjectEntries
    case QuantityOrdered => OrderEntries
    case QuantityReceived => OrderEntries
    case PurchaseQuantity => Lots
    case LowStockReportQuantity => Parts
    case AttritionMinQuantity => Parts
  }

  /** A stored NUMERIC(18, 6): a count of millionths, or NaN, which the type also admits. */
  datatype Numeric = NaN | Millionths(m: int)

  const SCALE := 1000000
  const NUMERIC_LIMIT := 1000000000000000000
  const INT32_MIN := -2147483648
  const INT32_MAX := 2147483647

  const DEFAULT_UNIT := "pcs"

  predicate FitsNumeric(n: Numeric) { n.Millionths? ==> -NUMERIC_LIMIT < n.m < NUMERIC_LIMIT }

  predicate FitsInt4(i: int) { INT32_MIN <= i <= INT32_MAX }

  /** Column contents row by row; `None` is NULL. */
  datatype NarrowDb = NarrowDb(cells: map<Column, seq<Option<int>>>)

  datatype WideDb = WideDb(cells: map<Column, seq<Option<Numeric>>>, units: map<Table, seq<string>>)

  datatype Refusal = UnitStamped(table: Table) | Fractional(column: Column) | OutOfRange(column: Column)

  ghost predicate AllColumns<V>(cells: map<Column, V>) { forall c: Column :: c in cells }

  ghost predicate NarrowSchema(db: NarrowDb) {
    && AllColumns(db.cells)
    && (forall c: Column, x <- db.cells[c] :: x.Some? ==> FitsInt4(x.value))
  }

  /** Rows of a table, counted in one of its columns. */
  function RowCount<V>(cells: map<Column, seq<V>>, t: Table): nat {
    var c := match t
      case StockEntries => QuantityDelta
      case ProjectEntries => ProjectQuantity
      case OrderEntries => QuantityOrdered
      case Lots => PurchaseQuantity
      case Parts => LowStockReportQuantity;
    if c in cells then |cells[c]| else 0
  }

  ghost predicate WideSchema(db: WideDb) {
    && AllColumns(db.cells)
    && db.units.Keys == {Parts, StockEntries}
    && (forall t <- db.units :: |db.units[t]| == RowCount(db.cells, t))
    && (forall c: Column, x <- db.cells[c] :: x.Some? ==> FitsNumeric(x.value))
  }

  // ---------------------------------------------------------------------------
  // Casts
  // ---------------------------------------------------------------------------

  function Widen(x: Option<int>): Option<Numeric> {
    if x.None? then None else Some(Millionths(x.value * SCALE))
  }

  /** `numeric -> integer`: to the nearest, halves away from zero. */
  function RoundToInt(m: int): int {
    if m >= 0 then (m + SCALE / 2) / SCALE else -((-m + SCALE / 2) / SCALE)
  }

  /** `trunc`, in millionths. */
  function Trunc(m: int): int {
    if m >= 0 then m / SCALE * SCALE else -((-m) / SCALE * SCALE)
  }

  /** NaN equals itself, so `x <> trunc(x)` is false of it. */
  predicate IsFractional(x: Option<Numeric>) {
    x.Some? && x.value.Millionths? && x.value.m != Trunc(x.value.m)
  }

  /** NaN sorts above every number, so `x > 2147483647` is true of it. */
  predicate IsOutOfRange(x: Option<Numeric>) {
    x.Some? && (x.value.NaN? || x.value.m > INT32_MAX * SCALE || x.value.m < INT32_MIN * SCALE)
  }

  /** The cast a guarded cell goes through. */
  function Narrow(x: Option<Numeric>): Option<int> {
    if x.None? || x.value.NaN? then None else Some(RoundToInt(x.value.m))
  }

  lemma NarrowIsExactIff(x: Option<Numeric>)
    ensures !IsFractional(x) && !IsOutOfRange(x) <==>
            Widen(Narrow(x)) == x && (x.Some? ==> FitsInt4(Narrow(x).value))
  {
    if x.Some? && x.value.Millionths? && x.value.m < 0 {
      assert x.value.m == -(-x.value.m);
    }
  }

  lemma WidenFits(x: Option<int>)
    requires x.Some? ==> FitsInt4(x.value)
    ensures Narrow(Widen(x)) == x
    ensures !IsFractional(Widen(x)) && !IsOutOfRange(Widen(x))
    ensures x.Some? ==> FitsNumeric(Widen(x).value)
  {
  }

  // ---------------------------------------------------------------------------
  // What the two directions compute
  // ---------------------------------------------------------------------------

  function WidenAll(xs: seq<Option<int>>): (out: seq<Option<Numeric>>)
    ensures |out| == |xs| && forall i :: 0 <= i < |xs| ==> out[i] == Widen(xs[i])
  {
    seq(|xs|, i requires 0 <= i < |xs| => Widen(xs[i]))
  }

  function NarrowAll(xs: seq<Option<Numeric>>): (out: seq<Option<int>>)
    ensures |out| == |xs| && forall i :: 0 <= i < |xs| ==> out[i] == Narrow(xs[i])
  {
    seq(|xs|, i requires 0 <= i < |xs| => Narrow(xs[i]))
  }

  function Repeat(unit: string, n: nat): (out: seq<string>)
    ensures |out| == n && forall i :: 0 <= i < n ==> out[i] == unit
  {
    seq(n, i => unit)
  }

  function Upgrade(db: NarrowDb): WideDb {
    WideDb(map c | c in db.cells :: WidenAll(db.cells[c]),
           map t | t in {Parts, StockEntries} :: Repeat(DEFAULT_UNIT, RowCount(db.cells, t)))
  }

  predicate Stamped(units: seq<string>) { exists u <- units :: u != DEFAULT_UNIT }

  predicate AnyFractional(xs: seq<Option<Numeric>>) { exists x <- xs :: IsFractional(x) }

  predicate AnyOutOfRange(xs: seq<Option<Numeric>>) { exists x <- xs :: IsOutOfRange(x) }

  /** The guards, in the order they run. */
  function FirstStamped(units: map<Table, seq<string>>, tables: seq<Table>): Option<Refusal> {
    if tables == [] then None
    else if tables[0] in units && Stamped(units[tables[0]]) then Some(UnitStamped(tables[0]))
    else FirstStamped(units, tables[1..])
  }

  function FirstUnfit(cells: map<Column, seq<Option<Numeric>>>, columns: seq<Column>): Option<Refusal> {
    if columns == [] then None
    else
      var c := columns[0];
      if c in cells && AnyFractional(cells[c]) then Some(Fractional(c))
      else if c in cells && AnyOutOfRange(cells[c]) then Some(OutOfRange(c))
      else FirstUnfit(cells, columns[1..])
  }

  function Guards(db: WideDb): Option<Refusal> {
    var r := FirstStamped(db.units, UNIT_TABLES);
    if r.Some? then r else FirstUnfit(db.cells, WIDENED)
  }

  function Downgrade(db: WideDb): Result<NarrowDb, Refusal> {
    var r := Guards(db);
    if r.Some? then Err(r.value) else Ok(NarrowDb(map c | c in db.cells :: NarrowAll(db.cells[c])))
  }

  // ---------------------------------------------------------------------------
  // Refuse or lose nothing
  // ---------------------------------------------------------------------------

  lemma {:induction false} StampedMeans(units: map<Table, seq<string>>, tables: seq<Table>)
    ensures FirstStamped(units, tables).None? <==> forall t <- tables :: t in units ==> !Stamped(units[t])
  {
    if tables != [] {
      StampedMeans(units, tables[1..]);
      assert forall t :: t in tables <==> t == tables[0] || t in tables[1..];
    }
  }

  lemma {:induction false} UnfitMeans(cells: map<Column, seq<Option<Numeric>>>, columns: seq<Column>)
    ensures FirstUnfit(cells, columns).None? <==>
            forall c <- columns :: c in cells ==> !AnyFractional(cells[c]) && !AnyOutOfRange(cells[c])
  {
    if columns != [] {
      UnfitMeans(cells, columns[1..]);
      assert forall c :: c in columns <==> c == columns[0] || c in columns[1..];
    }
  }

  lemma EveryColumn(c: Column)
    ensures c in WIDENED
  {
    match c
    case QuantityDelta => assert WIDENED[0] == c;
    case ProjectQuantity => assert WIDENED[1] == c;
    case QuantityOrdered => assert WIDENED[2] == c;
    case QuantityReceived => assert WIDENED[3] == c;
    case PurchaseQuantity => assert WIDENED[4] == c;
    case LowStockReportQuantity => assert WIDENED[5] == c;
    case AttritionMinQuantity => assert WIDENED[6] == c;
  }

  /** The downgrade goes through exactly when the upgrade of what it produces is the very database it started
      from: every narrowed cell keeps its value and every dropped unit was `pcs`. Otherwise it refuses. */
  lemma RefusesOrLosesNothing(db: WideDb)
    requires WideSchema(db)
    ensures Downgrade(db).Ok? <==>
            exists before: NarrowDb :: NarrowSchema(before) && Upgrade(before) == db
    ensures Downgrade(db).Ok? ==>
              NarrowSchema(Downgrade(db).value) && Upgrade(Downgrade(db).value) == db
  {
    StampedMeans(db.units, UNIT_TABLES);
    UnfitMeans(db.cells, WIDENED);
    assert UNIT_TABLES[0] == Parts && UNIT_TABLES[1] == StockEntries;
    if Downgrade(db).Ok? {
      OkIsExact(db);
    } else if before: NarrowDb :| NarrowSchema(before) && Upgrade(before) == db {
      DowngradeAfterUpgrade(before);
    }
  }

  lemma GuardedColumn(xs: seq<Option<Numeric>>)
    requires !AnyFractional(xs) && !AnyOutOfRange(xs)
    ensures WidenAll(NarrowAll(xs)) == xs
    ensures forall x <- NarrowAll(xs) :: x.Some? ==> FitsInt4(x.value)
  {
    forall i | 0 <= i < |xs|
      ensures Widen(Narrow(xs[i])) == xs[i] && (xs[i].Some? ==> FitsInt4(Narrow(xs[i]).value))
    {
      assert xs[i] in xs;
      NarrowIsExactIff(xs[i]);
    }
  }

  lemma UnstampedUnits(units: seq<string>)
    requires !Stamped(units)
    ensures units == Repeat(DEFAULT_UNIT, |units|)
  {
    forall i | 0 <= i < |units| ensures units[i] == DEFAULT_UNIT { assert units[i] in units; }
  }

  lemma ColumnsAreExact(db: WideDb)
    requires WideSchema(db) && Downgrade(db).Ok?
    ensures NarrowSchema(Downgrade(db).value) && Upgrade(Downgrade(db).value).cells == db.cells
  {
    UnfitMeans(db.cells, WIDENED);
    var narrow := Downgrade(db).value;
    forall c: Column
      ensures c in narrow.cells && WidenAll(narrow.cells[c]) == db.cells[c]
      ensures forall x <- narrow.cells[c] :: x.Some? ==> FitsInt4(x.value)
    {
      EveryColumn(c);
      GuardedColumn(db.cells[c]);
    }
    assert Upgrade(narrow).cells == db.cells;
  }

  /** Narrowing changes no row count. */
  lemma SameRowCounts(db: WideDb, t: Table)
    requires AllColumns(db.cells) && Downgrade(db).Ok?
    ensures RowCount(Downgrade(db).value.cells, t) == RowCount(db.cells, t)
  {
  }

  lemma UnitsAreExact(db: WideDb)
    requires WideSchema(db) && Downgrade(db).Ok?
    ensures Upgrade(Downgrade(db).value).units == db.units
  {
    StampedMeans(db.units, UNIT_TABLES);
    assert UNIT_TABLES[0] == Parts && UNIT_TABLES[1] == StockEntries;
    var back := Upgrade(Downgrade(db).value).units;
    forall t <- db.units ensures back[t] == db.units[t] {
      assert t in UNIT_TABLES;
      SameRowCounts(db, t);
      UnstampedUnits(db.units[t]);
    }
    assert back.Keys == db.units.Keys;
  }

  lemma OkIsExact(db: WideDb)
    requires WideSchema(db) && Downgrade(db).Ok?
    ensures NarrowSchema(Downgrade(db).value) && Upgrade(Downgrade(db).value) == db
  {
    ColumnsAreExact(db);
    UnitsAreExact(db);
  }

  lemma WidenedColumn(xs: seq<Option<int>>)
    requires forall x <- xs :: x.Some? ==> FitsInt4(x.value)
    ensures !AnyFractional(WidenAll(xs)) && !AnyOutOfRange(WidenAll(xs))
    ensures NarrowAll(WidenAll(xs)) == xs
    ensures forall x <- WidenAll(xs) :: x.Some? ==> FitsNumeric(x.value)
  {
    forall i | 0 <= i < |xs|
      ensures Narrow(Widen(xs[i])) == xs[i]
      ensures !IsFractional(Widen(xs[i])) && !IsOutOfRange(Widen(xs[i]))
      ensures xs[i].Some? ==> FitsNumeric(Widen(xs[i]).value)
    {
      assert xs[i] in xs;
      WidenFits(xs[i]);
    }
  }

  /** Every integer-era database widens without overflow and narrows back to itself. */
  lemma DowngradeAfterUpgrade(db: NarrowDb)
    requires NarrowSchema(db)
    ensures WideSchema(Upgrade(db))
    ensures Downgrade(Upgrade(db)) == Ok(db)
  {
    var wide := Upgrade(db);
    StampedMeans(wide.units, UNIT_TABLES);
    UnfitMeans(wide.cells, WIDENED);
    forall c: Column
      ensures !AnyFractional(wide.cells[c]) && !AnyOutOfRange(wide.cells[c])
      ensures NarrowAll(wide.cells[c]) == db.cells[c]
      ensures forall x <- wide.cells[c] :: x.Some? ==> FitsNumeric(x.value)
    {
      WidenedColumn(db.cells[c]);
    }
    assert Downgrade(wide).value.cells == db.cells;
  }

  // ---------------------------------------------------------------------------
  // The migration at work, with other sessions writing
  // ---------------------------------------------------------------------------

  class Migration {
    var wide: map<Column, seq<Option<Numeric>>>     // columns of type numeric(18,6)
    var narrow: map<Column, seq<Option<int>>>       // columns of type integer
    var units: map<Table, seq<string>>
    var locked: set<Table>

    function View(): WideDb
      reads this
    {
      WideDb(wide, units)
    }

    /** ALTER COLUMN ... TYPE numeric(18, 6), column after column. */
    method WidenColumns()
      requires AllColumns(narrow) && wide == map[]
      modifies this`wide, this`narrow
      ensures narrow == map[] && wide == map c | c in old(narrow) :: WidenAll(old(narrow)[c])
    {
      ghost var was := narrow;
      for i := 0 to |WIDENED|
        invariant forall c: Column :: c in narrow <==> c !in WIDENED[..i]
        invariant forall c: Column :: c in wide <==> c in WIDENED[..i]
        invariant forall c <- narrow :: narrow[c] == was[c]
        invariant forall c <- wide :: wide[c] == WidenAll(was[c])
      {
        var c := WIDENED[i];
        assert WIDENED[..i + 1] == WIDENED[..i] + [c];
        if c in narrow {
          wide := wide[c := WidenAll(narrow[c])];
          narrow := narrow - {c};
        }
      }
      assert WIDENED[..|WIDENED|] == WIDENED;
      forall c: Column ensures c in WIDENED { EveryColumn(c); }
    }

    /** `upgrade`: unit columns first, then the columns widened table by table. */
    method RunUpgrade()
      requires NarrowSchema(NarrowDb(narrow)) && wide == map[]
      modifies this`wide, this`narrow, this`units
      ensures View() == Upgrade(old(NarrowDb(narrow)))
      ensures narrow == map[]
    {
      units := map t | t in {Parts, StockEntries} :: Repeat(DEFAULT_UNIT, RowCount(narrow, t));
      WidenColumns();
    }

    /** Whatever other sessions commit meanwhile: anything, except to a locked table. */
    method OtherSessions()
      requires WideSchema(View())
      modifies this`wide, this`units
      ensures WideSchema(View())
      ensures forall c: Column :: TableOf(c) in locked ==> wide[c] == old(wide[c])
      ensures forall t <- units :: t in locked ==> units[t] == old(units[t])
    {
    }

    method LockTables()
      requires WideSchema(View()) && locked == {}
      modifies this`wide, this`units, this`locked
      ensures WideSchema(View())
      ensures forall t: Table :: t in locked
    {
      for i := 0 to |TABLES|
        invariant WideSchema(View())
        invariant forall j :: 0 <= j < i ==> TABLES[j] in locked
      {
        OtherSessions();
        locked := locked + {TABLES[i]};
      }
      forall t: Table ensures t in locked {
        match t
        case StockEntries => assert TABLES[0] == t;
        case ProjectEntries => assert TABLES[1] == t;
        case OrderEntries => assert TABLES[2] == t;
        case Lots => assert TABLES[3] == t;
        case Parts => assert TABLES[4] == t;
      }
    }

    method CheckUnits() returns (r: Option<Refusal>)
      requires WideSchema(View()) && forall t: Table :: t in locked
      modifies this`wide, this`units
      ensures View() == old(View())
      ensures r == FirstStamped(units, UNIT_TABLES)
    {
      ghost var seen := View();
      for i := 0 to |UNIT_TABLES|
        invariant View() == seen
        invariant FirstStamped(units, UNIT_TABLES) == FirstStamped(units, UNIT_TABLES[i..])
      {
        OtherSessions();
        assert wide == seen.cells && units == seen.units;
        if Stamped(units[UNIT_TABLES[i]]) {
          return Some(UnitStamped(UNIT_TABLES[i]));
        }
      }
      r := None;
    }

    method CheckCells() returns (r: Option<Refusal>)
      requires WideSchema(View()) && forall t: Table :: t in locked
      modifies this`wide, this`units
      ensures View() == old(View())
      ensures r == FirstUnfit(wide, WIDENED)
    {
      ghost var seen := View();
      for i := 0 to |WIDENED|
        invariant View() == seen
        invariant FirstUnfit(wide, WIDENED) == FirstUnfit(wide, WIDENED[i..])
      {
        OtherSessions();
        assert wide == seen.cells && units == seen.units;
        var c := WIDENED[i];
        if AnyFractional(wide[c]) {
          return Some(Fractional(c));
        }
        if AnyOutOfRange(wide[c]) {
          return Some(OutOfRange(c));
        }
      }
      r := None;
    }

    method CheckGuards() returns (r: Option<Refusal>)
      requires WideSchema(View()) && forall t: Table :: t in locked
      modifies this`wide, this`units
      ensures View() == old(View())
      ensures r == Guards(View())
    {
      r := CheckUnits();
      if r.None? {
        r := CheckCells();
      }
    }

    /** ALTER COLUMN ... TYPE integer, last column first. */
    method NarrowColumns()
      requires WideSchema(View()) && narrow == map[]
      modifies this`wide, this`narrow
      ensures wide == map[]
      ensures narrow == map c | c in old(wide) :: NarrowAll(old(wide)[c])
    {
      ghost var was := wide;
      var i := |WIDENED|;
      while i > 0
        invariant 0 <= i <= |WIDENED|
        invariant forall c: Column :: c in wide <==> c !in WIDENED[i..]
        invariant forall c: Column :: c in narrow <==> c in WIDENED[i..]
        invariant forall c <- wide :: wide[c] == was[c]
        invariant forall c <- narrow :: narrow[c] == NarrowAll(was[c])
      {
        i := i - 1;
        var c := WIDENED[i];
        assert WIDENED[i..] == [c] + WIDENED[i + 1..];
        if c in wide {
          narrow := narrow[c := NarrowAll(wide[c])];
          wide := wide - {c};
        }
      }
      forall c: Column ensures c in WIDENED[0..] { EveryColumn(c); }
      assert wide == map[];
    }

    /** Lock, count, and only then rewrite. `seen` is the database once every lock is held: a refusal leaves it
        untouched, and a downgrade that goes through has narrowed exactly it, whatever other sessions tried. */
    method RunDowngrade() returns (r: Option<Refusal>, ghost seen: WideDb)
      requires WideSchema(View()) && narrow == map[] && locked == {}
      modifies this
      ensures WideSchema(seen)
      ensures r.Some? ==> Downgrade(seen) == Err(r.value) && View() == seen && narrow == map[]
      ensures r.None? ==> Downgrade(seen) == Ok(NarrowDb(narrow)) && wide == map[] && units == map[]
    {
      LockTables();
      seen := View();
      r := CheckGuards();
      if r.Some? {
        return;
      }
      NarrowColumns();
      units := units - {StockEntries};
      units := units - {Parts};
    }
  }
}
