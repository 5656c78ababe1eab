/** The stock tables as the triggers work on them: in place, statement by statement. */
module StockDatabase {
  import opened Common
  import opened Ledger
  import opened LedgerInvariants
  import opened Cascades

  const KINDS: set<Kind> := {Part, Lot, Storage, Entry, Order, OrderEntry, Project, Build, Stage}

  lemma EveryKind(k: Kind)
    ensures k in KINDS
  {
    match k
    case Part =>
    case Lot =>
    case Storage =>
    case Entry =>
    case Order =>
    case OrderEntry =>
    case Project =>
    case Build =>
    case Stage =>
  }

  class Database {
    var objects: map<Ref, Object>
    var rows: seq<LedgerRow>

    function View(): Db
      reads this
    {
      Db(objects, rows)
    }

    constructor ()
      ensures View() == EMPTY
    {
      objects, rows := map[], [];
    }

    /** `check_stock_entries_workspace_fks()`: INSERT walks every column, UPDATE only those that changed. */
    method CheckWorkspaceFks(was: Option<LedgerRow>, row: LedgerRow) returns (v: Option<Violation>)
      ensures v == WorkspaceCheck(View(), was, row)
    {
      if was.None? {
        if Part !in row.refs {
          return Some(PartRequired);
        }
      }
      var i := 0;
      while i < |COLUMNS|
        invariant 0 <= i <= |COLUMNS|
        invariant FirstDangling(View(), was, row, COLUMNS) == FirstDangling(View(), was, row, COLUMNS[i..])
      {
        var k := COLUMNS[i];
        if was.None? || Column(row, k) != Column(was.value, k) {
          if k in row.refs {
            if !Found(View(), Ref(k, row.refs[k]), row.ws) {
              return Some(NotInWorkspace(k));
            }
          }
        }
        i := i + 1;
      }
      v := None;
    }

    /** `check_stock_entries_build_stage_workspace()`. */
    method CheckBuildStage(was: Option<LedgerRow>, row: LedgerRow) returns (v: Option<Violation>)
      ensures v == StageCheck(View(), was, row)
    {
      v := None;
      if Stage in row.refs {
        if was.None? || Column(row, Stage) != Column(was.value, Stage) || row.ws != was.value.ws {
          if !Found(View(), Ref(Stage, row.refs[Stage]), row.ws) {
            v := Some(NotInWorkspace(Stage));
          }
        }
      }
    }

    /** `check_stock_entry_unit_matches_part()`. */
    method CheckUnitMatch(row: LedgerRow) returns (v: Option<Violation>)
      ensures v == UnitCheck(View(), row)
    {
      if Part !in row.refs {
        return None;
      }
      var r := Ref(Part, row.refs[Part]);
      if !(r in objects && objects[r].ws == row.ws) {
        return None;
      }
      if row.unit != objects[r].unit {
        return Some(UnitMismatch);
      }
      return None;
    }

    /** `check_stock_nonneg()`: re-aggregate the row's tuple over the whole table. */
    method CheckNonNegative(row: LedgerRow) returns (v: Option<Violation>)
      ensures v == if Balance(rows, row) < 0 then Some(NegativeBalance) else None
    {
      var total := 0;
      for i := 0 to |rows|
        invariant total == Balance(rows[..i], row)
      {
        assert rows[..i + 1][..i] == rows[..i];
        if SameTuple(rows[i], row) {
          total := total + rows[i].qty;
        }
      }
      assert rows[..|rows|] == rows;
      v := if total < 0 then Some(NegativeBalance) else None;
    }

    method FireBeforeInsert(row: LedgerRow) returns (v: Option<Violation>)
      ensures v == BeforeInsert(View(), row)
    {
      v := CheckBuildStage(None, row);
      if v.None? {
        v := CheckUnitMatch(row);
      }
      if v.None? {
        v := CheckWorkspaceFks(None, row);
      }
    }

    /** One INSERT statement. Any trigger that raises undoes the whole statement. */
    method InsertRows(news: seq<LedgerRow>) returns (r: Result<Db, Violation>)
      modifies this`rows
      ensures r == Insert(old(View()), news)
      ensures View() == if r.Ok? then r.value else old(View())
    {
      ghost var before := View();
      var kept := rows;
      for i := 0 to |news|
        invariant InsertAll(before, news) == InsertAll(View(), news[i..])
        invariant kept == before.rows && objects == before.objects
      {
        var v := FireBeforeInsert(news[i]);
        assert news[i..][0] == news[i] && news[i..][1..] == news[i + 1..];
        if v.Some? {
          rows := kept;
          return Err(v.value);
        }
        if HasId(rows, news[i].id) {
          rows := kept;
          return Err(DuplicateKey);
        }
        rows := rows + [news[i]];
      }
      for i := 0 to |news|
        invariant forall j :: 0 <= j < i ==> Balance(rows, news[j]) >= 0
        invariant InsertAll(before, news) == Ok(View()) && kept == before.rows && objects == before.objects
      {
        var v := CheckNonNegative(news[i]);
        if v.Some? {
          assert news[i] in news;
          rows := kept;
          return Err(v.value);
        }
      }
      r := Ok(View());
    }

    /** UPDATE parts SET unit_of_measure, past `check_part_unit_of_measure_change()`. */
    method UpdatePartUnit(part: Id, unit: string) returns (r: Result<Db, Violation>)
      modifies this`objects
      ensures r == ChangePartUnit(old(View()), part, unit)
      ensures View() == if r.Ok? then r.value else old(View())
    {
      var ref := Ref(Part, part);
      if ref in objects {
        if objects[ref].unit != unit {
          if HasLedgerRows(rows, part, objects[ref].ws) {
            return Err(PartUnitFrozen);
          }
          objects := objects[ref := objects[ref].(unit := unit)];
        }
      }
      r := Ok(View());
    }

    /** UPDATE stock_entries SET unit, past `check_stock_entry_unit_immutable()`. It only mirrors the trigger: what
        that is good for over a run is `HistoryIsFixed`. */
    method UpdateRowUnit(i: nat, unit: string) returns (r: Result<Db, Violation>)
      ensures r == ChangeRowUnit(View(), i, unit)
      ensures i < |rows| && rows[i].unit != unit ==> r == Err(UnitImmutable)
      ensures r.Ok? ==> r.value == View()
    {
      if i < |rows| {
        if rows[i].unit != unit {
          return Err(UnitImmutable);
        }
      }
      r := Ok(View());
    }

    /** DELETE of a part, lot, storage location, order, order entry, project, build or stage: its cascade is
        dropped, then every surviving reference is set to NULL, one trigger-checked update at a time. */
    method HardDelete(target: Ref)
      requires target.kind != Entry
      modifies this
      ensures View() == Delete(old(View()), target)
    {
      if target !in objects {
        return;
      }
      ghost var before := View();
      var doomed := Doomed(objects, target);
      objects := map r | r in objects && r !in doomed :: objects[r].(links := Detach(objects[r].links, doomed));
      DetachedRows(rows, doomed);
      for i := 0 to |rows|
        invariant |rows| == |before.rows|
        invariant forall j :: 0 <= j < i ==> rows[j] == DetachRow(before.rows[j], doomed)
        invariant forall j :: i <= j < |rows| ==> rows[j] == before.rows[j]
        invariant objects == Delete(before, target).objects
      {
        DetachOne(i, doomed);
      }
      assert rows == DetachRows(before.rows, doomed);
    }

    /** The SET NULL updates of one row; none of them is refused. */
    method DetachOne(i: nat, doomed: set<Ref>)
      requires i < |rows|
      modifies this`rows
      ensures rows == old(rows)[i := DetachRow(old(rows[i]), doomed)]
    {
      ghost var was := rows[i].refs;
      ghost var start := rows;
      var left := KINDS;
      forall k: Kind ensures k in left { EveryKind(k); }
      while left != {}
        invariant |rows| == |start| && rows == start[i := start[i].(refs := rows[i].refs)]
        invariant Between(was, rows[i].refs, doomed)
        invariant forall k <- rows[i].refs :: k !in left ==> Ref(k, rows[i].refs[k]) !in doomed
        decreases left
      {
        var k :| k in left;
        if k in rows[i].refs && Ref(k, rows[i].refs[k]) in doomed {
          var row := rows[i].(refs := Without(rows[i].refs, k));
          assert Enabled(View(), doomed, Nullify(i, k));
          SetNullIsNeverRefused(View(), Nullify(i, k), doomed);
          var v := CheckWorkspaceFks(Some(rows[i]), row);
          var w := CheckBuildStage(Some(rows[i]), row);
          assert v.None? && w.None?;
          rows := rows[i := row];
        }
        left := left - {k};
      }
      BetweenSettled(was, rows[i].refs, doomed);
      assert rows[i] == DetachRow(start[i], doomed);
    }
  }
}
