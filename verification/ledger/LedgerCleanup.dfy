/** Migration 0018's pre-flight: references that dangle are set to NULL before the foreign keys over them exist. */
module LedgerCleanup {
  import opened Common
  import opened Ledger
  import opened LedgerInvariants
  import opened Cascades

  const ROW_COLUMNS: seq<Kind> := [Order, OrderEntry, Build]
  const LOT_COLUMNS: seq<Kind> := [Order, Build]

  predicate Dangles(objects: map<Ref, Object>, refs: map<Kind, Id>, k: Kind) {
    k in refs && Ref(k, refs[k]) !in objects
  }

  /** `UPDATE ... SET k = NULL WHERE k IS NOT NULL AND k NOT IN (SELECT id ...)`, on one row. */
  function Cleared(objects: map<Ref, Object>, refs: map<Kind, Id>, k: Kind): map<Kind, Id> {
    if Dangles(objects, refs, k) then Without(refs, k) else refs
  }

  /** One such statement per column, in order. */
  function ClearedAll(objects: map<Ref, Object>, refs: map<Kind, Id>, columns: seq<Kind>): map<Kind, Id> {
    if columns == [] then refs
    else Cleared(objects, ClearedAll(objects, refs, columns[..|columns| - 1]), columns[|columns| - 1])
  }

  lemma {:induction false} ClearedMeans(objects: map<Ref, Object>, refs: map<Kind, Id>, columns: seq<Kind>, k: Kind)
    ensures var out := ClearedAll(objects, refs, columns);
            && (k in out <==> k in refs && !(k in columns && Ref(k, refs[k]) !in objects))
            && (k in out ==> out[k] == refs[k])
  {
    if columns != [] {
      var init, last := columns[..|columns| - 1], columns[|columns| - 1];
      ClearedMeans(objects, refs, init, k);
      ClearedMeans(objects, refs, init, last);
      assert k in columns <==> k in init || k == last;
    }
  }

  function CleanRow(objects: map<Ref, Object>, row: LedgerRow): LedgerRow {
    row.(refs := ClearedAll(objects, row.refs, ROW_COLUMNS))
  }

  function CleanObject(objects: map<Ref, Object>, r: Ref): Object
    requires r in objects
  {
    if r.kind == Lot then objects[r].(links := ClearedAll(objects, objects[r].links, LOT_COLUMNS)) else objects[r]
  }

  function CleanRows(objects: map<Ref, Object>, rows: seq<LedgerRow>): (out: seq<LedgerRow>)
    ensures |out| == |rows| && forall i :: 0 <= i < |rows| ==> out[i] == CleanRow(objects, rows[i])
  {
    seq(|rows|, i requires 0 <= i < |rows| => CleanRow(objects, rows[i]))
  }

  function CleanUp(db: Db): Db {
    Db(map r | r in db.objects :: CleanObject(db.objects, r), CleanRows(db.objects, db.rows))
  }

  /** What the five foreign keys of 0018 demand. */
  ghost predicate ForeignKeysHold(db: Db) {
    && (forall i, k :: 0 <= i < |db.rows| && k in ROW_COLUMNS ==> !Dangles(db.objects, db.rows[i].refs, k))
    && (forall r, k :: r in db.objects && r.kind == Lot && k in LOT_COLUMNS ==>
          !Dangles(db.objects, db.objects[r].links, k))
  }

  /** Afterwards the foreign keys hold, whatever the tables held before. */
  lemma ForeignKeysCanBeAdded(db: Db)
    ensures ForeignKeysHold(CleanUp(db))
  {
    var next := CleanUp(db);
    forall i, k | 0 <= i < |next.rows| && k in ROW_COLUMNS ensures !Dangles(next.objects, next.rows[i].refs, k) {
      ClearedMeans(db.objects, db.rows[i].refs, ROW_COLUMNS, k);
    }
    forall r, k | r in next.objects && r.kind == Lot && k in LOT_COLUMNS
      ensures !Dangles(next.objects, next.objects[r].links, k)
    {
      ClearedMeans(db.objects, db.objects[r].links, LOT_COLUMNS, k);
    }
  }

  /** And nothing was touched that did not have to be: a database is left alone exactly when its foreign keys
      hold already. */
  lemma CleanUpChangesNothingIff(db: Db)
    ensures CleanUp(db) == db <==> ForeignKeysHold(db)
  {
    ForeignKeysCanBeAdded(db);
    if ForeignKeysHold(db) {
      forall i | 0 <= i < |db.rows| ensures CleanRow(db.objects, db.rows[i]) == db.rows[i] {
        NothingToClear(db.objects, db.rows[i].refs, ROW_COLUMNS);
      }
      forall r <- db.objects ensures CleanObject(db.objects, r) == db.objects[r] {
        if r.kind == Lot { NothingToClear(db.objects, db.objects[r].links, LOT_COLUMNS); }
      }
      assert CleanUp(db).rows == db.rows && CleanUp(db).objects == db.objects;
    }
  }

  lemma NothingToClear(objects: map<Ref, Object>, refs: map<Kind, Id>, columns: seq<Kind>)
    requires forall k <- columns :: !Dangles(objects, refs, k)
    ensures ClearedAll(objects, refs, columns) == refs
  {
    var out := ClearedAll(objects, refs, columns);
    forall k ensures (k in out <==> k in refs) && (k in out ==> out[k] == refs[k]) {
      ClearedMeans(objects, refs, columns, k);
    }
  }

  /** No bucket moves: orders, order entries and builds are not part of where stock lies. */
  lemma {:induction false} CleanUpKeepsBuckets(objects: map<Ref, Object>, rows: seq<LedgerRow>, b: Bucket)
    ensures Sum(CleanRows(objects, rows), b) == Sum(rows, b)
  {
    if rows != [] {
      var init, last := rows[..|rows| - 1], rows[|rows| - 1];
      CleanUpKeepsBuckets(objects, init, b);
      assert CleanRows(objects, rows) == CleanRows(objects, init) + [CleanRow(objects, last)];
      SumSnoc(CleanRows(objects, init), CleanRow(objects, last), b);
      SameBucket(objects, last);
    }
  }

  lemma SameBucket(objects: map<Ref, Object>, row: LedgerRow)
    ensures BucketOf(CleanRow(objects, row)) == BucketOf(row)
  {
    var a, z := BucketOf(row).place, BucketOf(CleanRow(objects, row)).place;
    forall k ensures (k in z <==> k in a) && (k in z ==> z[k] == a[k]) {
      ClearedMeans(objects, row.refs, ROW_COLUMNS, k);
    }
    assert a == z;
  }

  class StockTables {
    var objects: map<Ref, Object>
    var rows: seq<LedgerRow>

    function View(): Db
      reads this
    {
      Db(objects, rows)
    }

    /** One UPDATE of `stock_entries`. */
    method ClearRowColumn(k: Kind)
      modifies this`rows
      ensures |rows| == |old(rows)|
      ensures forall i :: 0 <= i < |rows| ==> rows[i] == old(rows)[i].(refs := Cleared(objects, old(rows)[i].refs, k))
    {
      ghost var was := rows;
      for i := 0 to |rows|
        invariant |rows| == |was|
        invariant forall j :: i <= j < |rows| ==> rows[j] == was[j]
        invariant forall j :: 0 <= j < i ==> rows[j] == was[j].(refs := Cleared(objects, was[j].refs, k))
      {
        if k in rows[i].refs && Ref(k, rows[i].refs[k]) !in objects {
          rows := rows[i := rows[i].(refs := Without(rows[i].refs, k))];
        }
      }
    }

    /** One UPDATE of `lots`. */
    method ClearLotColumn(k: Kind)
      modifies this`objects
      ensures objects.Keys == old(objects).Keys
      ensures forall r <- objects :: objects[r] ==
                var o := old(objects)[r];
                if r.kind == Lot then o.(links := Cleared(old(objects), o.links, k)) else o
    {
      objects := map r | r in objects ::
        if r.kind == Lot && k in objects[r].links && Ref(k, objects[r].links[k]) !in objects
        then objects[r].(links := Without(objects[r].links, k)) else objects[r];
    }

    /** The pre-flight of `upgrade`: three updates of the ledger, two of the lots. */
    method NullOrphans()
      modifies this
      ensures View() == CleanUp(old(View()))
    {
      ClearRows();
      ClearLots();
    }

    method ClearRows()
      modifies this`rows
      ensures rows == CleanRows(objects, old(rows))
    {
      ghost var was := rows;
      for c := 0 to |ROW_COLUMNS|
        invariant |rows| == |was|
        invariant forall i :: 0 <= i < |rows| ==>
                    rows[i] == was[i].(refs := ClearedAll(objects, was[i].refs, ROW_COLUMNS[..c]))
      {
        ClearRowColumn(ROW_COLUMNS[c]);
        assert ROW_COLUMNS[..c + 1][..c] == ROW_COLUMNS[..c];
      }
      assert ROW_COLUMNS[..|ROW_COLUMNS|] == ROW_COLUMNS;
    }

    method ClearLots()
      modifies this`objects
      ensures objects == CleanUp(old(View())).objects
    {
      ghost var all := objects;
      for c := 0 to |LOT_COLUMNS|
        invariant objects.Keys == all.Keys
        invariant forall r <- objects :: objects[r] ==
                    if r.kind == Lot then all[r].(links := ClearedAll(all, all[r].links, LOT_COLUMNS[..c])) else all[r]
      {
        ghost var before := objects;
        ClearLotColumn(LOT_COLUMNS[c]);
        assert LOT_COLUMNS[..c + 1][..c] == LOT_COLUMNS[..c];
        SameKeysClear(before, all, LOT_COLUMNS[c]);
      }
      assert LOT_COLUMNS[..|LOT_COLUMNS|] == LOT_COLUMNS;
    }
  }

  /** Clearing only asks which objects exist. */
  lemma SameKeysClear(a: map<Ref, Object>, b: map<Ref, Object>, k: Kind)
    requires a.Keys == b.Keys
    ensures forall refs :: Cleared(a, refs, k) == Cleared(b, refs, k)
  {
    assert forall r :: r in a <==> r in b;
  }
}
