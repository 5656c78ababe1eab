/** What every run of guarded inserts, hard deletes and unit changes keeps. */
module LedgerInvariants {
  import opened Common
  import opened Ledger

  /** Every non-NULL reference of every ledger row resolves inside the row's own workspace. */
  ghost predicate Closed(db: Db) {
    forall i, k :: 0 <= i < |db.rows| && k in db.rows[i].refs ==> Found(db, Ref(k, db.rows[i].refs[k]), db.rows[i].ws)
  }

  /** Every ledger row that still names a part carries that part's current unit. */
  ghost predicate UnitsAgree(db: Db) {
    forall i :: 0 <= i < |db.rows| && Part in db.rows[i].refs ==>
      var r := Ref(Part, db.rows[i].refs[Part]);
      r in db.objects && db.objects[r].unit == db.rows[i].unit
  }

  /** Cascading columns and a lot's own references never dangle. */
  ghost predicate ObjectsIntact(objects: map<Ref, Object>) {
    forall r <- objects ::
      && FitsSchema(r, objects[r])
      && (objects[r].parent.Some? ==> objects[r].parent.value in objects)
      && forall k <- objects[r].links :: Ref(k, objects[r].links[k]) in objects
  }

  /** The primary key. */
  ghost predicate DistinctIds(rows: seq<LedgerRow>) {
    forall i, j :: 0 <= i < j < |rows| ==> rows[i].id != rows[j].id
  }

  ghost predicate Good(db: Db) {
    NonNegative(db.rows) && Closed(db) && UnitsAgree(db) && ObjectsIntact(db.objects) && DistinctIds(db.rows)
  }

  // ---------------------------------------------------------------------------
  // Sums
  // ---------------------------------------------------------------------------

  lemma SumSnoc(rows: seq<LedgerRow>, row: LedgerRow, b: Bucket)
    ensures Sum(rows + [row], b) == Sum(rows, b) + if BucketOf(row) == b then row.qty else 0
  {
    assert (rows + [row])[..|rows|] == rows;
  }

  lemma {:induction false} SumAppend(a: seq<LedgerRow>, c: seq<LedgerRow>, b: Bucket)
    ensures Sum(a + c, b) == Sum(a, b) + Sum(c, b)
  {
    if c == [] {
      assert a + c == a;
    } else {
      var init, last := c[..|c| - 1], c[|c| - 1];
      SumAppend(a, init, b);
      SumSnoc(a + init, last, b);
      SumSnoc(init, last, b);
      AppendSnoc(a, init, last);
      assert c == init + [last];
    }
  }

  lemma AppendSnoc(a: seq<LedgerRow>, init: seq<LedgerRow>, last: LedgerRow)
    ensures a + (init + [last]) == a + init + [last]
  {
  }

  lemma {:induction false} SumElsewhere(rows: seq<LedgerRow>, b: Bucket)
    requires forall row <- rows :: BucketOf(row) != b
    ensures Sum(rows, b) == 0
  {
    if rows != [] {
      assert rows[|rows| - 1] in rows;
      SumElsewhere(rows[..|rows| - 1], b);
    }
  }

  // ---------------------------------------------------------------------------
  // Triggers
  // ---------------------------------------------------------------------------

  /** The column-by-column check passes exactly when no due reference dangles. */
  lemma {:induction false} CheckMeans(db: Db, was: Option<LedgerRow>, row: LedgerRow, columns: seq<Kind>)
    ensures FirstDangling(db, was, row, columns).None? <==>
            forall k <- columns ::
              k in row.refs && (was.None? || Column(row, k) != Column(was.value, k)) ==>
                Found(db, Ref(k, row.refs[k]), row.ws)
  {
    if columns != [] {
      CheckMeans(db, was, row, columns[1..]);
      assert forall k :: k in columns <==> k == columns[0] || k in columns[1..];
    }
  }

  lemma AllColumns(k: Kind)
    ensures k in COLUMNS || k == Stage
  {
    assert COLUMNS[0] == Part && COLUMNS[1] == Lot && COLUMNS[2] == Storage && COLUMNS[3] == Entry
        && COLUMNS[4] == Order && COLUMNS[5] == OrderEntry && COLUMNS[6] == Project && COLUMNS[7] == Build;
  }

  /** A row past its BEFORE triggers names a part, has its unit, and points only into its workspace. The unit
      trigger's silence about a part it cannot find is closed by the workspace trigger behind it. */
  lemma BeforeInsertMeans(db: Db, row: LedgerRow)
    requires BeforeInsert(db, row).None?
    ensures Part in row.refs
    ensures forall k <- row.refs :: Found(db, Ref(k, row.refs[k]), row.ws)
    ensures db.objects[Ref(Part, row.refs[Part])].unit == row.unit
  {
    CheckMeans(db, None, row, COLUMNS);
    forall k <- row.refs ensures Found(db, Ref(k, row.refs[k]), row.ws) {
      AllColumns(k);
    }
  }

  lemma FoundStays(db: Db, more: seq<LedgerRow>, r: Ref, ws: Id)
    requires Found(db, r, ws)
    ensures Found(db.(rows := db.rows + more), r, ws)
  {
    if r.kind == Entry {
      var row :| row in db.rows && row.id == r.id && row.ws == ws;
      assert row in db.rows + more;
    }
  }

  lemma NewIdIsDistinct(rows: seq<LedgerRow>, row: LedgerRow)
    requires DistinctIds(rows) && !HasId(rows, row.id)
    ensures DistinctIds(rows + [row])
  {
    forall i | 0 <= i < |rows| ensures rows[i].id != row.id { assert rows[i] in rows; }
  }

  lemma OneRowKeepsClosed(db: Db, row: LedgerRow)
    requires Closed(db) && BeforeInsert(db, row).None?
    ensures Closed(db.(rows := db.rows + [row]))
  {
    var next := db.(rows := db.rows + [row]);
    BeforeInsertMeans(db, row);
    forall i, k | 0 <= i < |next.rows| && k in next.rows[i].refs
      ensures Found(next, Ref(k, next.rows[i].refs[k]), next.rows[i].ws)
    {
      FoundStays(db, [row], Ref(k, next.rows[i].refs[k]), next.rows[i].ws);
    }
  }

  lemma OneRowKeepsUnits(db: Db, row: LedgerRow)
    requires UnitsAgree(db) && BeforeInsert(db, row).None?
    ensures UnitsAgree(db.(rows := db.rows + [row])) && Part in row.refs
  {
    BeforeInsertMeans(db, row);
  }

  lemma {:induction false} InsertAllKeeps(db: Db, news: seq<LedgerRow>)
    requires Closed(db) && UnitsAgree(db) && DistinctIds(db.rows) && InsertAll(db, news).Ok?
    ensures var next := InsertAll(db, news).value;
            && next == db.(rows := db.rows + news)
            && Closed(next) && UnitsAgree(next) && DistinctIds(next.rows)
    ensures forall row <- news :: Part in row.refs
    decreases |news|
  {
    if news == [] {
      assert db.rows + news == db.rows;
    } else {
      var row := news[0];
      OneRowKeepsClosed(db, row);
      OneRowKeepsUnits(db, row);
      NewIdIsDistinct(db.rows, row);
      InsertAllKeeps(db.(rows := db.rows + [row]), news[1..]);
      assert db.rows + [row] + news[1..] == db.rows + news;
    }
  }

  /** Re-aggregating only the tuples of the new rows is enough: no other bucket moved. */
  lemma AppendKeepsNonNegative(rows: seq<LedgerRow>, news: seq<LedgerRow>)
    requires NonNegative(rows) && BalancesHold(rows + news, news)
    requires forall row <- news :: Part in row.refs
    ensures NonNegative(rows + news)
  {
    forall b: Bucket ensures Sum(rows + news, b) >= 0 {
      if exists row <- news :: BucketOf(row) == b {
        var row :| row in news && BucketOf(row) == b;
        BalanceIsBucketSum(rows + news, row);
      } else {
        SumAppend(rows, news, b);
        SumElsewhere(news, b);
      }
    }
  }

  /** An accepted INSERT appends its rows, and no bucket it touched or left alone is negative. */
  lemma InsertKeeps(db: Db, news: seq<LedgerRow>)
    requires Good(db) && Insert(db, news).Ok?
    ensures Good(Insert(db, news).value)
    ensures Insert(db, news).value == db.(rows := db.rows + news)
  {
    InsertAllKeeps(db, news);
    AppendKeepsNonNegative(db.rows, news);
  }

  // ---------------------------------------------------------------------------
  // Hard deletes
  // ---------------------------------------------------------------------------

  lemma {:induction false} DetachedRows(rows: seq<LedgerRow>, doomed: set<Ref>)
    ensures |DetachRows(rows, doomed)| == |rows|
    ensures forall i :: 0 <= i < |rows| ==> DetachRows(rows, doomed)[i] == DetachRow(rows[i], doomed)
  {
    if rows != [] { DetachedRows(rows[..|rows| - 1], doomed); }
  }

  /** The cascade reaches every child of what it deletes, and only the target can be a place. */
  lemma DoomedIsClosed(objects: map<Ref, Object>, target: Ref)
    requires ObjectsIntact(objects) && target in objects
    ensures target in Doomed(objects, target)
    ensures forall r <- objects ::
              objects[r].parent.Some? && objects[r].parent.value in Doomed(objects, target) ==>
                r in Doomed(objects, target)
    ensures forall r <- Doomed(objects, target) :: r == target || r.kind in {OrderEntry, Build, Stage}
  {
    forall r <- objects | objects[r].parent.Some? && objects[r].parent.value in Doomed(objects, target)
      ensures r in Doomed(objects, target)
    {
      var p := objects[r].parent.value;
      if p != target {
        var q := objects[p].parent.value;
        assert FitsSchema(p, objects[p]) && FitsSchema(r, objects[r]);
        assert FitsSchema(q, objects[q]);
      }
    }
    forall r <- Doomed(objects, target) | r != target ensures r.kind in {OrderEntry, Build, Stage} {
      assert FitsSchema(r, objects[r]);
    }
  }

  /** SET NULL merges buckets: a bucket without the deleted place receives exactly what the bucket with it
      held, every bucket that named it empties, and no other changes. */
  lemma {:induction false} DetachMergesBuckets(rows: seq<LedgerRow>, doomed: set<Ref>, target: Ref, b: Bucket)
    requires target in doomed
    requires forall r <- doomed :: r == target || r.kind !in PLACE
    ensures Sum(DetachRows(rows, doomed), b)
         == if target.kind !in PLACE then Sum(rows, b)
            else if target.kind in b.place then (if b.place[target.kind] == target.id then 0 else Sum(rows, b))
            else Sum(rows, b) + Sum(rows, b.(place := b.place[target.kind := target.id]))
  {
    if rows != [] {
      var row, init := rows[|rows| - 1], rows[..|rows| - 1];
      DetachMergesBuckets(init, doomed, target, b);
      SumSnoc(DetachRows(init, doomed), DetachRow(row, doomed), b);
      DetachedBucket(row, doomed, target, b);
    }
  }

  lemma DetachedBucket(row: LedgerRow, doomed: set<Ref>, target: Ref, b: Bucket)
    requires target in doomed
    requires forall r <- doomed :: r == target || r.kind !in PLACE
    ensures BucketOf(DetachRow(row, doomed)) == b <==>
            if target.kind !in PLACE then BucketOf(row) == b
            else if target.kind in b.place then b.place[target.kind] != target.id && BucketOf(row) == b
            else BucketOf(row) == b || BucketOf(row) == b.(place := b.place[target.kind := target.id])
  {
    var place, after := BucketOf(row).place, BucketOf(DetachRow(row, doomed)).place;
    var t := target.kind;
    var hit := t in PLACE && t in place && place[t] == target.id;
    assert after == if hit then place - {t} else place by {
      forall k ensures k in after <==> k in place && !(hit && k == t) {
        if k in place { assert Ref(k, place[k]) in doomed <==> hit && k == t; }
      }
      assert after.Keys == if hit then place.Keys - {t} else place.Keys;
    }
    if hit && t !in b.place {
      if after == b.place { assert place == b.place[t := target.id]; }
      if place == b.place[t := target.id] { assert after == b.place; }
    }
  }

  lemma DeleteKeepsNonNegative(db: Db, target: Ref)
    requires Good(db)
    ensures NonNegative(Delete(db, target).rows)
  {
    if target in db.objects {
      var doomed := Doomed(db.objects, target);
      DoomedIsClosed(db.objects, target);
      forall b: Bucket ensures Sum(DetachRows(db.rows, doomed), b) >= 0 {
        DetachMergesBuckets(db.rows, doomed, target, b);
      }
    }
  }

  lemma DeleteKeepsReferences(db: Db, target: Ref)
    requires Good(db)
    ensures Closed(Delete(db, target)) && UnitsAgree(Delete(db, target))
  {
    if target in db.objects {
      var doomed, next := Doomed(db.objects, target), Delete(db, target);
      DetachedRows(db.rows, doomed);
      forall i, k | 0 <= i < |next.rows| && k in next.rows[i].refs
        ensures Found(next, Ref(k, next.rows[i].refs[k]), next.rows[i].ws)
      {
        var r := Ref(k, db.rows[i].refs[k]);
        assert Found(db, r, db.rows[i].ws);
        if k == Entry {
          var row :| row in db.rows && row.id == r.id && row.ws == db.rows[i].ws;
          var j :| 0 <= j < |db.rows| && db.rows[j] == row;
          assert next.rows[j] in next.rows;
        }
      }
    }
  }

  lemma DeleteKeepsObjects(db: Db, target: Ref)
    requires ObjectsIntact(db.objects)
    ensures ObjectsIntact(Delete(db, target).objects)
  {
    if target in db.objects {
      var doomed, next := Doomed(db.objects, target), Delete(db, target).objects;
      DoomedIsClosed(db.objects, target);
      forall r <- next
        ensures && FitsSchema(r, next[r])
                && (next[r].parent.Some? ==> next[r].parent.value in next)
                && forall k <- next[r].links :: Ref(k, next[r].links[k]) in next
      {
        assert FitsSchema(r, db.objects[r]);
        if r.kind != Lot { assert next[r].links == map[]; }
      }
    }
  }

  lemma DeleteKeepsIds(db: Db, target: Ref)
    requires DistinctIds(db.rows)
    ensures DistinctIds(Delete(db, target).rows)
  {
    if target in db.objects { DetachedRows(db.rows, Doomed(db.objects, target)); }
  }

  /** A hard delete keeps every ledger row with its quantity, status, unit and workspace, keeps every lot that
      is not itself deleted, and NULLs exactly the references to what it deleted. */
  lemma DeletePreservesHistory(db: Db, target: Ref)
    requires target in db.objects && ObjectsIntact(db.objects)
    ensures var next := Delete(db, target);
            var doomed := Doomed(db.objects, target);
            && |next.rows| == |db.rows|
            && (forall i :: 0 <= i < |db.rows| ==>
                  var a, z := db.rows[i], next.rows[i];
                  && z == a.(refs := z.refs)
                  && forall k ::
                       Column(z, k) == if k in a.refs && Ref(k, a.refs[k]) in doomed then None else Column(a, k))
            && (forall r <- db.objects :: r.kind == Lot && r != target ==>
                  r in next.objects && next.objects[r] == db.objects[r].(links := next.objects[r].links))
  {
    DetachedRows(db.rows, Doomed(db.objects, target));
    DoomedIsClosed(db.objects, target);
  }

  /** Total quantity per workspace and status. */
  function Total(rows: seq<LedgerRow>, ws: Id, status: string): int {
    if rows == [] then 0
    else
      var last := rows[|rows| - 1];
      Total(rows[..|rows| - 1], ws, status) + if last.ws == ws && last.status == status then last.qty else 0
  }

  lemma {:induction false} DetachKeepsTotals(rows: seq<LedgerRow>, doomed: set<Ref>, ws: Id, status: string)
    ensures Total(DetachRows(rows, doomed), ws, status) == Total(rows, ws, status)
  {
    if rows != [] {
      DetachKeepsTotals(rows[..|rows| - 1], doomed, ws, status);
      assert DetachRows(rows, doomed)[..|rows| - 1] == DetachRows(rows[..|rows| - 1], doomed) by {
        DetachedRows(rows[..|rows| - 1], doomed);
      }
      DetachedRows(rows, doomed);
    }
  }

  /** No hard delete changes the quantity held in any workspace and status. */
  lemma DeleteConservesQuantity(db: Db, target: Ref, ws: Id, status: string)
    ensures Total(Delete(db, target).rows, ws, status) == Total(db.rows, ws, status)
  {
    if target in db.objects {
      DetachKeepsTotals(db.rows, Doomed(db.objects, target), ws, status);
    }
  }

  // ---------------------------------------------------------------------------
  // Unit changes and new objects
  // ---------------------------------------------------------------------------

  /** The freeze probes only the part's own workspace; that suffices because no row of another workspace can
      name the part. */
  lemma ChangePartUnitKeeps(db: Db, part: Id, unit: string)
    requires Good(db) && ChangePartUnit(db, part, unit).Ok?
    ensures Good(ChangePartUnit(db, part, unit).value)
  {
    var r, next := Ref(Part, part), ChangePartUnit(db, part, unit).value;
    if next != db {
      forall i | 0 <= i < |db.rows| && Part in db.rows[i].refs ensures db.rows[i].refs[Part] != part {
        assert Found(db, Ref(Part, db.rows[i].refs[Part]), db.rows[i].ws);
        assert db.rows[i] in db.rows;
      }
      forall i, k | 0 <= i < |next.rows| && k in next.rows[i].refs
        ensures Found(next, Ref(k, next.rows[i].refs[k]), next.rows[i].ws)
      {
        assert Found(db, Ref(k, db.rows[i].refs[k]), db.rows[i].ws);
      }
      forall q <- next.objects ensures FitsSchema(q, next.objects[q]) {
        assert FitsSchema(q, db.objects[q]);
      }
    }
  }

  lemma AddObjectKeeps(db: Db, r: Ref, o: Object)
    requires Good(db) && FitsSchema(r, o) && AddObject(db, r, o).Ok?
    ensures Good(AddObject(db, r, o).value)
  {
    var next := AddObject(db, r, o).value;
    forall i, k | 0 <= i < |next.rows| && k in next.rows[i].refs
      ensures Found(next, Ref(k, next.rows[i].refs[k]), next.rows[i].ws)
    {
      assert Found(db, Ref(k, db.rows[i].refs[k]), db.rows[i].ws);
    }
    forall q <- next.objects ensures FitsSchema(q, next.objects[q]) {
      if q != r { assert FitsSchema(q, db.objects[q]); }
    }
  }

  // ---------------------------------------------------------------------------
  // Runs
  // ---------------------------------------------------------------------------

  datatype Event =
    | InsertRows(news: seq<LedgerRow>)
    | HardDelete(target: Ref)
    | SetPartUnit(part: Id, unit: string)
    | SetRowUnit(i: nat, unit: string)
    | NewObject(ref: Ref, o: Object)

  predicate Allowed(e: Event) {
    && (e.NewObject? ==> FitsSchema(e.ref, e.o))
    && (e.HardDelete? ==> e.target.kind != Entry)
  }

  /** A statement that raises rolls back. */
  function After(db: Db, e: Event): Db
    requires Allowed(e)
  {
    var outcome := match e
      case InsertRows(news) => Insert(db, news)
      case HardDelete(target) => Ok(Delete(db, target))
      case SetPartUnit(part, unit) => ChangePartUnit(db, part, unit)
      case SetRowUnit(i, unit) => ChangeRowUnit(db, i, unit)
      case NewObject(ref, o) => AddObject(db, ref, o);
    if outcome.Ok? then outcome.value else db
  }

  function Run(db: Db, events: seq<Event>): Db
    requires forall e <- events :: Allowed(e)
  {
    if events == [] then db else After(Run(db, events[..|events| - 1]), events[|events| - 1])
  }

  lemma StepKeeps(db: Db, e: Event)
    requires Good(db) && Allowed(e)
    ensures Good(After(db, e))
  {
    match e
    case InsertRows(news) => if Insert(db, news).Ok? { InsertKeeps(db, news); }
    case HardDelete(target) =>
      DeleteKeepsNonNegative(db, target);
      DeleteKeepsReferences(db, target);
      DeleteKeepsObjects(db, target);
      DeleteKeepsIds(db, target);
    case SetPartUnit(part, unit) => if ChangePartUnit(db, part, unit).Ok? { ChangePartUnitKeeps(db, part, unit); }
    case SetRowUnit(i, unit) =>
    case NewObject(ref, o) => if AddObject(db, ref, o).Ok? { AddObjectKeeps(db, ref, o); }
  }

  const EMPTY := Db(map[], [])

  /** In every reachable state all buckets are non-negative, all references resolve in their own workspace, and
      every row that names a part carries that part's unit. */
  lemma {:induction false} EveryRunIsGood(events: seq<Event>)
    requires forall e <- events :: Allowed(e)
    ensures Good(Run(EMPTY, events))
  {
    if events != [] {
      EveryRunIsGood(events[..|events| - 1]);
      assert events[|events| - 1] in events;
      StepKeeps(Run(EMPTY, events[..|events| - 1]), events[|events| - 1]);
    }
  }

  /** `z` is `a` with some of its references set to NULL. */
  ghost predicate OnlyNulled(a: LedgerRow, z: LedgerRow) {
    && z == a.(refs := z.refs)
    && forall k <- z.refs :: k in a.refs && z.refs[k] == a.refs[k]
  }

  lemma StepKeepsHistory(db: Db, e: Event)
    requires Good(db) && Allowed(e)
    ensures |After(db, e).rows| >= |db.rows|
    ensures forall i :: 0 <= i < |db.rows| ==> OnlyNulled(db.rows[i], After(db, e).rows[i])
  {
    match e
    case InsertRows(news) => if Insert(db, news).Ok? { InsertKeeps(db, news); }
    case HardDelete(target) =>
      if target in db.objects { DetachedRows(db.rows, Doomed(db.objects, target)); }
    case SetPartUnit(part, unit) =>
    case SetRowUnit(i, unit) =>
    case NewObject(ref, o) =>
  }

  /** The ledger is append-only: over every run a row once written keeps its place, id, workspace, quantity,
      status and unit, and its references are only ever set to NULL. */
  lemma {:induction false} HistoryIsFixed(events: seq<Event>, n: nat, i: nat)
    requires n <= |events| && forall e <- events :: Allowed(e)
    requires i < |Run(EMPTY, events[..n]).rows|
    ensures i < |Run(EMPTY, events).rows|
    ensures OnlyNulled(Run(EMPTY, events[..n]).rows[i], Run(EMPTY, events).rows[i])
  {
    if n == |events| {
      assert events[..n] == events;
    } else {
      var init, last := events[..|events| - 1], events[|events| - 1];
      assert init[..n] == events[..n] && last in events;
      HistoryIsFixed(init, n, i);
      EveryRunIsGood(init);
      StepKeepsHistory(Run(EMPTY, init), last);
    }
  }

  /** So no sum over a part's rows ever mixes units. */
  lemma PartSumsAreSingleUnit(events: seq<Event>, i: nat, j: nat)
    requires forall e <- events :: Allowed(e)
    requires var rows := Run(EMPTY, events).rows;
             i < |rows| && j < |rows| && Part in rows[i].refs && Part in rows[j].refs
             && rows[i].refs[Part] == rows[j].refs[Part]
    ensures var rows := Run(EMPTY, events).rows; rows[i].unit == rows[j].unit && rows[i].ws == rows[j].ws
  {
    EveryRunIsGood(events);
    var db := Run(EMPTY, events);
    assert Found(db, Ref(Part, db.rows[i].refs[Part]), db.rows[i].ws);
    assert Found(db, Ref(Part, db.rows[j].refs[Part]), db.rows[j].ws);
  }
}
