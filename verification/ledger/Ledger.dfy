/** The stock ledger's tables and its trigger rules. */
module Ledger {
  import opened Common

  type Id = nat

  /** What a ledger row can point at; one column of `stock_entries` each. `Entry` is the ledger itself. */
  datatype Kind = Part | Lot | Storage | Entry | Order | OrderEntry | Project | Build | Stage

  datatype Ref = Ref(kind: Kind, id: Id)

  /** A row of a referenced table. `unit` is read on parts only. `parent` is the ON DELETE CASCADE column
      (order of an order entry, project of a build, build of a stage); `links` are a lot's ON DELETE SET NULL
      columns. */
  datatype Object = Object(ws: Id, unit: string, parent: Option<Ref>, links: map<Kind, Id>)

  /** A ledger row: an absent key in `refs` is a NULL column; `qty` is `quantity_delta` in millionths. */
  datatype LedgerRow = LedgerRow(id: Id, ws: Id, refs: map<Kind, Id>, qty: int, status: string, unit: string)

  datatype Db = Db(objects: map<Ref, Object>, rows: seq<LedgerRow>)

  datatype Violation =
    | PartRequired
    | NotInWorkspace(kind: Kind)
    | UnitMismatch
    | UnitImmutable
    | PartUnitFrozen
    | NegativeBalance
    | DuplicateKey
    | MissingParent

  // ---------------------------------------------------------------------------
  // Buckets
  // ---------------------------------------------------------------------------

  const PLACE: set<Kind> := {Part, Lot, Storage}

  /** The (workspace, part, lot, storage, status) tuple; NULL columns are absent from `place`. */
  datatype Bucket = Bucket(ws: Id, status: string, place: map<Kind, Id>)

  function BucketOf(row: LedgerRow): Bucket {
    Bucket(row.ws, row.status, map k | k in row.refs && k in PLACE :: row.refs[k])
  }

  function Sum(rows: seq<LedgerRow>, b: Bucket): int {
    if rows == [] then 0
    else Sum(rows[..|rows| - 1], b) + if BucketOf(rows[|rows| - 1]) == b then rows[|rows| - 1].qty else 0
  }

  ghost predicate NonNegative(rows: seq<LedgerRow>) {
    forall b: Bucket :: Sum(rows, b) >= 0
  }

  // ---------------------------------------------------------------------------
  // Workspace-reference triggers
  // ---------------------------------------------------------------------------

  predicate HasRow(rows: seq<LedgerRow>, id: Id, ws: Id) {
    exists row <- rows :: row.id == id && row.ws == ws
  }

  /** `PERFORM 1 FROM <table> WHERE id = r AND workspace_id = ws`. */
  predicate Found(db: Db, r: Ref, ws: Id) {
    if r.kind == Entry then HasRow(db.rows, r.id, ws) else r in db.objects && db.objects[r].ws == ws
  }

  /** The columns `check_stock_entries_workspace_fks` walks through, in its order. */
  const COLUMNS: seq<Kind> := [Part, Lot, Storage, Entry, Order, OrderEntry, Project, Build]

  function Column(row: LedgerRow, k: Kind): Option<Id> {
    if k in row.refs then Some(row.refs[k]) else None
  }

  /** The first of `columns` that is due, not NULL and not found in the row's workspace. */
  function FirstDangling(db: Db, was: Option<LedgerRow>, row: LedgerRow, columns: seq<Kind>): Option<Violation> {
    if columns == [] then None
    else
      var k := columns[0];
      var due := was.None? || Column(row, k) != Column(was.value, k);
      if due && k in row.refs && !Found(db, Ref(k, row.refs[k]), row.ws) then Some(NotInWorkspace(k))
      else FirstDangling(db, was, row, columns[1..])
  }

  /** 0064: every reference on INSERT (`was` absent), only the changed ones on UPDATE. */
  function WorkspaceCheck(db: Db, was: Option<LedgerRow>, row: LedgerRow): Option<Violation> {
    if was.None? && Part !in row.refs then Some(PartRequired)
    else FirstDangling(db, was, row, COLUMNS)
  }

  /** 0056, which 0058 replaced: every reference, whatever the operation. */
  function FullRecheck(db: Db, was: Option<LedgerRow>, row: LedgerRow): Option<Violation> {
    if was.None? && Part !in row.refs then Some(PartRequired)
    else FirstDangling(db, None, row, COLUMNS)
  }

  /** 0076: the stage reference, on INSERT, when it changes, or when the workspace changes. */
  function StageCheck(db: Db, was: Option<LedgerRow>, row: LedgerRow): Option<Violation> {
    if && Stage in row.refs
       && (was.None? || Column(row, Stage) != Column(was.value, Stage) || row.ws != was.value.ws)
       && !Found(db, Ref(Stage, row.refs[Stage]), row.ws)
    then Some(NotInWorkspace(Stage)) else None
  }

  // ---------------------------------------------------------------------------
  // Unit and balance triggers
  // ---------------------------------------------------------------------------

  /** 0077: silent on a NULL part and on a part that is not in the row's workspace. */
  function UnitCheck(db: Db, row: LedgerRow): Option<Violation> {
    if Part !in row.refs then None
    else if !Found(db, Ref(Part, row.refs[Part]), row.ws) then None
    else if row.unit != db.objects[Ref(Part, row.refs[Part])].unit then Some(UnitMismatch)
    else None
  }

  /** `part_id = NEW.part_id` is never TRUE of NULLs; lot and storage use IS NOT DISTINCT FROM. */
  predicate SameTuple(row: LedgerRow, added: LedgerRow) {
    && row.ws == added.ws && row.status == added.status
    && Part in row.refs && Part in added.refs && row.refs[Part] == added.refs[Part]
    && Column(row, Lot) == Column(added, Lot) && Column(row, Storage) == Column(added, Storage)
  }

  /** The re-aggregated balance of 0013. */
  function Balance(rows: seq<LedgerRow>, added: LedgerRow): int {
    if rows == [] then 0
    else Balance(rows[..|rows| - 1], added)
         + if SameTuple(rows[|rows| - 1], added) then rows[|rows| - 1].qty else 0
  }

  /** For a row that names a part the trigger's tuple is the row's bucket. */
  lemma {:induction false} BalanceIsBucketSum(rows: seq<LedgerRow>, added: LedgerRow)
    requires Part in added.refs
    ensures Balance(rows, added) == Sum(rows, BucketOf(added))
  {
    if rows != [] {
      var last := rows[|rows| - 1];
      BalanceIsBucketSum(rows[..|rows| - 1], added);
      SameTupleIsSameBucket(last, added);
    }
  }

  lemma SameTupleIsSameBucket(row: LedgerRow, added: LedgerRow)
    requires Part in added.refs
    ensures SameTuple(row, added) <==> BucketOf(row) == BucketOf(added)
  {
    var a, b := BucketOf(row).place, BucketOf(added).place;
    if a == b {
      assert Part in b;
      assert Part in a && a[Part] == b[Part];
      assert Lot in a <==> Lot in b;
      assert Storage in a <==> Storage in b;
      if Lot in a { assert a[Lot] == b[Lot]; }
      if Storage in a { assert a[Storage] == b[Storage]; }
    }
    if SameTuple(row, added) {
      forall k ensures k in a <==> k in b {
        if k == Lot { assert Column(row, Lot) == Column(added, Lot); }
        if k == Storage { assert Column(row, Storage) == Column(added, Storage); }
      }
      assert a == b;
    }
  }

  // ---------------------------------------------------------------------------
  // Statements
  // ---------------------------------------------------------------------------

  /** BEFORE INSERT row triggers, in name order. */
  function BeforeInsert(db: Db, row: LedgerRow): Option<Violation> {
    if StageCheck(db, None, row).Some? then StageCheck(db, None, row)
    else if UnitCheck(db, row).Some? then UnitCheck(db, row)
    else WorkspaceCheck(db, None, row)
  }

  predicate HasId(rows: seq<LedgerRow>, id: Id) {
    exists row <- rows :: row.id == id
  }

  /** The rows of one INSERT go in one by one, each past its BEFORE triggers and the primary key. */
  function InsertAll(db: Db, news: seq<LedgerRow>): Result<Db, Violation>
    decreases |news|
  {
    if news == [] then Ok(db)
    else if BeforeInsert(db, news[0]).Some? then Err(BeforeInsert(db, news[0]).value)
    else if HasId(db.rows, news[0].id) then Err(DuplicateKey)
    else InsertAll(db.(rows := db.rows + [news[0]]), news[1..])
  }

  /** AFTER INSERT FOR EACH ROW: every tuple the statement touched is re-aggregated. */
  predicate BalancesHold(rows: seq<LedgerRow>, news: seq<LedgerRow>) {
    forall row <- news :: Balance(rows, row) >= 0
  }

  function Insert(db: Db, news: seq<LedgerRow>): Result<Db, Violation> {
    match InsertAll(db, news)
    case Err(v) => Err(v)
    case Ok(next) => if BalancesHold(next.rows, news) then Ok(next) else Err(NegativeBalance)
  }

  /** UPDATE parts SET unit_of_measure: refused once the part's workspace holds a ledger row for it. */
  predicate HasLedgerRows(rows: seq<LedgerRow>, part: Id, ws: Id) {
    exists row <- rows :: row.ws == ws && Part in row.refs && row.refs[Part] == part
  }

  function ChangePartUnit(db: Db, part: Id, unit: string): Result<Db, Violation> {
    var r := Ref(Part, part);
    if r !in db.objects || db.objects[r].unit == unit then Ok(db)
    else if HasLedgerRows(db.rows, part, db.objects[r].ws) then Err(PartUnitFrozen)
    else Ok(db.(objects := db.objects[r := db.objects[r].(unit := unit)]))
  }

  /** UPDATE stock_entries SET unit. */
  function ChangeRowUnit(db: Db, i: nat, unit: string): Result<Db, Violation> {
    if i >= |db.rows| || db.rows[i].unit == unit then Ok(db) else Err(UnitImmutable)
  }

  function ParentKind(k: Kind): Option<Kind> {
    match k
    case OrderEntry => Some(Order)
    case Build => Some(Project)
    case Stage => Some(Build)
    case _ => None
  }

  predicate FitsSchema(r: Ref, o: Object) {
    && r.kind != Entry
    && (ParentKind(r.kind).None? <==> o.parent.None?)
    && (o.parent.Some? ==> Some(o.parent.value.kind) == ParentKind(r.kind))
    && (r.kind != Lot ==> o.links == map[])
    && Entry !in o.links
  }

  /** Creating a referenced object: foreign keys hold, and a stage's build is in its workspace. */
  function AddObject(db: Db, r: Ref, o: Object): Result<Db, Violation>
    requires FitsSchema(r, o)
  {
    if r in db.objects then Err(DuplicateKey)
    else if r.kind == Stage && !Found(db, o.parent.value, o.ws) then Err(NotInWorkspace(Stage))
    else if o.parent.Some? && o.parent.value !in db.objects then Err(MissingParent)
    else if exists k <- o.links :: Ref(k, o.links[k]) !in db.objects then Err(MissingParent)
    else Ok(db.(objects := db.objects[r := o]))
  }

  // ---------------------------------------------------------------------------
  // Hard deletes
  // ---------------------------------------------------------------------------

  /** ON DELETE CASCADE, at most two levels deep: project, its builds, their stages. */
  predicate GoesWith(objects: map<Ref, Object>, r: Ref, target: Ref) {
    r in objects && (
      || r == target
      || (objects[r].parent.Some? && (
            var p := objects[r].parent.value;
            p == target || (p in objects && objects[p].parent == Some(target)))))
  }

  function Doomed(objects: map<Ref, Object>, target: Ref): set<Ref> {
    set r | r in objects && GoesWith(objects, r, target)
  }

  /** ON DELETE SET NULL on the columns that named a deleted object. */
  function Detach(refs: map<Kind, Id>, doomed: set<Ref>): map<Kind, Id> {
    map k | k in refs && Ref(k, refs[k]) !in doomed :: refs[k]
  }

  function DetachRow(row: LedgerRow, doomed: set<Ref>): LedgerRow {
    row.(refs := Detach(row.refs, doomed))
  }

  function DetachRows(rows: seq<LedgerRow>, doomed: set<Ref>): seq<LedgerRow> {
    if rows == [] then [] else DetachRows(rows[..|rows| - 1], doomed) + [DetachRow(rows[|rows| - 1], doomed)]
  }

  /** What a hard delete leaves once every cascade has run. */
  function Delete(db: Db, target: Ref): Db {
    if target !in db.objects then db
    else
      var doomed := Doomed(db.objects, target);
      Db(map r | r in db.objects && r !in doomed :: db.objects[r].(links := Detach(db.objects[r].links, doomed)),
         DetachRows(db.rows, doomed))
  }
}
