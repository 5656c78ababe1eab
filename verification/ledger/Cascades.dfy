/** Inside a hard delete: the row removals and SET NULL updates the engine runs one by one, each update passing
    through the row triggers while other references may already dangle. */
module Cascades {
  import opened Common
  import opened Ledger
  import opened LedgerInvariants

  /** One action of the engine while it deletes `doomed`. */
  datatype Action =
    | Drop(ref: Ref)                      // remove one doomed row
    | Unlink(lot: Ref, k: Kind)           // SET NULL on a lot
    | Nullify(i: nat, k: Kind)            // SET NULL on a ledger row: an UPDATE, so its triggers fire

  function Without(refs: map<Kind, Id>, k: Kind): map<Kind, Id> {
    map j | j in refs && j != k :: refs[j]
  }

  predicate Enabled(db: Db, doomed: set<Ref>, a: Action) {
    match a
    case Drop(r) => r in doomed && r in db.objects
    case Unlink(r, k) => r in db.objects && k in db.objects[r].links && Ref(k, db.objects[r].links[k]) in doomed
    case Nullify(i, k) => i < |db.rows| && k in db.rows[i].refs && Ref(k, db.rows[i].refs[k]) in doomed
  }

  /** What the update triggers of a ledger row answer: 0064's gated branch, then 0076's stage trigger. */
  function UpdateTriggers(db: Db, was: LedgerRow, row: LedgerRow): Option<Violation> {
    if StageCheck(db, Some(was), row).Some? then StageCheck(db, Some(was), row)
    else WorkspaceCheck(db, Some(was), row)
  }

  function Act(db: Db, a: Action, doomed: set<Ref>): Result<Db, Violation>
    requires Enabled(db, doomed, a)
  {
    match a
    case Drop(r) => Ok(db.(objects := db.objects - {r}))
    case Unlink(r, k) =>
      var o := db.objects[r];
      Ok(db.(objects := db.objects[r := o.(links := Without(o.links, k))]))
    case Nullify(i, k) =>
      var row := db.rows[i].(refs := Without(db.rows[i].refs, k));
      var v := UpdateTriggers(db, db.rows[i], row);
      if v.Some? then Err(v.value) else Ok(db.(rows := db.rows[i := row]))
  }

  /** The gated triggers never refuse a SET NULL, whatever else dangles at that moment. */
  lemma SetNullIsNeverRefused(db: Db, a: Action, doomed: set<Ref>)
    requires Enabled(db, doomed, a)
    ensures Act(db, a, doomed).Ok?
  {
    if a.Nullify? {
      var row := db.rows[a.i].(refs := Without(db.rows[a.i].refs, a.k));
      CheckMeans(db, Some(db.rows[a.i]), row, COLUMNS);
      assert forall k :: k in row.refs ==> Column(row, k) == Column(db.rows[a.i], k);
    }
  }

  /** The full re-check refuses one exactly when some other reference of the row does not resolve. */
  lemma FullRecheckRefusesIff(db: Db, was: LedgerRow, k: Kind)
    requires k in was.refs
    ensures var row := was.(refs := Without(was.refs, k));
            FullRecheck(db, Some(was), row).Some? <==>
            exists j <- was.refs :: j != k && j != Stage && !Found(db, Ref(j, was.refs[j]), was.ws)
  {
    var row := was.(refs := Without(was.refs, k));
    CheckMeans(db, None, row, COLUMNS);
    forall j <- was.refs | j != k && j != Stage ensures j in COLUMNS && j in row.refs && row.refs[j] == was.refs[j] {
      AllColumns(j);
    }
    assert Stage !in COLUMNS;
  }

  /** Deleting an order takes its entries along. Should the engine remove the entry first, the row being
      detached from the order still names the entry, and the version before 0058 refuses the whole delete. */
  lemma FullRecheckCanRefuseADelete()
    ensures var order, entry := Ref(Order, 1), Ref(OrderEntry, 2);
            var db := OneReceipt();
            var gone := db.(objects := db.objects - {order, entry});
            var detached := db.rows[0].(refs := Without(db.rows[0].refs, Order));
            && Closed(db) && Doomed(db.objects, order) == {order, entry}
            && FullRecheck(gone, Some(db.rows[0]), detached).Some?
            && UpdateTriggers(gone, db.rows[0], detached).None?
  {
    var order, entry := Ref(Order, 1), Ref(OrderEntry, 2);
    var db := OneReceipt();
    var gone := db.(objects := db.objects - {order, entry});
    OneReceiptIsClosed();
    OneReceiptDooms();
    FullRecheckRefusesIff(gone, db.rows[0], Order);
    assert OrderEntry in db.rows[0].refs && !Found(gone, entry, 7);
    var nullify := Nullify(0, Order);
    assert Enabled(gone, {order, entry}, nullify);
    SetNullIsNeverRefused(gone, nullify, {order, entry});
  }

  /** One ledger row that received a part through an order entry. */
  function OneReceipt(): Db {
    Db(map[Ref(Order, 1) := Object(7, "", None, map[]),
           Ref(OrderEntry, 2) := Object(7, "", Some(Ref(Order, 1)), map[]),
           Ref(Part, 3) := Object(7, "pcs", None, map[])],
       [LedgerRow(9, 7, map[Part := 3, Order := 1, OrderEntry := 2], 1000000, "on_hand", "pcs")])
  }

  lemma OneReceiptIsClosed()
    ensures Closed(OneReceipt())
  {
  }

  lemma OneReceiptDooms()
    ensures Doomed(OneReceipt().objects, Ref(Order, 1)) == {Ref(Order, 1), Ref(OrderEntry, 2)}
  {
  }

  // ---------------------------------------------------------------------------
  // Any order of actions ends in the same place
  // ---------------------------------------------------------------------------

  ghost predicate IsCascade(db: Db, actions: seq<Action>, states: seq<Db>, doomed: set<Ref>) {
    && |states| == |actions| + 1
    && states[0] == db
    && forall i :: 0 <= i < |actions| ==>
         Enabled(states[i], doomed, actions[i]) && Act(states[i], actions[i], doomed) == Ok(states[i + 1])
  }

  /** Nothing doomed is left and nothing names it. */
  ghost predicate Settled(db: Db, doomed: set<Ref>) {
    && (forall r <- doomed :: r !in db.objects)
    && (forall r, k :: r in db.objects && k in db.objects[r].links ==> Ref(k, db.objects[r].links[k]) !in doomed)
    && (forall i, k :: 0 <= i < |db.rows| && k in db.rows[i].refs ==> Ref(k, db.rows[i].refs[k]) !in doomed)
  }

  /** `refs` still has everything of `was` that need not go. */
  ghost predicate Between(was: map<Kind, Id>, refs: map<Kind, Id>, doomed: set<Ref>) {
    && (forall k <- refs :: k in was && refs[k] == was[k])
    && (forall k <- was :: Ref(k, was[k]) !in doomed ==> k in refs)
  }

  ghost predicate Underway(db: Db, now: Db, doomed: set<Ref>) {
    && (forall r <- now.objects :: r in db.objects && now.objects[r] == db.objects[r].(links := now.objects[r].links)
                                     && Between(db.objects[r].links, now.objects[r].links, doomed))
    && (forall r <- db.objects :: r !in doomed ==> r in now.objects)
    && |now.rows| == |db.rows|
    && (forall i :: 0 <= i < |db.rows| ==> now.rows[i] == db.rows[i].(refs := now.rows[i].refs)
                                             && Between(db.rows[i].refs, now.rows[i].refs, doomed))
  }

  lemma {:induction false} CascadeIsUnderway(db: Db, actions: seq<Action>, states: seq<Db>, doomed: set<Ref>, n: nat)
    requires IsCascade(db, actions, states, doomed) && n <= |actions|
    ensures Underway(db, states[n], doomed)
  {
    if n > 0 {
      CascadeIsUnderway(db, actions, states, doomed, n - 1);
      assert Act(states[n - 1], actions[n - 1], doomed) == Ok(states[n]);
      ActKeepsUnderway(db, states[n - 1], actions[n - 1], doomed);
    }
  }

  lemma ActKeepsUnderway(db: Db, now: Db, a: Action, doomed: set<Ref>)
    requires Underway(db, now, doomed) && Enabled(now, doomed, a) && Act(now, a, doomed).Ok?
    ensures Underway(db, Act(now, a, doomed).value, doomed)
  {
  }

  lemma BetweenSettled(was: map<Kind, Id>, refs: map<Kind, Id>, doomed: set<Ref>)
    requires Between(was, refs, doomed)
    requires forall k <- refs :: Ref(k, refs[k]) !in doomed
    ensures refs == Detach(was, doomed)
  {
  }

  /** Whatever order the engine picks, no update is refused on the way and the delete ends in the one state
      `Delete` describes. */
  lemma CascadeIsDelete(db: Db, target: Ref, actions: seq<Action>, states: seq<Db>)
    requires target in db.objects
    requires var doomed := Doomed(db.objects, target);
             IsCascade(db, actions, states, doomed) && Settled(states[|actions|], doomed)
    ensures states[|actions|] == Delete(db, target)
  {
    var doomed, end, goal := Doomed(db.objects, target), states[|actions|], Delete(db, target);
    CascadeIsUnderway(db, actions, states, doomed, |actions|);
    DetachedRows(db.rows, doomed);
    forall i | 0 <= i < |db.rows| ensures end.rows[i] == goal.rows[i] {
      BetweenSettled(db.rows[i].refs, end.rows[i].refs, doomed);
    }
    assert end.rows == goal.rows;
    forall r | r in end.objects ensures r in goal.objects && end.objects[r] == goal.objects[r] {
      BetweenSettled(db.objects[r].links, end.objects[r].links, doomed);
    }
    assert end.objects.Keys == goal.objects.Keys;
    assert end.objects == goal.objects;
  }

  // ---------------------------------------------------------------------------
  // The assumption behind the workspace invariant
  // ---------------------------------------------------------------------------

  /** 0064 lets a bare workspace change through without looking at any reference; 0076 does look at the stage. */
  lemma BareWorkspaceChange(db: Db, was: LedgerRow, ws: Id)
    requires was.ws != ws
    ensures WorkspaceCheck(db, Some(was), was.(ws := ws)).None?
    ensures StageCheck(db, Some(was), was.(ws := ws)).None? <==>
            (Stage in was.refs ==> Found(db, Ref(Stage, was.refs[Stage]), ws))
  {
    CheckMeans(db, Some(was), was.(ws := ws), COLUMNS);
  }

  /** So a bare workspace change goes unnoticed, and it keeps the references closed exactly when the row names
      nothing except possibly itself and no other row names it. */
  lemma WorkspaceChangeKeepsClosedIff(db: Db, i: nat, ws: Id)
    requires Closed(db) && DistinctIds(db.rows) && i < |db.rows| && db.rows[i].ws != ws
    ensures var row := db.rows[i];
            Closed(db.(rows := db.rows[i := row.(ws := ws)])) <==>
            && (forall k <- row.refs :: k == Entry && row.refs[k] == row.id)
            && (forall j :: 0 <= j < |db.rows| && j != i && Entry in db.rows[j].refs ==>
                  db.rows[j].refs[Entry] != row.id)
  {
    var row := db.rows[i];
    var next := db.(rows := db.rows[i := row.(ws := ws)]);
    forall id, w ensures HasRow(next.rows, id, w) <==> if id == row.id then w == ws else HasRow(db.rows, id, w) {
      MovedRowIsFound(db.rows, i, ws, id, w);
    }
    if (forall k <- row.refs :: k == Entry && row.refs[k] == row.id)
       && forall j :: 0 <= j < |db.rows| && j != i && Entry in db.rows[j].refs ==> db.rows[j].refs[Entry] != row.id
    {
      forall j, k | 0 <= j < |next.rows| && k in next.rows[j].refs
        ensures Found(next, Ref(k, next.rows[j].refs[k]), next.rows[j].ws)
      {
        assert Found(db, Ref(k, db.rows[j].refs[k]), db.rows[j].ws);
      }
    } else if k :| k in row.refs && !(k == Entry && row.refs[k] == row.id) {
      assert Found(db, Ref(k, row.refs[k]), row.ws);
      assert next.rows[i].refs[k] == row.refs[k] && !Found(next, Ref(k, row.refs[k]), ws) by {
        if k == Entry { OneWorkspace(db.rows, row.refs[k], row.ws, ws); }
      }
    } else {
      var j :| 0 <= j < |db.rows| && j != i && Entry in db.rows[j].refs && db.rows[j].refs[Entry] == row.id;
      assert Found(db, Ref(Entry, row.id), db.rows[j].ws);
      assert row in db.rows;
      OneWorkspace(db.rows, row.id, db.rows[j].ws, row.ws);
      assert next.rows[j] == db.rows[j] && !Found(next, Ref(Entry, row.id), db.rows[j].ws);
    }
  }

  /** An id is one row's, so it is found in one workspace only. */
  lemma OneWorkspace(rows: seq<LedgerRow>, id: Id, v: Id, w: Id)
    requires DistinctIds(rows) && HasRow(rows, id, v)
    ensures HasRow(rows, id, w) <==> v == w
  {
    var a :| a in rows && a.id == id && a.ws == v;
    if HasRow(rows, id, w) {
      var b :| b in rows && b.id == id && b.ws == w;
      var i :| 0 <= i < |rows| && rows[i] == a;
      var j :| 0 <= j < |rows| && rows[j] == b;
      assert i == j;
    }
  }

  lemma MovedRowIsFound(rows: seq<LedgerRow>, i: nat, ws: Id, id: Id, w: Id)
    requires DistinctIds(rows) && i < |rows|
    ensures HasRow(rows[i := rows[i].(ws := ws)], id, w) <==> if id == rows[i].id then w == ws else HasRow(rows, id, w)
  {
    var next := rows[i := rows[i].(ws := ws)];
    assert next[i] in next;
    if HasRow(next, id, w) {
      var x :| x in next && x.id == id && x.ws == w;
      var j :| 0 <= j < |next| && next[j] == x;
      assert j != i ==> x == rows[j] && rows[j] in rows && x.id != rows[i].id;
    }
    if id != rows[i].id && HasRow(rows, id, w) {
      var x :| x in rows && x.id == id && x.ws == w;
      var j :| 0 <= j < |rows| && rows[j] == x;
      assert next[j] == x && next[j] in next;
    }
  }
}
