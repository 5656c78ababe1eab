/** `paginate`: the older paginator over one column, and how it compares with `paginate_keyset`. */
module Paginate {
  import opened Common
  import opened SortOrder
  import opened SqlLogic
  import opened Cursors
  import opened Keyset
  import opened SeekWalk
  import KW = KeysetWalk

  /** The sort column: `parse` is `datetime.fromisoformat`, on date columns only; `cast` is how the database
      reads a string compared with the column, `None` where it reports an error. */
  datatype Column = Column(parse: Option<string -> Option<Value>>, cast: string -> Option<Value>)

  function TextColumn(): Column { Column(None, s => Some(Text(s))) }

  /** The value a cursor's sort key is compared as. A date that does not parse is left to the database. */
  function Bind(column: Column, s: string): Option<Value> {
    if column.parse.Some? && column.parse.value(s).Some? then column.parse.value(s) else column.cast(s)
  }

  /** `sort_col > v OR (sort_col = v AND id > i)`, or with both comparisons turned round. A NULL bind makes
      every comparison UNKNOWN. */
  function SeekWhere(bind: Key, id: nat, asc: bool): Where {
    Or([if asc then Greater(0, bind) else Less(0, bind),
        And([Equal(0, bind), if asc then IdGreater(id) else IdLess(id)])])
  }

  /** The rows that clause lets through. */
  predicate PlainPast(at: Option<Row>, r: Row, asc: bool) {
    at.None? || (
      && |at.value.keys| == |r.keys| == 1
      && at.value.keys[0].Some? && r.keys[0].Some?
      && if asc then Before(at.value, r, true) else Before(r, at.value, true))
  }

  lemma SeekWhereMeans(bind: Key, id: nat, asc: bool, r: Row)
    requires |r.keys| == 1
    ensures Passes(SeekWhere(bind, id, asc), r) <==> PlainPast(Some(Row([bind], id)), r, asc)
  {
    var past := if asc then Greater(0, bind) else Less(0, bind);
    var onId := if asc then IdGreater(id) else IdLess(id);
    EvalPair(past, And([Equal(0, bind), onId]), r);
    EvalPair(Equal(0, bind), onId, r);
    assert r.keys == [r.keys[0]];
    KeyTotal(bind, r.keys[0], true);
    OneKeyBefore(bind, r.keys[0]);
    OneKeyBefore(r.keys[0], bind);
  }

  lemma EvalPair(a: Where, b: Where, r: Row)
    ensures EvalAll([a, b], r) == And3(Eval(a, r), Eval(b, r))
    ensures EvalAny([a, b], r) == Or3(Eval(a, r), Eval(b, r))
  {
    EvalSnoc([], a, r);
    EvalSnoc([a], b, r);
    assert [] + [a] == [a] && [a] + [b] == [a, b];
  }

  lemma OneKeyBefore(x: Key, y: Key)
    ensures KeysBefore([x], [y], true) <==> KeyBefore(x, y, true)
  {
    KeysBeforeSnoc([], [], x, y, true);
    assert [] + [x] == [x] && [] + [y] == [y];
  }

  function PlainRows(rows: seq<Row>, at: Option<Row>, asc: bool): seq<Row> {
    if rows == [] then []
    else (if PlainPast(at, rows[0], asc) then [rows[0]] else []) + PlainRows(rows[1..], at, asc)
  }

  lemma {:induction false} SelectIsPlain(rows: seq<Row>, at: Option<Row>, where: Option<Where>, asc: bool)
    requires forall r <- rows :: |r.keys| == 1
    requires at.None? ==> where.None?
    requires at.Some? ==> |at.value.keys| == 1 && where == Some(SeekWhere(at.value.keys[0], at.value.id, asc))
    ensures Select(rows, where) == PlainRows(rows, at, asc)
  {
    if rows != [] {
      if at.Some? {
        SeekWhereMeans(at.value.keys[0], at.value.id, asc, rows[0]);
        assert at.value.keys == [at.value.keys[0]];
      }
      SelectIsPlain(rows[1..], at, where, asc);
    }
  }

  function Reverse(rows: seq<Row>): seq<Row> {
    if rows == [] then [] else Reverse(rows[1..]) + [rows[0]]
  }

  /** `ORDER BY sort_col, id` ascending is NULLS LAST; descending turns the whole order round, so NULLs come
      first and ids descend. */
  function PlainOrder(rows: seq<Row>, asc: bool): seq<Row> {
    if asc then OrderBy(rows, true) else Reverse(OrderBy(rows, true))
  }

  function PlainCursorAt(r: Row, env: Env): Cursor
    requires |r.keys| == 1
  {
    Cursor(r.id, if r.keys[0].None? then Null else Str(env.show(r.keys[0].value)), None, None)
  }

  function PlainCut(ordered: seq<Row>, n: nat, env: Env): Page
    requires n > 0 && forall r <- ordered :: |r.keys| == 1
  {
    if |ordered| > n then Page(ordered[..n], Some(EncodeCursor(PlainCursorAt(ordered[n - 1], env), env)))
    else Page(ordered, None)
  }

  /** Where a request starts. A cursor without a sort key becomes `sort_col > None`, which the ORM refuses to
      build; a list is no bind value; a string may not suit the column. None of these faults is translated. */
  function PlainStart(cursor: Option<Cursor>, column: Column): Result<Option<Row>, HttpError> {
    var refusal := RefuseWrongCursor(cursor, false, None);
    if refusal.Some? then Err(refusal.value)
    else if cursor.None? then Ok(None)
    else if !cursor.value.sortKey.Str? then Err(InternalError)
    else
      var bind := Bind(column, cursor.value.sortKey.s);
      if bind.None? then Err(InternalError) else Ok(Some(Row([bind], cursor.value.id)))
  }

  /** What `paginate` answers. */
  ghost predicate Answers(db: seq<Row>, column: Column, cursor: Option<Cursor>, limit: int, asc: bool, env: Env,
                          r: Result<Page, HttpError>)
  {
    match PlainStart(cursor, column)
    case Err(e) => r == Err(e)
    case Ok(at) =>
      var ordered := PlainOrder(PlainRows(db, at, asc), asc);
      (forall x <- ordered :: |x.keys| == 1) && r == Ok(PlainCut(ordered, ClampLimit(limit), env))
  }

  lemma {:induction false} PlainRowsMembers(rows: seq<Row>, at: Option<Row>, asc: bool)
    ensures forall r :: r in PlainRows(rows, at, asc) <==> r in rows && PlainPast(at, r, asc)
  {
    if rows != [] {
      PlainRowsMembers(rows[1..], at, asc);
      assert rows == [rows[0]] + rows[1..];
    }
  }

  lemma {:induction false} ReverseMembers(rows: seq<Row>)
    ensures forall r :: r in Reverse(rows) <==> r in rows
  {
    if rows != [] {
      ReverseMembers(rows[1..]);
      assert rows == [rows[0]] + rows[1..];
    }
  }

  lemma PlainOrderMembers(rows: seq<Row>, asc: bool)
    ensures forall r :: r in PlainOrder(rows, asc) <==> r in rows
  {
    OrderByPermutes(rows, true);
    SameRows(rows, OrderBy(rows, true));
    ReverseMembers(OrderBy(rows, true));
  }

  method CutPlainPage(ordered: seq<Row>, n: nat, env: Env) returns (page: Page)
    requires n > 0 && forall r <- ordered :: |r.keys| == 1
    ensures page == PlainCut(ordered, n, env)
  {
    var rows := ordered[..Min(n + 1, |ordered|)];
    var hasMore := |rows| > n;
    if hasMore {
      rows := rows[..n];
    }
    assert rows == ordered[..Min(n, |ordered|)];
    var next: Option<string> := None;
    if hasMore && rows != [] {
      var last := rows[|rows| - 1];
      assert last == ordered[n - 1];
      var sk := if last.keys[0].None? then Null else Str(env.show(last.keys[0].value));
      next := Some(EncodeCursor(Cursor(last.id, sk, None, None), env));
    }
    return Page(rows, next);
  }

  method PaginateColumn(db: seq<Row>, column: Column, cursor: Option<Cursor>, limit: int, asc: bool, env: Env)
    returns (r: Result<Page, HttpError>)
    requires Table(db, 1)
    ensures Answers(db, column, cursor, limit, asc, env, r)
  {
    var n := ClampLimit(limit);
    var refusal := RefuseWrongCursor(cursor, false, None);
    if refusal.Some? {
      return Err(refusal.value);
    }
    var where: Option<Where> := None;
    ghost var at: Option<Row> := None;
    if cursor.Some? {
      if !cursor.value.sortKey.Str? {
        return Err(InternalError);
      }
      var inflated: Option<Value> := None;
      if column.parse.Some? {
        inflated := column.parse.value(cursor.value.sortKey.s);
      }
      var bind := if inflated.Some? then inflated else column.cast(cursor.value.sortKey.s);
      if bind.None? {
        return Err(InternalError);
      }
      where := Some(SeekWhere(bind, cursor.value.id, asc));
      at := Some(Row([bind], cursor.value.id));
    }
    SelectIsPlain(db, at, where, asc);
    var selected := Select(db, where);
    PlainRowsMembers(db, at, asc);
    PlainOrderMembers(selected, asc);
    var ordered := PlainOrder(selected, asc);
    var page := CutPlainPage(ordered, n, env);
    return Ok(page);
  }

  // ---------------------------------------------------------------------------
  // Tokens and positions
  // ---------------------------------------------------------------------------

  ghost predicate PlainServes(db: seq<Row>, column: Column, token: Option<string>, limit: int, asc: bool, env: Env,
                              page: Page)
  {
    if token.None? then Answers(db, column, None, limit, asc, env, Ok(page))
    else
      && DecodeCursor(token.value, env).Ok?
      && Answers(db, column, Some(DecodeCursor(token.value, env).value), limit, asc, env, Ok(page))
  }

  /** A minted sort key is compared as the sort value it was minted from: `str` and the database's cast undo each
      other on text and numbers, `isoformat` and `fromisoformat` on dates. */
  predicate Binds(r: Row, column: Column, env: Env) {
    |r.keys| == 1 && (r.keys[0].Some? ==> Bind(column, env.show(r.keys[0].value)) == r.keys[0])
  }

  ghost predicate ColumnTable(db: seq<Row>, column: Column, env: Env) {
    Table(db, 1) && forall r <- db :: Binds(r, column, env)
  }

  ghost predicate NoNulls(db: seq<Row>) {
    forall r <- db :: |r.keys| == 1 && r.keys[0].Some?
  }

  function PlainTokenAt(r: Row, env: Env): string
    requires |r.keys| == 1
  {
    EncodeCursor(PlainCursorAt(r, env), env)
  }

  /** The token names a position: none at the top, otherwise a row with a sort value. */
  ghost predicate PlainNames(token: Option<string>, at: Option<Row>, column: Column, env: Env) {
    if at.None? then token.None?
    else Binds(at.value, column, env) && at.value.keys[0].Some? && token == Some(PlainTokenAt(at.value, env))
  }

  /** A token minted at a NULL row makes the next request fail, whatever the table holds by then. */
  lemma NullTokenFails(r: Row, column: Column, db: seq<Row>, limit: int, asc: bool, env: Env, page: Page)
    requires Lawful(env) && r.keys == [None]
    ensures !PlainServes(db, column, Some(PlainTokenAt(r, env)), limit, asc, env, page)
  {
    CursorRoundTrip(PlainCursorAt(r, env), env);
  }

  /** What is left of the table at a position, in the order emitted. */
  function PlainRest(db: seq<Row>, at: Option<Row>, asc: bool): seq<Row> {
    PlainOrder(PlainRows(db, at, asc), asc)
  }

  /** One step of a walk with `paginate`. */
  lemma PlainStep(db: seq<Row>, token: Option<string>, at: Option<Row>, limit: int, asc: bool, column: Column, env: Env,
                  page: Page)
    requires Lawful(env) && ColumnTable(db, column, env) && PlainNames(token, at, column, env)
    requires PlainServes(db, column, token, limit, asc, env, page)
    ensures var n, rest := ClampLimit(limit), PlainRest(db, at, asc);
            && page.rows == rest[..Min(n, |rest|)]
            && (page.next.Some? <==> |rest| > n)
            && (page.next.Some? ==> Binds(rest[n - 1], column, env)
                                    && page.next == Some(PlainTokenAt(rest[n - 1], env)))
  {
    if at.Some? { CursorRoundTrip(PlainCursorAt(at.value, env), env); }
    var rest := PlainRest(db, at, asc);
    PlainRowsMembers(db, at, asc);
    PlainOrderMembers(PlainRows(db, at, asc), asc);
    if at.Some? { assert at.value.keys == [at.value.keys[0]]; }
    assert page == PlainCut(rest, ClampLimit(limit), env);
    if |rest| > ClampLimit(limit) { assert rest[ClampLimit(limit) - 1] in rest; }
  }

  /** From a position it always answers. */
  lemma PlainServed(db: seq<Row>, token: Option<string>, at: Option<Row>, limit: int, asc: bool, column: Column,
                    env: Env)
    returns (page: Page)
    requires Lawful(env) && ColumnTable(db, column, env) && PlainNames(token, at, column, env)
    ensures PlainServes(db, column, token, limit, asc, env, page)
  {
    if at.Some? { CursorRoundTrip(PlainCursorAt(at.value, env), env); }
    PlainRowsMembers(db, at, asc);
    PlainOrderMembers(PlainRows(db, at, asc), asc);
    if at.Some? { assert at.value.keys == [at.value.keys[0]]; }
    page := PlainCut(PlainRest(db, at, asc), ClampLimit(limit), env);
  }

  lemma {:induction false} NoPlainSeek(db: seq<Row>, asc: bool)
    ensures PlainRows(db, None, asc) == db
  {
    if db != [] { NoPlainSeek(db[1..], asc); }
  }

  /** Without NULLs the two seek clauses let through the same rows. */
  lemma {:induction false} SameRest(db: seq<Row>, at: Option<Row>)
    requires NoNulls(db) && (at.Some? ==> |at.value.keys| == 1 && at.value.keys[0].Some?)
    ensures PlainRows(db, at, true) == RowsAfter(db, at, true)
  {
    if db != [] {
      assert db[0] in db;
      SameRest(db[1..], at);
    }
  }

  /** The smallest loss: two rows, the second NULL, one row to a page. `paginate` hands out a token after the
      first row and then has nothing to show; `paginate_keyset` shows both. */
  lemma NullRowIsLost(env: Env)
    requires Lawful(env)
    ensures var db := [Row([Some(Text("a"))], 1), Row([None], 2)];
            && OrderBy(db, true) == db
            && PlainRest(db, Some(db[0]), true) == []
            && Rest(db, Some(db[0]), true) == [db[1]]
  {
    var db := [Row([Some(Text("a"))], 1), Row([None], 2)];
    assert db[1..] == [db[1]] && db[1..][1..] == [];
    assert OrderBy(db[1..], true) == Place(db[1], OrderBy(db[1..][1..], true), true) == [db[1]];
    assert KeyBefore(db[0].keys[0], db[1].keys[0], true);
    OrderIsTotal(db[0], db[0], true);
    assert RowsAfter(db[1..], Some(db[0]), true) == [db[1]];
    assert RowsAfter(db, Some(db[0]), true) == [db[1]];
    assert PlainRows(db[1..], Some(db[0]), true) == [];
    assert PlainRows(db, Some(db[0]), true) == [];
  }
}
