/** `paginate_keyset`: the seek predicate, one page, and the next cursor. */
module Keyset {
  import opened Common
  import opened SortOrder
  import opened SqlLogic
  import opened Cursors

  const MAX_PAGE_LIMIT := 200

  /** The entities of one response, each with its sort values, and the next cursor token. */
  datatype Page = Page(rows: seq<Row>, next: Option<string>)

  function ClampLimit(limit: int): (n: nat) { Min(Max(limit, 1), MAX_PAGE_LIMIT) }

  // ---------------------------------------------------------------------------
  // The seek predicate
  // ---------------------------------------------------------------------------

  function StrictlyAfter(col: nat, bind: Key, asc: bool): Where {
    if bind.None? then Falsum
    else Or([if asc then Greater(col, bind) else Less(col, bind), IsNull(col)])
  }

  function SameAs(col: nat, bind: Key): Where {
    if bind.None? then IsNull(col) else Equal(col, bind)
  }

  lemma StrictlyAfterMeans(col: nat, bind: Key, asc: bool, r: Row)
    ensures Passes(StrictlyAfter(col, bind, asc), r) <==> KeyBefore(bind, Cell(r, col), asc)
    ensures Passes(SameAs(col, bind), r) <==> Cell(r, col) == bind
  {
    if bind.Some? {
      var one := if asc then Greater(col, bind) else Less(col, bind);
      assert [one, IsNull(col)][..1] == [one];
      assert EvalAny([one], r) == Or3(EvalAny([one][..0], r), Eval(one, r));
      assert EvalAny([one, IsNull(col)], r) == Or3(EvalAny([one], r), Eval(IsNull(col), r));
    }
  }

  lemma EvalSnoc(ws: seq<Where>, w: Where, r: Row)
    ensures EvalAll(ws + [w], r) == And3(EvalAll(ws, r), Eval(w, r))
    ensures EvalAny(ws + [w], r) == Or3(EvalAny(ws, r), Eval(w, r))
  {
    assert (ws + [w])[..|ws + [w]| - 1] == ws;
  }

  /** Lexicographic order one column further: decided already, or tied so far and decided by this column. */
  lemma {:induction false} KeysBeforeSnoc(a: seq<Key>, b: seq<Key>, x: Key, y: Key, asc: bool)
    requires |a| == |b|
    ensures KeysBefore(a + [x], b + [y], asc) <==> KeysBefore(a, b, asc) || (a == b && KeyBefore(x, y, asc))
  {
    var ax, bx := a + [x], b + [y];
    if a != [] {
      assert ax[1..] == a[1..] + [x] && bx[1..] == b[1..] + [y];
      assert a == [a[0]] + a[1..] && b == [b[0]] + b[1..];
      KeysBeforeSnoc(a[1..], b[1..], x, y, asc);
    } else {
      assert ax[1..] == [] && bx[1..] == [];
    }
  }

  /** The OR-of-ANDs: `after(c1) OR (c1 = s1 AND after(c2)) OR ... OR (all equal AND id > s_id)`.
      Under three-valued logic it is TRUE exactly on the rows after the cursor in the emitted order. */
  method SeekPredicate(seek: seq<Key>, id: nat, asc: bool) returns (where: Where)
    ensures forall r: Row :: |r.keys| == |seek| ==> (Passes(where, r) <==> Before(Row(seek, id), r, asc))
  {
    var legs: seq<Where> := [];
    var prefix: seq<Where> := [];
    for i := 0 to |seek|
      invariant forall r: Row :: |r.keys| == |seek| ==>
                                   (EvalAll(prefix, r) == True <==> r.keys[..i] == seek[..i])
      invariant forall r: Row :: |r.keys| == |seek| ==>
                                   (EvalAny(legs, r) == True <==> KeysBefore(seek[..i], r.keys[..i], asc))
    {
      var leg := And(prefix + [StrictlyAfter(i, seek[i], asc)]);
      forall r: Row | |r.keys| == |seek|
        ensures EvalAny(legs + [leg], r) == True <==> KeysBefore(seek[..i + 1], r.keys[..i + 1], asc)
        ensures EvalAll(prefix + [SameAs(i, seek[i])], r) == True <==> r.keys[..i + 1] == seek[..i + 1]
      {
        NextLeg(legs, prefix, seek, i, asc, r);
      }
      legs := legs + [leg];
      prefix := prefix + [SameAs(i, seek[i])];
    }
    var last := And(prefix + [IdGreater(id)]);
    where := Or(legs + [last]);
    forall r: Row | |r.keys| == |seek| ensures Passes(where, r) <==> Before(Row(seek, id), r, asc) {
      assert seek[..|seek|] == seek && r.keys[..|seek|] == r.keys;
      LastLeg(legs, prefix, seek, id, asc, r);
    }
  }

  /** One turn of the loop, on one row. */
  lemma NextLeg(legs: seq<Where>, prefix: seq<Where>, seek: seq<Key>, i: nat, asc: bool, r: Row)
    requires |r.keys| == |seek| && i < |seek|
    requires EvalAll(prefix, r) == True <==> r.keys[..i] == seek[..i]
    requires EvalAny(legs, r) == True <==> KeysBefore(seek[..i], r.keys[..i], asc)
    ensures EvalAny(legs + [And(prefix + [StrictlyAfter(i, seek[i], asc)])], r) == True
            <==> KeysBefore(seek[..i + 1], r.keys[..i + 1], asc)
    ensures EvalAll(prefix + [SameAs(i, seek[i])], r) == True <==> r.keys[..i + 1] == seek[..i + 1]
  {
    EvalSnoc(prefix, StrictlyAfter(i, seek[i], asc), r);
    EvalSnoc(legs, And(prefix + [StrictlyAfter(i, seek[i], asc)]), r);
    EvalSnoc(prefix, SameAs(i, seek[i]), r);
    StrictlyAfterMeans(i, seek[i], asc, r);
    KeysBeforeSnoc(seek[..i], r.keys[..i], seek[i], r.keys[i], asc);
    assert seek[..i + 1] == seek[..i] + [seek[i]] && r.keys[..i + 1] == r.keys[..i] + [r.keys[i]];
  }

  lemma LastLeg(legs: seq<Where>, prefix: seq<Where>, seek: seq<Key>, id: nat, asc: bool, r: Row)
    requires EvalAll(prefix, r) == True <==> r.keys == seek
    requires EvalAny(legs, r) == True <==> KeysBefore(seek, r.keys, asc)
    ensures Passes(Or(legs + [And(prefix + [IdGreater(id)])]), r) <==> Before(Row(seek, id), r, asc)
  {
    EvalSnoc(prefix, IdGreater(id), r);
    EvalSnoc(legs, And(prefix + [IdGreater(id)]), r);
  }

  // ---------------------------------------------------------------------------
  // One request
  // ---------------------------------------------------------------------------

  function ShowKeys(keys: seq<Key>, env: Env): (out: seq<Option<string>>)
    ensures |out| == |keys|
    ensures forall i :: 0 <= i < |keys| ==> out[i] == ShowKey(keys[i], env)
  {
    seq(|keys|, i requires 0 <= i < |keys| => ShowKey(keys[i], env))
  }

  /** The cursor that names a row's place in the listing. */
  function CursorAt(r: Row, scope: Option<string>, env: Env): Cursor {
    Cursor(r.id, Null, Some(ShowKeys(r.keys, env)), scope)
  }

  function DecodeKeys(raw: seq<Option<string>>, decoders: Option<seq<Decoder>>, width: nat)
    : (r: Result<seq<Key>, HttpError>)
    requires decoders.Some? ==> |decoders.value| == width
    ensures r.Ok? ==> |raw| == |r.value| == width
    ensures r.Ok? ==> forall i :: 0 <= i < width ==> DecodeKey(decoders, i, raw[i]) == Some(r.value[i])
  {
    if |raw| != width then Err(CursorMismatch)
    else if exists i :: 0 <= i < width && DecodeKey(decoders, i, raw[i]).None? then Err(MalformedCursor)
    else Ok(seq(width, i requires 0 <= i < width => DecodeKey(decoders, i, raw[i]).value))
  }

  /** Where a request starts: at the top, just after a row, or refused. */
  function StartOf(cursor: Option<Cursor>, decoders: Option<seq<Decoder>>, width: nat, scope: Option<string>)
    : Result<Option<Row>, HttpError>
    requires decoders.Some? ==> |decoders.value| == width
  {
    var refusal := RefuseWrongCursor(cursor, true, scope);
    if refusal.Some? then Err(refusal.value)
    else if cursor.None? then Ok(None)
    else
      match DecodeKeys(cursor.value.sortKeys.value, decoders, width)
      case Ok(keys) => Ok(Some(Row(keys, cursor.value.id)))
      case Err(e) => Err(e)
  }

  /** The first `n` of the ordered rows, and a cursor at the last of them exactly when rows remain. */
  function CutAt(ordered: seq<Row>, n: nat, scope: Option<string>, env: Env): Page
    requires n > 0
  {
    if |ordered| > n then Page(ordered[..n], Some(EncodeCursor(CursorAt(ordered[n - 1], scope, env), env)))
    else Page(ordered, None)
  }

  /** The page after a position. */
  function PageAfter(db: seq<Row>, at: Option<Row>, limit: int, asc: bool, scope: Option<string>, env: Env): Page {
    CutAt(OrderBy(RowsAfter(db, at, asc), asc), ClampLimit(limit), scope, env)
  }

  function Response(db: seq<Row>, width: nat, cursor: Option<Cursor>, limit: int, asc: bool,
                    decoders: Option<seq<Decoder>>, scope: Option<string>, env: Env): Result<Page, HttpError>
    requires decoders.Some? ==> |decoders.value| == width
  {
    match StartOf(cursor, decoders, width, scope)
    case Ok(at) => Ok(PageAfter(db, at, limit, asc, scope, env))
    case Err(e) => Err(e)
  }

  /** `stmt.where(or_(*legs))` for a cursor, then the rows it lets through. */
  method SeekRows(db: seq<Row>, width: nat, raw: seq<Option<string>>, id: nat, asc: bool,
                  decoders: Option<seq<Decoder>>)
    returns (r: Result<seq<Row>, HttpError>)
    requires Table(db, width)
    requires decoders.Some? ==> |decoders.value| == width
    ensures var d := DecodeKeys(raw, decoders, width);
            r == if d.Ok? then Ok(RowsAfter(db, Some(Row(d.value, id)), asc)) else Err(d.error)
  {
    var decoded := DecodedSeek(raw, decoders, width);
    if decoded.Err? {
      return Err(decoded.error);
    }
    var seek := decoded.value;
    assert seek == DecodeKeys(raw, decoders, width).value;
    var where := SeekPredicate(seek, id, asc);
    SelectIsSeek(db, where, Row(seek, id), width, asc);
    return Ok(Select(db, Some(where)));
  }

  /** `limit + 1` rows fetched; the extra one only says that more remain. */
  method CutPage(ordered: seq<Row>, n: nat, scope: Option<string>, env: Env) returns (page: Page)
    requires n > 0
    ensures page == CutAt(ordered, n, scope, env)
  {
    var rows := ordered[..Min(n + 1, |ordered|)];
    var hasMore := |rows| > n;
    if hasMore {
      rows := rows[..n];
    }
    assert rows == ordered[..Min(n, |ordered|)];
    var next: Option<string> := None;
    if hasMore && rows != [] {
      var last := rows[|rows| - 1];
      next := Some(EncodeCursor(Cursor(last.id, Null, Some(ShowKeys(last.keys, env)), scope), env));
    }
    return Page(rows, next);
  }

  method PaginateKeyset(db: seq<Row>, width: nat, cursor: Option<Cursor>, limit: int, asc: bool,
                        decoders: Option<seq<Decoder>>, scope: Option<string>, env: Env)
    returns (r: Result<Page, HttpError>)
    requires Table(db, width)
    requires decoders.Some? ==> |decoders.value| == width
    ensures r == Response(db, width, cursor, limit, asc, decoders, scope, env)
  {
    var n := ClampLimit(limit);
    var refusal := RefuseWrongCursor(cursor, true, scope);
    if refusal.Some? {
      return Err(refusal.value);
    }
    var selected := db;
    if cursor.Some? && cursor.value.sortKeys.Some? {
      var found := SeekRows(db, width, cursor.value.sortKeys.value, cursor.value.id, asc, decoders);
      if found.Err? {
        return Err(found.error);
      }
      selected := found.value;
    } else {
      NoSeek(db, asc);
    }
    var page := CutPage(OrderBy(selected, asc), n, scope, env);
    return Ok(page);
  }

  lemma {:induction false} NoSeek(db: seq<Row>, asc: bool)
    ensures RowsAfter(db, None, asc) == db
  {
    if db != [] { NoSeek(db[1..], asc); }
  }
}
