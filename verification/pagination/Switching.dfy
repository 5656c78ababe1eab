/** A client that changes sort, direction or paginator in the middle of a listing. */
module Switching {
  import opened Common
  import opened SortOrder
  import opened Cursors
  import opened Keyset
  import opened SeekWalk
  import KW = KeysetWalk
  import P = Paginate
  import W = PlainWalk

  /** What a request asks for: a keyset listing, or `paginate` over a column. */
  datatype Asked = ByKeyset(l: KW.Listing) | ByColumn(column: P.Column, asc: bool)

  ghost predicate Serves(asked: Asked, q: KW.Request, token: Option<string>, env: Env, page: Page) {
    match asked
    case ByKeyset(l) => KW.WellFormed(l) && KW.Suits(q.db, l, env) && KW.Serve(q.db, l, token, q.limit, env) == Ok(page)
    case ByColumn(column, asc) =>
      P.ColumnTable(q.db, column, env) && P.PlainServes(q.db, column, token, q.limit, asc, env, page)
  }

  /** Requests chained by tokens, every one accepted, each free to ask for something else. */
  ghost predicate IsChain(requests: seq<KW.Request>, asked: seq<Asked>, pages: seq<Page>, token: Option<string>,
                          env: Env)
  {
    && |requests| == |asked| == |pages| > 0
    && Serves(asked[0], requests[0], token, env, pages[0])
    && (|pages| > 1 ==> pages[0].next.Some? && IsChain(requests[1..], asked[1..], pages[1..], pages[0].next, env))
  }

  // ---------------------------------------------------------------------------
  // What is refused
  // ---------------------------------------------------------------------------

  lemma KeysetRefusesColumnToken(db: seq<Row>, l: KW.Listing, r: Row, limit: int, env: Env)
    requires KW.WellFormed(l) && Lawful(env) && |r.keys| == 1
    ensures KW.Serve(db, l, Some(P.PlainTokenAt(r, env)), limit, env) == Err(CursorMismatch)
  {
    CursorRoundTrip(P.PlainCursorAt(r, env), env);
  }

  lemma ColumnRefusesKeysetToken(db: seq<Row>, column: P.Column, asc: bool, l: KW.Listing, r: Row, limit: int, env: Env,
                                 answer: Result<Page, HttpError>)
    requires Lawful(env)
    ensures DecodeCursor(KW.TokenAt(r, l, env), env).Ok?
    ensures var c := DecodeCursor(KW.TokenAt(r, l, env), env).value;
            P.Answers(db, column, Some(c), limit, asc, env, answer) <==> answer == Err(CursorMismatch)
  {
    CursorRoundTrip(CursorAt(r, l.scope, env), env);
  }

  /** Whatever token a request came with, the one it hands out carries its paginator's shape and its scope. */
  lemma MintedToken(asked: Asked, q: KW.Request, token: Option<string>, env: Env, page: Page)
    returns (r: Row)
    requires Serves(asked, q, token, env, page) && page.next.Some?
    ensures match asked
            case ByKeyset(l) => page.next == Some(KW.TokenAt(r, l, env))
            case ByColumn(_, _) => |r.keys| == 1 && page.next == Some(P.PlainTokenAt(r, env))
  {
    var n := ClampLimit(q.limit);
    match asked
    case ByKeyset(l) =>
      var cursor := if token.None? then None else Some(DecodeCursor(token.value, env).value);
      var at := StartOf(cursor, l.decoders, l.width, l.scope).value;
      r := OrderBy(RowsAfter(q.db, at, l.asc), l.asc)[n - 1];
    case ByColumn(column, asc) =>
      var cursor := if token.None? then None else Some(DecodeCursor(token.value, env).value);
      var at := P.PlainStart(cursor, column).value;
      r := P.PlainOrder(P.PlainRows(q.db, at, asc), asc)[n - 1];
  }

  /** Keyset listings that differ have scopes that differ. */
  ghost predicate ScopesTellApart(asked: seq<Asked>) {
    forall a <- asked, b <- asked :: a.ByKeyset? && b.ByKeyset? && a.l.scope == b.l.scope ==> a == b
  }

  ghost predicate SamePaginator(a: Asked, b: Asked) { a == b || (a.ByColumn? && b.ByColumn?) }

  /** An accepted next request uses the same paginator, and on the keyset one asks for the same listing. */
  lemma NextIsSame(requests: seq<KW.Request>, asked: seq<Asked>, pages: seq<Page>, token: Option<string>, env: Env)
    requires IsChain(requests, asked, pages, token, env) && Lawful(env) && |pages| > 1 && ScopesTellApart(asked)
    ensures SamePaginator(asked[0], asked[1])
  {
    var a, b, q := asked[0], asked[1], requests[1];
    var r := MintedToken(a, requests[0], token, env, pages[0]);
    assert IsChain(requests[1..], asked[1..], pages[1..], pages[0].next, env);
    assert Serves(b, q, pages[0].next, env, pages[1]);
    assert a in asked && b in asked;
    if a.ByKeyset? && b.ByKeyset? {
      KW.SameScope(q.db, r, a.l, b.l, q.limit, env);
    } else if a.ByKeyset? {
      ColumnRefusesKeysetToken(q.db, b.column, b.asc, a.l, r, q.limit, env, Ok(pages[1]));
    } else if b.ByKeyset? {
      KeysetRefusesColumnToken(q.db, b.l, r, q.limit, env);
    }
  }

  /** A chain of accepted requests never left its first paginator, and on the keyset one never its listing. */
  lemma {:induction false} AcceptedChainStays(requests: seq<KW.Request>, asked: seq<Asked>, pages: seq<Page>,
                                              token: Option<string>, env: Env)
    requires IsChain(requests, asked, pages, token, env) && Lawful(env) && ScopesTellApart(asked)
    ensures forall i :: 0 <= i < |asked| ==> SamePaginator(asked[0], asked[i])
    decreases |pages|
  {
    if |pages| > 1 {
      NextIsSame(requests, asked, pages, token, env);
      AcceptedChainStays(requests[1..], asked[1..], pages[1..], pages[0].next, env);
      assert forall i :: 0 < i < |asked| ==> asked[i] == asked[1..][i - 1];
    }
  }

  lemma {:induction false} OneListingIsAWalk(requests: seq<KW.Request>, asked: seq<Asked>, pages: seq<Page>,
                                             token: Option<string>, l: KW.Listing, env: Env)
    requires IsChain(requests, asked, pages, token, env) && KW.WellFormed(l)
    requires forall i :: 0 <= i < |asked| ==> asked[i] == ByKeyset(l)
    ensures KW.IsWalk(requests, pages, token, l, env)
    decreases |pages|
  {
    if |pages| > 1 { OneListingIsAWalk(requests[1..], asked[1..], pages[1..], pages[0].next, l, env); }
  }

  /** So a chain that starts with the keyset paginator, on a table that does not change, always holds a prefix of
      one listing's order, whatever the client tried in between. */
  lemma AcceptedPagesArePrefix(requests: seq<KW.Request>, asked: seq<Asked>, pages: seq<Page>, env: Env, db: seq<Row>)
    requires IsChain(requests, asked, pages, None, env) && Lawful(env) && ScopesTellApart(asked)
    requires asked[0].ByKeyset? && forall q <- requests :: q.db == db
    ensures forall i :: 0 <= i < |asked| ==> asked[i] == asked[0]
    ensures KW.IsWalk(requests, pages, None, asked[0].l, env)
    ensures KW.Delivered(pages) <= OrderBy(db, asked[0].l.asc)
  {
    var l := asked[0].l;
    AcceptedChainStays(requests, asked, pages, None, env);
    OneListingIsAWalk(requests, asked, pages, None, l, env);
    assert requests[0] in requests;
    NoSeek(db, l.asc);
    KW.TokensFollowPositions(requests, pages, None, None, l, env);
    FixedTable(KW.Slices(requests), KW.Shown(pages), None, l.width, l.asc, KW.Complete(pages), db);
  }

  // ---------------------------------------------------------------------------
  // What is not
  // ---------------------------------------------------------------------------

  /** `paginate` tokens carry no scope, so a client that turns the direction round is served: whatever the table
      and the row, the request succeeds. */
  lemma DirectionIsNotChecked(db: seq<Row>, column: P.Column, r: Row, limit: int, asc: bool, env: Env)
    returns (page: Page)
    requires Lawful(env) && P.ColumnTable(db, column, env) && P.Binds(r, column, env) && r.keys[0].Some?
    ensures P.PlainServes(db, column, Some(P.PlainTokenAt(r, env)), limit, asc, env, page)
    ensures forall x :: x in page.rows ==> x in db && (if asc then Before(r, x, true) else Before(x, r, true))
    ensures page.rows == [] || page.rows[0] in page.rows
    ensures page.next.Some? ==> page.rows != []
  {
    CursorRoundTrip(P.PlainCursorAt(r, env), env);
    assert r.keys == [r.keys[0]];
    P.PlainRowsMembers(db, Some(r), asc);
    P.PlainOrderMembers(P.PlainRows(db, Some(r), asc), asc);
    var ordered := P.PlainOrder(P.PlainRows(db, Some(r), asc), asc);
    page := P.PlainCut(ordered, ClampLimit(limit), env);
    assert forall x :: x in page.rows ==> x in ordered;
  }

  /** The chain names one column throughout; only the direction may change. */
  ghost predicate OverColumn(asked: seq<Asked>, column: P.Column) {
    forall i :: 0 <= i < |asked| ==> asked[i].ByColumn? && asked[i].column == column
  }

  ghost predicate NeverTurns(asked: seq<Asked>) {
    forall i :: 0 <= i < |asked| ==> asked[i].ByColumn? && asked[0].ByColumn? && asked[i].asc == asked[0].asc
  }

  /** A complete chain over one column of a table that does not change. */
  ghost predicate ColumnChain(requests: seq<KW.Request>, asked: seq<Asked>, pages: seq<Page>, token: Option<string>,
                              column: P.Column, env: Env, db: seq<Row>)
  {
    && IsChain(requests, asked, pages, token, env) && KW.Complete(pages) && OverColumn(asked, column)
    && forall i :: 0 <= i < |requests| ==> requests[i].db == db
  }

  lemma ChainTail(requests: seq<KW.Request>, asked: seq<Asked>, pages: seq<Page>, token: Option<string>,
                  column: P.Column, env: Env, db: seq<Row>)
    requires ColumnChain(requests, asked, pages, token, column, env, db) && |pages| > 1
    ensures ColumnChain(requests[1..], asked[1..], pages[1..], pages[0].next, column, env, db)
  {
  }

  /** A turned page holds nothing, or begins with a row the first direction emits before the one it follows. */
  lemma TurnedIsNotNext(db: seq<Row>, last: Row, token: Option<string>, q: KW.Request, asc: bool, column: P.Column,
                        env: Env, page: Page)
    requires Lawful(env) && P.ColumnTable(db, column, env) && P.PlainNames(token, Some(last), column, env)
    requires q.db == db && P.PlainServes(db, column, token, q.limit, !asc, env, page)
    ensures page.rows == [] ==> page.next.None?
    ensures page.rows != [] ==> W.Ahead(page.rows[0], last, asc)
  {
    var rest := P.PlainRest(db, Some(last), !asc);
    P.PlainStep(db, token, Some(last), q.limit, !asc, column, env, page);
    W.PlainRestFacts(db, Some(last), !asc);
    assert page.rows == [] || (page.rows[0] == rest[0] && rest[0] in rest);
  }

  /** A chain that turns after its first page does not deliver what was left. */
  lemma TurnLosesTheRest(requests: seq<KW.Request>, asked: seq<Asked>, pages: seq<Page>, token: Option<string>,
                         at: Option<Row>, column: P.Column, env: Env, db: seq<Row>)
    requires ColumnChain(requests, asked, pages, token, column, env, db) && Lawful(env) && |pages| > 1
    requires P.PlainNames(token, at, column, env) && asked[1].asc != asked[0].asc
    ensures KW.Delivered(pages) != P.PlainRest(db, at, asked[0].asc)
  {
    var asc, n := asked[0].asc, ClampLimit(requests[0].limit);
    var rest := P.PlainRest(db, at, asc);
    assert IsChain(requests[1..], asked[1..], pages[1..], pages[0].next, env);
    W.NextPageFollowsAValue(db, token, at, requests[0].limit, asc, column, env, pages[0], requests[1], !asc, pages[1]);
    TurnedIsNotNext(db, rest[n - 1], pages[0].next, requests[1], asc, column, env, pages[1]);
    W.PlainRestFacts(db, at, asc);
    TurnedIsNotWhole(rest, n, pages, asc);
  }

  /** A chain that does not turn there goes on from the row its first page ended on. */
  lemma GoesOn(requests: seq<KW.Request>, asked: seq<Asked>, pages: seq<Page>, token: Option<string>,
               at: Option<Row>, column: P.Column, env: Env, db: seq<Row>)
    returns (last: Row)
    requires ColumnChain(requests, asked, pages, token, column, env, db) && Lawful(env) && |pages| > 1
    requires P.PlainNames(token, at, column, env) && asked[1].asc == asked[0].asc
    ensures P.PlainNames(pages[0].next, Some(last), column, env)
    ensures var n, rest := ClampLimit(requests[0].limit), P.PlainRest(db, at, asked[0].asc);
            && n <= |rest| && W.Values(rest[n..]) == P.PlainRest(db, Some(last), asked[1].asc)
            && (at.Some? ==> rest[n..] == P.PlainRest(db, Some(last), asked[1].asc))
            && (KW.Delivered(pages) == rest <==> KW.Delivered(pages[1..]) == rest[n..])
  {
    var asc, n := asked[0].asc, ClampLimit(requests[0].limit);
    var rest := P.PlainRest(db, at, asc);
    assert IsChain(requests[1..], asked[1..], pages[1..], pages[0].next, env);
    W.NextPageFollowsAValue(db, token, at, requests[0].limit, asc, column, env, pages[0], requests[1], asc, pages[1]);
    last := rest[n - 1];
    W.ResumePlain(db, at, n - 1, asc);
    if at.Some? { BehindAValue(db, at.value, n, asc); }
    W.FirstPageFirst(pages);
    SplitDelivered(rest, n, KW.Delivered(pages[1..]));
  }

  /** From a row with a value on, the chain delivers what is left of the listing exactly when it never turns. */
  lemma {:induction false} TailIsWholeIff(requests: seq<KW.Request>, asked: seq<Asked>, pages: seq<Page>,
                                          token: Option<string>, at: Row, column: P.Column, env: Env, db: seq<Row>)
    requires ColumnChain(requests, asked, pages, token, column, env, db) && Lawful(env)
    requires P.PlainNames(token, Some(at), column, env)
    ensures KW.Delivered(pages) == P.PlainRest(db, Some(at), asked[0].asc) <==> NeverTurns(asked)
    decreases |pages|
  {
    if |pages| == 1 {
      OnlyPage(requests, asked, pages, token, at, column, env, db);
    } else if asked[1].asc == asked[0].asc {
      var last := GoesOn(requests, asked, pages, token, Some(at), column, env, db);
      ChainTail(requests, asked, pages, token, column, env, db);
      TailIsWholeIff(requests[1..], asked[1..], pages[1..], pages[0].next, last, column, env, db);
      NoTurnYet(asked);
    } else {
      TurnLosesTheRest(requests, asked, pages, token, Some(at), column, env, db);
    }
  }

  lemma OnlyPage(requests: seq<KW.Request>, asked: seq<Asked>, pages: seq<Page>, token: Option<string>, at: Row,
                 column: P.Column, env: Env, db: seq<Row>)
    requires ColumnChain(requests, asked, pages, token, column, env, db) && Lawful(env) && |pages| == 1
    requires P.PlainNames(token, Some(at), column, env)
    ensures KW.Delivered(pages) == P.PlainRest(db, Some(at), asked[0].asc) && NeverTurns(asked)
  {
    P.PlainStep(db, token, Some(at), requests[0].limit, asked[0].asc, column, env, pages[0]);
    W.FirstPageFirst(pages);
  }

  lemma BehindAValue(db: seq<Row>, at: Row, n: nat, asc: bool)
    requires n <= |P.PlainRest(db, Some(at), asc)|
    ensures var rest := P.PlainRest(db, Some(at), asc); W.Values(rest[n..]) == rest[n..]
  {
    W.RestHasValues(db, at, asc);
    W.TailHasValues(P.PlainRest(db, Some(at), asc), n);
  }

  lemma NoTurnYet(asked: seq<Asked>)
    requires |asked| > 1 && asked[0].ByColumn? && asked[1].ByColumn? && asked[0].asc == asked[1].asc
    ensures NeverTurns(asked) <==> NeverTurns(asked[1..])
  {
    assert forall i :: 0 < i < |asked| ==> asked[i] == asked[1..][i - 1];
    assert forall i :: 0 <= i < |asked[1..]| ==> asked[1..][i] == asked[i + 1];
  }

  lemma SplitDelivered(rest: seq<Row>, n: nat, later: seq<Row>)
    requires n <= |rest|
    ensures rest[..n] + later == rest <==> later == rest[n..]
  {
    if rest[..n] + later == rest { assert (rest[..n] + later)[n..] == later; }
  }

  /** After a turn the client no longer holds the listing: the chain ends there, or goes on with a row that does
      not come next. */
  lemma TurnedIsNotWhole(rest: seq<Row>, n: nat, pages: seq<Page>, asc: bool)
    requires W.Emitted(rest, asc) && 0 < n < |rest| && |pages| > 1
    requires pages[0].rows == rest[..n]
    requires pages[1].rows == [] ==> |pages| == 2
    requires pages[1].rows != [] ==> W.Ahead(pages[1].rows[0], rest[n - 1], asc)
    ensures KW.Delivered(pages) != rest
  {
    W.FirstPageFirst(pages);
    W.FirstPageFirst(pages[1..]);
    if pages[1].rows != [] && KW.Delivered(pages) == rest {
      assert KW.Delivered(pages)[n] == pages[1].rows[0];
      W.AheadIsOneWay(rest[n - 1], rest[n], asc);
    }
  }

  /** A complete chain of `paginate` requests over one column of a fixed table, at any limits and with the
      direction turned at will, delivers the listing it began if and only if it never turns and that walk is
      whole: it descends, fits one page, or has no NULL to lose. */
  lemma ChainIsWholeIff(requests: seq<KW.Request>, asked: seq<Asked>, pages: seq<Page>, column: P.Column, env: Env,
                        db: seq<Row>)
    requires ColumnChain(requests, asked, pages, None, column, env, db) && Lawful(env)
    ensures KW.Delivered(pages) == P.PlainOrder(db, asked[0].asc)
       <==> && NeverTurns(asked)
            && (!asked[0].asc || |db| <= ClampLimit(requests[0].limit) || P.NoNulls(db))
  {
    var asc := asked[0].asc;
    W.FromTheTop(db, asc);
    if NeverTurns(asked) {
      OneDirectionIsAWalk(requests, asked, pages, None, column, asc, env);
      W.PlainWalkIsWholeIff(requests, pages, column, asc, env, db);
    } else {
      TurnedChainIsNotWhole(requests, asked, pages, column, env, db);
    }
  }

  lemma {:induction false} OneDirectionIsAWalk(requests: seq<KW.Request>, asked: seq<Asked>, pages: seq<Page>,
                                               token: Option<string>, column: P.Column, asc: bool, env: Env)
    requires IsChain(requests, asked, pages, token, env)
    requires forall i :: 0 <= i < |asked| ==> asked[i] == ByColumn(column, asc)
    ensures W.IsPlainWalk(requests, pages, token, column, asc, env)
    decreases |pages|
  {
    if |pages| > 1 { OneDirectionIsAWalk(requests[1..], asked[1..], pages[1..], pages[0].next, column, asc, env); }
  }

  /** Whatever its turns, a chain past a row with a value shows only rows with one. */
  lemma {:induction false} ChainShowsValues(requests: seq<KW.Request>, asked: seq<Asked>, pages: seq<Page>,
                                            token: Option<string>, at: Row, column: P.Column, env: Env)
    requires IsChain(requests, asked, pages, token, env) && Lawful(env)
    requires OverColumn(asked, column) && P.PlainNames(token, Some(at), column, env)
    ensures forall r <- KW.Delivered(pages) :: W.HasValue(r)
    decreases |pages|
  {
    var q := requests[0];
    var last := W.PageHasValues(q.db, token, at, q.limit, asked[0].asc, column, env, pages[0]);
    W.FirstPageFirst(pages);
    if |pages| > 1 { ChainShowsValues(requests[1..], asked[1..], pages[1..], pages[0].next, last, column, env); }
  }

  lemma TurnedChainIsNotWhole(requests: seq<KW.Request>, asked: seq<Asked>, pages: seq<Page>, column: P.Column,
                              env: Env, db: seq<Row>)
    requires ColumnChain(requests, asked, pages, None, column, env, db) && Lawful(env) && !NeverTurns(asked)
    ensures KW.Delivered(pages) != P.PlainRest(db, None, asked[0].asc)
  {
    if asked[1].asc == asked[0].asc {
      var last := GoesOn(requests, asked, pages, None, None, column, env, db);
      ChainTail(requests, asked, pages, None, column, env, db);
      NoTurnYet(asked);
      TailIsWholeIff(requests[1..], asked[1..], pages[1..], pages[0].next, last, column, env, db);
      ChainShowsValues(requests[1..], asked[1..], pages[1..], pages[0].next, last, column, env);
      W.ValuesAreAll(P.PlainRest(db, None, asked[0].asc)[ClampLimit(requests[0].limit)..]);
    } else {
      TurnLosesTheRest(requests, asked, pages, None, None, column, env, db);
    }
  }

  /** Two rows, one to a page, direction turned round after the first: the walk is accepted, ends, and never
      showed the second row. */
  lemma TurningRoundLosesRows(env: Env) returns (requests: seq<KW.Request>, asked: seq<Asked>, pages: seq<Page>)
    requires Lawful(env)
    ensures var a, b := Row([Some(Text("a"))], 1), Row([Some(Text("b"))], 2);
            && (forall q <- requests :: q == KW.Request([a, b], 1))
            && IsChain(requests, asked, pages, None, env) && KW.Complete(pages)
            && KW.Delivered(pages) == [a]
  {
    var a, b := Row([Some(Text("a"))], 1), Row([Some(Text("b"))], 2);
    var q := KW.Request([a, b], 1);
    var first, second := TwoPages(a, b, env);
    var column := P.TextColumn();
    requests, asked := [q, q], [ByColumn(column, true), ByColumn(column, false)];
    pages := [first, second];
    assert requests[1..] == [q] && asked[1..] == [ByColumn(column, false)] && pages[1..] == [second];
    W.FirstPageFirst(pages);
    W.FirstPageFirst(pages[1..]);
  }

  lemma TwoPages(a: Row, b: Row, env: Env) returns (first: Page, second: Page)
    requires Lawful(env) && a == Row([Some(Text("a"))], 1) && b == Row([Some(Text("b"))], 2)
    ensures P.ColumnTable([a, b], P.TextColumn(), env)
    ensures P.PlainServes([a, b], P.TextColumn(), None, 1, true, env, first)
    ensures first.rows == [a] && first.next == Some(P.PlainTokenAt(a, env))
    ensures P.PlainServes([a, b], P.TextColumn(), first.next, 1, false, env, second)
    ensures second.rows == [] && second.next.None?
  {
    TwoRows(a, b);
    first := P.PlainServed([a, b], None, None, 1, true, P.TextColumn(), env);
    P.NoPlainSeek([a, b], true);
    P.PlainStep([a, b], None, None, 1, true, P.TextColumn(), env, first);
    second := DirectionIsNotChecked([a, b], P.TextColumn(), a, 1, false, env);
    OrderIsTotal(a, a, true);
    OrderIsTotal(a, b, true);
  }

  lemma TwoRows(a: Row, b: Row)
    requires a == Row([Some(Text("a"))], 1) && b == Row([Some(Text("b"))], 2)
    ensures Before(a, b, true) && OrderBy([a, b], true) == [a, b]
  {
    assert TextBefore("a", "b");
    assert [a, b][1..] == [b] && [b][1..] == [];
    assert OrderBy([b], true) == [b];
  }
}
