/** Whole walks with `paginate`, in either direction, over one column. */
module PlainWalk {
  import opened Common
  import opened SortOrder
  import opened Cursors
  import opened Keyset
  import opened SeekWalk
  import opened Paginate
  import KW = KeysetWalk

  /** Each request carries the token of the response before it, the first one `token`, and every one is served. */
  ghost predicate IsPlainWalk(requests: seq<KW.Request>, pages: seq<Page>, token: Option<string>, column: Column,
                              asc: bool, env: Env)
  {
    && |requests| == |pages| > 0
    && ColumnTable(requests[0].db, column, env)
    && PlainServes(requests[0].db, column, token, requests[0].limit, asc, env, pages[0])
    && (|pages| > 1 ==> pages[0].next.Some? && IsPlainWalk(requests[1..], pages[1..], pages[0].next, column, asc, env))
  }

  /** On a NOT NULL column, ascending, the two paginators show the same pages: every walk with `paginate_keyset`,
      over any changing table and any limits, is matched page by page with `paginate`, and one ends where the
      other does. */
  lemma {:induction false} SamePages(requests: seq<KW.Request>, pages: seq<Page>, token: Option<string>,
                                     plainToken: Option<string>, at: Option<Row>, l: KW.Listing, column: Column,
                                     env: Env)
    returns (plain: seq<Page>)
    requires Lawful(env) && KW.WellFormed(l) && l.width == 1 && l.asc
    requires forall q <- requests :: ColumnTable(q.db, column, env) && NoNulls(q.db)
    requires at.Some? ==> at.value.keys != [] && at.value.keys[0].Some?
    requires KW.Names(token, at, l, env) && KW.IsWalk(requests, pages, token, l, env)
    requires PlainNames(plainToken, at, column, env)
    ensures IsPlainWalk(requests, plain, plainToken, column, true, env)
    ensures KW.Shown(plain) == KW.Shown(pages)
    ensures |plain| == |pages| && forall i :: 0 <= i < |pages| ==> (plain[i].next.Some? <==> pages[i].next.Some?)
    decreases |pages|
  {
    var q := requests[0];
    assert q in requests;
    KW.Step(q.db, l, token, at, q.limit, env);
    var page := PlainServed(q.db, plainToken, at, q.limit, true, column, env);
    PlainStep(q.db, plainToken, at, q.limit, true, column, env, page);
    SameRest(q.db, at);
    plain := [page];
    if |pages| > 1 {
      var rest := Rest(q.db, at, true);
      RestFacts(q.db, at, 1, true);
      var last := rest[ClampLimit(q.limit) - 1];
      assert last in rest;
      var more := SamePages(requests[1..], pages[1..], pages[0].next, page.next, Some(last), l, column, env);
      plain := plain + more;
      assert plain[1..] == more;
    }
  }

  // ---------------------------------------------------------------------------
  // The emitted order, in either direction
  // ---------------------------------------------------------------------------

  /** `a` is emitted before `b`; descending is ascending turned round, NULLs and ids included. */
  predicate Ahead(a: Row, b: Row, asc: bool) {
    |a.keys| == |b.keys| == 1 && if asc then Before(a, b, true) else Before(b, a, true)
  }

  ghost predicate Emitted(rows: seq<Row>, asc: bool) {
    && (forall i :: 0 <= i < |rows| ==> |rows[i].keys| == 1)
    && forall i, j :: 0 <= i < j < |rows| ==> Ahead(rows[i], rows[j], asc)
  }

  lemma AheadIsOneWay(a: Row, b: Row, asc: bool)
    requires Ahead(a, b, asc)
    ensures !Ahead(b, a, asc) && a != b
  {
    OrderIsTotal(a, b, true);
  }

  lemma AheadIsTransitive(a: Row, b: Row, c: Row, asc: bool)
    requires Ahead(a, b, asc) && Ahead(b, c, asc)
    ensures Ahead(a, c, asc)
  {
    if asc { OrderIsTransitive(a, b, c, true); } else { OrderIsTransitive(c, b, a, true); }
  }

  /** A sequence in the emitted order is determined by its rows. */
  lemma {:induction false} EmittedIsUnique(a: seq<Row>, b: seq<Row>, asc: bool)
    requires Emitted(a, asc) && Emitted(b, asc) && forall r :: r in a <==> r in b
    ensures a == b
  {
    assert a == [] || a[0] in a;
    assert b == [] || b[0] in b;
    if a != [] {
      SameFirst(a, b, asc);
      forall r ensures r in a[1..] <==> r in b[1..] {
        TailHolds(a, r, asc);
        TailHolds(b, r, asc);
      }
      EmittedIsUnique(a[1..], b[1..], asc);
    }
  }

  lemma SameFirst(a: seq<Row>, b: seq<Row>, asc: bool)
    requires Emitted(a, asc) && Emitted(b, asc) && a != [] && b != [] && forall r :: r in a <==> r in b
    ensures a[0] == b[0]
  {
    assert a[0] in b && b[0] in a;
    var i :| 0 <= i < |b| && b[i] == a[0];
    var j :| 0 <= j < |a| && a[j] == b[0];
    if i > 0 && j > 0 { AheadIsOneWay(a[0], b[0], asc); }
  }

  lemma TailHolds(rows: seq<Row>, r: Row, asc: bool)
    requires Emitted(rows, asc) && rows != []
    ensures r in rows[1..] <==> r in rows && r != rows[0]
  {
    if r in rows[1..] {
      var i :| 0 <= i < |rows[1..]| && rows[1..][i] == r;
      assert rows[i + 1] == r;
      AheadIsOneWay(rows[0], rows[i + 1], asc);
    }
    assert rows == [rows[0]] + rows[1..];
  }

  lemma {:induction false} ReverseAt(rows: seq<Row>)
    ensures |Reverse(rows)| == |rows|
    ensures forall i :: 0 <= i < |rows| ==> Reverse(rows)[i] == rows[|rows| - 1 - i]
  {
    if rows != [] { ReverseAt(rows[1..]); }
  }

  lemma {:induction false} PlainRowsIsTable(rows: seq<Row>, at: Option<Row>, asc: bool)
    requires Table(rows, 1)
    ensures Table(PlainRows(rows, at, asc), 1)
  {
    PlainRowsMembers(rows, at, asc);
    if rows != [] {
      PlainRowsIsTable(rows[1..], at, asc);
      var more := PlainRows(rows[1..], at, asc);
      PlainRowsMembers(rows[1..], at, asc);
      forall i | 0 <= i < |more| ensures more[i].id != rows[0].id {
        assert more[i] in more;
        var j :| 0 <= j < |rows[1..]| && rows[1..][j] == more[i];
        assert rows[j + 1] == more[i];
      }
    }
  }

  lemma PlainRestFacts(db: seq<Row>, at: Option<Row>, asc: bool)
    requires Table(db, 1)
    ensures Emitted(PlainRest(db, at, asc), asc)
    ensures forall r :: r in PlainRest(db, at, asc) <==> r in db && PlainPast(at, r, asc)
  {
    var rows := PlainRows(db, at, asc);
    PlainRowsIsTable(db, at, asc);
    PlainRowsMembers(db, at, asc);
    PlainOrderMembers(rows, asc);
    OrderBySorts(rows, 1, true);
    SortedIsEmitted(OrderBy(rows, true), asc);
  }

  lemma SortedIsEmitted(sorted: seq<Row>, asc: bool)
    requires Sorted(sorted, true) && forall r <- sorted :: |r.keys| == 1
    ensures Emitted(if asc then sorted else Reverse(sorted), asc)
  {
    var out := if asc then sorted else Reverse(sorted);
    ReverseAt(sorted);
    forall i | 0 <= i < |sorted| ensures |sorted[i].keys| == 1 { assert sorted[i] in sorted; }
    forall i, j | 0 <= i < j < |out| ensures Ahead(out[i], out[j], asc) {
      SortedPair(sorted, |sorted| - 1 - j, |sorted| - 1 - i);
      SortedPair(sorted, i, j);
    }
  }

  lemma SortedPair(sorted: seq<Row>, i: nat, j: nat)
    requires Sorted(sorted, true) && i < j < |sorted|
    ensures Before(sorted[i], sorted[j], true)
  {
  }

  // ---------------------------------------------------------------------------
  // Resuming
  // ---------------------------------------------------------------------------

  predicate HasValue(r: Row) { r.keys != [] && r.keys[0].Some? }

  /** The rows with a sort value. */
  function Values(rows: seq<Row>): seq<Row> {
    if rows == [] then []
    else (if HasValue(rows[0]) then [rows[0]] else []) + Values(rows[1..])
  }

  lemma {:induction false} ValuesMembers(rows: seq<Row>)
    ensures forall r :: r in Values(rows) <==> r in rows && HasValue(r)
  {
    if rows != [] {
      ValuesMembers(rows[1..]);
      assert rows == [rows[0]] + rows[1..];
    }
  }

  lemma {:induction false} ValuesKeepOrder(rows: seq<Row>, asc: bool)
    requires Emitted(rows, asc)
    ensures Emitted(Values(rows), asc)
  {
    if rows != [] {
      var more := Values(rows[1..]);
      ValuesKeepOrder(rows[1..], asc);
      ValuesMembers(rows[1..]);
      forall i | 0 <= i < |more| ensures Ahead(rows[0], more[i], asc) {
        assert more[i] in more;
        var j :| 0 <= j < |rows[1..]| && rows[1..][j] == more[i];
        assert rows[j + 1] == more[i];
      }
    }
  }

  lemma {:induction false} ValuesShrink(rows: seq<Row>)
    ensures |Values(rows)| <= |rows|
    ensures (forall i :: 0 <= i < |rows| ==> HasValue(rows[i])) ==> Values(rows) == rows
  {
    if rows != [] {
      ValuesShrink(rows[1..]);
      assert forall i :: 0 <= i < |rows[1..]| ==> rows[1..][i] == rows[i + 1];
    }
  }

  lemma ValuesAreAll(rows: seq<Row>)
    ensures Values(rows) == rows <==> forall r <- rows :: HasValue(r)
  {
    ValuesMembers(rows);
    if forall r <- rows :: HasValue(r) {
      forall i | 0 <= i < |rows| ensures HasValue(rows[i]) { assert rows[i] in rows; }
      ValuesShrink(rows);
    }
  }

  /** Seeking past a row with a value leaves the rows behind it, less those without one. */
  lemma ResumePlain(db: seq<Row>, at: Option<Row>, k: nat, asc: bool)
    requires Table(db, 1) && (at.Some? ==> |at.value.keys| == 1)
    requires var rest := PlainRest(db, at, asc); k < |rest| && HasValue(rest[k])
    ensures var rest := PlainRest(db, at, asc); PlainRest(db, Some(rest[k]), asc) == Values(rest[k + 1..])
  {
    var rest := PlainRest(db, at, asc);
    var next, behind := PlainRest(db, Some(rest[k]), asc), rest[k + 1..];
    PlainRestFacts(db, at, asc);
    PlainRestFacts(db, Some(rest[k]), asc);
    ValuesMembers(behind);
    ValuesKeepOrder(behind, asc);
    forall r ensures r in next <==> r in Values(behind) {
      if r in next { BehindHolds(db, at, k, r, asc); }
      if r in Values(behind) {
        var j :| 0 <= j < |behind| && behind[j] == r;
        assert rest[k + 1 + j] == r && Ahead(rest[k], rest[k + 1 + j], asc);
        assert r in rest;
      }
    }
    EmittedIsUnique(next, Values(behind), asc);
  }

  lemma BehindHolds(db: seq<Row>, at: Option<Row>, k: nat, r: Row, asc: bool)
    requires Table(db, 1) && (at.Some? ==> |at.value.keys| == 1)
    requires k < |PlainRest(db, at, asc)|
    requires r in db && PlainPast(Some(PlainRest(db, at, asc)[k]), r, asc)
    ensures r in PlainRest(db, at, asc)[k + 1..]
  {
    var rest := PlainRest(db, at, asc);
    PlainRestFacts(db, at, asc);
    assert rest[k] in rest && Ahead(rest[k], r, asc);
    if at.Some? { AheadIsTransitive(at.value, rest[k], r, asc); }
    var j :| 0 <= j < |rest| && rest[j] == r;
    AheadIsOneWay(rest[k], r, asc);
    assert j > k;
    assert rest[k + 1..][j - k - 1] == r;
  }

  lemma RestHasValues(db: seq<Row>, at: Row, asc: bool)
    ensures forall r <- PlainRest(db, Some(at), asc) :: HasValue(r)
  {
    PlainRowsMembers(db, Some(at), asc);
    PlainOrderMembers(PlainRows(db, Some(at), asc), asc);
  }

  /** One page past a row with a value: only rows with one, and a token that names the last of them. */
  lemma PageHasValues(db: seq<Row>, token: Option<string>, at: Row, limit: int, asc: bool, column: Column, env: Env,
                      page: Page)
    returns (last: Row)
    requires Lawful(env) && ColumnTable(db, column, env) && PlainNames(token, Some(at), column, env)
    requires PlainServes(db, column, token, limit, asc, env, page)
    ensures forall r <- page.rows :: HasValue(r)
    ensures page.next.Some? ==> PlainNames(page.next, Some(last), column, env)
  {
    var n, rest := ClampLimit(limit), PlainRest(db, Some(at), asc);
    PlainStep(db, token, Some(at), limit, asc, column, env, page);
    RestHasValues(db, at, asc);
    forall r <- page.rows ensures HasValue(r) { assert r in rest; }
    last := if |rest| > n then rest[n - 1] else at;
    assert |rest| > n ==> last in rest;
  }

  /** Past the first page, in either direction, `paginate` never shows a NULL row again. */
  lemma {:induction false} NoNullsOnceSeeking(requests: seq<KW.Request>, pages: seq<Page>, token: Option<string>,
                                              at: Row, column: Column, asc: bool, env: Env)
    requires Lawful(env) && IsPlainWalk(requests, pages, token, column, asc, env)
    requires PlainNames(token, Some(at), column, env)
    ensures forall r <- KW.Delivered(pages) :: HasValue(r)
    decreases |pages|
  {
    var q := requests[0];
    var last := PageHasValues(q.db, token, at, q.limit, asc, column, env, pages[0]);
    FirstPageFirst(pages);
    if |pages| > 1 { NoNullsOnceSeeking(requests[1..], pages[1..], pages[0].next, last, column, asc, env); }
  }

  lemma FirstPageFirst(pages: seq<Page>)
    requires pages != []
    ensures KW.Delivered(pages) == pages[0].rows + KW.Delivered(pages[1..])
    ensures |pages| == 1 ==> KW.Delivered(pages) == pages[0].rows
  {
    assert KW.Shown(pages)[1..] == KW.Shown(pages[1..]);
    assert |pages| == 1 ==> KW.Shown(pages[1..]) == [];
  }

  // ---------------------------------------------------------------------------
  // Fixed tables
  // ---------------------------------------------------------------------------

  /** What a walk delivers that begins with `n` of these rows. */
  function WalkDelivers(rest: seq<Row>, n: nat): seq<Row> {
    if |rest| <= n then rest else rest[..n] + Values(rest[n..])
  }

  /** A page that more follows ends on a row with a value. */
  lemma NextPageFollowsAValue(db: seq<Row>, token: Option<string>, at: Option<Row>, limit: int, asc: bool,
                              column: Column, env: Env, page: Page, q: KW.Request, turn: bool, next: Page)
    requires Lawful(env) && ColumnTable(db, column, env) && PlainNames(token, at, column, env)
    requires PlainServes(db, column, token, limit, asc, env, page) && page.next.Some?
    requires PlainServes(q.db, column, page.next, q.limit, turn, env, next)
    ensures var n, rest := ClampLimit(limit), PlainRest(db, at, asc);
            && |rest| > n && page.rows == rest[..n]
            && HasValue(rest[n - 1])
            && PlainNames(page.next, Some(rest[n - 1]), column, env)
  {
    var n, rest := ClampLimit(limit), PlainRest(db, at, asc);
    PlainStep(db, token, at, limit, asc, column, env, page);
    if rest[n - 1].keys[0].None? {
      assert rest[n - 1].keys == [None];
      NullTokenFails(rest[n - 1], column, q.db, q.limit, turn, env, next);
    }
  }

  /** A complete walk of a fixed table, at any limits, delivers its first page and then every row behind it that
      has a sort value. */
  lemma {:induction false} WalkDeliversValues(requests: seq<KW.Request>, pages: seq<Page>, token: Option<string>,
                                              at: Option<Row>, column: Column, asc: bool, env: Env, db: seq<Row>)
    requires Lawful(env) && IsPlainWalk(requests, pages, token, column, asc, env) && KW.Complete(pages)
    requires PlainNames(token, at, column, env) && forall q <- requests :: q.db == db
    ensures KW.Delivered(pages) == WalkDelivers(PlainRest(db, at, asc), ClampLimit(requests[0].limit))
    decreases |pages|
  {
    var n, rest := ClampLimit(requests[0].limit), PlainRest(db, at, asc);
    assert requests[0] in requests;
    PlainStep(db, token, at, requests[0].limit, asc, column, env, pages[0]);
    FirstPageFirst(pages);
    if |pages| > 1 {
      NextPageFollowsAValue(db, token, at, requests[0].limit, asc, column, env, pages[0], requests[1], asc, pages[1]);
      WalkDeliversValues(requests[1..], pages[1..], pages[0].next, Some(rest[n - 1]), column, asc, env, db);
      ResumePlain(db, at, n - 1, asc);
      DeliversAllValues(db, rest[n - 1], asc, ClampLimit(requests[1].limit));
    }
  }

  /** Behind a row with a value nothing is lost any more. */
  lemma DeliversAllValues(db: seq<Row>, at: Row, asc: bool, n: nat)
    ensures WalkDelivers(PlainRest(db, Some(at), asc), n) == PlainRest(db, Some(at), asc)
  {
    var rest := PlainRest(db, Some(at), asc);
    RestHasValues(db, at, asc);
    if |rest| > n {
      TailHasValues(rest, n);
      assert rest == rest[..n] + rest[n..];
    }
  }

  lemma TailHasValues(rows: seq<Row>, n: nat)
    requires n <= |rows| && forall r <- rows :: HasValue(r)
    ensures Values(rows[n..]) == rows[n..]
  {
    forall i | 0 <= i < |rows[n..]| ensures HasValue(rows[n..][i]) { assert rows[n + i] in rows; }
    ValuesShrink(rows[n..]);
  }

  /** What `paginate` lists: the whole table in the emitted order. */
  lemma FromTheTop(db: seq<Row>, asc: bool)
    requires Table(db, 1)
    ensures PlainRest(db, None, asc) == PlainOrder(db, asc) && |PlainOrder(db, asc)| == |db|
  {
    NoPlainSeek(db, asc);
    OrderByPermutes(db, true);
    ReverseAt(OrderBy(db, true));
  }

  lemma NothingAfterNull(a: Row, b: Row)
    requires |a.keys| == |b.keys| == 1 && a.keys[0].None? && Before(a, b, true)
    ensures b.keys[0].None?
  {
    assert a.keys[1..] == [];
  }

  /** Behind a row with a value, NULLs are left exactly when the listing ascends and has any. */
  lemma NullsBehind(db: seq<Row>, n: nat, asc: bool)
    requires Table(db, 1)
    requires var s := PlainOrder(db, asc); 0 < n < |s| && HasValue(s[n - 1])
    ensures (forall r <- PlainOrder(db, asc)[n..] :: HasValue(r)) <==> !asc || NoNulls(db)
  {
    var s := PlainOrder(db, asc);
    FromTheTop(db, asc);
    PlainRestFacts(db, None, asc);
    if asc && !NoNulls(db) {
      var r :| r in db && !(|r.keys| == 1 && r.keys[0].Some?);
      assert r in s;
      var k :| 0 <= k < |s| && s[k] == r;
      if k < n - 1 { NothingAfterNull(r, s[n - 1]); }
      assert s[n..][k - n] == r;
      assert r in s[n..];
    } else {
      forall r <- s[n..] ensures HasValue(r) {
        var k :| 0 <= k < |s[n..]| && s[n..][k] == r;
        assert s[n + k] == r && r in s && Ahead(s[n - 1], s[n + k], asc);
        if !asc && r.keys[0].None? { NothingAfterNull(r, s[n - 1]); }
      }
    }
  }

  /** A complete walk of a fixed table delivers the whole listing if and only if it descends, fits one page, or
      has no NULL in the sort column. `paginate_keyset` always does. */
  lemma PlainWalkIsWholeIff(requests: seq<KW.Request>, pages: seq<Page>, column: Column, asc: bool, env: Env,
                            db: seq<Row>)
    requires Lawful(env) && IsPlainWalk(requests, pages, None, column, asc, env) && KW.Complete(pages)
    requires forall q <- requests :: q.db == db
    ensures KW.Delivered(pages) == PlainOrder(db, asc)
       <==> !asc || |db| <= ClampLimit(requests[0].limit) || NoNulls(db)
  {
    var n, s := ClampLimit(requests[0].limit), PlainOrder(db, asc);
    assert requests[0] in requests;
    FromTheTop(db, asc);
    WalkDeliversValues(requests, pages, None, None, column, asc, env, db);
    if |db| > n {
      PlainStep(db, None, None, requests[0].limit, asc, column, env, pages[0]);
      NextPageFollowsAValue(db, None, None, requests[0].limit, asc, column, env, pages[0], requests[1], asc, pages[1]);
      NullsBehind(db, n, asc);
      ValuesAreAll(s[n..]);
      SameTail(s, n);
    }
  }

  lemma SameTail(s: seq<Row>, n: nat)
    requires n <= |s|
    ensures s[..n] + Values(s[n..]) == s <==> Values(s[n..]) == s[n..]
  {
    if s[..n] + Values(s[n..]) == s { assert (s[..n] + Values(s[n..]))[n..] == Values(s[n..]); }
  }

  ghost predicate IsCompleteWalk(requests: seq<KW.Request>, pages: seq<Page>, column: Column, asc: bool, env: Env,
                                 db: seq<Row>, limit: int)
  {
    && IsPlainWalk(requests, pages, None, column, asc, env) && KW.Complete(pages)
    && forall q <- requests :: q == KW.Request(db, limit)
  }

  /** More rows than fit the first page, and the page ends on a NULL one. */
  predicate EndsOnNull(ordered: seq<Row>, n: nat) {
    0 < n < |ordered| && ordered[n - 1].keys == [None]
  }

  /** In either direction there is a complete walk at all exactly when the first page does not end on a NULL row
      with more to come: there the next request fails, so the client never learns that the listing has an end. */
  lemma PlainWalkExistsIff(db: seq<Row>, column: Column, asc: bool, env: Env, limit: int)
    requires Lawful(env) && ColumnTable(db, column, env)
    ensures (exists requests, pages :: IsCompleteWalk(requests, pages, column, asc, env, db, limit))
       <==> !EndsOnNull(PlainOrder(db, asc), ClampLimit(limit))
  {
    FromTheTop(db, asc);
    if EndsOnNull(PlainOrder(db, asc), ClampLimit(limit)) {
      forall requests: seq<KW.Request>, pages: seq<Page>
        ensures !IsCompleteWalk(requests, pages, column, asc, env, db, limit)
      {
        if IsCompleteWalk(requests, pages, column, asc, env, db, limit) {
          assert requests[0] in requests;
          PlainStep(db, None, None, limit, asc, column, env, pages[0]);
          assert |pages| > 1 && IsPlainWalk(requests[1..], pages[1..], pages[0].next, column, asc, env);
          NextPageFollowsAValue(db, None, None, limit, asc, column, env, pages[0], requests[1], asc, pages[1]);
        }
      }
    } else {
      var requests, pages := PlainWalkFrom(db, None, None, column, asc, env, limit);
      assert IsCompleteWalk(requests, pages, column, asc, env, db, limit);
    }
  }

  lemma {:induction false} PlainWalkFrom(db: seq<Row>, token: Option<string>, at: Option<Row>, column: Column,
                                         asc: bool, env: Env, limit: int)
    returns (requests: seq<KW.Request>, pages: seq<Page>)
    requires Lawful(env) && ColumnTable(db, column, env) && PlainNames(token, at, column, env)
    requires !EndsOnNull(PlainRest(db, at, asc), ClampLimit(limit))
    ensures IsPlainWalk(requests, pages, token, column, asc, env) && KW.Complete(pages)
    ensures forall q <- requests :: q == KW.Request(db, limit)
    decreases |PlainRest(db, at, asc)|
  {
    var n, rest := ClampLimit(limit), PlainRest(db, at, asc);
    var p := PlainServed(db, token, at, limit, asc, column, env);
    PlainStep(db, token, at, limit, asc, column, env, p);
    requests, pages := [KW.Request(db, limit)], [p];
    if p.next.Some? {
      var last := rest[n - 1];
      assert last.keys == [last.keys[0]];
      ResumePlain(db, at, n - 1, asc);
      ValuesShrink(rest[n..]);
      NeverEndsOnNullAgain(db, last, n, asc);
      var rs, ps := PlainWalkFrom(db, p.next, Some(last), column, asc, env, limit);
      OneMorePlainPage(KW.Request(db, limit), p, rs, ps, token, column, asc, env);
      requests, pages := requests + rs, pages + ps;
    }
  }

  lemma NeverEndsOnNullAgain(db: seq<Row>, at: Row, n: nat, asc: bool)
    ensures !EndsOnNull(PlainRest(db, Some(at), asc), n)
  {
    RestHasValues(db, at, asc);
    var rest := PlainRest(db, Some(at), asc);
    if 0 < n < |rest| { assert rest[n - 1] in rest; }
  }

  lemma OneMorePlainPage(q: KW.Request, p: Page, requests: seq<KW.Request>, pages: seq<Page>, token: Option<string>,
                         column: Column, asc: bool, env: Env)
    requires ColumnTable(q.db, column, env) && PlainServes(q.db, column, token, q.limit, asc, env, p)
    requires p.next.Some? && IsPlainWalk(requests, pages, p.next, column, asc, env) && KW.Complete(pages)
    ensures IsPlainWalk([q] + requests, [p] + pages, token, column, asc, env) && KW.Complete([p] + pages)
  {
    assert ([q] + requests)[1..] == requests && ([p] + pages)[1..] == pages;
  }
}
