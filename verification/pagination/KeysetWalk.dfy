/** Whole walks over a keyset listing: a client that hands every `next` token back until there is none. */
module KeysetWalk {
  import opened Common
  import opened SortOrder
  import opened Cursors
  import opened Keyset
  import opened SeekWalk

  /** What identifies a listing: its sort expressions, direction, decoders and scope. */
  datatype Listing = Listing(width: nat, asc: bool, decoders: Option<seq<Decoder>>, scope: Option<string>)

  /** One request: the table as it is at that moment, and the page size asked for. */
  datatype Request = Request(db: seq<Row>, limit: int)

  predicate WellFormed(l: Listing) {
    l.decoders.Some? ==> |l.decoders.value| == l.width
  }

  /** The table fits the listing, and decoding undoes `str` on every value it sorts by. */
  ghost predicate Suits(db: seq<Row>, l: Listing, env: Env)
    requires WellFormed(l)
  {
    Table(db, l.width) && forall r <- db :: Decodable(r, l, env)
  }

  ghost predicate Decodable(r: Row, l: Listing, env: Env)
    requires WellFormed(l)
  {
    && |r.keys| == l.width
    && forall i :: 0 <= i < l.width ==> DecodeKey(l.decoders, i, ShowKey(r.keys[i], env)) == Some(r.keys[i])
  }

  /** The endpoint: decode the client's token, then answer. */
  function Serve(db: seq<Row>, l: Listing, token: Option<string>, limit: int, env: Env): Result<Page, HttpError>
    requires WellFormed(l)
  {
    if token.None? then Response(db, l.width, None, limit, l.asc, l.decoders, l.scope, env)
    else
      match DecodeCursor(token.value, env)
      case Ok(c) => Response(db, l.width, Some(c), limit, l.asc, l.decoders, l.scope, env)
      case Err(e) => Err(e)
  }

  function TokenAt(r: Row, l: Listing, env: Env): string {
    EncodeCursor(CursorAt(r, l.scope, env), env)
  }

  /** A minted token resumes exactly after the row it was minted at, whatever the table holds by then. */
  lemma Resume(db: seq<Row>, l: Listing, r: Row, limit: int, env: Env)
    requires WellFormed(l) && Lawful(env) && Decodable(r, l, env)
    ensures Serve(db, l, Some(TokenAt(r, l, env)), limit, env)
         == Ok(PageAfter(db, Some(r), limit, l.asc, l.scope, env))
  {
    var c := CursorAt(r, l.scope, env);
    CursorRoundTrip(c, env);
    var keys := DecodeKeys(c.sortKeys.value, l.decoders, l.width);
    assert keys.Ok?;
    assert keys.value == r.keys;
  }

  /** The rows each response carried. */
  function Shown(pages: seq<Page>): (out: seq<seq<Row>>)
    ensures |out| == |pages|
  {
    if pages == [] then [] else [pages[0].rows] + Shown(pages[1..])
  }

  /** Everything a client has, in the order it arrived. */
  function Delivered(pages: seq<Page>): seq<Row> { Concat(Shown(pages)) }

  function Slices(requests: seq<Request>): (out: seq<Slice>)
    ensures |out| == |requests|
    ensures forall i :: 0 <= i < |out| ==> out[i] == Slice(requests[i].db, ClampLimit(requests[i].limit))
  {
    seq(|requests|, i requires 0 <= i < |requests| => Slice(requests[i].db, ClampLimit(requests[i].limit)))
  }

  /** Each request carries the token of the response before it, the first one `token`, and every one is
      accepted. The table may change in any way between requests. */
  ghost predicate IsWalk(requests: seq<Request>, pages: seq<Page>, token: Option<string>, l: Listing, env: Env)
    requires WellFormed(l)
  {
    && |requests| == |pages| > 0
    && Suits(requests[0].db, l, env)
    && Serve(requests[0].db, l, token, requests[0].limit, env) == Ok(pages[0])
    && (|pages| > 1 ==> pages[0].next.Some? && IsWalk(requests[1..], pages[1..], pages[0].next, l, env))
  }

  /** The last response carried no token. */
  ghost predicate Complete(pages: seq<Page>) {
    pages != [] && pages[|pages| - 1].next.None?
  }

  /** The token names the position: none at the top, otherwise the row it was minted at. */
  ghost predicate Names(token: Option<string>, at: Option<Row>, l: Listing, env: Env)
    requires WellFormed(l)
  {
    if at.None? then token.None? else Decodable(at.value, l, env) && token == Some(TokenAt(at.value, l, env))
  }

  /** One step of a walk. */
  lemma Step(db: seq<Row>, l: Listing, token: Option<string>, at: Option<Row>, limit: int, env: Env)
    requires WellFormed(l) && Lawful(env) && Suits(db, l, env) && Names(token, at, l, env)
    ensures Serve(db, l, token, limit, env) == Ok(PageAfter(db, at, limit, l.asc, l.scope, env))
    ensures var p, rest := PageAfter(db, at, limit, l.asc, l.scope, env), Rest(db, at, l.asc);
            && p.rows == rest[..Min(ClampLimit(limit), |rest|)]
            && (p.next.Some? <==> |rest| > ClampLimit(limit))
            && (p.next.Some? ==> Names(p.next, Some(rest[ClampLimit(limit) - 1]), l, env))
  {
    if at.Some? { Resume(db, l, at.value, limit, env); }
    RestFacts(db, at, l.width, l.asc);
    var rest := Rest(db, at, l.asc);
    if |rest| > ClampLimit(limit) { assert rest[ClampLimit(limit) - 1] in rest; }
  }

  /** Following tokens is following positions. */
  lemma {:induction false} TokensFollowPositions(requests: seq<Request>, pages: seq<Page>, token: Option<string>,
                                                 at: Option<Row>, l: Listing, env: Env)
    requires WellFormed(l) && Lawful(env) && Names(token, at, l, env) && IsWalk(requests, pages, token, l, env)
    ensures Walks(Slices(requests), Shown(pages), at, l.asc, Complete(pages))
    ensures Tables(Slices(requests), l.width)
    decreases |pages|
  {
    var q := requests[0];
    Step(q.db, l, token, at, q.limit, env);
    if |pages| > 1 {
      var rest := Rest(q.db, at, l.asc);
      TokensFollowPositions(requests[1..], pages[1..], pages[0].next, Some(rest[ClampLimit(q.limit) - 1]), l, env);
    }
    FirstThenRest(requests, pages, at, l.asc);
  }

  /** A walk by position, put together from its first request and what follows. */
  lemma FirstThenRest(requests: seq<Request>, pages: seq<Page>, at: Option<Row>, asc: bool)
    requires |requests| == |pages| > 0
    requires var n, rest := ClampLimit(requests[0].limit), Rest(requests[0].db, at, asc);
             && pages[0].rows == rest[..Min(n, |rest|)]
             && (pages[0].next.Some? <==> |rest| > n)
             && (|pages| > 1 ==>
                   |rest| > n && Walks(Slices(requests[1..]), Shown(pages[1..]), Some(rest[n - 1]), asc,
                                       Complete(pages[1..])))
    ensures Walks(Slices(requests), Shown(pages), at, asc, Complete(pages))
    ensures Slices(requests)[1..] == Slices(requests[1..])
  {
    assert Slices(requests)[1..] == Slices(requests[1..]);
    assert Shown(pages)[0] == pages[0].rows && Shown(pages)[1..] == Shown(pages[1..]);
    if |pages| > 1 { assert Complete(pages) == Complete(pages[1..]); }
  }

  /** Whatever is inserted, deleted or changed between requests - the cursor's own row included - a complete
      walk delivers, exactly once and in order, every row that stays present with unchanged sort values. */
  lemma ExactlyOnce(requests: seq<Request>, pages: seq<Page>, l: Listing, env: Env, r: Row)
    requires WellFormed(l) && Lawful(env) && IsWalk(requests, pages, None, l, env) && Complete(pages)
    requires forall q <- requests :: r in q.db
    ensures Sorted(Delivered(pages), l.asc)
    ensures multiset(Delivered(pages))[r] == 1
  {
    TokensFollowPositions(requests, pages, None, None, l, env);
    WalkIsSorted(Slices(requests), Shown(pages), None, l.width, l.asc, true);
    StableRowIsShown(Slices(requests), Shown(pages), None, l.width, l.asc, r);
    SortedHoldsOnce(Delivered(pages), r, l.asc);
  }

  /** On a fixed table of n rows the pages concatenate to the whole sorted table, in exactly
      max(1, ceil(n / limit)) requests. */
  lemma FixedTableWalk(requests: seq<Request>, pages: seq<Page>, l: Listing, env: Env, db: seq<Row>, limit: int)
    requires WellFormed(l) && Lawful(env) && IsWalk(requests, pages, None, l, env) && Complete(pages)
    requires forall q <- requests :: q == Request(db, limit)
    ensures Delivered(pages) == OrderBy(db, l.asc)
    ensures |pages| == Max(1, CeilDiv(|db|, ClampLimit(limit)))
  {
    assert requests[0] in requests;
    NoSeek(db, l.asc);
    OrderByPermutes(db, l.asc);
    TokensFollowPositions(requests, pages, None, None, l, env);
    SameSlices(requests, db, limit);
    FixedTable(Slices(requests), Shown(pages), None, l.width, l.asc, true, db);
    FixedTableRequests(Slices(requests), Shown(pages), None, l.width, l.asc, db, ClampLimit(limit));
  }

  lemma SameSlices(requests: seq<Request>, db: seq<Row>, limit: int)
    requires forall q <- requests :: q == Request(db, limit)
    ensures forall q <- Slices(requests) :: q == Slice(db, ClampLimit(limit))
  {
    forall q <- Slices(requests) ensures q == Slice(db, ClampLimit(limit)) {
      var i :| 0 <= i < |requests| && q == Slices(requests)[i];
      assert requests[i] in requests;
    }
  }

  /** No walk gets stuck: from any position on a fixed table there is a complete one. */
  lemma {:induction false} WalkExists(db: seq<Row>, token: Option<string>, at: Option<Row>, l: Listing, env: Env,
                                      limit: int)
    returns (requests: seq<Request>, pages: seq<Page>)
    requires WellFormed(l) && Lawful(env) && Suits(db, l, env) && Names(token, at, l, env)
    ensures IsWalk(requests, pages, token, l, env) && Complete(pages)
    ensures forall q <- requests :: q == Request(db, limit)
    decreases |Rest(db, at, l.asc)|
  {
    var p := PageAfter(db, at, limit, l.asc, l.scope, env);
    Step(db, l, token, at, limit, env);
    requests, pages := [Request(db, limit)], [p];
    if p.next.Some? {
      var n, rest := ClampLimit(limit), Rest(db, at, l.asc);
      RestShrinks(db, at, n - 1, l.width, l.asc);
      var rs, ps := WalkExists(db, p.next, Some(rest[n - 1]), l, env, limit);
      OneMorePage(Request(db, limit), p, rs, ps, token, l, env);
      requests, pages := requests + rs, pages + ps;
    }
  }

  lemma RestShrinks(db: seq<Row>, at: Option<Row>, k: nat, width: nat, asc: bool)
    requires Table(db, width) && k < |Rest(db, at, asc)|
    ensures |Rest(db, Some(Rest(db, at, asc)[k]), asc)| < |Rest(db, at, asc)|
  {
    ResumeDropsDelivered(db, at, k, width, asc);
  }

  lemma OneMorePage(q: Request, p: Page, requests: seq<Request>, pages: seq<Page>, token: Option<string>, l: Listing,
                    env: Env)
    requires WellFormed(l) && Suits(q.db, l, env) && Serve(q.db, l, token, q.limit, env) == Ok(p)
    requires p.next.Some? && IsWalk(requests, pages, p.next, l, env)
    ensures IsWalk([q] + requests, [p] + pages, token, l, env)
    ensures Complete(pages) ==> Complete([p] + pages)
  {
    assert ([q] + requests)[1..] == requests && ([p] + pages)[1..] == pages;
  }

  // ---------------------------------------------------------------------------
  // A client that changes its mind
  // ---------------------------------------------------------------------------

  /** A token minted under one scope is refused under any other. */
  lemma WrongScopeIsRefused(db: seq<Row>, r: Row, minted: Listing, asked: Listing, limit: int, env: Env)
    requires WellFormed(asked) && Lawful(env) && minted.scope != asked.scope
    ensures Serve(db, asked, Some(TokenAt(r, minted, env)), limit, env) == Err(CursorMismatch)
  {
    CursorRoundTrip(CursorAt(r, minted.scope, env), env);
  }

  lemma SameScope(db: seq<Row>, r: Row, minted: Listing, asked: Listing, limit: int, env: Env)
    requires WellFormed(asked) && Lawful(env)
    requires Serve(db, asked, Some(TokenAt(r, minted, env)), limit, env).Ok?
    ensures minted.scope == asked.scope
  {
    if minted.scope != asked.scope { WrongScopeIsRefused(db, r, minted, asked, limit, env); }
  }
}
