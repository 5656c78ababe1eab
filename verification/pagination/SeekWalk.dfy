/** Walks by position: cut the next slice after the last row shown, until nothing is left. */
module SeekWalk {
  import opened Common
  import opened SortOrder

  /** One request: the table as it is at that moment, and the number of rows to show. */
  datatype Slice = Slice(db: seq<Row>, size: nat)

  /** What is left of the table at a position, in order. */
  function Rest(db: seq<Row>, at: Option<Row>, asc: bool): seq<Row> {
    OrderBy(RowsAfter(db, at, asc), asc)
  }

  function Concat(shown: seq<seq<Row>>): seq<Row> {
    if shown == [] then [] else shown[0] + Concat(shown[1..])
  }

  ghost predicate Tables(slices: seq<Slice>, width: nat) {
    forall q <- slices :: q.size > 0 && Table(q.db, width)
  }

  /** `shown` is what the requests show from position `at` on; `done` says nothing was left at the end.
      The table may change in any way between requests. */
  ghost predicate Walks(slices: seq<Slice>, shown: seq<seq<Row>>, at: Option<Row>, asc: bool, done: bool) {
    && |slices| == |shown| > 0
    && slices[0].size > 0
    && var rest := Rest(slices[0].db, at, asc);
    && shown[0] == rest[..Min(slices[0].size, |rest|)]
    && if |slices| == 1 then done <==> |rest| <= slices[0].size
       else |rest| > slices[0].size && Walks(slices[1..], shown[1..], Some(rest[slices[0].size - 1]), asc, done)
  }

  lemma RestFacts(db: seq<Row>, at: Option<Row>, width: nat, asc: bool)
    requires Table(db, width)
    ensures Sorted(Rest(db, at, asc), asc)
    ensures forall r :: r in Rest(db, at, asc) <==> r in db && Past(at, r, asc)
  {
    RowsAfterIsTable(db, at, asc, width);
    RowsAfterMembers(db, at, asc);
    OrderBySorts(RowsAfter(db, at, asc), width, asc);
  }

  lemma AppendSorted(a: seq<Row>, b: seq<Row>, asc: bool)
    requires Sorted(a, asc) && Sorted(b, asc)
    requires a != [] && forall x <- b :: Before(a[|a| - 1], x, asc)
    ensures Sorted(a + b, asc)
  {
    forall i, j | 0 <= i < |a| && 0 <= j < |b| ensures Before(a[i], b[j], asc) {
      assert b[j] in b;
      if i < |a| - 1 { OrderIsTransitive(a[i], a[|a| - 1], b[j], asc); }
    }
  }

  /** What a walk shows is in order and lies past the position it started from. */
  lemma {:induction false} WalkIsSorted(slices: seq<Slice>, shown: seq<seq<Row>>, at: Option<Row>, width: nat,
                                        asc: bool, done: bool)
    requires Tables(slices, width) && Walks(slices, shown, at, asc, done)
    ensures Sorted(Concat(shown), asc)
    ensures forall x <- Concat(shown) :: Past(at, x, asc)
    decreases |slices|
  {
    var q := slices[0];
    var rest := Rest(q.db, at, asc);
    assert q in slices;
    RestFacts(q.db, at, width, asc);
    if |slices| == 1 {
      assert Concat(shown) == shown[0];
    } else {
      var last := rest[q.size - 1];
      WalkIsSorted(slices[1..], shown[1..], Some(last), width, asc, done);
      assert shown[0][q.size - 1] == last;
      AppendSorted(shown[0], Concat(shown[1..]), asc);
      forall x <- Concat(shown[1..]) ensures Past(at, x, asc) {
        assert last in rest;
        if at.Some? { OrderIsTransitive(at.value, last, x, asc); }
      }
    }
  }

  /** `r` is in the table, with these sort values, at every request. */
  ghost predicate StaysPresent(r: Row, slices: seq<Slice>) {
    forall q <- slices :: r in q.db
  }

  /** A row that stays present past the starting position has been shown by the end. */
  lemma {:induction false} StableRowIsShown(slices: seq<Slice>, shown: seq<seq<Row>>, at: Option<Row>, width: nat,
                                            asc: bool, r: Row)
    requires Tables(slices, width) && Walks(slices, shown, at, asc, true)
    requires StaysPresent(r, slices) && Past(at, r, asc)
    ensures r in Concat(shown)
    decreases |slices|
  {
    var q := slices[0];
    var rest := Rest(q.db, at, asc);
    assert q in slices;
    RestFacts(q.db, at, width, asc);
    assert r in rest;
    var j :| 0 <= j < |rest| && rest[j] == r;
    if j < |shown[0]| {
      assert shown[0][j] == r;
    } else {
      assert Before(rest[q.size - 1], r, asc);
      StableRowIsShown(slices[1..], shown[1..], Some(rest[q.size - 1]), width, asc, r);
    }
  }

  lemma SortedHoldsOnce(rows: seq<Row>, r: Row, asc: bool)
    requires Sorted(rows, asc) && r in rows
    ensures multiset(rows)[r] == 1
  {
    var k :| 0 <= k < |rows| && rows[k] == r;
    OrderIsTotal(r, r, asc);
    assert rows == rows[..k] + [r] + rows[k + 1..];
    assert r !in rows[..k] && r !in rows[k + 1..];
  }

  // ---------------------------------------------------------------------------
  // A table that does not change
  // ---------------------------------------------------------------------------

  /** On a fixed table a walk shows consecutive slices of what was left, whatever sizes are asked for. */
  lemma {:induction false} FixedTable(slices: seq<Slice>, shown: seq<seq<Row>>, at: Option<Row>, width: nat,
                                      asc: bool, done: bool, db: seq<Row>)
    requires Walks(slices, shown, at, asc, done)
    requires Table(db, width) && forall q <- slices :: q.db == db
    ensures Concat(shown) <= Rest(db, at, asc)
    ensures done ==> Concat(shown) == Rest(db, at, asc)
    decreases |slices|
  {
    var n := slices[0].size;
    var rest := Rest(db, at, asc);
    assert slices[0] in slices;
    if |slices| == 1 {
      assert Concat(shown) == shown[0];
    } else {
      ResumeDropsDelivered(db, at, n - 1, width, asc);
      FixedTable(slices[1..], shown[1..], Some(rest[n - 1]), width, asc, done, db);
      PutTogether(rest, n, Concat(shown[1..]));
    }
  }

  lemma PutTogether(rest: seq<Row>, n: nat, later: seq<Row>)
    requires n <= |rest| && later <= rest[n..]
    ensures rest[..n] + later <= rest
    ensures later == rest[n..] ==> rest[..n] + later == rest
  {
  }

  /** How many pages of `d` it takes to hold `n` rows. */
  function CeilDiv(n: nat, d: nat): (k: nat)
    requires d > 0
    ensures n > 0 ==> (k - 1) * d < n <= k * d
    ensures n == 0 <==> k == 0
  {
    if n == 0 then 0 else if n <= d then 1 else 1 + CeilDiv(n - d, d)
  }

  /** A complete walk of a fixed table takes max(1, ceil(left / size)) requests. */
  lemma {:induction false} FixedTableRequests(slices: seq<Slice>, shown: seq<seq<Row>>, at: Option<Row>, width: nat,
                                              asc: bool, db: seq<Row>, size: nat)
    requires Walks(slices, shown, at, asc, true)
    requires Table(db, width) && size > 0 && forall q <- slices :: q == Slice(db, size)
    ensures |slices| == Max(1, CeilDiv(|Rest(db, at, asc)|, size))
    decreases |slices|
  {
    assert slices[0] in slices;
    if |slices| > 1 {
      var rest := Rest(db, at, asc);
      ResumeDropsDelivered(db, at, size - 1, width, asc);
      forall q <- slices[1..] ensures q == Slice(db, size) { assert q in slices; }
      FixedTableRequests(slices[1..], shown[1..], Some(rest[size - 1]), width, asc, db, size);
    }
  }
}
