/** Sort keys, NULLS LAST ordering, and the engine's ORDER BY as a sorted sequence. */
module SortOrder {
  import opened Common

  /** A non-NULL value of a sort expression: NUMERIC or a timestamp, or text. */
  datatype Value = Number(n: real) | Text(s: string)

  /** One sort expression of one row; `None` is SQL NULL. */
  type Key = Option<Value>

  /** A selected row: its sort expressions, most significant first, and its id. */
  datatype Row = Row(keys: seq<Key>, id: nat)

  /** Text comparison, character by character. */
  predicate TextBefore(a: string, b: string) {
    b != [] && (a == [] || a[0] < b[0] || (a[0] == b[0] && TextBefore(a[1..], b[1..])))
  }

  /** `<` on non-NULL values. A column holds one kind only, so the mixed case is never decisive. */
  predicate ValueBefore(a: Value, b: Value) {
    match (a, b)
    case (Number(x), Number(y)) => x < y
    case (Number(_), Text(_)) => true
    case (Text(_), Number(_)) => false
    case (Text(x), Text(y)) => TextBefore(x, y)
  }

  /** One ORDER BY term: ascending or descending, NULLS LAST either way. */
  predicate KeyBefore(a: Key, b: Key, asc: bool) {
    match (a, b)
    case (None, _) => false
    case (Some(_), None) => true
    case (Some(x), Some(y)) => if asc then ValueBefore(x, y) else ValueBefore(y, x)
  }

  /** The ORDER BY terms taken together, lexicographically. */
  predicate KeysBefore(a: seq<Key>, b: seq<Key>, asc: bool) {
    && a != [] && b != []
    && (KeyBefore(a[0], b[0], asc) || (a[0] == b[0] && KeysBefore(a[1..], b[1..], asc)))
  }

  /** The whole ORDER BY: the sort terms, then id ascending whatever the direction. */
  predicate Before(a: Row, b: Row, asc: bool) {
    KeysBefore(a.keys, b.keys, asc) || (a.keys == b.keys && a.id < b.id)
  }

  lemma {:induction false} TextTotal(a: string, b: string)
    ensures !(TextBefore(a, b) && TextBefore(b, a))
    ensures TextBefore(a, b) || a == b || TextBefore(b, a)
    ensures a == b ==> !TextBefore(a, b)
  {
    if a != [] && b != [] {
      TextTotal(a[1..], b[1..]);
      assert a == [a[0]] + a[1..] && b == [b[0]] + b[1..];
    }
  }

  lemma {:induction false} TextTransitive(a: string, b: string, c: string)
    requires TextBefore(a, b) && TextBefore(b, c)
    ensures TextBefore(a, c)
  {
    if a != [] && a[0] == b[0] && b[0] == c[0] {
      TextTransitive(a[1..], b[1..], c[1..]);
    }
  }

  lemma KeyTotal(a: Key, b: Key, asc: bool)
    ensures !(KeyBefore(a, b, asc) && KeyBefore(b, a, asc))
    ensures KeyBefore(a, b, asc) || a == b || KeyBefore(b, a, asc)
    ensures a == b ==> !KeyBefore(a, b, asc)
  {
    if a.Some? && b.Some? && a.value.Text? && b.value.Text? {
      TextTotal(a.value.s, b.value.s);
    }
  }

  lemma KeyTransitive(a: Key, b: Key, c: Key, asc: bool)
    requires KeyBefore(a, b, asc) && KeyBefore(b, c, asc)
    ensures KeyBefore(a, c, asc)
  {
    if a.Some? && b.Some? && c.Some? && a.value.Text? && b.value.Text? && c.value.Text? {
      if asc {
        TextTransitive(a.value.s, b.value.s, c.value.s);
      } else {
        TextTransitive(c.value.s, b.value.s, a.value.s);
      }
    }
  }

  lemma {:induction false} KeysTotal(a: seq<Key>, b: seq<Key>, asc: bool)
    requires |a| == |b|
    ensures !(KeysBefore(a, b, asc) && KeysBefore(b, a, asc))
    ensures KeysBefore(a, b, asc) || a == b || KeysBefore(b, a, asc)
    ensures a == b ==> !KeysBefore(a, b, asc)
  {
    if a != [] {
      KeyTotal(a[0], b[0], asc);
      KeysTotal(a[1..], b[1..], asc);
      assert a == [a[0]] + a[1..] && b == [b[0]] + b[1..];
    }
  }

  lemma {:induction false} KeysTransitive(a: seq<Key>, b: seq<Key>, c: seq<Key>, asc: bool)
    requires KeysBefore(a, b, asc) && KeysBefore(b, c, asc)
    ensures KeysBefore(a, c, asc)
  {
    if a[0] == b[0] && b[0] == c[0] {
      if !KeyBefore(a[0], b[0], asc) && !KeyBefore(b[0], c[0], asc) {
        KeysTransitive(a[1..], b[1..], c[1..], asc);
      }
    } else if KeyBefore(a[0], b[0], asc) && KeyBefore(b[0], c[0], asc) {
      KeyTransitive(a[0], b[0], c[0], asc);
    }
  }

  /** The emitted ORDER BY never ranks a row before itself, never both ways round, and always decides
      between two rows of one query. */
  lemma OrderIsTotal(a: Row, b: Row, asc: bool)
    requires |a.keys| == |b.keys|
    ensures !Before(a, a, asc)
    ensures !(Before(a, b, asc) && Before(b, a, asc))
    ensures a.id != b.id ==> (Before(a, b, asc) <==> !Before(b, a, asc))
    ensures Before(a, b, asc) || a == b || Before(b, a, asc)
  {
    KeysTotal(a.keys, b.keys, asc);
    KeysTotal(a.keys, a.keys, asc);
  }

  lemma OrderIsTransitive(a: Row, b: Row, c: Row, asc: bool)
    requires Before(a, b, asc) && Before(b, c, asc)
    ensures Before(a, c, asc)
  {
    if KeysBefore(a.keys, b.keys, asc) && KeysBefore(b.keys, c.keys, asc) {
      KeysTransitive(a.keys, b.keys, c.keys, asc);
    }
  }

  // ---------------------------------------------------------------------------
  // ORDER BY over a table
  // ---------------------------------------------------------------------------

  /** The rows a query ranges over: `width` sort expressions each and unique ids, in any heap order. */
  ghost predicate Table(rows: seq<Row>, width: nat) {
    && (forall r <- rows :: |r.keys| == width)
    && (forall i, j :: 0 <= i < j < |rows| ==> rows[i].id != rows[j].id)
  }

  ghost predicate Sorted(rows: seq<Row>, asc: bool) {
    forall i, j :: 0 <= i < j < |rows| ==> Before(rows[i], rows[j], asc)
  }

  function Place(r: Row, rows: seq<Row>, asc: bool): seq<Row> {
    if rows == [] then [r]
    else if Before(r, rows[0], asc) then [r] + rows
    else [rows[0]] + Place(r, rows[1..], asc)
  }

  /** ORDER BY. */
  function OrderBy(rows: seq<Row>, asc: bool): seq<Row> {
    if rows == [] then [] else Place(rows[0], OrderBy(rows[1..], asc), asc)
  }

  lemma {:induction false} PlacePermutes(r: Row, rows: seq<Row>, asc: bool)
    ensures multiset(Place(r, rows, asc)) == multiset(rows) + multiset{r}
  {
    if rows != [] {
      assert rows == [rows[0]] + rows[1..];
      if !Before(r, rows[0], asc) {
        PlacePermutes(r, rows[1..], asc);
        BehindHead(rows[0], rows[1..], Place(r, rows[1..], asc), r);
      }
    }
  }

  lemma BehindHead(head: Row, tail: seq<Row>, longer: seq<Row>, r: Row)
    requires multiset(longer) == multiset(tail) + multiset{r}
    ensures multiset([head] + longer) == multiset([head] + tail) + multiset{r}
  {
  }

  /** ORDER BY neither drops nor invents rows. */
  lemma {:induction false} OrderByPermutes(rows: seq<Row>, asc: bool)
    ensures multiset(OrderBy(rows, asc)) == multiset(rows)
    ensures |OrderBy(rows, asc)| == |rows|
  {
    if rows != [] {
      OrderByPermutes(rows[1..], asc);
      PlacePermutes(rows[0], OrderBy(rows[1..], asc), asc);
      assert rows == [rows[0]] + rows[1..];
    }
    SameLength(OrderBy(rows, asc), rows);
  }

  lemma SameLength(a: seq<Row>, b: seq<Row>)
    requires multiset(a) == multiset(b)
    ensures |a| == |b|
  {
    assert |a| == |multiset(a)| == |multiset(b)| == |b|;
  }

  lemma {:induction false} PlaceSorts(r: Row, rows: seq<Row>, width: nat, asc: bool)
    requires |r.keys| == width && (forall x <- rows :: |x.keys| == width && x.id != r.id)
    requires Sorted(rows, asc)
    ensures Sorted(Place(r, rows, asc), asc)
  {
    if rows != [] {
      if Before(r, rows[0], asc) {
        forall j | 0 <= j < |rows| ensures Before(r, rows[j], asc) {
          if j > 0 { OrderIsTransitive(r, rows[0], rows[j], asc); }
        }
      } else {
        var tail := Place(r, rows[1..], asc);
        PlacePermutes(r, rows[1..], asc);
        PlaceSorts(r, rows[1..], width, asc);
        OrderIsTotal(r, rows[0], asc);
        forall j | 0 <= j < |tail| ensures Before(rows[0], tail[j], asc) {
          assert tail[j] in multiset(tail);
          assert tail[j] == r || tail[j] in rows[1..];
        }
      }
    }
  }

  /** ORDER BY really sorts. */
  lemma {:induction false} OrderBySorts(rows: seq<Row>, width: nat, asc: bool)
    requires Table(rows, width)
    ensures Sorted(OrderBy(rows, asc), asc)
    ensures forall r :: r in OrderBy(rows, asc) <==> r in rows
    ensures Table(OrderBy(rows, asc), width)
  {
    OrderByPermutes(rows, asc);
    SameRows(rows, OrderBy(rows, asc));
    if rows != [] {
      OrderBySorts(rows[1..], width, asc);
      OrderByPermutes(rows[1..], asc);
      PlaceSorts(rows[0], OrderBy(rows[1..], asc), width, asc);
    }
    SortedDistinctIds(OrderBy(rows, asc), rows, width, asc);
  }

  lemma SameRows(a: seq<Row>, b: seq<Row>)
    requires multiset(a) == multiset(b)
    ensures forall r :: r in a <==> r in b
  {
    assert forall r :: r in a <==> r in multiset(a);
    assert forall r :: r in b <==> r in multiset(b);
  }

  lemma SortedDistinctIds(sorted: seq<Row>, rows: seq<Row>, width: nat, asc: bool)
    requires Table(rows, width) && Sorted(sorted, asc)
    requires forall r :: r in sorted ==> r in rows
    ensures Table(sorted, width)
  {
    forall i, j | 0 <= i < j < |sorted| ensures sorted[i].id != sorted[j].id {
      OrderIsTotal(sorted[i], sorted[j], asc);
      assert sorted[i] in rows && sorted[j] in rows;
    }
  }

  /** A sorted sequence is determined by its rows. */
  lemma {:induction false} SortedIsUnique(a: seq<Row>, b: seq<Row>, width: nat, asc: bool)
    requires Sorted(a, asc) && Sorted(b, asc) && multiset(a) == multiset(b)
    requires forall r <- a :: |r.keys| == width
    ensures a == b
  {
    SameLength(a, b);
    if a != [] {
      SameLeast(a, b, asc);
      assert a == [a[0]] + a[1..] && b == [b[0]] + b[1..];
      assert multiset(a[1..]) == multiset(a) - multiset{a[0]};
      assert multiset(b[1..]) == multiset(b) - multiset{b[0]};
      SortedIsUnique(a[1..], b[1..], width, asc);
    }
  }

  lemma SameLeast(a: seq<Row>, b: seq<Row>, asc: bool)
    requires Sorted(a, asc) && Sorted(b, asc) && a != [] && b != [] && multiset(a) == multiset(b)
    requires forall r <- a :: |r.keys| == |a[0].keys|
    ensures a[0] == b[0]
  {
    SameRows(a, b);
    assert a[0] in b && b[0] in a;
    OrderIsTotal(a[0], b[0], asc);
  }

  // ---------------------------------------------------------------------------
  // Seeking: the rows strictly after a position
  // ---------------------------------------------------------------------------

  predicate Past(at: Option<Row>, r: Row, asc: bool) {
    at.Some? ==> Before(at.value, r, asc)
  }

  /** The rows strictly after `at` in the order; every row when there is no position. */
  function RowsAfter(rows: seq<Row>, at: Option<Row>, asc: bool): seq<Row> {
    if rows == [] then []
    else (if Past(at, rows[0], asc) then [rows[0]] else []) + RowsAfter(rows[1..], at, asc)
  }

  lemma {:induction false} RowsAfterMembers(rows: seq<Row>, at: Option<Row>, asc: bool)
    ensures forall r :: r in RowsAfter(rows, at, asc) <==> r in rows && Past(at, r, asc)
  {
    if rows != [] {
      RowsAfterMembers(rows[1..], at, asc);
      assert rows == [rows[0]] + rows[1..];
    }
  }

  lemma {:induction false} RowsAfterCounts(rows: seq<Row>, at: Option<Row>, asc: bool, r: Row)
    ensures multiset(RowsAfter(rows, at, asc))[r] == if Past(at, r, asc) then multiset(rows)[r] else 0
  {
    if rows != [] {
      assert rows == [rows[0]] + rows[1..];
      RowsAfterCounts(rows[1..], at, asc, r);
    }
  }

  lemma {:induction false} RowsAfterKeepsOrder(rows: seq<Row>, at: Option<Row>, asc: bool)
    requires Sorted(rows, asc)
    ensures Sorted(RowsAfter(rows, at, asc), asc)
  {
    if rows != [] {
      var rest := RowsAfter(rows[1..], at, asc);
      RowsAfterKeepsOrder(rows[1..], at, asc);
      RowsAfterMembers(rows[1..], at, asc);
      forall j | 0 <= j < |rest| ensures Before(rows[0], rest[j], asc) {
        assert rest[j] in rest;
      }
    }
  }

  lemma {:induction false} RowsAfterIsTable(rows: seq<Row>, at: Option<Row>, asc: bool, width: nat)
    requires Table(rows, width)
    ensures Table(RowsAfter(rows, at, asc), width)
  {
    if rows != [] {
      var rest := RowsAfter(rows[1..], at, asc);
      RowsAfterIsTable(rows[1..], at, asc, width);
      RowsAfterMembers(rows[1..], at, asc);
      forall j | 0 <= j < |rest| ensures rows[0].id != rest[j].id {
        assert rest[j] in rest;
      }
    }
  }

  /** Filtering and sorting commute. */
  lemma SeekThenSort(rows: seq<Row>, at: Option<Row>, width: nat, asc: bool)
    requires Table(rows, width)
    ensures OrderBy(RowsAfter(rows, at, asc), asc) == RowsAfter(OrderBy(rows, asc), at, asc)
  {
    OrderBySorts(rows, width, asc);
    RowsAfterIsTable(rows, at, asc, width);
    OrderBySorts(RowsAfter(rows, at, asc), width, asc);
    OrderByPermutes(RowsAfter(rows, at, asc), asc);
    OrderByPermutes(rows, asc);
    RowsAfterKeepsOrder(OrderBy(rows, asc), at, asc);
    var a, b := RowsAfter(rows, at, asc), RowsAfter(OrderBy(rows, asc), at, asc);
    forall r ensures multiset(a)[r] == multiset(b)[r] {
      RowsAfterCounts(rows, at, asc, r);
      RowsAfterCounts(OrderBy(rows, asc), at, asc, r);
    }
    assert multiset(a) == multiset(b);
    SortedIsUnique(OrderBy(a, asc), b, width, asc);
  }

  /** In a sorted sequence the rows after its k-th row are exactly the rest of it. */
  lemma {:induction false} RowsAfterSorted(rows: seq<Row>, k: nat, width: nat, asc: bool)
    requires Sorted(rows, asc) && k < |rows| && (forall r <- rows :: |r.keys| == width)
    ensures RowsAfter(rows, Some(rows[k]), asc) == rows[k + 1..]
  {
    OrderIsTotal(rows[0], rows[k], asc);
    if k == 0 {
      AllAfter(rows[1..], rows[0], asc);
    } else {
      RowsAfterSorted(rows[1..], k - 1, width, asc);
    }
  }

  lemma {:induction false} AllAfter(rows: seq<Row>, at: Row, asc: bool)
    requires forall r <- rows :: Before(at, r, asc)
    ensures RowsAfter(rows, Some(at), asc) == rows
  {
    if rows != [] {
      AllAfter(rows[1..], at, asc);
    }
  }

  /** Seeking twice is seeking once, to the later position. */
  lemma {:induction false} SeekFurther(rows: seq<Row>, at: Option<Row>, further: Row, asc: bool)
    requires Past(at, further, asc)
    ensures RowsAfter(RowsAfter(rows, at, asc), Some(further), asc) == RowsAfter(rows, Some(further), asc)
  {
    if rows != [] {
      var rest := RowsAfter(rows[1..], at, asc);
      SeekFurther(rows[1..], at, further, asc);
      if Past(at, rows[0], asc) {
        assert ([rows[0]] + rest)[1..] == rest;
      } else {
        assert RowsAfter(rows, at, asc) == rest;
        if Before(further, rows[0], asc) {
          OrderIsTransitive(at.value, further, rows[0], asc);
        }
      }
    }
  }

  /** Resuming after the k-th row of what was left leaves what came after it. */
  lemma ResumeDropsDelivered(rows: seq<Row>, at: Option<Row>, k: nat, width: nat, asc: bool)
    requires Table(rows, width)
    requires k < |OrderBy(RowsAfter(rows, at, asc), asc)|
    ensures var rest := OrderBy(RowsAfter(rows, at, asc), asc);
            OrderBy(RowsAfter(rows, Some(rest[k]), asc), asc) == rest[k + 1..]
  {
    var s, rest := OrderBy(rows, asc), OrderBy(RowsAfter(rows, at, asc), asc);
    SeekThenSort(rows, at, width, asc);
    SeekThenSort(rows, Some(rest[k]), width, asc);
    RowsAfterIsTable(rows, at, asc, width);
    OrderBySorts(RowsAfter(rows, at, asc), width, asc);
    assert rest[k] in rest;
    RowsAfterMembers(rows, at, asc);
    SeekFurther(s, at, rest[k], asc);
    RowsAfterSorted(rest, k, width, asc);
  }
}
