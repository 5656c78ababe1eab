/** Migration 0045: the active sourcing lists take in the saved workspace defaults. */
module Backfill {
  import opened Common

  /** A JSON array element read as text; `None` is a JSON null. */
  type Text = Option<string>

  /** What separates the ordinals of the two lists. */
  const OFFSET := 1000000

  // ---------------------------------------------------------------------------
  // First occurrences
  // ---------------------------------------------------------------------------

  /** Where `v` first occurs. */
  function Pos(s: seq<Text>, v: Text): nat
    requires v in s
  {
    if s[0] == v then 0 else 1 + Pos(s[1..], v)
  }

  /** `s` without repetitions, first occurrences kept in place. */
  function Dedup(s: seq<Text>): seq<Text> {
    if s == [] then []
    else if s[|s| - 1] in s[..|s| - 1] then Dedup(s[..|s| - 1])
    else Dedup(s[..|s| - 1]) + [s[|s| - 1]]
  }

  ghost predicate Distinct(s: seq<Text>) {
    forall i, j :: 0 <= i < j < |s| ==> s[i] != s[j]
  }

  /** `out` lists values of `s` in the order of their first occurrence there. */
  ghost predicate InOrderOf(s: seq<Text>, out: seq<Text>) {
    && (forall v <- out :: v in s)
    && forall i, j :: 0 <= i < j < |out| ==> Pos(s, out[i]) < Pos(s, out[j])
  }

  lemma {:induction false} PosIs(s: seq<Text>, v: Text)
    requires v in s
    ensures Pos(s, v) < |s| && s[Pos(s, v)] == v
    ensures forall i :: 0 <= i < Pos(s, v) ==> s[i] != v
  {
    if s[0] != v {
      PosIs(s[1..], v);
      assert s[Pos(s, v)] == s[1..][Pos(s[1..], v)];
      forall i | 0 <= i < Pos(s, v) ensures s[i] != v {
        assert i > 0 ==> s[i] == s[1..][i - 1];
      }
    }
  }

  lemma PosUnique(s: seq<Text>, v: Text, i: nat)
    requires i < |s| && s[i] == v && forall j :: 0 <= j < i ==> s[j] != v
    ensures Pos(s, v) == i
  {
    PosIs(s, v);
  }

  lemma PosAppend(a: seq<Text>, p: seq<Text>, v: Text)
    requires v in a || v in p
    ensures v in a + p
    ensures v in a ==> Pos(a + p, v) == Pos(a, v)
    ensures v !in a ==> Pos(a + p, v) == |a| + Pos(p, v)
  {
    if v in a {
      PosIs(a, v);
      PosUnique(a + p, v, Pos(a, v));
    } else {
      PosIs(p, v);
      PosUnique(a + p, v, |a| + Pos(p, v));
    }
  }

  /** Deduplication is the listing of all values by first occurrence. */
  lemma {:induction false} DedupFacts(s: seq<Text>)
    ensures forall v :: v in Dedup(s) <==> v in s
    ensures InOrderOf(s, Dedup(s))
    ensures |Dedup(s)| <= |s|
  {
    if s != [] {
      var init, last := s[..|s| - 1], s[|s| - 1];
      assert s == init + [last];
      DedupFacts(init);
      var d := Dedup(init);
      forall v <- Dedup(s) ensures v in s { }
      forall v <- d ensures v in init && Pos(s, v) == Pos(init, v) && Pos(s, v) < |init| {
        PosAppend(init, [last], v);
        PosIs(init, v);
      }
      if last !in init {
        PosAppend(init, [last], last);
        assert forall i :: 0 <= i < |d| ==> d[i] in d;
      } else {
        assert forall i :: 0 <= i < |d| ==> d[i] in d;
      }
    }
  }

  /** There is only one such listing. */
  lemma {:induction false} OrderIsUnique(s: seq<Text>, x: seq<Text>, y: seq<Text>)
    requires InOrderOf(s, x) && InOrderOf(s, y)
    requires forall v :: v in x <==> v in y
    ensures x == y
  {
    assert x == [] || x[0] in x;
    assert y == [] || y[0] in y;
    if x != [] {
      assert x[0] in x && x[0] in y;
      assert y[0] in y && y[0] in x;
      assert x[0] == y[0] by {
        var i :| 0 <= i < |y| && y[i] == x[0];
        var j :| 0 <= j < |x| && x[j] == y[0];
      }
      forall v ensures v in x[1..] <==> v in y[1..] {
        if v in x[1..] {
          var i :| 0 <= i < |x[1..]| && x[1..][i] == v;
          assert Pos(s, x[0]) < Pos(s, x[i + 1]);
          assert v in y;
        }
        if v in y[1..] {
          var i :| 0 <= i < |y[1..]| && y[1..][i] == v;
          assert Pos(s, y[0]) < Pos(s, y[i + 1]);
          assert v in x;
        }
      }
      OrderIsUnique(s, x[1..], y[1..]);
    }
  }

  // ---------------------------------------------------------------------------
  // The merge query
  // ---------------------------------------------------------------------------

  /** `min(ord)` of a value over the active list and, 1000000 further on, the preferred list. */
  function FirstSeen(a: seq<Text>, p: seq<Text>, v: Text): nat
    requires v in a || v in p
  {
    if v !in a then Pos(p, v) + 1 + OFFSET
    else if v !in p then Pos(a, v) + 1
    else Min(Pos(a, v) + 1, Pos(p, v) + 1 + OFFSET)
  }

  /** What `jsonb_agg(value ORDER BY first_seen)` over the grouped values may return: every value once, by
      non-decreasing `first_seen`, ties in any order. */
  ghost predicate IsAnswer(a: seq<Text>, p: seq<Text>, out: seq<Text>) {
    && Distinct(out)
    && (forall v :: v in out <==> v in a || v in p)
    && forall i, j :: 0 <= i < j < |out| ==> FirstSeen(a, p, out[i]) <= FirstSeen(a, p, out[j])
  }

  /** Every value of the active list first occurs within the first million. */
  ghost predicate WithinOffset(a: seq<Text>) {
    forall v <- a :: Pos(a, v) < OFFSET
  }

  lemma ShortIsWithinOffset(a: seq<Text>)
    requires |a| <= OFFSET
    ensures WithinOffset(a)
  {
    forall v <- a ensures Pos(a, v) < OFFSET { PosIs(a, v); }
  }

  /** With the active list inside the offset the query computes the deduplication of active, then preferred. */
  lemma AnswerIsDedup(a: seq<Text>, p: seq<Text>, out: seq<Text>)
    requires WithinOffset(a) && IsAnswer(a, p, out)
    ensures out == Dedup(a + p)
  {
    var s := a + p;
    forall v <- out ensures v in s { }
    forall i, j | 0 <= i < j < |out| ensures Pos(s, out[i]) < Pos(s, out[j]) {
      assert out[i] in out && out[j] in out;
      PosAppend(a, p, out[i]);
      PosAppend(a, p, out[j]);
      PosIs(s, out[i]);
      PosIs(s, out[j]);
      if out[i] in a { PosIs(a, out[i]); }
      if out[j] in a { PosIs(a, out[j]); }
    }
    DedupFacts(s);
    OrderIsUnique(s, out, Dedup(s));
  }

  /** A value not in a list. */
  lemma {:induction false} FreshValue(a: seq<Text>) returns (x: string)
    ensures Some(x) !in a
    ensures forall v <- a :: v.Some? ==> |v.value| < |x|
  {
    if a == [] {
      x := "x";
    } else {
      var y := FreshValue(a[1..]);
      x := if a[0].Some? && |a[0].value| >= |y| then a[0].value + "x" else y;
    }
  }

  lemma {:induction false} SplitAtOffset(a: seq<Text>, d: seq<Text>) returns (k: nat)
    requires InOrderOf(a, d)
    ensures k <= |d|
    ensures forall i :: 0 <= i < k ==> Pos(a, d[i]) < OFFSET
    ensures forall i :: k <= i < |d| ==> Pos(a, d[i]) >= OFFSET
  {
    k := 0;
    while k < |d| && Pos(a, d[k]) < OFFSET
      invariant k <= |d|
      invariant forall i :: 0 <= i < k ==> Pos(a, d[i]) < OFFSET
    {
      k := k + 1;
    }
  }

  /** What the query sees of a value of the active list when the preferred list is one fresh value. */
  lemma FirstSeenActive(a: seq<Text>, x: Text, v: Text)
    requires x !in a && (v in a || v == x)
    ensures FirstSeen(a, [x], v) == (if v == x then OFFSET else Pos(a, v)) + 1
  {
    if v == x { PosIs([x], v); }
  }

  /** Part of an answer: distinct values of the two lists by non-decreasing `first_seen`. */
  ghost predicate Sorted(a: seq<Text>, p: seq<Text>, out: seq<Text>) {
    && Distinct(out)
    && (forall i :: 0 <= i < |out| ==> out[i] in a || out[i] in p)
    && forall i, j :: 0 <= i < j < |out| ==> FirstSeen(a, p, out[i]) <= FirstSeen(a, p, out[j])
  }

  function InsertAt(s: seq<Text>, k: nat, x: Text): seq<Text>
    requires k <= |s|
  {
    s[..k] + [x] + s[k..]
  }

  lemma InsertAtMeans(s: seq<Text>, k: nat, x: Text)
    requires k <= |s|
    ensures |InsertAt(s, k, x)| == |s| + 1
    ensures forall j :: 0 <= j <= |s| ==> InsertAt(s, k, x)[j] == if j < k then s[j] else if j == k then x else s[j - 1]
  {
  }

  lemma InsertAtHolds(s: seq<Text>, k: nat, x: Text, u: Text)
    requires k <= |s|
    ensures u in InsertAt(s, k, x) <==> u in s || u == x
  {
    var z := InsertAt(s, k, x);
    InsertAtMeans(s, k, x);
    assert z[k] == x;
    if u in s {
      var i :| 0 <= i < |s| && s[i] == u;
      assert z[if i < k then i else i + 1] == u;
    }
  }

  lemma InsertAtKeepsDistinct(s: seq<Text>, k: nat, x: Text)
    requires k <= |s| && Distinct(s) && x !in s
    ensures Distinct(InsertAt(s, k, x))
  {
    InsertAtMeans(s, k, x);
  }

  lemma InsertAtKeepsSorted(a: seq<Text>, p: seq<Text>, s: seq<Text>, k: nat, x: Text)
    requires k <= |s| && Sorted(a, p, s) && x !in s && (x in a || x in p)
    requires forall i :: 0 <= i < k ==> FirstSeen(a, p, s[i]) <= FirstSeen(a, p, x)
    requires forall i :: k <= i < |s| ==> FirstSeen(a, p, x) <= FirstSeen(a, p, s[i])
    ensures Sorted(a, p, InsertAt(s, k, x))
  {
    var z := InsertAt(s, k, x);
    InsertAtKeepsDistinct(s, k, x);
    InsertAtMeans(s, k, x);
    forall i, j | 0 <= i < j < |z| ensures FirstSeen(a, p, z[i]) <= FirstSeen(a, p, z[j]) { }
  }

  /** A fresh value inserted before the values that come after it. */
  lemma InsertedIsAnswer(a: seq<Text>, x: Text, k: nat)
    requires x !in a && k <= |Dedup(a)|
    requires InOrderOf(a, Dedup(a))
    requires forall i :: 0 <= i < k ==> Pos(a, Dedup(a)[i]) < OFFSET
    requires forall i :: k <= i < |Dedup(a)| ==> Pos(a, Dedup(a)[i]) >= OFFSET
    ensures IsAnswer(a, [x], InsertAt(Dedup(a), k, x))
  {
    var d := Dedup(a);
    DedupFacts(a);
    forall i | 0 <= i < |d| ensures d[i] in a && FirstSeen(a, [x], d[i]) == Pos(a, d[i]) + 1 {
      assert d[i] in d;
      FirstSeenActive(a, x, d[i]);
    }
    FirstSeenActive(a, x, x);
    InsertAtKeepsSorted(a, [x], d, k, x);
    forall v ensures v in InsertAt(d, k, x) <==> v in a || v == x { InsertAtHolds(d, k, x, v); }
  }

  /** Past the offset the promise fails: some preferred list then has an answer that interleaves. */
  lemma BeyondOffsetInterleaves(a: seq<Text>) returns (p: seq<Text>, out: seq<Text>)
    requires !WithinOffset(a)
    ensures IsAnswer(a, p, out) && out != Dedup(a + p)
  {
    var fresher := FreshValue(a);
    var x: Text := Some(fresher);
    var d := Dedup(a);
    p := [x];
    DedupFacts(a);
    forall i | 0 <= i < |d| ensures d[i] in a { assert d[i] in d; }
    var k := SplitAtOffset(a, d);
    out := InsertAt(d, k, x);
    InsertAtMeans(d, k, x);
    InsertedIsAnswer(a, x, k);
    var far :| far in a && Pos(a, far) >= OFFSET;
    assert far in d;
    assert k < |d|;
    assert (a + p)[..|a + p| - 1] == a;
    assert Dedup(a + p) == d + [x];
    assert out[k] == x && (d + [x])[k] == d[k];
  }

  /** The query is right for every preferred list exactly when the active list keeps its first occurrences
      within the million - in particular whenever it has at most a million elements. */
  lemma MergeIsRightIff(a: seq<Text>)
    ensures (forall p, out :: IsAnswer(a, p, out) ==> out == Dedup(a + p)) <==> WithinOffset(a)
    ensures |a| <= OFFSET ==> WithinOffset(a)
  {
    if WithinOffset(a) {
      forall p, out | IsAnswer(a, p, out) ensures out == Dedup(a + p) { AnswerIsDedup(a, p, out); }
    } else {
      var p, out := BeyondOffsetInterleaves(a);
    }
    if |a| <= OFFSET { ShortIsWithinOffset(a); }
  }

  lemma {:induction false} DedupStartsWithActive(a: seq<Text>, p: seq<Text>)
    ensures Dedup(a) <= Dedup(a + p)
  {
    if p == [] {
      assert a + p == a;
    } else {
      var init := p[..|p| - 1];
      DedupStartsWithActive(a, init);
      assert (a + p)[..|a + p| - 1] == a + init;
    }
  }

  /** The merged list starts with the active values in their order and loses none of either list. */
  lemma MergeKeepsActiveFirst(a: seq<Text>, p: seq<Text>, out: seq<Text>)
    requires WithinOffset(a) && IsAnswer(a, p, out)
    ensures Dedup(a) <= out
    ensures forall v :: v in a || v in p ==> v in out
  {
    AnswerIsDedup(a, p, out);
    DedupStartsWithActive(a, p);
  }

  // ---------------------------------------------------------------------------
  // Running it again
  // ---------------------------------------------------------------------------

  lemma {:induction false} DistinctFits(x: seq<Text>, y: seq<Text>)
    requires Distinct(x) && forall v <- x :: v in y
    ensures |x| <= |y|
  {
    if x != [] {
      assert x[0] in x;
      var i :| 0 <= i < |y| && y[i] == x[0];
      var less := y[..i] + y[i + 1..];
      forall v <- x[1..] ensures v in less {
        var j :| 0 <= j < |x[1..]| && x[1..][j] == v;
        assert x[j + 1] == v && v in x && v != x[0];
        var k :| 0 <= k < |y| && y[k] == v;
        assert less[if k < i then k else k - 1] == v;
      }
      DistinctFits(x[1..], less);
    }
  }

  lemma DedupIsDistinct(s: seq<Text>)
    ensures Distinct(Dedup(s))
  {
    DedupFacts(s);
  }

  /** Where a preferred value lands: behind at most the distinct active values and the preferred ones before it. */
  lemma LandsWithin(a: seq<Text>, p: seq<Text>, out: seq<Text>, q: nat)
    requires IsAnswer(a, p, out) && q < |out| && out[q] in p
    ensures q <= |Dedup(a)| + Pos(p, out[q])
  {
    var k := Pos(p, out[q]);
    PosIs(p, out[q]);
    assert out[q] in out;
    DedupFacts(a);
    var few := Dedup(a) + p[..k];
    forall v <- out[..q] ensures v in few {
      var i :| 0 <= i < q && out[i] == v;
      assert v in out && FirstSeen(a, p, out[i]) <= FirstSeen(a, p, out[q]) <= k + 1 + OFFSET;
      if v !in a {
        PosIs(p, v);
        assert Pos(p, v) < k && p[..k][Pos(p, v)] == v;
      }
    }
    DistinctFits(out[..q], few);
  }

  /** A merged value the second run would see earlier through the preferred list than through its own place. */
  predicate Overtakes(out: seq<Text>, p: seq<Text>, i: nat)
    requires i < |out|
  {
    out[i] in p && Pos(p, out[i]) + OFFSET < i
  }

  lemma SeenInPlace(out: seq<Text>, p: seq<Text>, i: nat)
    requires Distinct(out) && i < |out|
    ensures FirstSeen(out, p, out[i]) == if Overtakes(out, p, i) then Pos(p, out[i]) + 1 + OFFSET else i + 1
  {
    PosUnique(out, out[i], i);
  }

  /** With no value overtaken the second run has nothing to change. */
  lemma SecondRunIsSame(out: seq<Text>, p: seq<Text>, again: seq<Text>)
    requires Distinct(out) && (forall v <- p :: v in out) && IsAnswer(out, p, again)
    requires forall i :: 0 <= i < |out| ==> !Overtakes(out, p, i)
    ensures again == out
  {
    forall v ensures v in again <==> v in out { }
    forall i, j | 0 <= i < j < |again| ensures Pos(out, again[i]) < Pos(out, again[j]) {
      assert again[i] in again && again[j] in again;
      var x :| 0 <= x < |out| && out[x] == again[i];
      var y :| 0 <= y < |out| && out[y] == again[j];
      SeenInPlace(out, p, x);
      SeenInPlace(out, p, y);
      PosUnique(out, out[x], x);
      PosUnique(out, out[y], y);
    }
    forall i, j | 0 <= i < j < |out| ensures Pos(out, out[i]) < Pos(out, out[j]) {
      PosUnique(out, out[i], i);
      PosUnique(out, out[j], j);
    }
    OrderIsUnique(out, again, out);
  }

  /** An overtaken value lets the second run return something else: it is seen no later than the value before it. */
  lemma SecondRunMayDiffer(out: seq<Text>, p: seq<Text>, q: nat) returns (again: seq<Text>)
    requires Distinct(out) && (forall v <- p :: v in out) && q < |out| && Overtakes(out, p, q)
    ensures IsAnswer(out, p, again) && again != out
  {
    if IsAnswer(out, p, out) {
      var i := FirstOvertaken(out, p, q);
      SeenInPlace(out, p, i);
      SeenInPlace(out, p, i - 1);
      again := Swapped(out, i);
      TieMaySwap(out, p, i);
    } else {
      again := AnswerExists(out, p);
    }
  }

  lemma FirstOvertaken(out: seq<Text>, p: seq<Text>, q: nat) returns (i: nat)
    requires q < |out| && Overtakes(out, p, q)
    ensures 0 < i <= q && Overtakes(out, p, i) && !Overtakes(out, p, i - 1)
  {
    i := 0;
    while !Overtakes(out, p, i)
      invariant i <= q && forall j :: 0 <= j < i ==> !Overtakes(out, p, j)
      decreases q - i
    {
      i := i + 1;
    }
  }

  function Swapped(out: seq<Text>, i: nat): seq<Text>
    requires 0 < i < |out|
  {
    out[i - 1 := out[i]][i := out[i - 1]]
  }

  function Other(i: nat, j: nat): nat
    requires 0 < i
  {
    if j == i - 1 then i else if j == i then i - 1 else j
  }

  lemma SwappedAt(out: seq<Text>, i: nat)
    requires 0 < i < |out|
    ensures |Swapped(out, i)| == |out|
    ensures forall j :: 0 <= j < |out| ==> Swapped(out, i)[j] == out[Other(i, j)]
  {
  }

  lemma SwapHolds(out: seq<Text>, i: nat, v: Text)
    requires 0 < i < |out|
    ensures v in Swapped(out, i) <==> v in out
  {
    SwappedAt(out, i);
    if v in out {
      var j :| 0 <= j < |out| && out[j] == v;
      assert Swapped(out, i)[Other(i, j)] == v;
    }
  }

  lemma SwapKeepsDistinct(out: seq<Text>, i: nat)
    requires 0 < i < |out| && Distinct(out)
    ensures Distinct(Swapped(out, i))
  {
    SwappedAt(out, i);
    forall j, k | 0 <= j < k < |out| ensures out[Other(i, j)] != out[Other(i, k)] {
      assert Other(i, j) != Other(i, k);
    }
  }

  lemma TieMaySwap(out: seq<Text>, p: seq<Text>, i: nat)
    requires IsAnswer(out, p, out) && 0 < i < |out|
    requires FirstSeen(out, p, out[i - 1]) == FirstSeen(out, p, out[i])
    ensures IsAnswer(out, p, Swapped(out, i)) && Swapped(out, i) != out
  {
    var again := Swapped(out, i);
    SwappedAt(out, i);
    SwapKeepsDistinct(out, i);
    forall v ensures v in again <==> v in out { SwapHolds(out, i, v); }
    forall j, k | 0 <= j < k < |again| ensures FirstSeen(out, p, again[j]) <= FirstSeen(out, p, again[k]) {
      assert again[j] == out[Other(i, j)] && again[k] == out[Other(i, k)];
      assert (j == i - 1 && k == i) || Other(i, j) < Other(i, k);
    }
    assert again[i] == out[i - 1] && out[i - 1] != out[i];
  }

  lemma {:induction false} AnswerExists(a: seq<Text>, p: seq<Text>) returns (out: seq<Text>)
    ensures IsAnswer(a, p, out)
  {
    out := Answer(a, p, a + p);
  }

  /** The values of `rest` in an order the query may give. */
  lemma {:induction false} Answer(a: seq<Text>, p: seq<Text>, rest: seq<Text>) returns (out: seq<Text>)
    requires forall v <- rest :: v in a || v in p
    ensures Sorted(a, p, out) && forall v :: v in out <==> v in rest
  {
    if rest == [] {
      out := [];
    } else {
      var init, last := rest[..|rest| - 1], rest[|rest| - 1];
      assert rest == init + [last] && last in rest;
      out := Answer(a, p, init);
      if last !in out {
        var k := 0;
        while k < |out| && FirstSeen(a, p, out[k]) <= FirstSeen(a, p, last)
          invariant k <= |out| && forall j :: 0 <= j < k ==> FirstSeen(a, p, out[j]) <= FirstSeen(a, p, last)
        {
          k := k + 1;
        }
        InsertAtKeepsSorted(a, p, out, k, last);
        forall u ensures u in InsertAt(out, k, last) <==> u in out || u == last { InsertAtHolds(out, k, last, u); }
        out := InsertAt(out, k, last);
      }
    }
  }

  /** Running the merge again changes nothing while the active list has at most a million distinct values. */
  lemma MergeIsIdempotent(a: seq<Text>, p: seq<Text>, out: seq<Text>, again: seq<Text>)
    requires |Dedup(a)| <= OFFSET && IsAnswer(a, p, out) && IsAnswer(out, p, again)
    ensures again == out
  {
    forall i | 0 <= i < |out| ensures !Overtakes(out, p, i) {
      if out[i] in p { LandsWithin(a, p, out, i); }
    }
    SecondRunIsSame(out, p, again);
  }

  lemma {:induction false} FreshValues(a: seq<Text>, n: nat) returns (p: seq<Text>)
    ensures |p| == n && Distinct(p) && forall v <- p :: v !in a
  {
    p := [];
    for i := 0 to n
      invariant |p| == i && Distinct(p) && forall v <- p :: v !in a
    {
      var x := FreshValue(a + p);
      assert forall v :: v in a || v in p ==> v in a + p;
      p := p + [Some(x)];
    }
  }

  /** With more, as many preferred values as there are active ones, all new, make it change. */
  lemma MergeMayChangeAgain(a: seq<Text>) returns (p: seq<Text>, out: seq<Text>, again: seq<Text>)
    requires |Dedup(a)| > OFFSET
    ensures IsAnswer(a, p, out) && IsAnswer(out, p, again) && again != out
  {
    DedupFacts(a);
    p := FreshValues(a, |a|);
    out := AnswerExists(a, p);
    var v := p[|a| - 1];
    assert v in p && v in out;
    var q :| 0 <= q < |out| && out[q] == v;
    PosUnique(p, v, |a| - 1);
    LandsLast(a, p, out, q);
    assert forall u :: u in p ==> u in out;
    again := SecondRunMayDiffer(out, p, q);
  }

  lemma LandsLast(a: seq<Text>, p: seq<Text>, out: seq<Text>, q: nat)
    requires |a| == |p| > 0 && Distinct(p) && (forall v <- p :: v !in a) && IsAnswer(a, p, out)
    requires q < |out| && out[q] == p[|p| - 1]
    ensures q >= |Dedup(a)| + |a| - 1
  {
    var before := Dedup(a) + p[..|p| - 1];
    DedupFacts(a);
    DedupIsDistinct(a);
    forall i, j | 0 <= i < j < |before| ensures before[i] != before[j] {
      if i < |Dedup(a)| <= j {
        assert before[i] in Dedup(a) && before[j] == p[j - |Dedup(a)|] && before[j] in p;
      }
    }
    forall u <- before ensures u in out[..q] { ComesBefore(a, p, out, q, u); }
    DistinctFits(before, out[..q]);
  }

  lemma ComesBefore(a: seq<Text>, p: seq<Text>, out: seq<Text>, q: nat, u: Text)
    requires |a| == |p| > 0 && Distinct(p) && (forall v <- p :: v !in a) && IsAnswer(a, p, out)
    requires q < |out| && out[q] == p[|p| - 1] && u in Dedup(a) + p[..|p| - 1]
    ensures u in out[..q]
  {
    var last := |p| - 1;
    DedupFacts(a);
    assert out[q] in p && out[q] in out;
    PosUnique(p, out[q], last);
    if u in Dedup(a) {
      PosIs(a, u);
    } else {
      var k :| 0 <= k < last && p[..last][k] == u;
      assert p[k] == u && u in p;
      PosUnique(p, u, k);
    }
    assert u in out && FirstSeen(a, p, u) < FirstSeen(a, p, out[q]);
    var j :| 0 <= j < |out| && out[j] == u;
    assert j < q;
    assert out[..q][j] == u;
  }

  // ---------------------------------------------------------------------------
  // The three updates
  // ---------------------------------------------------------------------------

  datatype Workspace = Workspace(
    activeDistributors: Option<seq<Text>>, preferredDistributors: Option<seq<Text>>,
    activeCountries: Option<seq<Text>>, country: Option<string>,
    activeCurrencies: Option<seq<Text>>, currency: Option<string>)

  function Coalesce(list: Option<seq<Text>>): seq<Text> {
    if list.Some? then list.value else []
  }

  /** `CASE WHEN list ? code THEN list ELSE list || code END`, where the code is not NULL. */
  function WithCode(list: Option<seq<Text>>, code: Option<string>): Option<seq<Text>> {
    if code.None? then list
    else if Some(code.value) in Coalesce(list) then list
    else Some(Coalesce(list) + [Some(code.value)])
  }

  /** One workspace row before and after the migration. */
  ghost predicate Backfilled(w: Workspace, z: Workspace) {
    && z.preferredDistributors == w.preferredDistributors && z.country == w.country && z.currency == w.currency
    && (if w.preferredDistributors.None? then z.activeDistributors == w.activeDistributors
        else z.activeDistributors.Some?
             && IsAnswer(Coalesce(w.activeDistributors), w.preferredDistributors.value, z.activeDistributors.value))
    && z.activeCountries == WithCode(w.activeCountries, w.country)
    && z.activeCurrencies == WithCode(w.activeCurrencies, w.currency)
  }

  /** The migration run twice is the migration run once, whatever the preferred list, exactly while the active list
      has at most a million distinct values. */
  lemma BackfillIsIdempotentIff(w: Workspace)
    ensures (forall preferred, z, again ::
               Backfilled(w.(preferredDistributors := preferred), z) && Backfilled(z, again) ==> again == z)
       <==> |Dedup(Coalesce(w.activeDistributors))| <= OFFSET
  {
    var a := Coalesce(w.activeDistributors);
    if |Dedup(a)| <= OFFSET {
      forall preferred, z, again | Backfilled(w.(preferredDistributors := preferred), z) && Backfilled(z, again)
        ensures again == z
      {
        if preferred.Some? {
          MergeIsIdempotent(a, preferred.value, z.activeDistributors.value, again.activeDistributors.value);
        }
      }
    } else {
      var p, out, twice := MergeMayChangeAgain(a);
      var z := w.(preferredDistributors := Some(p), activeDistributors := Some(out),
                  activeCountries := WithCode(w.activeCountries, w.country),
                  activeCurrencies := WithCode(w.activeCurrencies, w.currency));
      assert Backfilled(w.(preferredDistributors := Some(p)), z);
      assert Backfilled(z, z.(activeDistributors := Some(twice)));
    }
  }

  method InsertByFirstSeen(a: seq<Text>, p: seq<Text>, out: seq<Text>, v: Text) returns (next: seq<Text>)
    requires Sorted(a, p, out) && (v in a || v in p) && v !in out
    ensures Sorted(a, p, next)
    ensures forall u :: u in next <==> u in out || u == v
  {
    var k := 0;
    while k < |out| && FirstSeen(a, p, out[k]) <= FirstSeen(a, p, v)
      invariant k <= |out|
      invariant forall x :: 0 <= x < k ==> FirstSeen(a, p, out[x]) <= FirstSeen(a, p, v)
    {
      k := k + 1;
    }
    next := InsertAt(out, k, v);
    InsertAtKeepsSorted(a, p, out, k, v);
    forall u ensures u in next <==> u in out || u == v { InsertAtHolds(out, k, v, u); }
  }

  /** Grouping, then sorting by `first_seen`. */
  method Merge(a: seq<Text>, p: seq<Text>) returns (out: seq<Text>)
    ensures IsAnswer(a, p, out)
  {
    out := [];
    var all := a + p;
    for i := 0 to |all|
      invariant Sorted(a, p, out)
      invariant forall v :: v in out <==> v in all[..i]
    {
      assert all[i] in a || all[i] in p;
      assert all[..i + 1] == all[..i] + [all[i]];
      if all[i] !in out {
        out := InsertByFirstSeen(a, p, out, all[i]);
      }
    }
    assert all[..|all|] == all;
  }

  class Workspaces {
    var rows: seq<Workspace>

    /** `backfill_active_lists`: three UPDATE statements, one after another. */
    method BackfillActiveLists()
      modifies this
      ensures |rows| == |old(rows)|
      ensures forall i :: 0 <= i < |rows| ==> Backfilled(old(rows)[i], rows[i])
    {
      ghost var was := rows;
      for i := 0 to |rows|
        invariant |rows| == |was|
        invariant forall j :: i <= j < |rows| ==> rows[j] == was[j]
        invariant forall j :: 0 <= j < i ==>
                    Backfilled(was[j], rows[j].(activeCountries := WithCode(was[j].activeCountries, was[j].country),
                                                activeCurrencies := WithCode(was[j].activeCurrencies, was[j].currency)))
                    && rows[j].activeCountries == was[j].activeCountries
                    && rows[j].activeCurrencies == was[j].activeCurrencies
      {
        if rows[i].preferredDistributors.Some? {
          var merged := Merge(Coalesce(rows[i].activeDistributors), rows[i].preferredDistributors.value);
          rows := rows[i := rows[i].(activeDistributors := Some(merged))];
        }
      }
      ghost var mid := rows;
      for i := 0 to |rows|
        invariant |rows| == |mid|
        invariant forall j :: 0 <= j < |rows| ==>
                    rows[j] == if j >= i then mid[j]
                               else mid[j].(activeCountries := WithCode(mid[j].activeCountries, mid[j].country))
      {
        rows := rows[i := rows[i].(activeCountries := WithCode(rows[i].activeCountries, rows[i].country))];
      }
      ghost var late := rows;
      for i := 0 to |rows|
        invariant |rows| == |late|
        invariant forall j :: 0 <= j < |rows| ==>
                    rows[j] == if j >= i then late[j]
                               else late[j].(activeCurrencies := WithCode(late[j].activeCurrencies, late[j].currency))
      {
        rows := rows[i := rows[i].(activeCurrencies := WithCode(rows[i].activeCurrencies, rows[i].currency))];
      }
    }
  }
}
