/** The transaction around one MCP tool call, and the watcher that turns a read-only declaration into an
    assertion. */
module UnitOfWork {
  import opened Common

  // ---------------------------------------------------------------------------
  // The watcher
  // ---------------------------------------------------------------------------

  predicate IsSpace(c: char) {
    c in {' ', '\t', '\n', '\r', '\U{0B}', '\U{0C}', '\U{1C}', '\U{1D}', '\U{1E}', '\U{1F}', '\U{85}', '\U{A0}'}
  }

  function StripLeft(s: string): string {
    if s != "" && IsSpace(s[0]) then StripLeft(s[1..]) else s
  }

  function UpperChar(c: char): char {
    if 'a' <= c <= 'z' then (c as int - 32) as char else c
  }

  function Upper(s: string): string {
    if s == "" then "" else [UpperChar(s[0])] + Upper(s[1..])
  }

  const DML_VERBS: seq<string> := ["INSERT", "UPDATE", "DELETE"]

  /** `statement.lstrip()[:6].upper()`. */
  function HeadOf(sql: string): string {
    var s := StripLeft(sql);
    Upper(s[..Min(6, |s|)])
  }

  predicate Watched(sql: string) {
    exists verb <- DML_VERBS :: verb <= HeadOf(sql)
  }

  // ---------------------------------------------------------------------------
  // A tool body, step by step
  // ---------------------------------------------------------------------------

  /** What a tool does with its session. A statement carries its text and its effect on the database. */
  datatype Op<!D> =
    | Execute(sql: string, effect: D -> D)
    | Stage(sql: string, effect: D -> D)     // a pending ORM change; flushing emits the statement
    | Flush
    | Raise                                  // an Exception
    | Kill                                   // any other BaseException

  datatype Ending = Running | Raised | Killed

  /** The transaction under way: the rows as it sees them, what is pending, what the watcher saw. */
  datatype Work<!D> = Work(db: D, pending: seq<Op<D>>, seen: nat, ending: Ending)

  predicate IsStage<D>(op: Op<D>) { op.Stage? }

  function FlushAll<D>(w: Work<D>, pending: seq<Op<D>>): Work<D>
    requires forall op <- pending :: IsStage(op)
    decreases |pending|
  {
    if pending == [] then w.(pending := [])
    else
      var op := pending[0];
      assert IsStage(op);
      FlushAll(w.(db := op.effect(w.db), seen := w.seen + if Watched(op.sql) then 1 else 0), pending[1..])
  }

  function Do<D>(w: Work<D>, op: Op<D>): (next: Work<D>)
    requires forall p <- w.pending :: IsStage(p)
  {
    if w.ending != Running then w
    else match op
         case Execute(sql, effect) => w.(db := effect(w.db), seen := w.seen + if Watched(sql) then 1 else 0)
         case Stage(_, _) => w.(pending := w.pending + [op])
         case Flush => FlushAll(w, w.pending)
         case Raise => w.(ending := Raised)
         case Kill => w.(ending := Killed)
  }

  lemma {:induction false} FlushAllFacts<D>(w: Work<D>, pending: seq<Op<D>>)
    requires forall op <- pending :: IsStage(op)
    ensures FlushAll(w, pending).pending == [] && FlushAll(w, pending).ending == w.ending
    ensures FlushAll(w, pending).seen >= w.seen
    decreases |pending|
  {
    if pending != [] {
      var op := pending[0];
      assert IsStage(op);
      FlushAllFacts(w.(db := op.effect(w.db), seen := w.seen + if Watched(op.sql) then 1 else 0), pending[1..]);
    }
  }

  lemma DoStages<D>(w: Work<D>, op: Op<D>)
    requires forall p <- w.pending :: IsStage(p)
    ensures forall p <- Do(w, op).pending :: IsStage(p)
    ensures Do(w, op).seen >= w.seen
  {
    if op.Flush? { FlushAllFacts(w, w.pending); }
  }

  /** The whole body. */
  function Body<D>(start: D, ops: seq<Op<D>>): (w: Work<D>)
    ensures forall p <- w.pending :: IsStage(p)
  {
    if ops == [] then Work(start, [], 0, Running)
    else
      var before := Body(start, ops[..|ops| - 1]);
      DoStages(before, ops[|ops| - 1]);
      Do(before, ops[|ops| - 1])
  }

  // ---------------------------------------------------------------------------
  // The unit of work
  // ---------------------------------------------------------------------------

  datatype Outcome = Committed | UndeclaredWrite | Failed | Interrupted

  /** What the caller sees, and what the database holds afterwards. `resolves` says the principal's rows still
      exist, `commitOk` that COMMIT succeeds. */
  function Settle<D>(start: D, ops: seq<Op<D>>, writes: bool, resolves: bool, commitOk: bool): (D, Outcome) {
    var w := Body(start, ops);
    if !resolves then (start, Failed)
    else if w.ending == Killed then (start, Interrupted)
    else if w.ending == Raised then (start, Failed)
    else if !writes && (w.seen > 0 || w.pending != []) then (start, UndeclaredWrite)
    else if !commitOk then (start, Failed)
    else (FlushAll(w, w.pending).db, Committed)
  }

  /** Every statement that changes rows begins with one of the verbs. */
  ghost predicate ChangesAreVisible<D(!new)>(ops: seq<Op<D>>) {
    forall op <- ops :: (op.Execute? || op.Stage?) && !Watched(op.sql) ==> forall d: D :: op.effect(d) == d
  }

  /** Until the watcher has seen something, nothing has changed. */
  lemma {:induction false} UnseenIsUnchanged<D(!new)>(start: D, ops: seq<Op<D>>)
    requires ChangesAreVisible(ops)
    ensures Body(start, ops).seen == 0 ==> Body(start, ops).db == start
    ensures forall p <- Body(start, ops).pending :: p in ops
  {
    if ops != [] {
      var init, last := ops[..|ops| - 1], ops[|ops| - 1];
      UnseenIsUnchanged(start, init);
      DoStages(Body(start, init), last);
      assert last in ops;
      if last.Flush? {
        var w := Body(start, init);
        FlushAllFacts(w, w.pending);
        FlushUnseen(w, w.pending, ops);
      }
    }
  }

  lemma {:induction false} FlushUnseen<D(!new)>(w: Work<D>, pending: seq<Op<D>>, ops: seq<Op<D>>)
    requires ChangesAreVisible(ops) && forall op <- pending :: IsStage(op) && op in ops
    ensures FlushAll(w, pending).seen == 0 ==> FlushAll(w, pending).db == w.db
    decreases |pending|
  {
    if pending != [] {
      var op := pending[0];
      assert IsStage(op);
      var next := w.(db := op.effect(w.db), seen := w.seen + if Watched(op.sql) then 1 else 0);
      assert op in ops;
      FlushUnseen(next, pending[1..], ops);
      FlushAllFacts(next, pending[1..]);
    }
  }

  /** A read-only unit of work leaves the database as it found it, on every trace and every outcome. */
  lemma ReadOnlyIsInert<D(!new)>(start: D, ops: seq<Op<D>>, resolves: bool, commitOk: bool)
    requires ChangesAreVisible(ops)
    ensures Settle(start, ops, false, resolves, commitOk).0 == start
  {
    UnseenIsUnchanged(start, ops);
    FlushAllFacts(Body(start, ops), []);
  }

  // ---------------------------------------------------------------------------
  // What a body did, told from its operations alone
  // ---------------------------------------------------------------------------

  /** The ORM changes not flushed yet. */
  function Waiting<D>(ops: seq<Op<D>>): seq<Op<D>> {
    if ops == [] then []
    else
      match ops[|ops| - 1]
      case Flush => []
      case Stage(_, _) => Waiting(ops[..|ops| - 1]) + [ops[|ops| - 1]]
      case _ => Waiting(ops[..|ops| - 1])
  }

  /** The statements that reached the database, in that order. */
  function Emitted<D>(ops: seq<Op<D>>): seq<Op<D>> {
    if ops == [] then []
    else
      match ops[|ops| - 1]
      case Flush => Emitted(ops[..|ops| - 1]) + Waiting(ops[..|ops| - 1])
      case Execute(_, _) => Emitted(ops[..|ops| - 1]) + [ops[|ops| - 1]]
      case _ => Emitted(ops[..|ops| - 1])
  }

  predicate IsStatement<D>(op: Op<D>) { op.Execute? || op.Stage? }

  function Apply<D>(start: D, statements: seq<Op<D>>): D
    requires forall op <- statements :: IsStatement(op)
  {
    if statements == [] then start
    else
      var last := statements[|statements| - 1];
      assert IsStatement(last);
      last.effect(Apply(start, statements[..|statements| - 1]))
  }

  /** How many of them the watcher recognises. */
  function Recognised<D>(statements: seq<Op<D>>): nat
    requires forall op <- statements :: IsStatement(op)
  {
    if statements == [] then 0
    else
      var last := statements[|statements| - 1];
      assert IsStatement(last);
      Recognised(statements[..|statements| - 1]) + if Watched(last.sql) then 1 else 0
  }

  /** Every statement the body makes, in the order it makes them. */
  function Statements<D>(ops: seq<Op<D>>): seq<Op<D>> {
    if ops == [] then []
    else Statements(ops[..|ops| - 1]) + if IsStatement(ops[|ops| - 1]) then [ops[|ops| - 1]] else []
  }

  predicate IsSeen<D>(op: Op<D>) { IsStatement(op) && Watched(op.sql) }

  predicate Breaks<D>(op: Op<D>) { op.Raise? || op.Kill? }

  ghost predicate RunsThrough<D(!new)>(ops: seq<Op<D>>) { forall op <- ops :: !Breaks(op) }

  lemma {:induction false} TraceShape<D(!new)>(ops: seq<Op<D>>)
    ensures forall op <- Waiting(ops) :: IsStage(op) && op in ops
    ensures forall op <- Emitted(ops) :: IsStatement(op) && op in ops
  {
    if ops != [] {
      TraceShape(ops[..|ops| - 1]);
      assert ops[|ops| - 1] in ops;
      forall op | op in Waiting(ops[..|ops| - 1]) ensures IsStatement(op) { assert IsStage(op); }
    }
  }

  /** Nothing is lost and nothing happens twice: what was emitted and what still waits are the body's statements,
      each exactly once. */
  lemma {:induction false} NothingIsLost<D>(ops: seq<Op<D>>)
    ensures multiset(Emitted(ops)) + multiset(Waiting(ops)) == multiset(Statements(ops))
  {
    if ops != [] { NothingIsLost(ops[..|ops| - 1]); }
  }

  lemma {:induction false} ApplyMore<D>(start: D, statements: seq<Op<D>>, more: seq<Op<D>>)
    requires forall op <- statements :: IsStatement(op)
    requires forall op <- more :: IsStatement(op)
    ensures forall op <- statements + more :: IsStatement(op)
    ensures Apply(start, statements + more) == Apply(Apply(start, statements), more)
    ensures Recognised(statements + more) == Recognised(statements) + Recognised(more)
  {
    var all := statements + more;
    forall op | op in all ensures IsStatement(op) { }
    if more == [] {
      assert all == statements;
    } else {
      assert all[..|all| - 1] == statements + more[..|more| - 1];
      ApplyMore(start, statements, more[..|more| - 1]);
    }
  }

  lemma {:induction false} FlushIsApply<D>(w: Work<D>, pending: seq<Op<D>>)
    requires forall op <- pending :: IsStage(op)
    ensures forall op <- pending :: IsStatement(op)
    ensures FlushAll(w, pending).db == Apply(w.db, pending)
    ensures FlushAll(w, pending).seen == w.seen + Recognised(pending)
    decreases |pending|
  {
    forall op | op in pending ensures IsStatement(op) { assert IsStage(op); }
    if pending != [] {
      var op := pending[0];
      assert IsStage(op);
      var next := w.(db := op.effect(w.db), seen := w.seen + if Watched(op.sql) then 1 else 0);
      FlushIsApply(next, pending[1..]);
      assert pending == [op] + pending[1..];
      ApplyOne(w.db, op);
      ApplyMore(w.db, [op], pending[1..]);
    }
  }

  lemma ApplyOne<D>(start: D, op: Op<D>)
    requires IsStatement(op)
    ensures Apply(start, [op]) == op.effect(start)
    ensures Recognised([op]) == if Watched(op.sql) then 1 else 0
  {
    assert [op][..0] == [];
  }

  /** The transaction a body leaves is the one its operations describe. */
  lemma {:induction false} BodyIsTrace<D(!new)>(start: D, ops: seq<Op<D>>)
    requires RunsThrough(ops)
    ensures forall op <- Emitted(ops) :: IsStatement(op)
    ensures Body(start, ops) == Work(Apply(start, Emitted(ops)), Waiting(ops), Recognised(Emitted(ops)), Running)
  {
    TraceShape(ops);
    if ops != [] {
      var init, last := ops[..|ops| - 1], ops[|ops| - 1];
      assert last in ops && !Breaks(last);
      BodyIsTrace(start, init);
      TraceShape(init);
      match last
      case Flush =>
        FlushIsApply(Body(start, init), Waiting(init));
        FlushAllFacts(Body(start, init), Waiting(init));
        ApplyMore(start, Emitted(init), Waiting(init));
      case Execute(_, _) =>
        ApplyOne(Apply(start, Emitted(init)), last);
        ApplyMore(start, Emitted(init), [last]);
      case Stage(_, _) =>
    }
  }

  /** A body ends early exactly when it has an operation that breaks it off. */
  lemma {:induction false} RunsThroughIff<D(!new)>(start: D, ops: seq<Op<D>>)
    ensures Body(start, ops).ending == Running <==> RunsThrough(ops)
  {
    if ops != [] {
      var init, last := ops[..|ops| - 1], ops[|ops| - 1];
      RunsThroughIff(start, init);
      assert ops == init + [last];
      assert RunsThrough(ops) <==> RunsThrough(init) && !Breaks(last) by {
        assert forall op :: op in ops <==> op in init || op == last;
      }
      if last.Flush? { FlushAllFacts(Body(start, init), Body(start, init).pending); }
    }
  }

  lemma {:induction false} RecognisedNone<D(!new)>(statements: seq<Op<D>>)
    requires forall op <- statements :: IsStatement(op)
    ensures Recognised(statements) == 0 <==> forall op <- statements :: !IsSeen(op)
  {
    if statements != [] {
      var init, last := statements[..|statements| - 1], statements[|statements| - 1];
      assert statements == init + [last];
      assert IsStatement(last);
      RecognisedNone(init);
    }
  }

  /** Whatever the statements are: a read-only unit changes the database exactly when its body runs through to a
      commit, flushed all it staged, made no statement that begins with one of the verbs, and the statements it
      did make add up to a change. */
  lemma ReadOnlyChangesIff<D(!new)>(start: D, ops: seq<Op<D>>, resolves: bool, commitOk: bool)
    ensures forall op <- Emitted(ops) :: IsStatement(op)
    ensures Settle(start, ops, false, resolves, commitOk).0 != start <==>
            && resolves && commitOk && RunsThrough(ops) && Waiting(ops) == []
            && (forall op <- Emitted(ops) :: !IsSeen(op))
            && Apply(start, Emitted(ops)) != start
  {
    TraceShape(ops);
    RunsThroughIff(start, ops);
    RecognisedNone(Emitted(ops));
    if RunsThrough(ops) { BodyIsTrace(start, ops); }
  }

  lemma VerbsAre(head: string)
    ensures (exists verb <- DML_VERBS :: verb <= head) <==> "INSERT" <= head || "UPDATE" <= head || "DELETE" <= head
  {
    assert DML_VERBS[0] in DML_VERBS && DML_VERBS[1] in DML_VERBS && DML_VERBS[2] in DML_VERBS;
    assert forall verb <- DML_VERBS :: verb == DML_VERBS[0] || verb == DML_VERBS[1] || verb == DML_VERBS[2];
  }

  lemma HeadStarts(sql: string, c: char)
    requires sql != "" && sql[0] == c && !IsSpace(c) && UpperChar(c) !in {'I', 'U', 'D'}
    ensures !Watched(sql)
  {
    var head := HeadOf(sql);
    assert head[0] == UpperChar(c);
    VerbsAre(head);
  }

  const DELETING_CTE := "WITH " + "gone AS (DELETE FROM parts RETURNING id) SELECT id FROM gone"

  /** The verbs are what the promise rests on: a data-changing CTE, or a statement behind a comment, is not seen,
      and a read-only unit commits it. */
  lemma UnwatchedStatementIsCommitted()
    ensures var delete: Op<int> := Execute(DELETING_CTE, n => 0);
            !Watched(DELETING_CTE) && Settle(7, [delete], false, true, true) == (0, Committed)
    ensures !Watched("/* tidy */ DELETE FROM parts")
  {
    var delete: Op<int> := Execute(DELETING_CTE, n => 0);
    assert DELETING_CTE[0] == 'W';
    HeadStarts(DELETING_CTE, 'W');
    HeadStarts("/* tidy */ DELETE FROM parts", '/');
    assert [delete][..0] == [];
    assert Body(7, [delete]) == Do(Body(7, []), delete);
  }

  /** With `writes`, all or nothing: either the caller is told so and every statement of the body has taken
      effect, each exactly once, or the database is as it was. */
  lemma WritesAreAllOrNothing<D(!new)>(start: D, ops: seq<Op<D>>, resolves: bool, commitOk: bool)
    ensures forall op <- Emitted(ops) + Waiting(ops) :: IsStatement(op)
    ensures multiset(Emitted(ops) + Waiting(ops)) == multiset(Statements(ops))
    ensures var (after, outcome) := Settle(start, ops, true, resolves, commitOk);
            && (outcome == Committed <==> resolves && commitOk && RunsThrough(ops))
            && after == if outcome == Committed then Apply(start, Emitted(ops) + Waiting(ops)) else start
  {
    TraceShape(ops);
    NothingIsLost(ops);
    RunsThroughIff(start, ops);
    forall op | op in Waiting(ops) ensures IsStatement(op) { assert IsStage(op); }
    ApplyMore(start, Emitted(ops), Waiting(ops));
    if RunsThrough(ops) {
      BodyIsTrace(start, ops);
      FlushIsApply(Body(start, ops), Waiting(ops));
    }
  }

  // ---------------------------------------------------------------------------
  // The code, on its session
  // ---------------------------------------------------------------------------

  class Session<D(0)> {
    var committed: D                  // what other transactions see
    var work: Work<D>                 // this transaction
    var listening: bool               // the watcher is attached
    var open: bool

    ghost predicate Valid()
      reads this
    {
      forall p <- work.pending :: IsStage(p)
    }

    constructor (committed: D)
      ensures Valid() && this.committed == committed && open && !listening
    {
      this.committed := committed;
      this.work := Work(committed, [], 0, Running);
      this.listening := false;
      this.open := true;
    }

    method Begin()
      modifies this`work
      ensures Valid() && work == Work(committed, [], 0, Running)
    {
      work := Work(committed, [], 0, Running);
    }

    method Rollback()
      modifies this`work
      ensures Valid() && work == Work(committed, [], 0, Running)
    {
      Begin();
    }

    method Commit(ok: bool) returns (done: bool)
      requires Valid()
      modifies this`committed, this`work
      ensures Valid() && done == ok
      ensures committed == if ok then FlushAll(old(work), old(work).pending).db else old(committed)
    {
      if ok {
        FlushAllFacts(work, work.pending);
        work := FlushAll(work, work.pending);
        committed := work.db;
      }
      done := ok;
    }

    method RunTool(ops: seq<Op<D>>)
      requires work == Work(committed, [], 0, Running)
      modifies this`work
      ensures Valid() && work == Body(committed, ops)
    {
      for i := 0 to |ops|
        invariant work == Body(committed, ops[..i])
      {
        assert ops[..i + 1][..i] == ops[..i];
        work := Do(work, ops[i]);
      }
      assert ops[..|ops|] == ops;
    }

    /** `unit_of_work(writes=...)` around a tool body: on every path the session is closed and the watcher is
        detached again. */
    method UnitOfWork(ops: seq<Op<D>>, writes: bool, resolves: bool, commitOk: bool) returns (outcome: Outcome)
      requires open && !listening
      modifies this
      ensures (committed, outcome) == Settle(old(committed), ops, writes, resolves, commitOk)
      ensures !open && !listening
    {
      ghost var start := committed;
      Begin();
      if !writes {
        listening := true;
      }
      if !resolves {
        Rollback();
        outcome := Failed;
      } else {
        RunTool(ops);
        if work.ending == Killed {
          outcome := Interrupted;                      // not an Exception: straight to `finally`
        } else if work.ending == Raised {
          Rollback();
          outcome := Failed;
        } else if !writes && (work.seen > 0 || work.pending != []) {
          Rollback();
          Rollback();
          outcome := UndeclaredWrite;
        } else {
          var done := Commit(commitOk);
          if done {
            outcome := Committed;
          } else {
            Rollback();
            outcome := Failed;
          }
        }
      }
      if listening {
        listening := false;
      }
      open := false;
    }
  }
}
