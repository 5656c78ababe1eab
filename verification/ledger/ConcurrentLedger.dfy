/** Concurrent writers: READ COMMITTED transactions, the balance trigger, and a per-(workspace, part) lock held
    until the transaction ends. */
module ConcurrentLedger {
  import opened Common
  import opened Ledger
  import opened LedgerInvariants

  /** What `pg_advisory_xact_lock` is taken on. */
  datatype Lock = Lock(ws: Id, part: Id)

  type Statement = seq<LedgerRow>

  /** A running transaction: the locks it holds and the INSERT statements it has made, none of them visible
      to others yet. */
  datatype Tx = Tx(locks: set<Lock>, done: seq<Statement>)

  /** `log` lists the committed transactions in commit order. */
  datatype State = State(committed: seq<LedgerRow>, live: map<nat, Tx>, log: seq<seq<Statement>>)

  predicate CoveredBy(row: LedgerRow, locks: set<Lock>) {
    Part in row.refs && Lock(row.ws, row.refs[Part]) in locks
  }

  datatype Action =
    | Begin(t: nat)
    | Acquire(t: nat, lock: Lock)
    | Write(t: nat, rows: Statement)
    | Commit(t: nat)
    | Abort(t: nat)

  /** A lock is granted only while nobody else holds it; an insert is made only under its lock, and its trigger
      sees the committed rows of that moment and the transaction's own. */
  predicate Enabled(s: State, a: Action) {
    match a
    case Begin(t) => t !in s.live
    case Acquire(t, lock) => t in s.live && forall u <- s.live :: u != t ==> lock !in s.live[u].locks
    case Write(t, rows) =>
      && t in s.live
      && (forall row <- rows :: CoveredBy(row, s.live[t].locks))
      && BalancesHold(s.committed + Flatten(s.live[t].done) + rows, rows)
    case Commit(t) => t in s.live
    case Abort(t) => t in s.live
  }

  function Next(s: State, a: Action): State
    requires Enabled(s, a)
  {
    match a
    case Begin(t) => s.(live := s.live[t := Tx({}, [])])
    case Acquire(t, lock) => s.(live := s.live[t := s.live[t].(locks := s.live[t].locks + {lock})])
    case Write(t, rows) => s.(live := s.live[t := s.live[t].(done := s.live[t].done + [rows])])
    case Commit(t) => State(s.committed + Flatten(s.live[t].done), s.live - {t}, s.log + [s.live[t].done])
    case Abort(t) => s.(live := s.live - {t})
  }

  const START := State([], map[], [])

  /** Every interleaving. */
  ghost predicate Reachable(states: seq<State>, actions: seq<Action>) {
    && |states| == |actions| + 1 && states[0] == START
    && forall i :: 0 <= i < |actions| ==> Enabled(states[i], actions[i]) && states[i + 1] == Next(states[i], actions[i])
  }

  // ---------------------------------------------------------------------------
  // One transaction alone
  // ---------------------------------------------------------------------------

  /** Run on its own over `base`, each statement passes the balance trigger. */
  predicate PassesAlone(base: seq<LedgerRow>, done: seq<Statement>) {
    done == [] || (
      && PassesAlone(base, done[..|done| - 1])
      && BalancesHold(base + Flatten(done), done[|done| - 1]))
  }

  predicate AllCovered(done: seq<Statement>, locks: set<Lock>) {
    forall stmt <- done, row <- stmt :: CoveredBy(row, locks)
  }

  lemma {:induction false} FlattenMembers(done: seq<Statement>)
    ensures forall row :: row in Flatten(done) <==> exists stmt <- done :: row in stmt
  {
    if done != [] {
      var init, last := done[..|done| - 1], done[|done| - 1];
      FlattenMembers(init);
      forall row ensures row in Flatten(done) <==> exists stmt <- done :: row in stmt {
        if row in last { assert last in done; }
        if stmt :| stmt in init && row in stmt { assert stmt in done; }
        if stmt :| stmt in done && row in stmt { assert stmt in init || stmt == last; }
      }
    }
  }

  /** Rows of other (workspace, part) pairs do not move a tuple's balance. */
  lemma BalanceIgnores(base: seq<LedgerRow>, extra: seq<LedgerRow>, more: seq<LedgerRow>, row: LedgerRow,
                       locks: set<Lock>)
    requires CoveredBy(row, locks) && forall x <- extra :: !CoveredBy(x, locks)
    ensures Balance(base + extra + more, row) == Balance(base + more, row)
  {
    var b := BucketOf(row);
    BalanceIsBucketSum(base + extra + more, row);
    BalanceIsBucketSum(base + more, row);
    SumAppend(base + extra, more, b);
    SumAppend(base, extra, b);
    SumAppend(base, more, b);
    forall x <- extra ensures BucketOf(x) != b {
      SameTupleIsSameBucket(x, row);
    }
    SumElsewhere(extra, b);
  }

  lemma {:induction false} PassesAloneStays(base: seq<LedgerRow>, extra: seq<LedgerRow>, done: seq<Statement>,
                                            locks: set<Lock>)
    requires PassesAlone(base, done) && AllCovered(done, locks)
    requires forall x <- extra :: !CoveredBy(x, locks)
    ensures PassesAlone(base + extra, done)
  {
    if done != [] {
      var last := done[|done| - 1];
      PassesAloneStays(base, extra, done[..|done| - 1], locks);
      forall row <- last ensures Balance(base + extra + Flatten(done), row) >= 0 {
        assert last in done;
        BalanceIgnores(base, extra, Flatten(done), row, locks);
      }
    }
  }

  lemma {:induction false} AloneKeepsNonNegative(base: seq<LedgerRow>, done: seq<Statement>, locks: set<Lock>)
    requires NonNegative(base) && PassesAlone(base, done) && AllCovered(done, locks)
    ensures NonNegative(base + Flatten(done))
  {
    if done == [] {
      assert base + Flatten(done) == base;
    } else {
      var init, last := done[..|done| - 1], done[|done| - 1];
      AloneKeepsNonNegative(base, init, locks);
      assert base + Flatten(done) == base + Flatten(init) + last;
      forall row <- last ensures Part in row.refs { assert last in done; }
      AppendKeepsNonNegative(base + Flatten(init), last);
    }
  }

  // ---------------------------------------------------------------------------
  // All interleavings
  // ---------------------------------------------------------------------------

  /** The serial execution: the committed transactions one after another, in commit order. */
  function Rows(log: seq<seq<Statement>>): seq<LedgerRow> {
    if log == [] then [] else Rows(log[..|log| - 1]) + Flatten(log[|log| - 1])
  }

  /** Every statement of that serial execution passes its balance trigger. */
  predicate PassesSerially(log: seq<seq<Statement>>) {
    log == [] || (
      && PassesSerially(log[..|log| - 1])
      && PassesAlone(Rows(log[..|log| - 1]), log[|log| - 1]))
  }

  ghost predicate Exclusive(s: State) {
    forall t, u :: t in s.live && u in s.live && t != u ==> s.live[t].locks !! s.live[u].locks
  }

  ghost predicate Inv(s: State) {
    && NonNegative(s.committed)
    && s.committed == Rows(s.log) && PassesSerially(s.log)
    && Exclusive(s)
    && forall t <- s.live :: AllCovered(s.live[t].done, s.live[t].locks) && PassesAlone(s.committed, s.live[t].done)
  }

  lemma InsertStep(s: State, t: nat, rows: Statement)
    requires Inv(s) && Enabled(s, Write(t, rows))
    ensures Inv(Next(s, Write(t, rows)))
  {
    var tx := s.live[t];
    var done := tx.done + [rows];
    assert done[..|tx.done|] == tx.done;
    assert s.committed + Flatten(done) == s.committed + Flatten(tx.done) + rows;
    assert AllCovered(done, tx.locks);
  }

  lemma CommitStep(s: State, t: nat)
    requires Inv(s) && t in s.live
    ensures Inv(Next(s, Commit(t)))
  {
    var tx, next := s.live[t], Next(s, Commit(t));
    AloneKeepsNonNegative(s.committed, tx.done, tx.locks);
    assert next.log[..|s.log|] == s.log;
    FlattenMembers(tx.done);
    forall u <- next.live ensures PassesAlone(next.committed, next.live[u].done) {
      forall x <- Flatten(tx.done) ensures !CoveredBy(x, s.live[u].locks) {
        var stmt :| stmt in tx.done && x in stmt;
        assert CoveredBy(x, tx.locks);
      }
      PassesAloneStays(s.committed, Flatten(tx.done), s.live[u].done, s.live[u].locks);
    }
  }

  lemma StepKeeps(s: State, a: Action)
    requires Inv(s) && Enabled(s, a)
    ensures Inv(Next(s, a))
  {
    match a
    case Begin(t) => assert Flatten<LedgerRow>([]) == [];
    case Acquire(t, lock) =>
      var locks := s.live[t].locks;
      assert AllCovered(s.live[t].done, locks + {lock}) by {
        forall stmt <- s.live[t].done, row <- stmt ensures CoveredBy(row, locks + {lock}) {
          assert CoveredBy(row, locks);
        }
      }
    case Write(t, rows) => InsertStep(s, t, rows);
    case Commit(t) => CommitStep(s, t);
    case Abort(t) =>
  }

  /** In every interleaving every committed bucket stays non-negative, and the committed ledger is the one its
      transactions would have produced one at a time in commit order, each statement passing its trigger. */
  lemma {:induction false} EveryInterleaving(states: seq<State>, actions: seq<Action>, n: nat)
    requires Reachable(states, actions) && n <= |actions|
    ensures Inv(states[n])
    ensures NonNegative(states[n].committed)
    ensures states[n].committed == Rows(states[n].log) && PassesSerially(states[n].log)
  {
    if n > 0 {
      EveryInterleaving(states, actions, n - 1);
      StepKeeps(states[n - 1], actions[n - 1]);
    }
  }

  /** The lock carries the proof, not the trigger: two withdrawals that each pass the trigger over the committed
      rows and their own can overdraw the bucket together. */
  lemma TriggerAloneIsNotEnough(part: Id, ws: Id)
    ensures var a := LedgerRow(1, ws, map[Part := part], 5, "on_hand", "pcs");
            var x := LedgerRow(2, ws, map[Part := part], -4, "on_hand", "pcs");
            var y := LedgerRow(3, ws, map[Part := part], -4, "on_hand", "pcs");
            && NonNegative([a])
            && BalancesHold([a] + [x], [x]) && BalancesHold([a] + [y], [y])
            && !NonNegative([a] + [x] + [y])
  {
    var a := LedgerRow(1, ws, map[Part := part], 5, "on_hand", "pcs");
    var x := LedgerRow(2, ws, map[Part := part], -4, "on_hand", "pcs");
    var y := LedgerRow(3, ws, map[Part := part], -4, "on_hand", "pcs");
    forall b: Bucket ensures Sum([a], b) >= 0 && (b == BucketOf(a) ==> Sum([a], b) == 5) {
      SumSnoc([], a, b);
      assert [] + [a] == [a];
    }
    var b := BucketOf(a);
    SumSnoc([a], x, b);
    SumSnoc([a], y, b);
    SumSnoc([a] + [x], y, b);
    BalanceIsBucketSum([a] + [x], x);
    BalanceIsBucketSum([a] + [y], y);
  }
}
