/** Per-account login lockout: failure rows, the trailing-window check, and clears. */
module Lockout {
  import opened Common

  type Email = string

  const MAX_FAILURES := 10

  /** `LOCKOUT_WINDOW_MINUTES`, in seconds. */
  const WINDOW := 15 * 60

  /** A `user_login_failures` row. */
  datatype Failure = Failure(user: Option<nat>, hash: string, at: int)

  /** `accounts` finds a user by email; `digest` hashes the lower-cased address. */
  datatype State = State(rows: seq<Failure>, accounts: map<Email, nat>, now: int)

  datatype Event =
    | FailedLogin(email: Email)      // lockout check, then a failure row unless it is locked
    | Clear(email: Email)            // a successful login
    | AddAccount(email: Email, user: nat)
    | RemoveUser(user: nat)          // ON DELETE SET NULL
    | Advance(elapsed: nat)

  function UserOf(st: State, email: Email): Option<nat> {
    if email in st.accounts then Some(st.accounts[email]) else None
  }

  /** Which rows the lockout query looks at. */
  predicate Counts(f: Failure, user: Option<nat>, hash: string, cutoff: int) {
    f.at >= cutoff && ((user.Some? && f.user == user) || f.hash == hash)
  }

  function Recent(rows: seq<Failure>, user: Option<nat>, hash: string, cutoff: int): nat {
    if rows == [] then 0
    else Recent(rows[..|rows| - 1], user, hash, cutoff)
         + if Counts(rows[|rows| - 1], user, hash, cutoff) then 1 else 0
  }

  function IsLocked(st: State, email: Email, digest: Email -> string): bool {
    Recent(st.rows, UserOf(st, email), digest(email), st.now - WINDOW) >= MAX_FAILURES
  }

  function NewFailure(st: State, email: Email, digest: Email -> string): Failure {
    Failure(UserOf(st, email), digest(email), st.now)
  }

  function WithoutUser(rows: seq<Failure>, user: nat): seq<Failure> {
    if rows == [] then []
    else if rows[|rows| - 1].user == Some(user) then WithoutUser(rows[..|rows| - 1], user)
    else WithoutUser(rows[..|rows| - 1], user) + [rows[|rows| - 1]]
  }

  function Orphaned(rows: seq<Failure>, user: nat): seq<Failure> {
    if rows == [] then []
    else Orphaned(rows[..|rows| - 1], user)
         + [if rows[|rows| - 1].user == Some(user) then rows[|rows| - 1].(user := None) else rows[|rows| - 1]]
  }

  function Step(st: State, e: Event, digest: Email -> string): State {
    match e
    case FailedLogin(email) =>
      if IsLocked(st, email, digest) then st else st.(rows := st.rows + [NewFailure(st, email, digest)])
    case Clear(email) =>
      if email in st.accounts then st.(rows := WithoutUser(st.rows, st.accounts[email])) else st
    case AddAccount(email, user) => st.(accounts := st.accounts[email := user])
    case RemoveUser(user) =>
      State(Orphaned(st.rows, user), map e | e in st.accounts && st.accounts[e] != user :: st.accounts[e], st.now)
    case Advance(elapsed) => st.(now := st.now + elapsed)
  }

  const START := State([], map[], 0)

  function Run(events: seq<Event>, digest: Email -> string): State {
    if events == [] then START else Step(Run(events[..|events| - 1], digest), events[|events| - 1], digest)
  }

  // ---------------------------------------------------------------------------
  // The cap
  // ---------------------------------------------------------------------------

  /** Whom a failure row is about: an email hash or a user. */
  datatype Subject = ByHash(hash: string) | ByUser(user: nat)

  predicate About(f: Failure, who: Subject) {
    match who
    case ByHash(h) => f.hash == h
    case ByUser(u) => f.user == Some(u)
  }

  /** Rows about `who` in the closed window of 15 minutes that opens at `from`. */
  function InWindow(rows: seq<Failure>, who: Subject, from: int): nat {
    if rows == [] then 0
    else InWindow(rows[..|rows| - 1], who, from)
         + if About(rows[|rows| - 1], who) && from <= rows[|rows| - 1].at <= from + WINDOW then 1 else 0
  }

  /** No closed 15-minute window holds more than ten rows about anyone. */
  ghost predicate Capped(rows: seq<Failure>) {
    forall who, from :: InWindow(rows, who, from) <= MAX_FAILURES
  }

  ghost predicate NotFuture(st: State) {
    forall f <- st.rows :: f.at <= st.now
  }

  lemma {:induction false} WindowIsPartOfRecent(rows: seq<Failure>, who: Subject, from: int,
                                                user: Option<nat>, hash: string, cutoff: int)
    requires cutoff <= from
    requires who == ByHash(hash) || (user.Some? && who == ByUser(user.value))
    ensures InWindow(rows, who, from) <= Recent(rows, user, hash, cutoff)
  {
    if rows != [] {
      WindowIsPartOfRecent(rows[..|rows| - 1], who, from, user, hash, cutoff);
    }
  }

  lemma RecordKeepsCap(st: State, email: Email, digest: Email -> string)
    requires Capped(st.rows) && NotFuture(st) && !IsLocked(st, email, digest)
    ensures Capped(st.rows + [NewFailure(st, email, digest)])
  {
    var f := NewFailure(st, email, digest);
    var next := st.rows + [f];
    forall who, from ensures InWindow(next, who, from) <= MAX_FAILURES {
      InWindowSnoc(st.rows, f, who, from);
      if About(f, who) && from <= f.at <= from + WINDOW {
        WindowIsPartOfRecent(st.rows, who, from, UserOf(st, email), digest(email), st.now - WINDOW);
      }
    }
  }

  lemma InWindowSnoc(rows: seq<Failure>, f: Failure, who: Subject, from: int)
    ensures InWindow(rows + [f], who, from)
         == InWindow(rows, who, from) + if About(f, who) && from <= f.at <= from + WINDOW then 1 else 0
  {
    assert (rows + [f])[..|rows|] == rows;
  }

  lemma {:induction false} ClearOnlyRemoves(rows: seq<Failure>, user: nat)
    ensures forall f <- WithoutUser(rows, user) :: f in rows
  {
    if rows != [] { ClearOnlyRemoves(rows[..|rows| - 1], user); }
  }

  lemma {:induction false} OrphanKeepsTimes(rows: seq<Failure>, user: nat)
    ensures forall f <- Orphaned(rows, user) :: exists g <- rows :: g.at == f.at
  {
    if rows != [] {
      var init := rows[..|rows| - 1];
      OrphanKeepsTimes(init, user);
      forall f <- Orphaned(rows, user) ensures exists g <- rows :: g.at == f.at {
        if f in Orphaned(init, user) {
          var g :| g in init && g.at == f.at;
          assert g in rows;
        } else {
          assert rows[|rows| - 1] in rows;
        }
      }
    }
  }

  lemma StepKeepsCap(st: State, e: Event, digest: Email -> string)
    requires Capped(st.rows) && NotFuture(st)
    ensures Capped(Step(st, e, digest).rows) && NotFuture(Step(st, e, digest))
  {
    var next := Step(st, e, digest);
    match e
    case FailedLogin(email) => if !IsLocked(st, email, digest) { RecordKeepsCap(st, email, digest); }
    case Clear(email) =>
      if email in st.accounts {
        ClearOnlyRemoves(st.rows, st.accounts[email]);
        forall who, from ensures InWindow(next.rows, who, from) <= MAX_FAILURES {
          ClearTakesOwned(st.rows, st.accounts[email], who, from);
        }
      }
    case RemoveUser(user) =>
      OrphanKeepsTimes(st.rows, user);
      forall who, from ensures InWindow(next.rows, who, from) <= MAX_FAILURES {
        OrphanTakesUser(st.rows, user, who, from);
      }
    case AddAccount(email, user) =>
    case Advance(elapsed) =>
  }

  /** In no run does the table ever hold more than ten failures of one email hash, or of one user, inside any
      closed 15-minute window. */
  lemma {:induction false} NoWindowExceedsCap(events: seq<Event>, digest: Email -> string)
    ensures Capped(Run(events, digest).rows) && NotFuture(Run(events, digest))
  {
    if events != [] {
      NoWindowExceedsCap(events[..|events| - 1], digest);
      StepKeepsCap(Run(events[..|events| - 1], digest), events[|events| - 1], digest);
    }
  }

  // ---------------------------------------------------------------------------
  // Failures recorded, still in the table or not
  // ---------------------------------------------------------------------------

  predicate InTime(at: int, from: int) { from <= at <= from + WINDOW }

  /** The event writes a failure row about `who` inside the window. */
  predicate Records(st: State, e: Event, who: Subject, from: int, digest: Email -> string) {
    && e.FailedLogin? && !IsLocked(st, e.email, digest)
    && About(NewFailure(st, e.email, digest), who) && InTime(st.now, from)
  }

  /** Rows about `who` in the window that carry `user`. */
  function Owned(rows: seq<Failure>, user: nat, who: Subject, from: int): nat {
    if rows == [] then 0
    else
      var last := rows[|rows| - 1];
      Owned(rows[..|rows| - 1], user, who, from)
      + if last.user == Some(user) && About(last, who) && InTime(last.at, from) then 1 else 0
  }

  /** Rows about `who` in the window that a successful login deletes. */
  function ClearedBy(st: State, e: Event, who: Subject, from: int): nat {
    if e.Clear? && e.email in st.accounts then Owned(st.rows, st.accounts[e.email], who, from) else 0
  }

  /** Rows in the window that stop being about `who` when the user is removed; those about a hash never do. */
  function DetachedBy(st: State, e: Event, who: Subject, from: int): nat {
    if e.RemoveUser? && who == ByUser(e.user) then InWindow(st.rows, who, from) else 0
  }

  function Recorded(events: seq<Event>, who: Subject, from: int, digest: Email -> string): nat {
    if events == [] then 0
    else
      var init, last := events[..|events| - 1], events[|events| - 1];
      Recorded(init, who, from, digest) + if Records(Run(init, digest), last, who, from, digest) then 1 else 0
  }

  function Cleared(events: seq<Event>, who: Subject, from: int, digest: Email -> string): nat {
    if events == [] then 0
    else
      var init, last := events[..|events| - 1], events[|events| - 1];
      Cleared(init, who, from, digest) + ClearedBy(Run(init, digest), last, who, from)
  }

  function Detached(events: seq<Event>, who: Subject, from: int, digest: Email -> string): nat {
    if events == [] then 0
    else
      var init, last := events[..|events| - 1], events[|events| - 1];
      Detached(init, who, from, digest) + DetachedBy(Run(init, digest), last, who, from)
  }

  lemma {:induction false} ClearTakesOwned(rows: seq<Failure>, user: nat, who: Subject, from: int)
    ensures InWindow(rows, who, from) == InWindow(WithoutUser(rows, user), who, from) + Owned(rows, user, who, from)
  {
    if rows != [] {
      var init, last := rows[..|rows| - 1], rows[|rows| - 1];
      ClearTakesOwned(init, user, who, from);
      if last.user == Some(user) {
        assert WithoutUser(rows, user) == WithoutUser(init, user);
      } else {
        assert WithoutUser(rows, user) == WithoutUser(init, user) + [last];
        InWindowSnoc(WithoutUser(init, user), last, who, from);
      }
    }
  }

  lemma {:induction false} OrphanTakesUser(rows: seq<Failure>, user: nat, who: Subject, from: int)
    ensures InWindow(Orphaned(rows, user), who, from) == if who == ByUser(user) then 0 else InWindow(rows, who, from)
  {
    if rows != [] {
      var init, last := rows[..|rows| - 1], rows[|rows| - 1];
      OrphanTakesUser(init, user, who, from);
      InWindowSnoc(Orphaned(init, user), if last.user == Some(user) then last.(user := None) else last, who, from);
    }
  }

  lemma StepAccounts(st: State, e: Event, who: Subject, from: int, digest: Email -> string)
    ensures InWindow(st.rows, who, from) + (if Records(st, e, who, from, digest) then 1 else 0)
         == InWindow(Step(st, e, digest).rows, who, from) + ClearedBy(st, e, who, from) + DetachedBy(st, e, who, from)
  {
    match e
    case FailedLogin(email) => InWindowSnoc(st.rows, NewFailure(st, email, digest), who, from);
    case Clear(email) => if email in st.accounts { ClearTakesOwned(st.rows, st.accounts[email], who, from); }
    case RemoveUser(user) => OrphanTakesUser(st.rows, user, who, from);
    case AddAccount(_, _) =>
    case Advance(_) =>
  }

  /** Every failure recorded is still in the table, was deleted by a successful login, or lost its user. */
  lemma {:induction false} RecordedIsAccountedFor(events: seq<Event>, who: Subject, from: int, digest: Email -> string)
    ensures Recorded(events, who, from, digest)
         == InWindow(Run(events, digest).rows, who, from) + Cleared(events, who, from, digest)
            + Detached(events, who, from, digest)
    ensures who.ByHash? ==> Detached(events, who, from, digest) == 0
  {
    if events != [] {
      var init, last := events[..|events| - 1], events[|events| - 1];
      RecordedIsAccountedFor(init, who, from, digest);
      StepAccounts(Run(init, digest), last, who, from, digest);
    }
  }

  /** So the failures recorded about someone in a window are the capped ones in the table exactly when no
      successful login deleted one of them and, for a user, no removal of that user detached one. */
  lemma RecordedIsCappedIff(events: seq<Event>, who: Subject, from: int, digest: Email -> string)
    ensures Recorded(events, who, from, digest) == InWindow(Run(events, digest).rows, who, from)
       <==> Cleared(events, who, from, digest) == 0
            && (who.ByUser? ==> Detached(events, who, from, digest) == 0)
    ensures InWindow(Run(events, digest).rows, who, from) <= MAX_FAILURES
  {
    RecordedIsAccountedFor(events, who, from, digest);
    NoWindowExceedsCap(events, digest);
  }

  /** What the window lost while it was still open: only that makes room for more. */
  function LostWhileOpen(events: seq<Event>, who: Subject, from: int, digest: Email -> string): nat {
    if events == [] then 0
    else
      var init, last := events[..|events| - 1], events[|events| - 1];
      var st := Run(init, digest);
      LostWhileOpen(init, who, from, digest)
      + if st.now <= from + WINDOW then ClearedBy(st, last, who, from) + DetachedBy(st, last, who, from) else 0
  }

  lemma {:induction false} OpenSoFar(events: seq<Event>, who: Subject, from: int, digest: Email -> string)
    requires Run(events, digest).now <= from + WINDOW
    ensures LostWhileOpen(events, who, from, digest)
         == Cleared(events, who, from, digest) + Detached(events, who, from, digest)
  {
    if events != [] { OpenSoFar(events[..|events| - 1], who, from, digest); }
  }

  /** In every run, about everyone, in every window: at most ten failures are recorded beyond those the window
      lost while it was open. */
  lemma {:induction false} RecordedIsBounded(events: seq<Event>, who: Subject, from: int, digest: Email -> string)
    ensures Recorded(events, who, from, digest) <= MAX_FAILURES + LostWhileOpen(events, who, from, digest)
  {
    if Run(events, digest).now <= from + WINDOW {
      OpenSoFar(events, who, from, digest);
      RecordedIsCappedIff(events, who, from, digest);
      RecordedIsAccountedFor(events, who, from, digest);
    } else if events != [] {
      RecordedIsBounded(events[..|events| - 1], who, from, digest);
    }
  }

  /** A successful login of the account, or its removal. */
  predicate Resets(st: State, e: Event, who: Subject) {
    match who
    case ByUser(u) => (e.Clear? && UserOf(st, e.email) == Some(u)) || e == RemoveUser(u)
    case ByHash(h) => e.Clear? && exists f <- st.rows :: f.hash == h && f.user.Some? && f.user == UserOf(st, e.email)
  }

  lemma {:induction false} NothingOwned(rows: seq<Failure>, user: nat, who: Subject, from: int)
    requires forall f <- rows :: !(f.user == Some(user) && About(f, who) && InTime(f.at, from))
    ensures Owned(rows, user, who, from) == 0
  {
    if rows != [] {
      assert rows[|rows| - 1] in rows;
      NothingOwned(rows[..|rows| - 1], user, who, from);
    }
  }

  lemma {:induction false} NothingInWindow(rows: seq<Failure>, who: Subject, from: int)
    requires forall f <- rows :: f.at < from
    ensures InWindow(rows, who, from) == 0
  {
    if rows != [] {
      assert rows[|rows| - 1] in rows;
      NothingInWindow(rows[..|rows| - 1], who, from);
    }
  }

  lemma NothingLost(st: State, e: Event, who: Subject, from: int)
    requires NotFuture(st) && (st.now < from || !Resets(st, e, who))
    ensures ClearedBy(st, e, who, from) == 0 && DetachedBy(st, e, who, from) == 0
  {
    if e.Clear? && e.email in st.accounts {
      NothingOwned(st.rows, st.accounts[e.email], who, from);
    }
    if e.RemoveUser? && who == ByUser(e.user) {
      NothingInWindow(st.rows, who, from);
    }
  }

  /** Hence at most ten in a window inside which the account saw no successful login and was not removed. */
  lemma {:induction false} QuietWindowIsCapped(events: seq<Event>, who: Subject, from: int, digest: Email -> string)
    requires forall i :: 0 <= i < |events| && InTime(Run(events[..i], digest).now, from) ==>
                           !Resets(Run(events[..i], digest), events[i], who)
    ensures LostWhileOpen(events, who, from, digest) == 0
    ensures Recorded(events, who, from, digest) <= MAX_FAILURES
  {
    if events != [] {
      var init, last := events[..|events| - 1], events[|events| - 1];
      forall i | 0 <= i < |init| && InTime(Run(init[..i], digest).now, from)
        ensures !Resets(Run(init[..i], digest), init[i], who)
      {
        assert init[..i] == events[..i];
      }
      QuietWindowIsCapped(init, who, from, digest);
      NoWindowExceedsCap(init, digest);
      var st := Run(init, digest);
      if st.now <= from + WINDOW { NothingLost(st, last, who, from); }
    }
    RecordedIsBounded(events, who, from, digest);
  }

  // ---------------------------------------------------------------------------
  // The bound is reached
  // ---------------------------------------------------------------------------

  /** `n` failures of this account are in the table, and nobody else's, all at instant zero. */
  ghost predicate Filled(st: State, email: Email, user: nat, n: nat, digest: Email -> string) {
    && UserOf(st, email) == Some(user) && st.now == 0
    && Recent(st.rows, Some(user), digest(email), -WINDOW) == n
    && forall f <- st.rows :: f.user == Some(user)
  }

  ghost predicate Holds(events: seq<Event>, email: Email, user: nat, n: nat, recorded: nat, digest: Email -> string) {
    && Filled(Run(events, digest), email, user, n, digest)
    && Recorded(events, ByUser(user), 0, digest) == recorded
  }

  lemma RunSnoc(events: seq<Event>, e: Event, who: Subject, from: int, digest: Email -> string)
    ensures Run(events + [e], digest) == Step(Run(events, digest), e, digest)
    ensures Recorded(events + [e], who, from, digest) == Recorded(events, who, from, digest)
              + if Records(Run(events, digest), e, who, from, digest) then 1 else 0
  {
    assert (events + [e])[..|events|] == events;
  }

  lemma RecentSnoc(rows: seq<Failure>, f: Failure, user: Option<nat>, hash: string, cutoff: int)
    ensures Recent(rows + [f], user, hash, cutoff)
         == Recent(rows, user, hash, cutoff) + if Counts(f, user, hash, cutoff) then 1 else 0
  {
    assert (rows + [f])[..|rows|] == rows;
  }

  lemma FillOne(st: State, email: Email, user: nat, n: nat, digest: Email -> string)
    requires n < MAX_FAILURES && Filled(st, email, user, n, digest)
    ensures Filled(Step(st, FailedLogin(email), digest), email, user, n + 1, digest)
    ensures Records(st, FailedLogin(email), ByUser(user), 0, digest)
  {
    RecentSnoc(st.rows, NewFailure(st, email, digest), Some(user), digest(email), -WINDOW);
  }

  lemma OneMore(prev: seq<Event>, email: Email, user: nat, n: nat, recorded: nat, digest: Email -> string)
    returns (next: seq<Event>)
    requires n < MAX_FAILURES && Holds(prev, email, user, n, recorded, digest)
    ensures next == prev + [FailedLogin(email)]
    ensures Holds(next, email, user, n + 1, recorded + 1, digest)
  {
    next := prev + [FailedLogin(email)];
    RunSnoc(prev, FailedLogin(email), ByUser(user), 0, digest);
    FillOne(Run(prev, digest), email, user, n, digest);
  }

  /** From no failures, the next ten in a row are all recorded. */
  lemma TenMore(prev: seq<Event>, email: Email, user: nat, recorded: nat, digest: Email -> string)
    returns (events: seq<Event>)
    requires Holds(prev, email, user, 0, recorded, digest)
    ensures Holds(events, email, user, MAX_FAILURES, recorded + MAX_FAILURES, digest)
    ensures |events| == |prev| + MAX_FAILURES && prev <= events
    ensures forall i :: |prev| <= i < |events| ==> events[i] == FailedLogin(email)
  {
    events := prev;
    for n := 0 to MAX_FAILURES
      invariant Holds(events, email, user, n, recorded + n, digest)
      invariant |events| == |prev| + n && prev <= events
      invariant forall i :: |prev| <= i < |events| ==> events[i] == FailedLogin(email)
    {
      events := OneMore(events, email, user, n, recorded + n, digest);
    }
  }

  lemma {:induction false} ClearEmpties(rows: seq<Failure>, user: nat)
    requires forall f <- rows :: f.user == Some(user)
    ensures WithoutUser(rows, user) == []
  {
    if rows != [] {
      assert rows[|rows| - 1] in rows;
      ClearEmpties(rows[..|rows| - 1], user);
    }
  }

  /** With one successful login in between, twenty failures of one account are recorded at one instant: the bound
      of ten plus what the window lost. */
  lemma ClearsRestartTheCount(email: Email, user: nat, digest: Email -> string) returns (events: seq<Event>)
    ensures forall i :: 0 <= i < |events| ==>
              events[i] == if i == 0 then AddAccount(email, user)
                           else if i == 11 then Clear(email) else FailedLogin(email)
    ensures |events| == 22 && Run(events, digest).now == 0
    ensures Recorded(events, ByUser(user), 0, digest) == 20
  {
    Opened(email, user, digest);
    var first := TenMore([AddAccount(email, user)], email, user, 0, digest);
    Closed(first, email, user, 10, digest);
    events := TenMore(first + [Clear(email)], email, user, 10, digest);
  }

  lemma Opened(email: Email, user: nat, digest: Email -> string)
    ensures Holds([AddAccount(email, user)], email, user, 0, 0, digest)
  {
    RunSnoc([], AddAccount(email, user), ByUser(user), 0, digest);
    assert [] + [AddAccount(email, user)] == [AddAccount(email, user)];
    assert Run([], digest) == START && Recorded([], ByUser(user), 0, digest) == 0;
  }

  lemma Closed(prev: seq<Event>, email: Email, user: nat, recorded: nat, digest: Email -> string)
    requires Holds(prev, email, user, MAX_FAILURES, recorded, digest)
    ensures Holds(prev + [Clear(email)], email, user, 0, recorded, digest)
  {
    ClearEmpties(Run(prev, digest).rows, user);
    RunSnoc(prev, Clear(email), ByUser(user), 0, digest);
  }

  // ---------------------------------------------------------------------------
  // The code, on its table
  // ---------------------------------------------------------------------------

  class LoginFailures {
    var rows: seq<Failure>
    var accounts: map<Email, nat>
    var now: int
    const digest: Email -> string

    function View(): State
      reads this
    {
      State(rows, accounts, now)
    }

    constructor (digest: Email -> string)
      ensures View() == START && this.digest == digest
    {
      this.digest := digest;
      rows, accounts, now := [], map[], 0;
    }

    /** `check_login_lockout`. */
    method CheckLoginLockout(email: Email) returns (locked: bool)
      ensures locked == IsLocked(View(), email, digest)
    {
      var cutoff := now - WINDOW;
      var hash := digest(email);
      var user := UserOf(View(), email);
      var count := 0;
      for i := 0 to |rows|
        invariant count == Recent(rows[..i], user, hash, cutoff)
      {
        assert rows[..i + 1][..i] == rows[..i];
        if rows[i].at >= cutoff && ((user.Some? && rows[i].user == user) || rows[i].hash == hash) {
          count := count + 1;
        }
      }
      assert rows[..|rows|] == rows;
      locked := count >= MAX_FAILURES;
    }

    /** `record_login_failure`. */
    method RecordLoginFailure(email: Email)
      modifies this`rows
      ensures rows == old(rows) + [NewFailure(old(View()), email, digest)]
    {
      rows := rows + [Failure(UserOf(View(), email), digest(email), now)];
    }

    /** The failing half of the login route. */
    method FailLogin(email: Email) returns (locked: bool)
      modifies this`rows
      ensures locked == IsLocked(old(View()), email, digest)
      ensures View() == Step(old(View()), FailedLogin(email), digest)
    {
      locked := CheckLoginLockout(email);
      if !locked {
        RecordLoginFailure(email);
      }
    }

    /** `clear_login_failures`. */
    method ClearLoginFailures(email: Email)
      modifies this`rows
      ensures View() == Step(old(View()), Clear(email), digest)
    {
      if email !in accounts {
        return;
      }
      rows := WithoutUser(rows, accounts[email]);
    }
  }
}
