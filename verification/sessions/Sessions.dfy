/** Cookie sessions: issue, authenticate with absolute and idle expiry, revoke, purge. */
module Sessions {
  import opened Common

  type Hash = string
  type User = nat

  /** A `user_sessions` row; times are instants on one clock. */
  datatype Session = Session(user: User, lastUsed: int, expires: int)

  /** `SESSION_LIFETIME_DAYS` and `SESSION_IDLE_HOURS`, as durations. */
  datatype Config = Config(lifetime: nat, idle: nat)

  datatype Verdict = Accepted(user: User) | InvalidSession | Expired | IdleTimeout | UserMissing

  /** The tables, and the clock. */
  datatype State = State(rows: map<Hash, Session>, users: set<User>, now: int)

  datatype Event =
    | Create(token: Hash, user: User)
    | Authenticate(token: Hash)
    | Revoke(token: Hash)
    | RevokeAll(user: User)
    | AddUser(user: User)
    | RemoveUser(user: User)
    | Advance(elapsed: nat)
    | Purge(cutoff: int)

  // ---------------------------------------------------------------------------
  // One request
  // ---------------------------------------------------------------------------

  predicate PastExpiry(s: Session, now: int) { s.expires < now }

  predicate PastIdle(s: Session, now: int, cfg: Config) { s.lastUsed < now - cfg.idle }

  /** The cookie path of `get_current_user`. */
  function Judge(st: State, token: Hash, cfg: Config): Verdict {
    if token !in st.rows then InvalidSession
    else if PastExpiry(st.rows[token], st.now) then Expired
    else if PastIdle(st.rows[token], st.now, cfg) then IdleTimeout
    else if st.rows[token].user !in st.users then UserMissing
    else Accepted(st.rows[token].user)
  }

  /** What it leaves behind: an idle session is dropped, an accepted one is bumped. */
  function AfterJudge(st: State, token: Hash, cfg: Config): State {
    match Judge(st, token, cfg)
    case IdleTimeout => st.(rows := st.rows - {token})
    case Accepted(_) => st.(rows := st.rows[token := st.rows[token].(lastUsed := st.now)])
    case _ => st
  }

  function Purged(rows: map<Hash, Session>, cutoff: int, cfg: Config): map<Hash, Session> {
    map h | h in rows && !PastExpiry(rows[h], cutoff) && !PastIdle(rows[h], cutoff, cfg) :: rows[h]
  }

  function WithoutUser(rows: map<Hash, Session>, user: User): map<Hash, Session> {
    map h | h in rows && rows[h].user != user :: rows[h]
  }

  function Step(st: State, e: Event, cfg: Config): State {
    match e
    case Create(token, user) =>
      // a duplicate key or a missing user makes the insert fail
      if token in st.rows || user !in st.users then st
      else st.(rows := st.rows[token := Session(user, st.now, st.now + cfg.lifetime)])
    case Authenticate(token) => AfterJudge(st, token, cfg)
    case Revoke(token) => st.(rows := st.rows - {token})
    case RevokeAll(user) => st.(rows := WithoutUser(st.rows, user))
    case AddUser(user) => st.(users := st.users + {user})
    case RemoveUser(user) => State(WithoutUser(st.rows, user), st.users - {user}, st.now)
    case Advance(elapsed) => st.(now := st.now + elapsed)
    case Purge(cutoff) => st.(rows := Purged(st.rows, cutoff, cfg))
  }

  // ---------------------------------------------------------------------------
  // Runs
  // ---------------------------------------------------------------------------

  const START := State(map[], {}, 0)

  function Run(events: seq<Event>, cfg: Config): State {
    if events == [] then START else Step(Run(events[..|events| - 1], cfg), events[|events| - 1], cfg)
  }

  /** The decision made on an authentication event: whose request it is, if anyone's. */
  function Decide(st: State, token: Hash, cfg: Config): Option<User> {
    match Judge(st, token, cfg)
    case Accepted(user) => Some(user)
    case _ => None
  }

  function Decisions(events: seq<Event>, cfg: Config): seq<Option<User>> {
    if events == [] then []
    else
      var init, last := events[..|events| - 1], events[|events| - 1];
      Decisions(init, cfg) + if last.Authenticate? then [Decide(Run(init, cfg), last.token, cfg)] else []
  }

  function WithoutPurges(events: seq<Event>): seq<Event> {
    if events == [] then []
    else
      var init, last := events[..|events| - 1], events[|events| - 1];
      WithoutPurges(init) + if last.Purge? then [] else [last]
  }

  /** Tokens are freshly minted, and no purge looks into the future. */
  ghost predicate Sound(events: seq<Event>, cfg: Config) {
    && (forall i, j :: 0 <= i < j < |events| && events[i].Create? && events[j].Create? ==>
                         events[i].token != events[j].token)
    && (forall i :: 0 <= i < |events| && events[i].Purge? ==> events[i].cutoff <= Run(events[..i], cfg).now)
  }

  /** No request will ever be accepted on this session again. */
  predicate Dead(s: Session, now: int, cfg: Config) {
    PastExpiry(s, now) || PastIdle(s, now, cfg)
  }

  /** `p` is `f` with some dead sessions missing. */
  ghost predicate Simulates(p: State, f: State, cfg: Config) {
    && p.users == f.users && p.now == f.now
    && (forall h <- p.rows :: h in f.rows && f.rows[h] == p.rows[h])
    && (forall h <- f.rows :: h in p.rows || Dead(f.rows[h], f.now, cfg))
  }

  ghost predicate Minted(events: seq<Event>, token: Hash) {
    exists i :: 0 <= i < |events| && events[i].Create? && events[i].token == token
  }

  lemma {:induction false} RowsWereMinted(events: seq<Event>, cfg: Config)
    ensures forall h <- Run(events, cfg).rows :: Minted(events, h)
  {
    if events != [] {
      var init := events[..|events| - 1];
      RowsWereMinted(init, cfg);
      forall h <- Run(events, cfg).rows ensures Minted(events, h) {
        if h in Run(init, cfg).rows {
          var i :| 0 <= i < |init| && init[i].Create? && init[i].token == h;
          assert events[i].token == h;
        } else {
          assert events[|events| - 1].token == h;
        }
      }
    }
  }

  lemma {:induction false} MintedStrips(events: seq<Event>, token: Hash)
    ensures Minted(WithoutPurges(events), token) ==> Minted(events, token)
  {
    if events != [] && Minted(WithoutPurges(events), token) {
      var init, last := events[..|events| - 1], events[|events| - 1];
      var kept := WithoutPurges(events);
      var i :| 0 <= i < |kept| && kept[i].Create? && kept[i].token == token;
      if i < |WithoutPurges(init)| {
        assert WithoutPurges(init)[i] == kept[i];
        MintedStrips(init, token);
        var j :| 0 <= j < |init| && init[j].Create? && init[j].token == token;
        assert events[j].token == token;
      } else {
        assert events[|events| - 1].token == token;
      }
    }
  }

  lemma SoundPrefix(events: seq<Event>, cfg: Config)
    requires Sound(events, cfg) && events != []
    ensures Sound(events[..|events| - 1], cfg)
    ensures events[|events| - 1].Purge? ==> events[|events| - 1].cutoff <= Run(events[..|events| - 1], cfg).now
  {
    var init := events[..|events| - 1];
    forall i | 0 <= i < |init| && init[i].Purge? ensures init[i].cutoff <= Run(init[..i], cfg).now {
      assert init[..i] == events[..i];
    }
  }

  lemma CreatedTokenIsNew(events: seq<Event>, cfg: Config)
    requires Sound(events, cfg) && events != [] && events[|events| - 1].Create?
    ensures !Minted(events[..|events| - 1], events[|events| - 1].token)
  {
    var init, last := events[..|events| - 1], events[|events| - 1];
    forall i | 0 <= i < |init| && init[i].Create? ensures init[i].token != last.token {
      assert events[i] == init[i];
    }
  }

  /** The step both runs take keeps the simulation. */
  lemma StepSimulates(p: State, f: State, e: Event, cfg: Config)
    requires Simulates(p, f, cfg) && !e.Purge?
    requires e.Create? ==> e.token !in f.rows
    ensures Simulates(Step(p, e, cfg), Step(f, e, cfg), cfg)
    ensures e.Authenticate? ==> Decide(p, e.token, cfg) == Decide(f, e.token, cfg)
  {
  }

  lemma PurgeSimulates(p: State, f: State, cutoff: int, cfg: Config)
    requires Simulates(p, f, cfg) && cutoff <= p.now
    ensures Simulates(Step(p, Purge(cutoff), cfg), f, cfg)
  {
  }

  /** Purging is invisible to authentication: with purges anywhere in a run, every request is decided as in the
      run without them. */
  lemma {:induction false} PurgeIsInvisible(events: seq<Event>, cfg: Config)
    requires Sound(events, cfg)
    ensures Decisions(events, cfg) == Decisions(WithoutPurges(events), cfg)
    ensures Simulates(Run(events, cfg), Run(WithoutPurges(events), cfg), cfg)
  {
    if events != [] {
      var init, last := events[..|events| - 1], events[|events| - 1];
      SoundPrefix(events, cfg);
      PurgeIsInvisible(init, cfg);
      var p, f := Run(init, cfg), Run(WithoutPurges(init), cfg);
      if last.Purge? {
        PurgeSimulates(p, f, last.cutoff, cfg);
        assert WithoutPurges(events) == WithoutPurges(init);
      } else {
        var kept := WithoutPurges(events);
        assert kept[..|kept| - 1] == WithoutPurges(init) && kept[|kept| - 1] == last;
        if last.Create? {
          RowsWereMinted(WithoutPurges(init), cfg);
          MintedStrips(init, last.token);
          CreatedTokenIsNew(events, cfg);
        }
        StepSimulates(p, f, last, cfg);
      }
    }
  }

  /** The cutoff bound is what invisibility rests on: a purge just before a request that would be accepted
      leaves the decisions as they are exactly when its cutoff has not passed the session's absolute expiry or
      the end of its idle window. */
  lemma PurgeIsInvisibleIff(events: seq<Event>, token: Hash, cutoff: int, cfg: Config)
    requires Decide(Run(events, cfg), token, cfg).Some?
    ensures var row := Run(events, cfg).rows[token];
            Decisions(events + [Purge(cutoff)] + [Authenticate(token)], cfg)
            == Decisions(events + [Authenticate(token)], cfg)
            <==> cutoff <= Min(row.expires, row.lastUsed + cfg.idle)
  {
    var st := Run(events, cfg);
    Snoc(events, Authenticate(token), cfg);
    Snoc(events, Purge(cutoff), cfg);
    Snoc(events + [Purge(cutoff)], Authenticate(token), cfg);
    PurgeSparesIff(st, token, cutoff, cfg);
    LastDiffers(Decisions(events, cfg), Decide(st, token, cfg), Decide(Step(st, Purge(cutoff), cfg), token, cfg));
  }

  lemma PurgeSparesIff(st: State, token: Hash, cutoff: int, cfg: Config)
    requires Decide(st, token, cfg).Some?
    ensures Decide(Step(st, Purge(cutoff), cfg), token, cfg) == Decide(st, token, cfg)
            <==> cutoff <= Min(st.rows[token].expires, st.rows[token].lastUsed + cfg.idle)
  {
  }

  lemma LastDiffers(made: seq<Option<User>>, x: Option<User>, y: Option<User>)
    ensures made + [x] == made + [y] <==> x == y
  {
    assert (made + [x])[|made|] == x && (made + [y])[|made|] == y;
  }

  /** A run one event longer. */
  lemma Snoc(events: seq<Event>, e: Event, cfg: Config)
    ensures Run(events + [e], cfg) == Step(Run(events, cfg), e, cfg)
    ensures Decisions(events + [e], cfg) == Decisions(events, cfg)
              + if e.Authenticate? then [Decide(Run(events, cfg), e.token, cfg)] else []
    ensures WithoutPurges(events + [e]) == WithoutPurges(events) + if e.Purge? then [] else [e]
  {
    assert (events + [e])[..|events|] == events;
  }

  // ---------------------------------------------------------------------------
  // What acceptance means
  // ---------------------------------------------------------------------------

  /** What the history of a run says about a token, with no table in sight: whose it is, when it was issued, and
      when it was last accepted; `None` once it was revoked or its user removed. */
  datatype Trace = Trace(user: User, issued: int, lastAccepted: int)

  function ClockAt(events: seq<Event>): int {
    if events == [] then 0
    else ClockAt(events[..|events| - 1])
         + if events[|events| - 1].Advance? then events[|events| - 1].elapsed else 0
  }

  function UsersAt(events: seq<Event>): set<User> {
    if events == [] then {}
    else
      var users := UsersAt(events[..|events| - 1]);
      match events[|events| - 1]
      case AddUser(u) => users + {u}
      case RemoveUser(u) => users - {u}
      case _ => users
  }

  /** A request within the lifetime of the token and no longer than the idle window after its last use. */
  predicate Admissible(t: Option<Trace>, now: int, cfg: Config) {
    t.Some? && now <= t.value.issued + cfg.lifetime && now - t.value.lastAccepted <= cfg.idle
  }

  /** What one event adds to the history of a token, given who exists and what time it is. */
  function NextTrace(t: Option<Trace>, e: Event, token: Hash, users: set<User>, now: int, cfg: Config): Option<Trace> {
    match e
    case Create(h, u) => if h == token && u in users then Some(Trace(u, now, now)) else t
    case Authenticate(h) => if h == token && Admissible(t, now, cfg) then Some(t.value.(lastAccepted := now)) else t
    case Revoke(h) => if h == token then None else t
    case RevokeAll(u) => if t.Some? && t.value.user == u then None else t
    case RemoveUser(u) => if t.Some? && t.value.user == u then None else t
    case _ => t
  }

  function TraceOf(events: seq<Event>, token: Hash, cfg: Config): Option<Trace> {
    if events == [] then None
    else
      var init := events[..|events| - 1];
      NextTrace(TraceOf(init, token, cfg), events[|events| - 1], token, UsersAt(init), ClockAt(init), cfg)
  }

  /** The table agrees with a token's history, up to sessions that are dead already. */
  ghost predicate Agrees(st: State, t: Option<Trace>, token: Hash, cfg: Config) {
    && (token in st.rows ==>
          t.Some? && st.rows[token] == Session(t.value.user, t.value.lastAccepted, t.value.issued + cfg.lifetime))
    && (t.Some? ==> t.value.user in st.users && (token in st.rows || !Admissible(t, st.now, cfg)))
  }

  ghost predicate Tracks(st: State, events: seq<Event>, token: Hash, cfg: Config) {
    && st.now == ClockAt(events) && st.users == UsersAt(events)
    && Agrees(st, TraceOf(events, token, cfg), token, cfg)
  }

  lemma StepAgrees(st: State, t: Option<Trace>, e: Event, token: Hash, cfg: Config)
    requires Agrees(st, t, token, cfg) && !e.Purge? && (e.Create? && e.token == token ==> token !in st.rows)
    ensures Agrees(Step(st, e, cfg), NextTrace(t, e, token, st.users, st.now, cfg), token, cfg)
  {
  }

  lemma PurgedAgrees(st: State, t: Option<Trace>, cutoff: int, token: Hash, cfg: Config)
    requires Agrees(st, t, token, cfg) && cutoff <= st.now
    ensures Agrees(Step(st, Purge(cutoff), cfg), t, token, cfg)
  {
  }

  lemma {:induction false} TableTracksHistory(events: seq<Event>, token: Hash, cfg: Config)
    requires Sound(events, cfg)
    ensures Tracks(Run(events, cfg), events, token, cfg)
  {
    if events != [] {
      var init, last := events[..|events| - 1], events[|events| - 1];
      SoundPrefix(events, cfg);
      TableTracksHistory(init, token, cfg);
      RowsWereMinted(init, cfg);
      if last.Create? { CreatedTokenIsNew(events, cfg); }
      if last.Purge? {
        PurgedAgrees(Run(init, cfg), TraceOf(init, token, cfg), last.cutoff, token, cfg);
      } else {
        StepAgrees(Run(init, cfg), TraceOf(init, token, cfg), last, token, cfg);
      }
    }
  }

  /** A request is accepted exactly when its token was issued and neither it nor its user has been revoked or
      removed since, the absolute lifetime has not run out, and the gap since the token's issue or its last
      accepted request is no longer than the idle window. Purges do not appear in this at all. */
  lemma AcceptedIff(events: seq<Event>, token: Hash, cfg: Config)
    requires Sound(events, cfg)
    ensures Decide(Run(events, cfg), token, cfg)
         == if Admissible(TraceOf(events, token, cfg), ClockAt(events), cfg)
            then Some(TraceOf(events, token, cfg).value.user) else None
  {
    TableTracksHistory(events, token, cfg);
  }

  // ---------------------------------------------------------------------------
  // The code, on its tables
  // ---------------------------------------------------------------------------

  class SessionStore {
    var rows: map<Hash, Session>
    var users: set<User>
    var now: int
    const cfg: Config

    function View(): State
      reads this
    {
      State(rows, users, now)
    }

    constructor (cfg: Config)
      ensures View() == START && this.cfg == cfg
    {
      this.cfg := cfg;
      rows, users, now := map[], {}, 0;
    }

    /** `create_session_row`. */
    method CreateSessionRow(digest: Hash, user: User)
      modifies this`rows
      ensures View() == Step(old(View()), Create(digest, user), cfg)
    {
      if digest !in rows && user in users {
        rows := rows[digest := Session(user, now, now + cfg.lifetime)];
      }
    }

    /** `get_current_user`, cookie path. */
    method GetCurrentUser(digest: Hash) returns (v: Verdict)
      modifies this`rows
      ensures v == Judge(old(View()), digest, cfg)
      ensures View() == Step(old(View()), Authenticate(digest), cfg)
    {
      if digest !in rows {
        return InvalidSession;
      }
      var sess := rows[digest];
      if sess.expires < now {
        return Expired;
      }
      if sess.lastUsed < now - cfg.idle {
        rows := rows - {digest};
        return IdleTimeout;
      }
      if sess.user !in users {
        return UserMissing;
      }
      rows := rows[digest := sess.(lastUsed := now)];
      return Accepted(sess.user);
    }

    /** `revoke_session`. */
    method RevokeSession(digest: Hash)
      modifies this`rows
      ensures View() == Step(old(View()), Revoke(digest), cfg)
    {
      if digest in rows {
        rows := rows - {digest};
      } else {
        assert rows - {digest} == rows;
      }
    }

    /** `revoke_all_user_sessions`: the user's rows are looked up once and deleted one by one. */
    method RevokeAllUserSessions(user: User) returns (revoked: nat)
      modifies this`rows
      ensures View() == Step(old(View()), RevokeAll(user), cfg)
      ensures revoked == |old(rows)| - |rows|
    {
      ghost var was := rows;
      var left := set h | h in rows && rows[h].user == user;
      revoked := 0;
      while left != {}
        invariant forall h :: h in left ==> h in rows && rows[h].user == user
        invariant forall h :: h in rows <==> h in was && (was[h].user != user || h in left)
        invariant forall h <- rows :: rows[h] == was[h]
        invariant |rows| + revoked == |was|
        decreases left
      {
        var h :| h in left;
        assert rows.Keys == (rows - {h}).Keys + {h};
        rows := rows - {h};
        left := left - {h};
        revoked := revoked + 1;
      }
      assert rows == WithoutUser(was, user);
    }

    /** `purge_expired_sessions`. */
    method PurgeExpiredSessions(at: Option<int>) returns (deleted: nat)
      modifies this`rows
      ensures View() == Step(old(View()), Purge(if at.Some? then at.value else old(now)), cfg)
      ensures deleted == |old(rows)| - |rows|
    {
      var cutoff := if at.Some? then at.value else now;
      var idleCutoff := cutoff - cfg.idle;
      var gone := set h | h in rows && (rows[h].expires < cutoff || rows[h].lastUsed < idleCutoff);
      deleted := |gone|;
      ghost var was := rows;
      rows := map h | h in rows && h !in gone :: rows[h];
      assert rows == Purged(was, cutoff, cfg);
      assert was.Keys == rows.Keys + gone;
      assert |was.Keys| == |rows.Keys| + |gone|;
    }
  }
}
