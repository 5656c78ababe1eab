/** The render sidecar: request threads sharing a bounded pool of render slots. */
module RenderSlots {
  import opened Common

  /** Where a request thread stands. */
  datatype Pc =
    | Parsing                      // path and Content-Length
    | ReadingBody
    | Queued                       // in `acquire(timeout)`
    | Rendering                    // holds a slot from here ...
    | Reporting(code: nat)         // sending 502 or 500 from an except clause
    | Releasing(rendered: bool)    // ... to here, in `finally`
    | Replying                     // sending the SVG
    | Rejecting(code: nat)         // sending 404, 400, 413 or 503
    | Done

  /** `responses` counts complete responses; `faulted` says a socket read or write failed, or the renderer was
      torn down by something other than an `Exception`. */
  datatype Thread = Thread(pc: Pc, responses: nat, faulted: bool)

  datatype State = State(limit: nat, free: nat, threads: map<nat, Thread>)

  datatype Action =
    | Arrive(t: nat)
    | Refuse(t: nat, code: nat)
    | AcceptHeaders(t: nat)
    | BodyRead(t: nat)
    | ReadFails(t: nat)
    | Acquire(t: nat)
    | WaitTimesOut(t: nat)
    | RenderSucceeds(t: nat)
    | RenderRaises(t: nat, code: nat)
    | RenderTornDown(t: nat)
    | SendCompletes(t: nat)
    | SendFails(t: nat)
    | Release(t: nat)

  predicate At(s: State, t: nat, pc: Pc) { t in s.threads && s.threads[t].pc == pc }

  predicate Sending(pc: Pc) { pc.Reporting? || pc.Replying? || pc.Rejecting? }

  predicate Enabled(s: State, a: Action) {
    match a
    case Arrive(t) => t !in s.threads
    case Refuse(t, code) => At(s, t, Parsing) && code in {404, 400, 413}
    case AcceptHeaders(t) => At(s, t, Parsing)
    case BodyRead(t) => At(s, t, ReadingBody)
    case ReadFails(t) => At(s, t, ReadingBody)
    case Acquire(t) => At(s, t, Queued) && s.free > 0
    case WaitTimesOut(t) => At(s, t, Queued)
    case RenderSucceeds(t) => At(s, t, Rendering)
    case RenderRaises(t, code) => At(s, t, Rendering) && code in {502, 500}
    case RenderTornDown(t) => At(s, t, Rendering)
    case SendCompletes(t) => t in s.threads && Sending(s.threads[t].pc)
    case SendFails(t) => t in s.threads && Sending(s.threads[t].pc)
    case Release(t) => t in s.threads && s.threads[t].pc.Releasing?
  }

  function Move(s: State, t: nat, pc: Pc): State
    requires t in s.threads
  {
    s.(threads := s.threads[t := s.threads[t].(pc := pc)])
  }

  function Fault(s: State, t: nat, pc: Pc): State
    requires t in s.threads
  {
    s.(threads := s.threads[t := Thread(pc, s.threads[t].responses, true)])
  }

  /** Sending from an except clause still runs `finally`; the other responses end the request. */
  function AfterSend(pc: Pc): Pc { if pc.Reporting? then Releasing(false) else Done }

  function Next(s: State, a: Action): State
    requires Enabled(s, a)
  {
    match a
    case Arrive(t) => s.(threads := s.threads[t := Thread(Parsing, 0, false)])
    case Refuse(t, code) => Move(s, t, Rejecting(code))
    case AcceptHeaders(t) => Move(s, t, ReadingBody)
    case BodyRead(t) => Move(s, t, Queued)
    case ReadFails(t) => Fault(s, t, Done)
    case Acquire(t) => Move(s, t, Rendering).(free := s.free - 1)
    case WaitTimesOut(t) => Move(s, t, Rejecting(503))
    case RenderSucceeds(t) => Move(s, t, Releasing(true))
    case RenderRaises(t, code) => Move(s, t, Reporting(code))
    case RenderTornDown(t) => Fault(s, t, Releasing(false))
    case SendCompletes(t) =>
      var th := s.threads[t];
      s.(threads := s.threads[t := Thread(AfterSend(th.pc), th.responses + 1, th.faulted)])
    case SendFails(t) => Fault(s, t, AfterSend(s.threads[t].pc))
    case Release(t) => Move(s, t, if s.threads[t].pc.rendered then Replying else Done).(free := s.free + 1)
  }

  /** A thread between `acquire` and `release`. */
  predicate HoldsSlot(pc: Pc) { pc.Rendering? || pc.Reporting? || pc.Releasing? }

  function Holders(s: State): set<nat> { set t | t in s.threads && HoldsSlot(s.threads[t].pc) }

  function Running(s: State): set<nat> { set t | t in s.threads && s.threads[t].pc.Rendering? }

  /** How a thread's responses relate to where it stands. */
  predicate Accounted(th: Thread) {
    match th.pc
    case Done => th.responses == if th.faulted then 0 else 1
    case Releasing(rendered) => if rendered then th.responses == 0 && !th.faulted
                                else th.responses == if th.faulted then 0 else 1
    case _ => th.responses == 0 && !th.faulted
  }

  ghost predicate Inv(s: State) {
    && s.free + |Holders(s)| == s.limit
    && forall t <- s.threads :: Accounted(s.threads[t])
  }

  lemma HoldersStep(s: State, a: Action)
    requires Enabled(s, a)
    ensures Holders(Next(s, a)) ==
              if a.Acquire? then Holders(s) + {a.t} else if a.Release? then Holders(s) - {a.t} else Holders(s)
  {
  }

  lemma AccountsStep(s: State, a: Action)
    requires Enabled(s, a) && forall t <- s.threads :: Accounted(s.threads[t])
    ensures forall t <- Next(s, a).threads :: Accounted(Next(s, a).threads[t])
  {
  }

  lemma StepKeeps(s: State, a: Action)
    requires Inv(s) && Enabled(s, a)
    ensures Inv(Next(s, a))
    ensures a.Release? ==> s.free < s.limit
  {
    HoldersStep(s, a);
    AccountsStep(s, a);
    if a.Release? {
      assert a.t in Holders(s);
      assert |Holders(s) - {a.t}| == |Holders(s)| - 1;
    }
  }

  /** Every interleaving of however many requests. */
  ghost predicate Reachable(states: seq<State>, actions: seq<Action>, limit: nat) {
    && |states| == |actions| + 1
    && states[0] == State(limit, limit, map[])
    && forall i :: 0 <= i < |actions| ==> Enabled(states[i], actions[i]) && states[i + 1] == Next(states[i], actions[i])
  }

  lemma {:induction false} Reached(states: seq<State>, actions: seq<Action>, limit: nat, n: nat)
    requires Reachable(states, actions, limit) && n <= |actions|
    ensures Inv(states[n]) && states[n].limit == limit
  {
    if n == 0 {
      assert Holders(states[0]) == {};
    } else {
      Reached(states, actions, limit, n - 1);
      StepKeeps(states[n - 1], actions[n - 1]);
    }
  }

  /** In every interleaving free slots plus holders is the limit, no more renders run than the limit, and no
      release ever exceeds it - on success, render error, unexpected error, timeout or socket fault. */
  lemma PoolIsBounded(states: seq<State>, actions: seq<Action>, limit: nat, n: nat)
    requires Reachable(states, actions, limit) && n <= |actions|
    ensures states[n].free + |Holders(states[n])| == limit
    ensures |Running(states[n])| <= limit
    ensures n < |actions| && actions[n].Release? ==> states[n].free < limit
  {
    Reached(states, actions, limit, n);
    Subset(Running(states[n]), Holders(states[n]));
    if n < |actions| { StepKeeps(states[n], actions[n]); }
  }

  lemma {:induction false} Subset(a: set<nat>, b: set<nat>)
    requires a <= b
    ensures |a| <= |b|
  {
    if x :| x in a {
      Subset(a - {x}, b - {x});
    }
  }

  /** A socket read or write that fails, or a renderer torn down by something other than an `Exception`. */
  predicate IsFault(a: Action, t: nat) {
    a == ReadFails(t) || a == SendFails(t) || a == RenderTornDown(t)
  }

  ghost predicate Faulted(actions: seq<Action>, t: nat) {
    exists i :: 0 <= i < |actions| && IsFault(actions[i], t)
  }

  lemma FaultedSnoc(actions: seq<Action>, a: Action, t: nat)
    ensures Faulted(actions + [a], t) <==> Faulted(actions, t) || IsFault(a, t)
  {
    var all := actions + [a];
    assert all[|actions|] == a;
    if i :| 0 <= i < |actions| && IsFault(actions[i], t) { assert all[i] == actions[i]; }
  }

  predicate Flag(s: State, t: nat) { t in s.threads && s.threads[t].faulted }

  lemma FlagStep(s: State, a: Action, t: nat)
    requires Enabled(s, a)
    ensures Flag(Next(s, a), t) <==> Flag(s, t) || IsFault(a, t)
  {
  }

  /** The flag a thread carries is what its actions say. */
  lemma {:induction false} FlagIsTrace(states: seq<State>, actions: seq<Action>, limit: nat, n: nat, t: nat)
    requires Reachable(states, actions, limit) && n <= |actions|
    ensures Flag(states[n], t) <==> Faulted(actions[..n], t)
  {
    if n > 0 {
      FlagIsTrace(states, actions, limit, n - 1, t);
      FlagStep(states[n - 1], actions[n - 1], t);
      assert actions[..n] == actions[..n - 1] + [actions[n - 1]];
      FaultedSnoc(actions[..n - 1], actions[n - 1], t);
    }
  }

  /** A finished request was answered exactly once, unless a socket read or write failed on it or its renderer
      was torn down - and then it was not answered at all. */
  lemma AnsweredOnceIff(states: seq<State>, actions: seq<Action>, limit: nat, n: nat, t: nat)
    requires Reachable(states, actions, limit) && n <= |actions| && At(states[n], t, Done)
    ensures states[n].threads[t].responses == if Faulted(actions[..n], t) then 0 else 1
  {
    Reached(states, actions, limit, n);
    FlagIsTrace(states, actions, limit, n, t);
  }

  /** Write faults are not the only way to miss a response: a body that stops arriving is another. */
  lemma ReadFaultGetsNoResponse(limit: nat)
    ensures exists states: seq<State>, actions: seq<Action> :: Reachable(states, actions, limit) && |actions| == 3
              && (forall a <- actions :: !a.SendFails?)
              && At(states[3], 0, Done) && states[3].threads[0].responses == 0
  {
    var s0 := State(limit, limit, map[]);
    var s1 := Next(s0, Arrive(0));
    var s2 := Next(s1, AcceptHeaders(0));
    var s3 := Next(s2, ReadFails(0));
    var states, actions := [s0, s1, s2, s3], [Arrive(0), AcceptHeaders(0), ReadFails(0)];
    assert Reachable(states, actions, limit);
  }

  /** How many steps of its own a request has left at most. */
  function Left(pc: Pc): nat {
    match pc
    case Parsing => 7
    case ReadingBody => 6
    case Queued => 5
    case Rendering => 4
    case Reporting(_) => 3
    case Releasing(_) => 2
    case Replying => 1
    case Rejecting(_) => 1
    case Done => 0
  }

  /** Whatever it does brings a request nearer its end and leaves every other request where it is. */
  lemma EveryStepIsProgress(s: State, a: Action)
    requires Enabled(s, a) && !a.Arrive?
    ensures a.t in s.threads && Left(Next(s, a).threads[a.t].pc) < Left(s.threads[a.t].pc)
    ensures forall u <- s.threads :: u != a.t ==> Next(s, a).threads[u] == s.threads[u]
  {
  }

  /** A request that is not finished can always move: a full pool costs it a wait, never the request. */
  lemma NeverStuck(s: State, t: nat) returns (a: Action)
    requires t in s.threads && !s.threads[t].pc.Done?
    ensures Enabled(s, a) && a.t == t && !a.Arrive?
  {
    a := match s.threads[t].pc
      case Parsing => AcceptHeaders(t)
      case ReadingBody => BodyRead(t)
      case Queued => WaitTimesOut(t)
      case Rendering => RenderSucceeds(t)
      case Releasing(_) => Release(t)
      case _ => SendCompletes(t);
  }

  ghost predicate IsPath(states: seq<State>, actions: seq<Action>, t: nat) {
    && |states| == |actions| + 1
    && forall i :: 0 <= i < |actions| ==>
         actions[i].t == t && Enabled(states[i], actions[i]) && states[i + 1] == Next(states[i], actions[i])
  }

  /** From any state, a full pool and any number of other requests included, each request can be brought to its
      end by at most seven steps of its own. */
  lemma {:induction false} EachCanFinish(s: State, t: nat) returns (states: seq<State>, actions: seq<Action>)
    requires t in s.threads
    ensures IsPath(states, actions, t) && states[0] == s && |actions| <= Left(s.threads[t].pc) <= 7
    ensures At(states[|actions|], t, Done)
    decreases Left(s.threads[t].pc)
  {
    if s.threads[t].pc.Done? {
      states, actions := [s], [];
    } else {
      var a := NeverStuck(s, t);
      EveryStepIsProgress(s, a);
      var more, rest := EachCanFinish(Next(s, a), t);
      states, actions := [s] + more, [a] + rest;
    }
  }

  // ---------------------------------------------------------------------------
  // One request, start to finish
  // ---------------------------------------------------------------------------

  const MAX_BODY_BYTES := 4 * 1024 * 1024

  /** What the renderer did. */
  datatype Outcome = Svg | RenderError | OtherException | TornDown

  /** What happens to one request from outside: an unparsable Content-Length is absent. */
  datatype Weather = Weather(known: bool, length: Option<int>, readOk: bool, gotSlot: bool, outcome: Outcome,
                             sendOk: bool)

  /** The status the client is due, if any response is attempted. */
  function Due(w: Weather): Option<nat> {
    if !w.known then Some(404)
    else if w.length.None? then Some(400)
    else if w.length.value <= 0 then Some(400)
    else if w.length.value > MAX_BODY_BYTES then Some(413)
    else if !w.readOk then None
    else if !w.gotSlot then Some(503)
    else match w.outcome
         case Svg => Some(200)
         case RenderError => Some(502)
         case OtherException => Some(500)
         case TornDown => None
  }

  class Sidecar {
    const limit: nat
    var free: nat
    var sent: seq<nat>          // statuses of complete responses

    ghost predicate Valid()
      reads this
    {
      free <= limit
    }

    constructor (limit: nat)
      ensures Valid() && free == limit && sent == [] && this.limit == limit
    {
      this.limit := limit;
      free, sent := limit, [];
    }

    method Send(code: nat, ok: bool)
      modifies this`sent
      ensures sent == old(sent) + if ok then [code] else []
    {
      if ok {
        sent := sent + [code];
      }
    }

    /** `do_POST`, run without interference: whatever happens the slot is back and the due response was sent. */
    method DoPost(w: Weather)
      requires Valid() && (w.gotSlot ==> free > 0)
      modifies this`free, this`sent
      ensures Valid() && free == old(free)
      ensures sent == old(sent) + if Due(w).Some? && w.sendOk then [Due(w).value] else []
    {
      if !w.known {
        Send(404, w.sendOk);
        return;
      }
      if w.length.None? {
        Send(400, w.sendOk);
        return;
      }
      if w.length.value <= 0 {
        Send(400, w.sendOk);
        return;
      }
      if w.length.value > MAX_BODY_BYTES {
        Send(413, w.sendOk);
        return;
      }
      if !w.readOk {
        return;
      }
      if !w.gotSlot {
        Send(503, w.sendOk);
        return;
      }
      free := free - 1;
      match w.outcome {
        case Svg =>
        case RenderError => Send(502, w.sendOk);
        case OtherException => Send(500, w.sendOk);
        case TornDown =>
      }
      free := free + 1;
      if w.outcome.Svg? {
        Send(200, w.sendOk);
      }
    }
  }
}
