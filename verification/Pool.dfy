/**
 The connection pool under concurrency: acquire, release, discard, the recovery
 probe and Close, interleaved in every possible way.

 Each step of the machine is one atomic operation of the source: one atomic
 load, compare-and-swap or add, one channel operation, one conn.close, one dial,
 or one mutex section. A mutex section is a single step when it touches at most
 one thing that is also touched outside the mutex; the sections of Close and of
 the probe touch more, so they hold the mutex across several steps.

 Every acquire and every Close is an actor of its own, so the number of
 concurrent callers is unbounded. The probe goroutine is actor PROBE.
 */
module Pool {
  import opened Wrappers
  import Errors

  type Conn = nat
  type Actor = nat

  const PROBE: Actor := 0

  datatype Config = Config(endpoints: nat, poolSize: nat)

  /** Program points of acquire and of the call that follows it; c is a local variable. */
  datatype CallPoint =
    | Check | TryIdle | Load | Cas(cur: int) | Reserve
    | Dialing | Dialed(c: Conn) | DialFailed | Waiting
    | Loaned(c: Conn) | Releasing(c: Conn) | Closing(c: Conn) | Uncount

  /** Program points of Close; e is the pool being drained. */
  datatype ClosePoint =
    | Enter | Draining(e: nat) | DrainClosing(e: nat, c: Conn) | DrainUncount(e: nat)
    | CancelProbe | AwaitProbe | AwaitDials | ReleaseSession | AwaitProbeOnly

  /** Program points of recoveryProbe and probeCooling. */
  datatype ProbePoint =
    | Select | Sweep | ProbeDial(e: nat) | AskStatus(e: nat, c: Conn) | Offer(e: nat, c: Conn)
    | Send(e: nat, c: Conn) | CloseFailed(c: Conn) | CloseRejected(e: nat, c: Conn) | UncountRejected(e: nat) | Gone

  /** Where an actor is, with its local variables. */
  datatype Pc =
    | Calling(e: nat, call: CallPoint)
    | Shutting(close: ClosePoint)
    | Probing(todo: seq<nat>, probe: ProbePoint)
    | Finished

  /** Where a connection is; every connection ever dialed is in exactly one place. */
  datatype Place = InIdle(e: nat) | HeldBy(a: Actor) | Shut

  datatype State = State(
    // fields of Client and its pools
    closed: bool,
    closeCh: bool,
    mu: Option<Actor>,
    live: seq<int>,
    idle: seq<seq<Conn>>,
    inFlight: int,
    probeCancelled: bool,
    probeDone: bool,
    actors: map<Actor, Pc>,
    // history
    place: map<Conn, Place>,
    closes: map<Conn, nat>,
    donated: seq<nat>,
    tainted: set<Conn>,
    winner: Option<Actor>,
    sessionCloses: nat)

  /** What the environment decides: dial results, RPC results, select branches, ticks. */
  datatype Choice =
    | Go
    | DialOk(c: Conn)
    | DialError
    | CallReturned(err: Option<Errors.Err>)
    | Receive
    | SeeClosed
    | ContextDone
    | Tick(cooling: seq<nat>)
    | Cancelled
    | Status(ok: bool)

  datatype Step =
    | StartAcquire(a: Actor, e: nat)
    | StartClose(a: Actor)
    | Move(a: Actor, choice: Choice)

  // ------------------------------------------------------------ classes of program points

  /** The endpoint whose live count includes this actor. */
  function Unit(pc: Pc): Option<nat> {
    match pc
    case Calling(e, at) =>
      if at.Reserve? || at.Dialing? || at.Dialed? || at.DialFailed? || at.Loaned? || at.Releasing? || at.Closing?
         || at.Uncount?
      then Some(e) else None
    case Shutting(at) => if at.DrainClosing? || at.DrainUncount? then Some(at.e) else None
    case Probing(_, at) => if at.Send? || at.CloseRejected? || at.UncountRejected? then Some(at.e) else None
    case Finished => None
  }

  /** The connection the actor has in hand. */
  function Hand(pc: Pc): Option<Conn> {
    match pc
    case Calling(_, at) =>
      if at.Dialed? || at.Loaned? || at.Releasing? || at.Closing? then Some(at.c) else None
    case Shutting(at) => if at.DrainClosing? then Some(at.c) else None
    case Probing(_, at) =>
      if at.AskStatus? || at.Offer? || at.Send? || at.CloseFailed? || at.CloseRejected? then Some(at.c) else None
    case Finished => None
  }

  /** Between inFlightDials.Add(1) and Done. */
  predicate Registered(pc: Pc) { pc.Calling? && (pc.call.Dialing? || pc.call.Dialed? || pc.call.DialFailed?) }

  /** Inside newConn, which may read the Kerberos session. */
  predicate UsesSession(pc: Pc) { (pc.Calling? && pc.call.Dialing?) || (pc.Probing? && pc.probe.ProbeDial?) }

  predicate Drains(pc: Pc) {
    pc.Shutting? && (pc.close.Draining? || pc.close.DrainClosing? || pc.close.DrainUncount?)
  }

  predicate HoldsMutex(pc: Pc) { Drains(pc) || (pc.Probing? && pc.probe.Send?) }

  /** On the path of the Close call that found the client open. */
  predicate WinsClose(pc: Pc) { pc.Shutting? && !pc.close.Enter? && !pc.close.AwaitProbeOnly? }

  /** A donation counted in live and not yet taken back. */
  predicate Donates(pc: Pc) {
    pc.Probing? && (pc.probe.Send? || pc.probe.CloseRejected? || pc.probe.UncountRejected?)
  }

  predicate Terminal(pc: Pc) { pc.Finished? || (pc.Probing? && pc.probe.Gone?) }

  predicate CondemnedConn(pc: Pc) { pc.Calling? && pc.call.Closing? }

  /** The call left the connection's position on the wire unknown, so do discards it. */
  predicate Poisons(err: Option<Errors.Err>) {
    err.Some? && (Errors.Classify(err.value) == Errors.Unavailable || Errors.IsProtocolError(err.value))
  }

  // ------------------------------------------------------------ the machine

  /** The state New returns in: one connection dialed to endpoint e, and the probe running. */
  function Initial(cfg: Config, e: nat): State
    requires e < cfg.endpoints
  {
    State(
      false, false, None,
      seq(cfg.endpoints, i => if i == e then 1 else 0),
      seq(cfg.endpoints, i => if i == e then [0] else []),
      0, false, false, map[PROBE := Probing([], Select)],
      map[0 := InIdle(e)], map[0 := 0], seq(cfg.endpoints, i => 0), {}, None, 0)
  }

  predicate InRange(cfg: Config, todo: seq<nat>) { forall i :: 0 <= i < |todo| ==> todo[i] < cfg.endpoints }

  /** The choices the environment has at a program point, and what that point waits for. */
  predicate CallAllowed(s: State, e: nat, at: CallPoint, choice: Choice) {
    match at
    case Check => choice.Go? && s.mu.None?
    case Reserve => choice.Go? && s.mu.None?
    case Dialing => choice.DialError? || (choice.DialOk? && choice.c !in s.place)
    case Waiting =>
      || (choice.Receive? && e < |s.idle| && s.idle[e] != [])
      || (choice.SeeClosed? && s.closeCh)
      || choice.ContextDone?
    case Loaned(_) => choice.CallReturned?
    case Releasing(_) => choice.Go? && s.mu.None?
    case _ => choice.Go?
  }

  predicate CloseAllowed(s: State, at: ClosePoint, choice: Choice) {
    choice.Go? &&
    match at
    case Enter => s.mu.None?
    case AwaitProbe => s.probeDone
    case AwaitProbeOnly => s.probeDone
    case AwaitDials => s.inFlight == 0
    case _ => true
  }

  predicate ProbeAllowed(cfg: Config, s: State, at: ProbePoint, choice: Choice) {
    match at
    case Select => (choice.Cancelled? && s.probeCancelled) || (choice.Tick? && InRange(cfg, choice.cooling))
    case ProbeDial(_) => choice.DialError? || (choice.DialOk? && choice.c !in s.place)
    case AskStatus(_, _) => choice.Status?
    case Offer(_, _) => choice.Go? && s.mu.None?
    case Gone => false
    case _ => choice.Go?
  }

  predicate Allowed(cfg: Config, s: State, pc: Pc, choice: Choice) {
    match pc
    case Calling(e, at) => CallAllowed(s, e, at, choice)
    case Shutting(at) => CloseAllowed(s, at, choice)
    case Probing(_, at) => ProbeAllowed(cfg, s, at, choice)
    case Finished => false
  }

  predicate Enabled(cfg: Config, s: State, step: Step) {
    match step
    case StartAcquire(a, e) => a !in s.actors && e < cfg.endpoints
    case StartClose(a) => a !in s.actors
    case Move(a, choice) => a in s.actors && Allowed(cfg, s, s.actors[a], choice)
  }

  // ------------------------------------------------------------ effects

  /** What one atomic operation does to the shared state. */
  datatype Effect =
    | Nothing
    | Count(e: nat, d: int)   // live[e].Add(d), or the successful compare-and-swap
    | Donate(e: nat)          // the probe's live[e].Add(1)
    | TakeBack(e: nat)        // the probe's live[e].Add(-1) after a full pool
    | Take(e: nat)            // receive from idle[e] into the actor's hand
    | Put(e: nat, c: Conn)    // send to idle[e]
    | Dial(c: Conn)           // newConn returned a connection nobody has seen before
    | Shutdown(c: Conn)       // cn.close()
    | Register                // inFlightDials.Add(1)
    | Unregister              // inFlightDials.Done()
    | Taint(c: Conn)          // fn returned an error that leaves c's state unknown
    | CloseClient             // closed = true; close(closeCh)
    | Cancel                  // probeCancel()
    | ProbeExit               // close(probeDone)
    | CloseSession            // krbSession.Close()

  datatype MutexOp = Keep | Lock | Unlock

  /** A transition of one actor: where it goes, what it does, and to the mutex. */
  datatype Transition = To(pc: Pc, effect: Effect, mutex: MutexOp)

  function Quiet(pc: Pc): Transition { To(pc, Nothing, Keep) }

  predicate EffectInRange(s: State, effect: Effect) {
    match effect
    case Count(e, _) => e < |s.live|
    case Donate(e) => e < |s.live| && e < |s.donated|
    case TakeBack(e) => e < |s.live| && e < |s.donated|
    case Take(e) => e < |s.idle| && s.idle[e] != []
    case Put(e, _) => e < |s.idle|
    case _ => true
  }

  function LiveAfter(live: seq<int>, effect: Effect): seq<int> {
    match effect
    case Count(e, d) => if e < |live| then live[e := live[e] + d] else live
    case Donate(e) => if e < |live| then live[e := live[e] + 1] else live
    case TakeBack(e) => if e < |live| then live[e := live[e] - 1] else live
    case _ => live
  }

  function DonatedAfter(donated: seq<nat>, effect: Effect): seq<nat> {
    match effect
    case Donate(e) => if e < |donated| then donated[e := donated[e] + 1] else donated
    case TakeBack(e) => if e < |donated| && donated[e] > 0 then donated[e := donated[e] - 1] else donated
    case _ => donated
  }

  function IdleAfter(idle: seq<seq<Conn>>, effect: Effect): seq<seq<Conn>> {
    match effect
    case Take(e) => if e < |idle| && idle[e] != [] then idle[e := idle[e][1..]] else idle
    case Put(e, c) => if e < |idle| then idle[e := idle[e] + [c]] else idle
    case _ => idle
  }

  function PlaceAfter(place: map<Conn, Place>, a: Actor, taken: Option<Conn>, effect: Effect): map<Conn, Place> {
    match effect
    case Take(_) => if taken.Some? then place[taken.value := HeldBy(a)] else place
    case Put(e, c) => place[c := InIdle(e)]
    case Dial(c) => place[c := HeldBy(a)]
    case Shutdown(c) => place[c := Shut]
    case _ => place
  }

  function ClosesAfter(closes: map<Conn, nat>, effect: Effect): map<Conn, nat> {
    match effect
    case Dial(c) => closes[c := 0]
    case Shutdown(c) => closes[c := (if c in closes then closes[c] else 0) + 1]
    case _ => closes
  }

  /** The connection a receive delivers: the oldest one in the buffer. */
  function Oldest(idle: seq<seq<Conn>>, effect: Effect): Option<Conn> {
    if effect.Take? && effect.e < |idle| && idle[effect.e] != [] then Some(idle[effect.e][0]) else None
  }

  function Perform(s: State, a: Actor, t: Transition): State {
    var f := t.effect;
    State(
      closed := s.closed || f.CloseClient?,
      closeCh := s.closeCh || f.CloseClient?,
      mu := match t.mutex { case Keep => s.mu case Lock => Some(a) case Unlock => None },
      live := LiveAfter(s.live, f),
      idle := IdleAfter(s.idle, f),
      inFlight := s.inFlight + (if f.Register? then 1 else if f.Unregister? then -1 else 0),
      probeCancelled := s.probeCancelled || f.Cancel?,
      probeDone := s.probeDone || f.ProbeExit?,
      actors := s.actors[a := t.pc],
      place := PlaceAfter(s.place, a, Oldest(s.idle, f), f),
      closes := ClosesAfter(s.closes, f),
      donated := DonatedAfter(s.donated, f),
      tainted := if f.Taint? then s.tainted + {f.c} else s.tainted,
      winner := if f.CloseClient? then Some(a) else s.winner,
      sessionCloses := s.sessionCloses + (if f.CloseSession? then 1 else 0))
  }

  // ------------------------------------------------------------ the program

  predicate Shape(cfg: Config, s: State) {
    && Sized(cfg, s)
    && forall a :: a in s.actors ==> PcInRange(cfg, s.actors[a])
  }

  /** Every endpoint index an actor has in a variable is one of the client's endpoints. */
  predicate PcInRange(cfg: Config, pc: Pc) {
    match pc
    case Calling(e, _) => e < cfg.endpoints
    case Shutting(at) =>
      && (at.Draining? ==> at.e <= cfg.endpoints)
      && (at.DrainClosing? || at.DrainUncount? ==> at.e < cfg.endpoints)
    case Probing(todo, at) =>
      && InRange(cfg, todo)
      && (at.ProbeDial? || at.AskStatus? || at.Offer? || at.Send? || at.CloseRejected? || at.UncountRejected? ==>
            at.e < cfg.endpoints)
    case Finished => true
  }

  predicate Sized(cfg: Config, s: State) { |s.live| == |s.idle| == |s.donated| == cfg.endpoints }

  /** acquire, the call that uses the connection, and release or discard. */
  function CallerStep(cfg: Config, s: State, e: nat, at: CallPoint, choice: Choice): (t: Transition)
    requires Sized(cfg, s) && e < cfg.endpoints && CallAllowed(s, e, at, choice)
    ensures EffectInRange(s, t.effect)
  {
    match at
    case Check => Quiet(if s.closed then Finished else Calling(e, TryIdle))
    case TryIdle =>
      if s.idle[e] != [] then To(Calling(e, Loaned(s.idle[e][0])), Take(e), Keep) else Quiet(Calling(e, Load))
    case Load => Quiet(Calling(e, if s.live[e] >= cfg.poolSize then Waiting else Cas(s.live[e])))
    case Cas(cur) =>
      if s.live[e] == cur then To(Calling(e, Reserve), Count(e, 1), Keep) else Quiet(Calling(e, Load))
    case Reserve => if s.closed then Quiet(Calling(e, Uncount)) else To(Calling(e, Dialing), Register, Keep)
    case Dialing =>
      if choice.DialOk? then To(Calling(e, Dialed(choice.c)), Dial(choice.c), Keep) else Quiet(Calling(e, DialFailed))
    case Dialed(c) => To(Calling(e, Loaned(c)), Unregister, Keep)
    case DialFailed => To(Calling(e, Uncount), Unregister, Keep)
    case Waiting =>
      if choice.Receive? then To(Calling(e, Loaned(s.idle[e][0])), Take(e), Keep) else Quiet(Finished)
    case Loaned(c) =>
      if Poisons(choice.err) then To(Calling(e, Closing(c)), Taint(c), Keep) else Quiet(Calling(e, Releasing(c)))
    case Releasing(c) =>
      if !s.closed && |s.idle[e]| < cfg.poolSize then To(Finished, Put(e, c), Keep) else Quiet(Calling(e, Closing(c)))
    case Closing(c) => To(Calling(e, Uncount), Shutdown(c), Keep)
    case Uncount => To(Finished, Count(e, -1), Keep)
  }

  /** Close. */
  function CloserStep(cfg: Config, s: State, at: ClosePoint): (t: Transition)
    requires Sized(cfg, s) && PcInRange(cfg, Shutting(at))
    ensures EffectInRange(s, t.effect)
  {
    match at
    case Enter =>
      if s.closed then Quiet(Shutting(AwaitProbeOnly)) else To(Shutting(Draining(0)), CloseClient, Lock)
    case Draining(e) =>
      if e == cfg.endpoints then To(Shutting(CancelProbe), Nothing, Unlock)
      else if s.idle[e] != [] then To(Shutting(DrainClosing(e, s.idle[e][0])), Take(e), Keep)
      else Quiet(Shutting(Draining(e + 1)))
    case DrainClosing(e, c) => To(Shutting(DrainUncount(e)), Shutdown(c), Keep)
    case DrainUncount(e) => To(Shutting(Draining(e)), Count(e, -1), Keep)
    case CancelProbe => To(Shutting(AwaitProbe), Cancel, Keep)
    case AwaitProbe => Quiet(Shutting(AwaitDials))
    case AwaitDials => Quiet(Shutting(ReleaseSession))
    case ReleaseSession => To(Finished, CloseSession, Keep)
    case AwaitProbeOnly => Quiet(Finished)
  }

  /** recoveryProbe and probeCooling; a swept endpoint leaves todo. */
  function ProbeStep(cfg: Config, s: State, todo: seq<nat>, at: ProbePoint, choice: Choice): (t: Transition)
    requires Sized(cfg, s) && PcInRange(cfg, Probing(todo, at)) && ProbeAllowed(cfg, s, at, choice)
    ensures EffectInRange(s, t.effect)
  {
    match at
    case Select =>
      if choice.Cancelled? then To(Probing([], Gone), ProbeExit, Keep) else Quiet(Probing(choice.cooling, Sweep))
    case Sweep => Quiet(if todo == [] then Probing([], Select) else Probing(todo[1..], ProbeDial(todo[0])))
    case ProbeDial(e) =>
      if choice.DialOk? then To(Probing(todo, AskStatus(e, choice.c)), Dial(choice.c), Keep)
      else Quiet(Probing(todo, Sweep))
    case AskStatus(e, c) => Quiet(Probing(todo, if choice.ok then Offer(e, c) else CloseFailed(c)))
    case Offer(e, c) =>
      if s.closed then Quiet(Probing(todo, CloseFailed(c))) else To(Probing(todo, Send(e, c)), Donate(e), Lock)
    case Send(e, c) =>
      if |s.idle[e]| < cfg.poolSize then To(Probing(todo, Sweep), Put(e, c), Unlock)
      else To(Probing(todo, CloseRejected(e, c)), Nothing, Unlock)
    case CloseFailed(c) => To(Probing(todo, Sweep), Shutdown(c), Keep)
    case CloseRejected(e, c) => To(Probing(todo, UncountRejected(e)), Shutdown(c), Keep)
    case UncountRejected(e) => To(Probing(todo, Sweep), TakeBack(e), Keep)
    case Gone => Quiet(Probing([], Gone))
  }

  function NextOf(cfg: Config, s: State, pc: Pc, choice: Choice): (t: Transition)
    requires Sized(cfg, s) && PcInRange(cfg, pc) && Allowed(cfg, s, pc, choice)
    ensures EffectInRange(s, t.effect)
  {
    match pc
    case Calling(e, at) => CallerStep(cfg, s, e, at, choice)
    case Shutting(at) => CloserStep(cfg, s, at)
    case Probing(todo, at) => ProbeStep(cfg, s, todo, at, choice)
    case Finished => Quiet(Finished)
  }

  function Apply(cfg: Config, s: State, step: Step): State
    requires Shape(cfg, s) && Enabled(cfg, s, step)
  {
    match step
    case StartAcquire(a, e) => Perform(s, a, Quiet(Calling(e, Check)))
    case StartClose(a) => Perform(s, a, Quiet(Shutting(Enter)))
    case Move(a, choice) => Perform(s, a, NextOf(cfg, s, s.actors[a], choice))
  }
}
