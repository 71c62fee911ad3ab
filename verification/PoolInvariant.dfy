/**
 What every step of the pool keeps. The invariant is split into groups, each
 preserved by a lemma of its own.
 */
module PoolInvariant {
  import opened Counting
  import opened Wrappers
  import opened Pool

  ghost function CountedAt(actors: map<Actor, Pc>, e: nat): set<Actor> {
    set a | a in actors && Unit(actors[a]) == Some(e)
  }

  ghost function RegisteredIn(actors: map<Actor, Pc>): set<Actor> {
    set a | a in actors && Registered(actors[a])
  }

  /** The mutex is held by exactly the actor inside a multi-step section. */
  ghost predicate MutexOk(s: State) {
    && (s.mu.Some? ==> s.mu.value in s.actors)
    && forall a :: a in s.actors ==> (HoldsMutex(s.actors[a]) <==> s.mu == Some(a))
  }

  /** live is idle plus the actors that own a unit; the wait group counts registered dials. */
  ghost predicate CountsOk(s: State)
    requires |s.live| == |s.idle|
  {
    && (forall e :: 0 <= e < |s.live| ==> s.live[e] == |s.idle[e]| + |CountedAt(s.actors, e)|)
    && s.inFlight == |RegisteredIn(s.actors)|
  }

  /** Idle connections are in their pools, once. */
  ghost predicate IdleOk(idle: seq<seq<Conn>>, place: map<Conn, Place>) {
    && (forall e, i :: 0 <= e < |idle| && 0 <= i < |idle[e]| ==> idle[e][i] in place && place[idle[e][i]] == InIdle(e))
    && (forall e, i, j :: 0 <= e < |idle| && 0 <= i < j < |idle[e]| ==> idle[e][i] != idle[e][j])
    && (forall c :: c in place && place[c].InIdle? ==> place[c].e < |idle| && c in idle[place[c].e])
  }

  /** Connections in hand are in that hand. */
  ghost predicate HandsOk(actors: map<Actor, Pc>, place: map<Conn, Place>) {
    && (forall a :: a in actors && Hand(actors[a]).Some? ==>
                      Hand(actors[a]).value in place && place[Hand(actors[a]).value] == HeldBy(a))
    && (forall c :: c in place && place[c].HeldBy? ==> place[c].a in actors && Hand(actors[place[c].a]) == Some(c))
  }

  ghost predicate ClosesOk(closes: map<Conn, nat>, place: map<Conn, Place>) {
    && closes.Keys == place.Keys
    && (forall c :: c in place ==> closes[c] == if place[c].Shut? then 1 else 0)
  }

  /** place is the one place of every connection, and close has run exactly on those shut. */
  ghost predicate PlacesOk(s: State) {
    IdleOk(s.idle, s.place) && HandsOk(s.actors, s.place) && ClosesOk(s.closes, s.place)
  }

  /** Capacity: idle fits its channel; live exceeds the pool size only by donations. */
  ghost predicate CapacityOk(cfg: Config, s: State)
    requires Shape(cfg, s)
  {
    && (forall e :: 0 <= e < cfg.endpoints ==> |s.idle[e]| <= cfg.poolSize)
    && (forall e :: 0 <= e < cfg.endpoints ==> s.live[e] <= cfg.poolSize + s.donated[e])
    && (forall a :: a in s.actors && s.actors[a].Calling? && s.actors[a].call.Cas? ==>
                      s.actors[a].call.cur < cfg.poolSize)
    && (forall a :: a in s.actors && Donates(s.actors[a]) ==> s.donated[s.actors[a].probe.e] > 0)
  }

  ghost predicate ProbeOk(s: State) {
    && PROBE in s.actors
    && (forall a :: a in s.actors ==> (s.actors[a].Probing? <==> a == PROBE))
    && (s.probeDone <==> s.actors[PROBE].probe.Gone?)
    && (s.probeDone ==> s.probeCancelled)
    && (s.probeCancelled ==> s.closed)
  }

  /** Pools below this index have been drained by the winning Close. */
  ghost function DrainedBelow(cfg: Config, s: State): nat {
    if s.mu.Some? && s.mu.value in s.actors && Drains(s.actors[s.mu.value]) then s.actors[s.mu.value].close.e
    else cfg.endpoints
  }

  /** One Close wins; what it has drained stays empty. */
  ghost predicate CloseOk(cfg: Config, s: State)
    requires Shape(cfg, s)
  {
    && s.closeCh == s.closed
    && (s.closed <==> s.winner.Some?)
    && (s.winner.Some? ==> s.winner.value in s.actors
                           && (WinsClose(s.actors[s.winner.value]) || s.actors[s.winner.value].Finished?))
    && (forall a :: a in s.actors && WinsClose(s.actors[a]) ==> s.winner == Some(a))
    && (s.closed ==> s.mu != Some(PROBE))
    && (s.closed ==> forall e :: 0 <= e < DrainedBelow(cfg, s) && e < |s.idle| ==> s.idle[e] == [])
  }

  /** The Kerberos session is released once, by the winner, when nothing can use it. */
  ghost predicate SessionOk(s: State) {
    && (s.winner.None? ==> s.sessionCloses == 0)
    && (s.winner.Some? && s.winner.value in s.actors ==>
          s.sessionCloses == if s.actors[s.winner.value].Finished? then 1 else 0)
    && (forall a :: a in s.actors && (s.actors[a] == Shutting(AwaitDials) || s.actors[a] == Shutting(ReleaseSession)) ==>
                      s.probeDone)
    && (forall a :: a in s.actors && s.actors[a] == Shutting(AwaitProbe) ==> s.probeCancelled)
    && (forall a :: a in s.actors && s.actors[a] == Shutting(ReleaseSession) ==> RegisteredIn(s.actors) == {})
    && (s.sessionCloses > 0 ==> s.closed && s.probeDone && RegisteredIn(s.actors) == {})
  }

  /** A connection a call failed on is only ever on its way to being closed. */
  ghost predicate TaintOk(s: State) {
    forall c :: c in s.tainted ==>
                  c in s.place && !s.place[c].InIdle? &&
                  (s.place[c].HeldBy? ==> s.place[c].a in s.actors && CondemnedConn(s.actors[s.place[c].a]))
  }

  ghost predicate Inv(cfg: Config, s: State) {
    && Shape(cfg, s)
    && MutexOk(s)
    && CountsOk(s)
    && PlacesOk(s)
    && CapacityOk(cfg, s)
    && ProbeOk(s)
    && CloseOk(cfg, s)
    && SessionOk(s)
    && TaintOk(s)
  }

  // ------------------------------------------------------------ counting actors

  /** Moving one actor changes the counted set by at most that actor. */
  lemma CountedAfterMove(actors: map<Actor, Pc>, a: Actor, pc: Pc, e: nat)
    ensures |CountedAt(actors[a := pc], e)| - One(Unit(pc) == Some(e)) ==
            |CountedAt(actors, e)| - One(a in actors && Unit(actors[a]) == Some(e))
  {
    var before, after := CountedAt(actors, e), CountedAt(actors[a := pc], e);
    assert forall b :: b != a ==> (b in before <==> b in after);
    assert before - {a} == after - {a};
    CardinalAfterMove(before, after, a);
  }

  lemma RegisteredAfterMove(actors: map<Actor, Pc>, a: Actor, pc: Pc)
    ensures |RegisteredIn(actors[a := pc])| - One(Registered(pc)) ==
            |RegisteredIn(actors)| - One(a in actors && Registered(actors[a]))
    ensures RegisteredIn(actors) == {} && !Registered(pc) ==> RegisteredIn(actors[a := pc]) == {}
  {
    var before, after := RegisteredIn(actors), RegisteredIn(actors[a := pc]);
    assert forall b :: b != a ==> (b in before <==> b in after);
    assert before - {a} == after - {a};
    CardinalAfterMove(before, after, a);
  }

  // ------------------------------------------------------------ the start

  lemma InitialInv(cfg: Config, e: nat)
    requires e < cfg.endpoints && cfg.poolSize >= 1
    ensures Inv(cfg, Initial(cfg, e))
  {
    InitialCounts(cfg, e);
    hide CountsOk, SessionOk;
  }

  lemma InitialCounts(cfg: Config, e: nat)
    requires e < cfg.endpoints
    ensures Shape(cfg, Initial(cfg, e)) && CountsOk(Initial(cfg, e)) && SessionOk(Initial(cfg, e))
  {
    var s := Initial(cfg, e);
    assert forall i :: CountedAt(s.actors, i) == {};
    assert RegisteredIn(s.actors) == {};
  }

  // ------------------------------------------------------------ what the program's transitions look like

  /** An actor that has not started is as good as finished. */
  function PcOf(s: State, a: Actor): Pc { if a in s.actors then s.actors[a] else Finished }

  /** A finished actor takes no step. */
  predicate Awake(s: State, a: Actor) { a in s.actors ==> !s.actors[a].Finished? }

  /** The mutex changes hands exactly when the actor enters or leaves a multi-step section. */
  predicate LocksRight(s: State, pc: Pc, t: Transition) {
    match t.mutex
    case Keep => HoldsMutex(t.pc) == HoldsMutex(pc)
    case Lock => s.mu.None? && HoldsMutex(t.pc)
    case Unlock => HoldsMutex(pc) && !HoldsMutex(t.pc)
  }

  /** Conservation: a unit of live is idle or owned by an actor, and moves between the two. */
  predicate UnitsRight(pc: Pc, t: Transition) {
    match t.effect
    case Count(e, d) =>
      if d == 1 then Unit(pc).None? && Unit(t.pc) == Some(e)
      else d == -1 && Unit(pc) == Some(e) && Unit(t.pc).None?
    case Donate(e) => Unit(pc).None? && Unit(t.pc) == Some(e)
    case TakeBack(e) => Unit(pc) == Some(e) && Unit(t.pc).None?
    case Take(e) => Unit(pc).None? && Unit(t.pc) == Some(e)
    case Put(e, _) => Unit(pc) == Some(e) && Unit(t.pc).None?
    case _ => Unit(t.pc) == Unit(pc)
  }

  predicate DialsRight(pc: Pc, t: Transition) {
    match t.effect
    case Register => !Registered(pc) && Registered(t.pc)
    case Unregister => Registered(pc) && !Registered(t.pc)
    case _ => Registered(t.pc) == Registered(pc)
  }

  /** Connections move between the actor's hand, an idle pool and the grave, never elsewhere. */
  predicate HandsRight(s: State, pc: Pc, t: Transition) {
    match t.effect
    case Take(e) => e < |s.idle| && s.idle[e] != [] && Hand(pc).None? && Hand(t.pc) == Some(s.idle[e][0])
    case Put(e, c) => Hand(pc) == Some(c) && Hand(t.pc).None?
    case Dial(c) => c !in s.place && Hand(pc).None? && Hand(t.pc) == Some(c)
    case Shutdown(c) => Hand(pc) == Some(c) && Hand(t.pc).None?
    case _ => Hand(t.pc) == Hand(pc)
  }

  predicate FitsRight(cfg: Config, s: State, pc: Pc, t: Transition)
    requires Sized(cfg, s)
  {
    && (t.effect.Put? ==> t.effect.e < cfg.endpoints && |s.idle[t.effect.e]| < cfg.poolSize)
    && (t.effect.Count? && t.effect.d > 0 ==>
          t.effect.e < cfg.endpoints && pc == Calling(t.effect.e, Cas(s.live[t.effect.e])))
    && (t.pc.Calling? && t.pc.call.Cas? ==> t.pc.call.cur < cfg.poolSize)
    && (t.effect.TakeBack? ==> Donates(pc) && pc.probe.e == t.effect.e && !Donates(t.pc))
    && (Donates(t.pc) ==> t.effect == Donate(t.pc.probe.e) || (Donates(pc) && pc.probe.e == t.pc.probe.e))
  }

  predicate ProbesRight(s: State, pc: Pc, t: Transition) {
    && t.pc.Probing? == pc.Probing?
    && (pc.Probing? ==> !pc.probe.Gone?)
    && (t.effect.ProbeExit? <==> (t.pc.Probing? && t.pc.probe.Gone?))
    && (t.effect.ProbeExit? ==> s.probeCancelled)
    && (t.effect.Cancel? ==> pc == Shutting(CancelProbe))
  }

  predicate ClosesRight(cfg: Config, s: State, pc: Pc, t: Transition) {
    && (t.effect.CloseClient? <==> (WinsClose(t.pc) && !WinsClose(pc)))
    && (t.effect.CloseClient? ==> !s.closed && t.pc == Shutting(Draining(0)) && t.mutex.Lock?)
    && (WinsClose(pc) ==> WinsClose(t.pc) || t.pc.Finished?)
    && (Drains(t.pc) ==> t.effect.CloseClient? || (Drains(pc) && t.mutex.Keep?))
    && (Drains(pc) && Drains(t.pc) ==>
          || t.pc.close.e == pc.close.e
          || (t.pc.close.e == pc.close.e + 1 && pc.close.e < |s.idle| && s.idle[pc.close.e] == [] && t.effect.Nothing?))
    && (Drains(pc) && !Drains(t.pc) ==> pc == Shutting(Draining(cfg.endpoints)) && t.effect.Nothing?)
    && (t.effect.Put? ==> !s.closed || (pc.Probing? && HoldsMutex(pc)))
    && (t.mutex.Lock? ==> !s.closed)
  }

  predicate SessionsRight(s: State, pc: Pc, t: Transition) {
    && (t.effect.CloseSession? <==> pc == Shutting(ReleaseSession))
    && (WinsClose(pc) && t.pc.Finished? ==> t.effect.CloseSession?)
    && (t.effect.CloseSession? ==> t.pc.Finished?)
    && (t.pc == Shutting(AwaitProbe) ==> t.effect.Cancel?)
    && (t.pc == Shutting(AwaitDials) ==> s.probeDone)
    && (t.pc == Shutting(ReleaseSession) ==> pc == Shutting(AwaitDials) && s.inFlight == 0)
    && (t.effect.Register? ==> !s.closed)
  }

  predicate TaintsRight(pc: Pc, t: Transition) {
    && (t.effect.Taint? ==> Hand(pc) == Some(t.effect.c) && CondemnedConn(t.pc))
    && (CondemnedConn(pc) ==> t.effect == Shutdown(pc.call.c))
  }

  predicate NumbersRight(cfg: Config, s: State, pc: Pc, t: Transition)
    requires Sized(cfg, s)
  {
    UnitsRight(pc, t) && DialsRight(pc, t) && FitsRight(cfg, s, pc, t)
  }

  predicate ConnsRight(cfg: Config, s: State, pc: Pc, t: Transition) {
    HandsRight(s, pc, t) && TaintsRight(pc, t) && PcInRange(cfg, t.pc) && EffectInRange(s, t.effect)
  }

  /** What a transition does to the counts and the connections. */
  predicate MovesRight(cfg: Config, s: State, pc: Pc, t: Transition)
    requires Sized(cfg, s)
  {
    NumbersRight(cfg, s, pc, t) && ConnsRight(cfg, s, pc, t)
  }

  /** What a transition does to the mutex, the probe and the shutdown. */
  predicate OrdersRight(cfg: Config, s: State, pc: Pc, t: Transition) {
    LocksRight(s, pc, t) && ProbesRight(s, pc, t) && ClosesRight(cfg, s, pc, t) && SessionsRight(s, pc, t)
  }

  lemma CallerNumbersRight(cfg: Config, s: State, e: nat, at: CallPoint, choice: Choice)
    requires Sized(cfg, s) && e < cfg.endpoints && CallAllowed(s, e, at, choice)
    ensures NumbersRight(cfg, s, Calling(e, at), CallerStep(cfg, s, e, at, choice))
  {
    hide Hand, HandsRight;
  }

  lemma CallerConnsRight(cfg: Config, s: State, e: nat, at: CallPoint, choice: Choice)
    requires Sized(cfg, s) && e < cfg.endpoints && CallAllowed(s, e, at, choice)
    ensures ConnsRight(cfg, s, Calling(e, at), CallerStep(cfg, s, e, at, choice))
  {
    hide Unit, Registered, UnitsRight, Poisons;
  }

  lemma CallerOrdersRight(cfg: Config, s: State, e: nat, at: CallPoint, choice: Choice)
    requires Sized(cfg, s) && e < cfg.endpoints && CallAllowed(s, e, at, choice)
    ensures OrdersRight(cfg, s, Calling(e, at), CallerStep(cfg, s, e, at, choice))
  {
  }

  lemma CloserNumbersRight(cfg: Config, s: State, at: ClosePoint)
    requires Sized(cfg, s) && PcInRange(cfg, Shutting(at)) && CloseAllowed(s, at, Go)
    ensures NumbersRight(cfg, s, Shutting(at), CloserStep(cfg, s, at))
  {
    hide Hand, HandsRight;
  }

  lemma CloserConnsRight(cfg: Config, s: State, at: ClosePoint)
    requires Sized(cfg, s) && PcInRange(cfg, Shutting(at)) && CloseAllowed(s, at, Go)
    ensures ConnsRight(cfg, s, Shutting(at), CloserStep(cfg, s, at))
  {
    hide Unit, Registered, UnitsRight, Poisons;
  }

  lemma CloserOrdersRight(cfg: Config, s: State, at: ClosePoint)
    requires Sized(cfg, s) && PcInRange(cfg, Shutting(at)) && CloseAllowed(s, at, Go)
    ensures OrdersRight(cfg, s, Shutting(at), CloserStep(cfg, s, at))
  {
  }

  lemma ProbeNumbersRight(cfg: Config, s: State, todo: seq<nat>, at: ProbePoint, choice: Choice)
    requires Sized(cfg, s) && PcInRange(cfg, Probing(todo, at)) && ProbeAllowed(cfg, s, at, choice)
    ensures NumbersRight(cfg, s, Probing(todo, at), ProbeStep(cfg, s, todo, at, choice))
  {
    hide Hand, HandsRight;
  }

  lemma ProbeConnsRight(cfg: Config, s: State, todo: seq<nat>, at: ProbePoint, choice: Choice)
    requires Sized(cfg, s) && PcInRange(cfg, Probing(todo, at)) && ProbeAllowed(cfg, s, at, choice)
    ensures ConnsRight(cfg, s, Probing(todo, at), ProbeStep(cfg, s, todo, at, choice))
  {
    hide Unit, Registered, UnitsRight, Poisons;
  }

  lemma ProbeOrdersRight(cfg: Config, s: State, todo: seq<nat>, at: ProbePoint, choice: Choice)
    requires Sized(cfg, s) && PcInRange(cfg, Probing(todo, at)) && ProbeAllowed(cfg, s, at, choice)
    ensures OrdersRight(cfg, s, Probing(todo, at), ProbeStep(cfg, s, todo, at, choice))
  {
  }

  /** Every step of the program is a right transition of one actor. */
  lemma StepIsRight(cfg: Config, s: State, step: Step) returns (t: Transition)
    requires Shape(cfg, s) && Enabled(cfg, s, step)
    ensures Awake(s, step.a)
    ensures MovesRight(cfg, s, PcOf(s, step.a), t) && OrdersRight(cfg, s, PcOf(s, step.a), t)
    ensures Apply(cfg, s, step) == Perform(s, step.a, t)
    ensures step.Move? ==> t == NextOf(cfg, s, s.actors[step.a], step.choice)
    ensures !step.Move? ==> t.effect.Nothing?
  {
    match step
    case StartAcquire(a, e) => t := Quiet(Calling(e, Check));
    case StartClose(a) => t := Quiet(Shutting(Enter));
    case Move(a, choice) =>
      t := NextOf(cfg, s, s.actors[a], choice);
      hide CallerStep, CloserStep, ProbeStep, NumbersRight, ConnsRight, OrdersRight;
        match s.actors[a]
        case Calling(e, at) =>
          CallerNumbersRight(cfg, s, e, at, choice);
          CallerConnsRight(cfg, s, e, at, choice);
          CallerOrdersRight(cfg, s, e, at, choice);
        case Shutting(at) =>
          CloserNumbersRight(cfg, s, at);
          CloserConnsRight(cfg, s, at);
          CloserOrdersRight(cfg, s, at);
        case Probing(todo, at) =>
          ProbeNumbersRight(cfg, s, todo, at, choice);
          ProbeConnsRight(cfg, s, todo, at, choice);
          ProbeOrdersRight(cfg, s, todo, at, choice);
  }

  // ------------------------------------------------------------ preservation, group by group

  lemma KeepsShape(cfg: Config, s: State, a: Actor, t: Transition)
    requires Shape(cfg, s) && PcInRange(cfg, t.pc)
    ensures Shape(cfg, Perform(s, a, t))
  {
  }

  lemma KeepsMutex(s: State, a: Actor, t: Transition)
    requires MutexOk(s) && LocksRight(s, PcOf(s, a), t)
    ensures MutexOk(Perform(s, a, t))
  {
  }

  /** The change of live minus the change of idle is the change of the actor's own unit. */
  lemma UnitsBalance(s: State, a: Actor, t: Transition, e: nat)
    requires EffectInRange(s, t.effect) && UnitsRight(PcOf(s, a), t) && e < |s.live| == |s.idle|
    ensures var live, idle := LiveAfter(s.live, t.effect), IdleAfter(s.idle, t.effect);
            (live[e] - |idle[e]|) - (s.live[e] - |s.idle[e]|)
            == One(Unit(t.pc) == Some(e)) - One(Unit(PcOf(s, a)) == Some(e))
  {
  }

  lemma KeepsCounts(s: State, a: Actor, t: Transition)
    requires |s.live| == |s.idle| && CountsOk(s) && EffectInRange(s, t.effect)
    requires UnitsRight(PcOf(s, a), t) && DialsRight(PcOf(s, a), t)
    ensures CountsOk(Perform(s, a, t))
  {
    var s' := Perform(s, a, t);
    forall e | 0 <= e < |s'.live| ensures s'.live[e] == |s'.idle[e]| + |CountedAt(s'.actors, e)| {
      UnitsBalance(s, a, t, e);
      CountedAfterMove(s.actors, a, t.pc, e);
    }
    RegisteredAfterMove(s.actors, a, t.pc);
  }

  lemma IdleAfterTake(idle: seq<seq<Conn>>, place: map<Conn, Place>, e: nat, a: Actor)
    requires IdleOk(idle, place) && e < |idle| && idle[e] != []
    ensures IdleOk(idle[e := idle[e][1..]], place[idle[e][0] := HeldBy(a)])
  {
  }

  lemma IdleAfterPut(idle: seq<seq<Conn>>, place: map<Conn, Place>, e: nat, c: Conn)
    requires IdleOk(idle, place) && e < |idle| && c in place && place[c].HeldBy?
    ensures IdleOk(idle[e := idle[e] + [c]], place[c := InIdle(e)])
  {
    assert forall f, i :: 0 <= f < |idle| && 0 <= i < |idle[f]| ==> idle[f][i] != c;
  }

  /** A connection that is in no pool goes to a hand or the grave. */
  lemma IdleUntouched(idle: seq<seq<Conn>>, place: map<Conn, Place>, c: Conn, to: Place)
    requires IdleOk(idle, place) && (c in place ==> !place[c].InIdle?) && !to.InIdle?
    ensures IdleOk(idle, place[c := to])
  {
  }

  /** Actor a empties its hand of c. */
  lemma HandsAfterDrop(actors: map<Actor, Pc>, place: map<Conn, Place>, a: Actor, pc: Pc, c: Conn, to: Place)
    requires HandsOk(actors, place) && a in actors && Hand(actors[a]) == Some(c) && Hand(pc).None? && !to.HeldBy?
    ensures HandsOk(actors[a := pc], place[c := to])
  {
  }

  /** Actor a, empty-handed, takes c, which nobody holds. */
  lemma HandsAfterGrab(actors: map<Actor, Pc>, place: map<Conn, Place>, a: Actor, pc: Pc, c: Conn)
    requires HandsOk(actors, place) && (a in actors ==> Hand(actors[a]).None?) && Hand(pc) == Some(c)
    requires c in place ==> !place[c].HeldBy?
    ensures HandsOk(actors[a := pc], place[c := HeldBy(a)])
  {
  }

  lemma HandsUntouched(actors: map<Actor, Pc>, place: map<Conn, Place>, a: Actor, pc: Pc)
    requires HandsOk(actors, place) && Hand(pc) == if a in actors then Hand(actors[a]) else None
    ensures HandsOk(actors[a := pc], place)
  {
  }

  lemma HandIsPlaced(s: State, a: Actor, c: Conn)
    requires PlacesOk(s) && Hand(PcOf(s, a)) == Some(c)
    ensures a in s.actors && c in s.place && s.place[c] == HeldBy(a)
  {
  }

  lemma OldestIsPlaced(s: State, e: nat)
    requires PlacesOk(s) && e < |s.idle| && s.idle[e] != []
    ensures s.idle[e][0] in s.place && s.place[s.idle[e][0]] == InIdle(e)
  {
  }

  lemma PlacesTake(s: State, a: Actor, t: Transition)
    requires PlacesOk(s) && HandsRight(s, PcOf(s, a), t) && t.effect.Take?
    ensures PlacesOk(Perform(s, a, t))
  {
    hide IdleOk, HandsOk, Hand;
    var e := t.effect.e;
    OldestIsPlaced(s, e);
    IdleAfterTake(s.idle, s.place, e, a);
    HandsAfterGrab(s.actors, s.place, a, t.pc, s.idle[e][0]);
  }

  lemma PlacesPut(s: State, a: Actor, t: Transition)
    requires PlacesOk(s) && HandsRight(s, PcOf(s, a), t) && EffectInRange(s, t.effect) && t.effect.Put?
    ensures PlacesOk(Perform(s, a, t))
  {
    hide IdleOk, HandsOk, Hand;
    var e, c := t.effect.e, t.effect.c;
    HandIsPlaced(s, a, c);
    IdleAfterPut(s.idle, s.place, e, c);
    HandsAfterDrop(s.actors, s.place, a, t.pc, c, InIdle(e));
  }

  lemma PlacesDial(s: State, a: Actor, t: Transition)
    requires PlacesOk(s) && HandsRight(s, PcOf(s, a), t) && t.effect.Dial?
    ensures PlacesOk(Perform(s, a, t))
  {
    hide IdleOk, HandsOk, Hand;
    var c := t.effect.c;
    IdleUntouched(s.idle, s.place, c, HeldBy(a));
    HandsAfterGrab(s.actors, s.place, a, t.pc, c);
  }

  lemma PlacesShutdown(s: State, a: Actor, t: Transition)
    requires PlacesOk(s) && HandsRight(s, PcOf(s, a), t) && t.effect.Shutdown?
    ensures PlacesOk(Perform(s, a, t))
  {
    hide IdleOk, HandsOk, Hand;
    var c := t.effect.c;
    HandIsPlaced(s, a, c);
    IdleUntouched(s.idle, s.place, c, Shut);
    HandsAfterDrop(s.actors, s.place, a, t.pc, c, Shut);
  }

  lemma KeepsPlaces(s: State, a: Actor, t: Transition)
    requires PlacesOk(s) && HandsRight(s, PcOf(s, a), t) && EffectInRange(s, t.effect)
    ensures PlacesOk(Perform(s, a, t))
  {
    hide IdleOk, HandsOk, ClosesOk, Hand;
    match t.effect
    case Take(_) => PlacesTake(s, a, t);
    case Put(_, _) => PlacesPut(s, a, t);
    case Dial(_) => PlacesDial(s, a, t);
    case Shutdown(_) => PlacesShutdown(s, a, t);
    case _ => PlacesFrame(s, a, t);
  }

  /** A transition that leaves the connections alone. */
  lemma PlacesFrame(s: State, a: Actor, t: Transition)
    requires PlacesOk(s) && Hand(t.pc) == Hand(PcOf(s, a))
    requires !t.effect.Take? && !t.effect.Put? && !t.effect.Dial? && !t.effect.Shutdown?
    ensures PlacesOk(Perform(s, a, t))
  {
    hide IdleOk, HandsOk, ClosesOk;
    HandsUntouched(s.actors, s.place, a, t.pc);
  }

  lemma KeepsCapacity(cfg: Config, s: State, a: Actor, t: Transition)
    requires Shape(cfg, s) && CapacityOk(cfg, s) && ProbeOk(s)
    requires FitsRight(cfg, s, PcOf(s, a), t) && UnitsRight(PcOf(s, a), t) && ProbesRight(s, PcOf(s, a), t)
    requires PcInRange(cfg, t.pc) && EffectInRange(s, t.effect)
    ensures Shape(cfg, Perform(s, a, t)) && CapacityOk(cfg, Perform(s, a, t))
  {
  }

  lemma KeepsProbe(cfg: Config, s: State, a: Actor, t: Transition)
    requires Shape(cfg, s) && ProbeOk(s) && CloseOk(cfg, s)
    requires ProbesRight(s, PcOf(s, a), t)
    ensures ProbeOk(Perform(s, a, t))
  {
  }

  lemma KeepsClose(cfg: Config, s: State, a: Actor, t: Transition)
    requires Shape(cfg, s) && MutexOk(s) && ProbeOk(s) && CloseOk(cfg, s)
    requires LocksRight(s, PcOf(s, a), t) && ProbesRight(s, PcOf(s, a), t) && ClosesRight(cfg, s, PcOf(s, a), t)
    requires Awake(s, a) && PcInRange(cfg, t.pc)
    ensures Shape(cfg, Perform(s, a, t)) && CloseOk(cfg, Perform(s, a, t))
  {
  }

  lemma KeepsSession(cfg: Config, s: State, a: Actor, t: Transition)
    requires Shape(cfg, s) && CountsOk(s) && CloseOk(cfg, s) && SessionOk(s)
    requires ClosesRight(cfg, s, PcOf(s, a), t) && SessionsRight(s, PcOf(s, a), t) && DialsRight(PcOf(s, a), t)
    requires Awake(s, a)
    ensures SessionOk(Perform(s, a, t))
  {
    RegisteredAfterMove(s.actors, a, t.pc);
  }

  lemma KeepsTaint(s: State, a: Actor, t: Transition)
    requires PlacesOk(s) && TaintOk(s)
    requires HandsRight(s, PcOf(s, a), t) && TaintsRight(PcOf(s, a), t)
    ensures TaintOk(Perform(s, a, t))
  {
  }

  /** Every step keeps the whole invariant. */
  lemma StepKeepsInv(cfg: Config, s: State, step: Step)
    requires Inv(cfg, s) && Enabled(cfg, s, step)
    ensures Inv(cfg, Apply(cfg, s, step))
  {
    var t := StepIsRight(cfg, s, step);
    var a := step.a;
    KeepsShape(cfg, s, a, t);
    KeepsMutex(s, a, t);
    KeepsCounts(s, a, t);
    KeepsPlaces(s, a, t);
    KeepsCapacity(cfg, s, a, t);
    KeepsProbe(cfg, s, a, t);
    KeepsClose(cfg, s, a, t);
    KeepsSession(cfg, s, a, t);
    KeepsTaint(s, a, t);
  }
}
