/**
 What the pool guarantees over whole runs, for any number of callers, any number
 of Close calls and any schedule.
 */
module PoolSafety {
  import opened Wrappers
  import Errors
  import opened Pool
  import opened PoolInvariant

  /** The steps lead from s to s'. */
  ghost predicate Runs(cfg: Config, s: State, steps: seq<Step>, s': State)
    decreases |steps|
  {
    if steps == [] then s == s'
    else Shape(cfg, s) && Enabled(cfg, s, steps[0]) && Runs(cfg, Apply(cfg, s, steps[0]), steps[1..], s')
  }

  ghost predicate Reachable(cfg: Config, s: State) {
    exists e: nat, steps :: e < cfg.endpoints && Runs(cfg, Initial(cfg, e), steps, s)
  }

  lemma {:induction false} RunKeepsInv(cfg: Config, s: State, steps: seq<Step>, s': State)
    requires Inv(cfg, s) && Runs(cfg, s, steps, s')
    ensures Inv(cfg, s')
    decreases |steps|
  {
    if steps != [] {
      StepKeepsInv(cfg, s, steps[0]);
      RunKeepsInv(cfg, Apply(cfg, s, steps[0]), steps[1..], s');
    }
  }

  lemma ReachableInv(cfg: Config, s: State)
    requires cfg.poolSize >= 1 && Reachable(cfg, s)
    ensures Inv(cfg, s)
  {
    var e: nat, steps :| e < cfg.endpoints && Runs(cfg, Initial(cfg, e), steps, s);
    InitialInv(cfg, e);
    RunKeepsInv(cfg, Initial(cfg, e), steps, s);
  }

  // ------------------------------------------------------------ accounting

  /**
   In every reachable state an endpoint's live count is its idle connections
   plus the actors that own a unit of it (a reservation, a loan, a connection
   being closed or offered); idle fits the pool; and live is above the pool size
   by no more than the donations of the probe that the pool has accepted.
   */
  lemma LiveIsAccountedFor(cfg: Config, s: State, e: nat)
    requires cfg.poolSize >= 1 && Reachable(cfg, s) && e < cfg.endpoints
    ensures Sized(cfg, s)
    ensures s.live[e] == |s.idle[e]| + |set a | a in s.actors && Unit(s.actors[a]) == Some(e)|
    ensures |s.idle[e]| <= cfg.poolSize
    ensures s.live[e] <= cfg.poolSize + s.donated[e]
  {
    hide Reachable, MutexOk, PlacesOk, ProbeOk, CloseOk, SessionOk, TaintOk;
    ReachableInv(cfg, s);
    assert CountedAt(s.actors, e) == set a | a in s.actors && Unit(s.actors[a]) == Some(e);
  }

  /**
   No connection is ever in two hands, in a hand and in a pool, twice in a pool
   or in two pools; one in a hand or a pool has not been closed; and none is
   closed twice.
   */
  lemma ConnectionsAreExclusive(cfg: Config, s: State)
    requires cfg.poolSize >= 1 && Reachable(cfg, s)
    ensures forall a, b ::
              (a in s.actors && b in s.actors && Hand(s.actors[a]).Some? && Hand(s.actors[a]) == Hand(s.actors[b])) ==>
                a == b
    ensures forall a, e :: a in s.actors && Hand(s.actors[a]).Some? && 0 <= e < |s.idle| ==>
                             Hand(s.actors[a]).value !in s.idle[e]
    ensures forall e, i, j :: 0 <= e < |s.idle| && 0 <= i < j < |s.idle[e]| ==> s.idle[e][i] != s.idle[e][j]
    ensures forall e, f, c :: 0 <= e < f < |s.idle| && c in s.idle[e] ==> c !in s.idle[f]
    ensures forall a :: a in s.actors && Hand(s.actors[a]).Some? ==>
                          Hand(s.actors[a]).value in s.closes && s.closes[Hand(s.actors[a]).value] == 0
    ensures forall e, c :: 0 <= e < |s.idle| && c in s.idle[e] ==> c in s.closes && s.closes[c] == 0
    ensures forall c :: c in s.closes ==> s.closes[c] <= 1
  {
    hide Reachable, MutexOk, CountsOk, CapacityOk, ProbeOk, CloseOk, SessionOk, TaintOk;
    ReachableInv(cfg, s);
  }

  // ------------------------------------------------------------ the pool size

  ghost predicate WithinPoolSize(cfg: Config, s: State)
    requires Sized(cfg, s)
  {
    forall e :: 0 <= e < cfg.endpoints ==> s.live[e] <= cfg.poolSize
  }

  /** The probe about to count a donation to an endpoint that is already at the maximum. */
  ghost predicate OverDonates(cfg: Config, s: State, step: Step)
    requires Shape(cfg, s) && Enabled(cfg, s, step)
  {
    && step.Move? && s.actors[step.a].Probing? && s.actors[step.a].probe.Offer?
    && !s.closed && s.live[s.actors[step.a].probe.e] == cfg.poolSize
  }

  lemma DonationIsFromOffer(cfg: Config, s: State, pc: Pc, choice: Choice)
    requires Sized(cfg, s) && PcInRange(cfg, pc) && Allowed(cfg, s, pc, choice)
    ensures var f := NextOf(cfg, s, pc, choice).effect;
            if pc.Probing? && pc.probe.Offer? && !s.closed then f == Donate(pc.probe.e) else !f.Donate?
  {
  }

  /**
   WithPoolSize calls its argument the maximum number of pooled connections per
   endpoint. A step keeps live within it exactly when the step is not a probe
   donation to an endpoint that is already at the maximum.
   */
  lemma PoolSizeKeptIff(cfg: Config, s: State, step: Step)
    requires Inv(cfg, s) && Enabled(cfg, s, step) && WithinPoolSize(cfg, s)
    ensures Sized(cfg, Apply(cfg, s, step))
    ensures WithinPoolSize(cfg, Apply(cfg, s, step)) <==> !OverDonates(cfg, s, step)
  {
    var t := StepIsRight(cfg, s, step);
    if step.Move? {
      DonationIsFromOffer(cfg, s, s.actors[step.a], step.choice);
    }
    DonationDecides(cfg, s, t, PcOf(s, step.a));
  }

  lemma DonationDecides(cfg: Config, s: State, t: Transition, pc: Pc)
    requires Sized(cfg, s) && WithinPoolSize(cfg, s) && EffectInRange(s, t.effect)
    requires UnitsRight(pc, t) && FitsRight(cfg, s, pc, t)
    requires pc.Calling? && pc.call.Cas? ==> pc.call.cur < cfg.poolSize
    ensures (forall e :: 0 <= e < cfg.endpoints ==> LiveAfter(s.live, t.effect)[e] <= cfg.poolSize) <==>
            !(t.effect.Donate? && s.live[t.effect.e] == cfg.poolSize)
  {
    if t.effect.Donate? {
      assert LiveAfter(s.live, t.effect)[t.effect.e] == s.live[t.effect.e] + 1;
    }
  }

  // ------------------------------------------------------------ Close

  /** The steps can be taken one after another. */
  ghost predicate CanRun(cfg: Config, s: State, steps: seq<Step>)
    decreases |steps|
  {
    steps != [] ==> Shape(cfg, s) && Enabled(cfg, s, steps[0]) && CanRun(cfg, Apply(cfg, s, steps[0]), steps[1..])
  }

  ghost predicate WithinThroughout(cfg: Config, s: State, steps: seq<Step>)
    requires CanRun(cfg, s, steps)
    decreases |steps|
  {
    && Sized(cfg, s) && WithinPoolSize(cfg, s)
    && (steps != [] ==> WithinThroughout(cfg, Apply(cfg, s, steps[0]), steps[1..]))
  }

  ghost predicate NeverOverDonates(cfg: Config, s: State, steps: seq<Step>)
    requires CanRun(cfg, s, steps)
    decreases |steps|
  {
    steps != [] ==> !OverDonates(cfg, s, steps[0]) && NeverOverDonates(cfg, Apply(cfg, s, steps[0]), steps[1..])
  }

  lemma {:induction false} WithinThroughoutIff(cfg: Config, s: State, steps: seq<Step>)
    requires Inv(cfg, s) && WithinPoolSize(cfg, s) && CanRun(cfg, s, steps)
    ensures WithinThroughout(cfg, s, steps) <==> NeverOverDonates(cfg, s, steps)
    decreases |steps|
  {
    hide Inv, WithinPoolSize, OverDonates, Apply, Enabled;
    assert Sized(cfg, s) by {
      InvIsSized(cfg, s);
    }
    if steps != [] {
      StepKeepsInv(cfg, s, steps[0]);
      PoolSizeKeptIff(cfg, s, steps[0]);
      if !OverDonates(cfg, s, steps[0]) {
        WithinThroughoutIff(cfg, Apply(cfg, s, steps[0]), steps[1..]);
      }
    }
  }

  lemma InvIsSized(cfg: Config, s: State)
    requires Inv(cfg, s)
    ensures Shape(cfg, s)
  {
  }

  /** Over whole runs from New: live stays within the pool size exactly when no step over-donates. */
  lemma PoolSizeKeptThroughoutIff(cfg: Config, e: nat, steps: seq<Step>)
    requires cfg.poolSize >= 1 && e < cfg.endpoints && CanRun(cfg, Initial(cfg, e), steps)
    ensures WithinThroughout(cfg, Initial(cfg, e), steps) <==> NeverOverDonates(cfg, Initial(cfg, e), steps)
  {
    InitialInv(cfg, e);
    hide Inv;
    WithinThroughoutIff(cfg, Initial(cfg, e), steps);
  }

  /** Close's critical section has ended. */
  ghost predicate DrainDone(s: State) {
    s.closed && forall a :: a in s.actors ==> !Drains(s.actors[a])
  }

  lemma DrainDoneIsStable(cfg: Config, s: State, step: Step)
    requires Inv(cfg, s) && Enabled(cfg, s, step) && DrainDone(s)
    ensures DrainDone(Apply(cfg, s, step))
  {
    var t := StepIsRight(cfg, s, step);
  }

  /** Once Close's critical section has ended, every pool is empty, then and forever after. */
  lemma {:induction false} PoolsStayEmptyAfterClose(cfg: Config, s: State, steps: seq<Step>, s': State)
    requires Inv(cfg, s) && DrainDone(s) && Runs(cfg, s, steps, s')
    ensures DrainDone(s') && forall e :: 0 <= e < |s'.idle| ==> s'.idle[e] == []
    decreases |steps|
  {
    if steps != [] {
      StepKeepsInv(cfg, s, steps[0]);
      DrainDoneIsStable(cfg, s, steps[0]);
      PoolsStayEmptyAfterClose(cfg, Apply(cfg, s, steps[0]), steps[1..], s');
    }
  }

  ghost predicate AllFinished(s: State) {
    forall a :: a in s.actors ==> Terminal(s.actors[a])
  }

  /**
   However Close interleaves with the callers and the probe: when everybody has
   finished, live is 0 on every endpoint and every connection ever dialed has
   been closed exactly once.
   */
  lemma NothingLeaksAfterClose(cfg: Config, s: State)
    requires cfg.poolSize >= 1 && Reachable(cfg, s) && s.closed && AllFinished(s)
    ensures Sized(cfg, s) && forall e :: 0 <= e < cfg.endpoints ==> s.live[e] == 0 && s.idle[e] == []
    ensures forall c :: c in s.place ==> c in s.closes && s.closes[c] == 1
  {
    hide Reachable, CapacityOk, SessionOk, TaintOk;
    ReachableInv(cfg, s);
    assert s.mu.None?;
    forall e | 0 <= e < cfg.endpoints ensures s.live[e] == 0 && s.idle[e] == [] {
      assert CountedAt(s.actors, e) == {};
    }
  }

  /** A move that needs neither a context to expire nor the probe's ticker to fire. */
  ghost predicate CanMove(cfg: Config, s: State, a: Actor) {
    exists choice: Choice :: !choice.ContextDone? && !choice.Tick? && a in s.actors && Allowed(cfg, s, s.actors[a], choice)
  }

  /** Outside the waits, an actor can always move once the mutex is free. */
  lemma FreeActorMoves(cfg: Config, s: State, a: Actor)
    requires Inv(cfg, s) && s.mu.None? && s.closed && a in s.actors && !Terminal(s.actors[a])
    requires s.actors[a].Shutting? && s.actors[a].close.AwaitDials? ==> s.inFlight == 0
    requires s.actors[a].Shutting? && (s.actors[a].close.AwaitProbe? || s.actors[a].close.AwaitProbeOnly?) ==> s.probeDone
    requires s.actors[a].Probing? && s.actors[a].probe.Select? ==> s.probeCancelled
    ensures CanMove(cfg, s, a)
  {
    var choice :=
      match s.actors[a]
      case Calling(_, at) =>
        (match at
         case Dialing => DialError
         case Waiting => SeeClosed
         case Loaned(_) => CallReturned(None)
         case _ => Go)
      case Shutting(_) => Go
      case Probing(_, at) =>
        (match at case Select => Cancelled case ProbeDial(_) => DialError case AskStatus(_, _) => Status(true) case _ => Go)
      case Finished => Go;
    assert Allowed(cfg, s, s.actors[a], choice);
  }

  /**
   A shutdown is never stuck: in every reachable state of a closed client in which
   somebody has not finished, somebody can move without waiting for a context or a
   tick. So Close's waits (mutex, probe, dials) cannot deadlock.
   */
  lemma ShutdownIsNeverStuck(cfg: Config, s: State) returns (a: Actor)
    requires cfg.poolSize >= 1 && Reachable(cfg, s) && s.closed && !AllFinished(s)
    ensures CanMove(cfg, s, a)
  {
    hide Reachable, PlacesOk, CapacityOk, TaintOk;
    ReachableInv(cfg, s);
    var w := s.winner.value;
    if s.mu.Some? {
      a := s.mu.value;
      assert Allowed(cfg, s, s.actors[a], Go);
    } else if s.actors[w] == Shutting(AwaitProbe) && !s.probeDone {
      a := PROBE;
      FreeActorMoves(cfg, s, a);
    } else if s.actors[w] == Shutting(AwaitDials) && s.inFlight > 0 {
      a :| a in RegisteredIn(s.actors);
      FreeActorMoves(cfg, s, a);
    } else if !s.actors[w].Finished? {
      a := w;
      FreeActorMoves(cfg, s, a);
    } else {
      a :| a in s.actors && !Terminal(s.actors[a]);
      FreeActorMoves(cfg, s, a);
    }
  }

  /** Without a Close, callers that have finished leave exactly the idle connections alive. */
  lemma IdleIsAllThatIsLive(cfg: Config, s: State, e: nat)
    requires cfg.poolSize >= 1 && Reachable(cfg, s) && e < cfg.endpoints
    requires Resting(s)
    ensures Sized(cfg, s) && s.live[e] == |s.idle[e]| <= cfg.poolSize
    ensures s.closes.Keys == s.place.Keys
    ensures forall c :: c in s.place ==>
                          if s.closes[c] == 0 then exists f :: 0 <= f < |s.idle| && c in s.idle[f] else s.closes[c] == 1
  {
    hide Reachable, Inv;
    ReachableInv(cfg, s);
    RestingCounts(cfg, s, e);
    RestingPlaces(cfg, s);
  }

  predicate Resting(s: State) {
    forall a :: a in s.actors ==> s.actors[a].Finished? || s.actors[a] == Probing([], Select)
  }

  lemma RestingCounts(cfg: Config, s: State, e: nat)
    requires Inv(cfg, s) && e < cfg.endpoints && Resting(s)
    ensures Sized(cfg, s) && s.live[e] == |s.idle[e]| <= cfg.poolSize
  {
    hide MutexOk, PlacesOk, ProbeOk, CloseOk, SessionOk, TaintOk;
    assert CountedAt(s.actors, e) == {};
  }

  lemma RestingPlaces(cfg: Config, s: State)
    requires Inv(cfg, s) && Resting(s)
    ensures s.closes.Keys == s.place.Keys
    ensures forall c :: c in s.place ==>
                          if s.closes[c] == 0 then exists f :: 0 <= f < |s.idle| && c in s.idle[f] else s.closes[c] == 1
  {
    hide MutexOk, CountsOk, CapacityOk, ProbeOk, CloseOk, SessionOk, TaintOk;
  }

  // ------------------------------------------------------------ the Kerberos session

  /** The session is released at most once, and from then on nothing that could read it is running. */
  lemma SessionReleasedSafely(cfg: Config, s: State)
    requires cfg.poolSize >= 1 && Reachable(cfg, s)
    ensures s.sessionCloses <= 1
    ensures s.sessionCloses == 1 ==> s.closed && s.probeDone
    ensures s.sessionCloses == 1 ==> forall a :: a in s.actors ==> !UsesSession(s.actors[a])
  {
    hide Reachable, MutexOk, PlacesOk, CapacityOk, TaintOk;
    ReachableInv(cfg, s);
    if s.sessionCloses == 1 {
      forall a | a in s.actors ensures !UsesSession(s.actors[a]) {
        assert a !in RegisteredIn(s.actors);
      }
    }
  }

  /** The step that releases it is taken in a state with no dial in flight and the probe gone. */
  lemma SessionReleaseIsLast(cfg: Config, s: State, step: Step)
    requires Inv(cfg, s) && Enabled(cfg, s, step)
    requires Apply(cfg, s, step).sessionCloses != s.sessionCloses
    ensures s.inFlight == 0 && s.probeDone && s.closed && s.sessionCloses == 0
    ensures forall e :: 0 <= e < |s.idle| ==> s.idle[e] == []
  {
    hide PlacesOk, CapacityOk, TaintOk, MovesRight, NextOf;
    var t := StepIsRight(cfg, s, step);
    assert s.actors[step.a] == Shutting(ReleaseSession);
    assert s.winner == Some(step.a);
  }

  /** A Close that won and finished has released the session. */
  lemma FinishedCloseReleased(cfg: Config, s: State)
    requires cfg.poolSize >= 1 && Reachable(cfg, s) && s.closed && AllFinished(s)
    ensures s.sessionCloses == 1
  {
    hide Reachable, PlacesOk, CountsOk, CapacityOk, TaintOk;
    ReachableInv(cfg, s);
  }

  // ------------------------------------------------------------ clean pools

  lemma {:induction false} TaintIsForever(cfg: Config, s: State, steps: seq<Step>, s': State)
    requires Runs(cfg, s, steps, s')
    ensures s.tainted <= s'.tainted
    decreases |steps|
  {
    if steps != [] {
      TaintIsForever(cfg, Apply(cfg, s, steps[0]), steps[1..], s');
    }
  }

  lemma TaintedIsOutOfUse(cfg: Config, s: State, c: Conn)
    requires Inv(cfg, s) && c in s.tainted
    ensures forall e :: 0 <= e < |s.idle| ==> c !in s.idle[e]
    ensures forall b :: b in s.actors && s.actors[b].Calling? ==> s.actors[b].call != Loaned(c)
  {
    forall b | b in s.actors && s.actors[b].Calling? ensures s.actors[b].call != Loaned(c) {
      if s.actors[b].call.Loaned? {
        assert s.place[Hand(s.actors[b]).value] == HeldBy(b);
      }
    }
  }

  lemma FailedCallTaints(cfg: Config, s: State, a: Actor, err: Errors.Err)
    requires Shape(cfg, s) && Enabled(cfg, s, Move(a, CallReturned(Some(err))))
    requires Errors.Classify(err) == Errors.Unavailable || Errors.IsProtocolError(err)
    ensures Hand(s.actors[a]).Some?
    ensures Hand(s.actors[a]).value in Apply(cfg, s, Move(a, CallReturned(Some(err)))).tainted
  {
    hide Errors.Classify, Errors.IsProtocolError;
  }

  /**
   After a call on a connection returned an error that classifies as unavailable
   or is a protocol error, the connection is never idle and never on loan again.
   */
  lemma FailedConnIsNeverReused(cfg: Config, s: State, a: Actor, err: Errors.Err, steps: seq<Step>, s': State)
    requires Inv(cfg, s) && Enabled(cfg, s, Move(a, CallReturned(Some(err))))
    requires Errors.Classify(err) == Errors.Unavailable || Errors.IsProtocolError(err)
    requires Runs(cfg, Apply(cfg, s, Move(a, CallReturned(Some(err)))), steps, s')
    ensures Hand(s.actors[a]).Some?
    ensures var c := Hand(s.actors[a]).value;
            && (forall e :: 0 <= e < |s'.idle| ==> c !in s'.idle[e])
            && (forall b :: b in s'.actors && s'.actors[b].Calling? ==> s'.actors[b].call != Loaned(c))
  {
    var step := Move(a, CallReturned(Some(err)));
    FailedCallTaints(cfg, s, a, err);
    StepKeepsInv(cfg, s, step);
    var s1 := Apply(cfg, s, step);
    RunKeepsInv(cfg, s1, steps, s');
    TaintIsForever(cfg, s1, steps, s');
    TaintedIsOutOfUse(cfg, s', Hand(s.actors[a]).value);
  }

  /** A release's own unit of live is not idle, so a pool within its size has room for it. */
  lemma ReleaseFindsRoom(cfg: Config, s: State, a: Actor, e: nat, c: Conn)
    requires Inv(cfg, s) && e < cfg.endpoints && s.live[e] <= cfg.poolSize
    requires a in s.actors && s.actors[a] == Calling(e, Releasing(c))
    ensures |s.idle[e]| < cfg.poolSize && c in s.closes && s.closes[c] == 0
  {
    hide MutexOk, ProbeOk, CloseOk, SessionOk, TaintOk;
    assert Hand(s.actors[a]) == Some(c);
    assert a in CountedAt(s.actors, e);
  }

  /** The connection is back in the pool, open, and the caller is done. */
  ghost predicate Pooled(s: State, a: Actor, e: nat, c: Conn, s': State)
    requires e < |s.idle|
  {
    && s'.idle == s.idle[e := s.idle[e] + [c]] && s'.actors == s.actors[a := Finished]
    && s'.live == s.live && s'.closes == s.closes && c in s.closes && s.closes[c] == 0
  }

  lemma PutPools(cfg: Config, s: State, a: Actor, e: nat, c: Conn)
    requires Shape(cfg, s) && Enabled(cfg, s, Move(a, Go)) && e < cfg.endpoints && !s.closed
    requires s.actors[a] == Calling(e, Releasing(c)) && |s.idle[e]| < cfg.poolSize && c in s.closes && s.closes[c] == 0
    ensures Pooled(s, a, e, c, Apply(cfg, s, Move(a, Go)))
  {
    var t := CallerStep(cfg, s, e, Releasing(c), Go);
    assert t == To(Finished, Put(e, c), Keep);
    assert Apply(cfg, s, Move(a, Go)) == Perform(s, a, t);
  }

  /**
   A release never finds its pool full unless the probe overfilled it: on an open
   client whose endpoint is within the pool size, the connection goes back to the pool,
   open, and live does not change.
   */
  lemma ReleasedConnIsPooled(cfg: Config, s: State, a: Actor, e: nat, c: Conn)
    requires cfg.poolSize >= 1 && Reachable(cfg, s) && Sized(cfg, s) && e < cfg.endpoints
    requires a in s.actors && s.actors[a] == Calling(e, Releasing(c)) && Enabled(cfg, s, Move(a, Go))
    requires !s.closed && s.live[e] <= cfg.poolSize
    ensures Shape(cfg, s) && Pooled(s, a, e, c, Apply(cfg, s, Move(a, Go)))
  {
    hide Reachable, Apply, Enabled, Inv, Pooled;
    ReachableInv(cfg, s);
    InvIsSized(cfg, s);
    ReleaseFindsRoom(cfg, s, a, e, c);
    PutPools(cfg, s, a, e, c);
  }

  /** An actor stays where it is while others move. */
  lemma {:induction false} OthersLeaveActorAlone(cfg: Config, s: State, steps: seq<Step>, s': State, a: Actor)
    requires Runs(cfg, s, steps, s') && a in s.actors && forall i :: 0 <= i < |steps| ==> steps[i].a != a
    ensures a in s'.actors && s'.actors[a] == s.actors[a]
    decreases |steps|
  {
    if steps != [] {
      StepLeavesActorAlone(cfg, s, steps[0], a);
      OthersLeaveActorAlone(cfg, Apply(cfg, s, steps[0]), steps[1..], s', a);
    }
  }

  lemma StepLeavesActorAlone(cfg: Config, s: State, step: Step, a: Actor)
    requires Shape(cfg, s) && Enabled(cfg, s, step) && a in s.actors && step.a != a
    ensures a in Apply(cfg, s, step).actors && Apply(cfg, s, step).actors[a] == s.actors[a]
  {
    hide NextOf;
  }

  /** The call succeeded, or failed in a way that leaves the connection usable. */
  predicate Orderly(err: Option<Errors.Err>) {
    err.Some? ==> Errors.Classify(err.value) != Errors.Unavailable && !Errors.IsProtocolError(err.value)
  }

  lemma AnswerReleases(cfg: Config, s: State, a: Actor, err: Option<Errors.Err>)
    requires Shape(cfg, s) && Enabled(cfg, s, Move(a, CallReturned(err))) && Orderly(err)
    ensures s.actors[a].Calling? && s.actors[a].call.Loaned?
    ensures Apply(cfg, s, Move(a, CallReturned(err))).actors
         == s.actors[a := Calling(s.actors[a].e, Releasing(s.actors[a].call.c))]
  {
    hide Errors.Classify, Errors.IsProtocolError;
  }

  /**
   An answer, however unwelcome, does not cost the connection. Whatever the others do
   between the call's return and its release: if the client is then open and the
   endpoint within the pool size, the connection ends idle and unclosed.
   */
  lemma AnsweredConnIsPooled(
    cfg: Config, s: State, a: Actor, err: Option<Errors.Err>, e: nat, c: Conn, steps: seq<Step>, s': State)
    requires Inv(cfg, s) && Enabled(cfg, s, Move(a, CallReturned(err))) && Orderly(err)
    requires s.actors[a] == Calling(e, Loaned(c))
    requires Runs(cfg, Apply(cfg, s, Move(a, CallReturned(err))), steps, s')
    requires forall i :: 0 <= i < |steps| ==> steps[i].a != a
    requires !s'.closed && s'.mu.None? && Sized(cfg, s') && e < cfg.endpoints && s'.live[e] <= cfg.poolSize
    ensures Shape(cfg, s') && Enabled(cfg, s', Move(a, Go)) && Pooled(s', a, e, c, Apply(cfg, s', Move(a, Go)))
  {
    hide Apply, Inv, Pooled, Runs, Orderly;
    InvIsSized(cfg, s);
    AnswerReleases(cfg, s, a, err);
    var s1 := Apply(cfg, s, Move(a, CallReturned(err)));
    StepKeepsInv(cfg, s, Move(a, CallReturned(err)));
    RunKeepsInv(cfg, s1, steps, s');
    OthersLeaveActorAlone(cfg, s1, steps, s', a);
    InvIsSized(cfg, s');
    ReleaseFindsRoom(cfg, s', a, e, c);
    PutPools(cfg, s', a, e, c);
  }
}
