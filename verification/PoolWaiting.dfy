/** Which steps wake a caller blocked in acquire's last select, and which do not. */
module PoolWaiting {
  import opened Wrappers
  import opened Pool
  import opened PoolInvariant
  import opened PoolSafety

  /** The caller has a move that does not need its own context to end. */
  ghost predicate MovesUnaided(cfg: Config, s: State, w: Actor) {
    w in s.actors && exists choice: Choice :: !choice.ContextDone? && Allowed(cfg, s, s.actors[w], choice)
  }

  /** Caller w waits at endpoint e of an open client with nothing idle there: only its context can move it. */
  ghost predicate Blocked(s: State, w: Actor, e: nat) {
    w in s.actors && s.actors[w] == Calling(e, Waiting) && !s.closed && e < |s.idle| && s.idle[e] == []
  }

  /**
   The step puts a connection into e's pool, or closes the client: a release at e that
   finds room, the probe's send to e that finds room, or the first Close taking the
   mutex.
   */
  predicate Wakes(cfg: Config, s: State, step: Step, e: nat)
    requires Enabled(cfg, s, step) && e < |s.idle|
  {
    step.Move? &&
    match s.actors[step.a]
    case Calling(f, at) => at.Releasing? && f == e && !s.closed && |s.idle[e]| < cfg.poolSize
    case Probing(_, at) => at.Send? && at.e == e && |s.idle[e]| < cfg.poolSize
    case Shutting(at) => at.Enter? && !s.closed
    case Finished => false
  }

  lemma WaiterMovesIff(cfg: Config, s: State, w: Actor, e: nat)
    requires Inv(cfg, s) && w in s.actors && s.actors[w] == Calling(e, Waiting)
    ensures e < |s.idle| && (MovesUnaided(cfg, s, w) <==> s.idle[e] != [] || s.closed)
  {
    hide MutexOk, CountsOk, PlacesOk, CapacityOk, ProbeOk, SessionOk, TaintOk;
    if s.idle[e] != [] {
      assert Allowed(cfg, s, s.actors[w], Receive);
    }
    if s.closed {
      assert Allowed(cfg, s, s.actors[w], SeeClosed);
    }
  }

  /** What the acting program point does to the pool of e and to the client. */
  lemma WakingEffect(cfg: Config, s: State, step: Step, e: nat)
    requires Shape(cfg, s) && Enabled(cfg, s, step) && e < cfg.endpoints
    ensures var t := TransitionOf(cfg, s, step);
            && Apply(cfg, s, step) == Perform(s, step.a, t)
            && (Wakes(cfg, s, step, e) <==> (t.effect.Put? && t.effect.e == e) || t.effect.CloseClient?)
  {
    hide Poisons;
  }

  function TransitionOf(cfg: Config, s: State, step: Step): Transition
    requires Shape(cfg, s) && Enabled(cfg, s, step)
  {
    match step
    case StartAcquire(_, e) => Quiet(Calling(e, Check))
    case StartClose(_) => Quiet(Shutting(Enter))
    case Move(a, choice) => NextOf(cfg, s, s.actors[a], choice)
  }

  lemma EffectOnPool(idle: seq<seq<Conn>>, effect: Effect, e: nat)
    requires e < |idle| && idle[e] == []
    ensures e < |IdleAfter(idle, effect)|
    ensures IdleAfter(idle, effect)[e] != [] <==> effect.Put? && effect.e == e
  {
  }

  /** A blocked caller can move after somebody else's step exactly when the step is one that wakes it. */
  lemma WokenIff(cfg: Config, s: State, w: Actor, e: nat, step: Step)
    requires Inv(cfg, s) && Enabled(cfg, s, step) && Blocked(s, w, e) && step.a != w
    ensures MovesUnaided(cfg, Apply(cfg, s, step), w) <==> Wakes(cfg, s, step, e)
    ensures !Wakes(cfg, s, step, e) ==> Blocked(Apply(cfg, s, step), w, e)
  {
    InvIsSized(cfg, s);
    StepKeepsInv(cfg, s, step);
    hide Inv, MovesUnaided, Wakes, Apply, IdleAfter, TransitionOf;
    var s' := Apply(cfg, s, step);
    StepLeavesActorAlone(cfg, s, step, w);
    WaiterMovesIff(cfg, s', w, e);
    WakingEffect(cfg, s, step, e);
    EffectOnPool(s.idle, TransitionOf(cfg, s, step).effect, e);
  }

  /** No step that makes room, by lowering the endpoint's live count, wakes anybody. */
  lemma MakingRoomWakesNobody(cfg: Config, s: State, w: Actor, e: nat, step: Step)
    requires Inv(cfg, s) && Enabled(cfg, s, step) && Blocked(s, w, e) && step.a != w
    requires e < |s.live| && e < |Apply(cfg, s, step).live| && Apply(cfg, s, step).live[e] < s.live[e]
    ensures !MovesUnaided(cfg, Apply(cfg, s, step), w) && Blocked(Apply(cfg, s, step), w, e)
  {
    InvIsSized(cfg, s);
    hide Inv, Apply, MovesUnaided, Wakes, TransitionOf;
    WakingEffect(cfg, s, step, e);
    WokenIff(cfg, s, w, e, step);
  }

  // ------------------------------------------------------------ over whole runs

  ghost predicate BlockedThroughout(cfg: Config, s: State, steps: seq<Step>, w: Actor)
    requires CanRun(cfg, s, steps)
    decreases |steps|
  {
    !MovesUnaided(cfg, s, w) && (steps != [] ==> BlockedThroughout(cfg, Apply(cfg, s, steps[0]), steps[1..], w))
  }

  ghost predicate NeverWakes(cfg: Config, s: State, steps: seq<Step>, e: nat)
    requires CanRun(cfg, s, steps)
    decreases |steps|
  {
    steps != [] ==>
      && e < |s.idle| && !Wakes(cfg, s, steps[0], e)
      && NeverWakes(cfg, Apply(cfg, s, steps[0]), steps[1..], e)
  }

  /**
   However long the others run: a blocked caller can do nothing but wait for its own
   context throughout, exactly when nobody returns a connection to its endpoint's pool
   and nobody closes the client.
   */
  lemma {:induction false} BlockedThroughoutIff(cfg: Config, s: State, w: Actor, e: nat, steps: seq<Step>)
    requires Inv(cfg, s) && Blocked(s, w, e) && CanRun(cfg, s, steps)
    requires forall i :: 0 <= i < |steps| ==> steps[i].a != w
    ensures BlockedThroughout(cfg, s, steps, w) <==> NeverWakes(cfg, s, steps, e)
    decreases |steps|
  {
    hide Inv, Apply, MovesUnaided, Wakes, Enabled;
    WaiterMovesIff(cfg, s, w, e);
    if steps != [] {
      WokenIff(cfg, s, w, e, steps[0]);
      StepKeepsInv(cfg, s, steps[0]);
      if !Wakes(cfg, s, steps[0], e) {
        BlockedThroughoutIff(cfg, Apply(cfg, s, steps[0]), w, e, steps[1..]);
      } else {
        StillUnmoved(cfg, s, steps, w);
      }
    }
  }

  lemma StillUnmoved(cfg: Config, s: State, steps: seq<Step>, w: Actor)
    requires CanRun(cfg, s, steps) && steps != [] && MovesUnaided(cfg, Apply(cfg, s, steps[0]), w)
    ensures !BlockedThroughout(cfg, s, steps, w)
  {
    hide MovesUnaided, Apply, Enabled;
    assert CanRun(cfg, Apply(cfg, s, steps[0]), steps[1..]);
  }
}
