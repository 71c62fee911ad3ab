/**
 A shutdown ends. Once the client is closed, the actors already there can take only
 so many more steps, whatever they choose, as long as the probe's ticker is quiet; and
 when none of them can move they have all finished.
 */
module PoolShutdown {
  import opened Wrappers
  import opened Pool
  import opened PoolInvariant
  import opened PoolSafety

  // ------------------------------------------------------------ what is left to do

  /**
   What an actor still has to do. Each change it will make to a live count weighs k
   more, because that change sends callers between their load and their
   compare-and-swap back to the load; such a caller weighs 2 more.
   */
  function CallWeight(live: seq<int>, k: nat, e: nat, at: CallPoint): nat {
    match at
    case Check => 1
    case TryIdle => 10 + k + k
    case Load => 9 + k + k
    case Cas(cur) => (if e < |live| && live[e] == cur then 8 else 10) + k + k
    case Reserve => 7 + k
    case Dialing => 6 + k
    case Dialed(_) => 5 + k
    case DialFailed => 2 + k
    case Waiting => 5 + k
    case Loaned(_) => 4 + k
    case Releasing(_) => 3 + k
    case Closing(_) => 2 + k
    case Uncount => 1 + k
  }

  function CloseWeight(endpoints: nat, k: nat, at: ClosePoint): nat {
    match at
    case Enter => 2
    case AwaitProbeOnly => 1
    case Draining(e) => 5 + Left(endpoints, e)
    case DrainClosing(e, _) => 7 + Left(endpoints, e) + k
    case DrainUncount(e) => 6 + Left(endpoints, e) + k
    case CancelProbe => 4
    case AwaitProbe => 3
    case AwaitDials => 2
    case ReleaseSession => 1
  }

  function Left(endpoints: nat, e: nat): nat { if e <= endpoints then endpoints - e else 0 }

  function ProbeWeight(k: nat, todo: seq<nat>, at: ProbePoint): nat {
    match at
    case Gone => 0
    case Select => 1
    case Sweep => 2 + 6 * |todo|
    case ProbeDial(_) => 7 + 6 * |todo|
    case AskStatus(_, _) => 6 + 6 * |todo|
    case Offer(_, _) => 5 + 6 * |todo|
    case Send(_, _) => 5 + 6 * |todo| + k
    case CloseRejected(_, _) => 4 + 6 * |todo| + k
    case UncountRejected(_) => 3 + 6 * |todo| + k
    case CloseFailed(_) => 3 + 6 * |todo|
  }

  function Weight(endpoints: nat, live: seq<int>, k: nat, pc: Pc): nat {
    match pc
    case Calling(e, at) => CallWeight(live, k, e, at)
    case Shutting(at) => CloseWeight(endpoints, k, at)
    case Probing(todo, at) => ProbeWeight(k, todo, at)
    case Finished => 0
  }

  /** The weights of actors 0 to n - 1. */
  function Total(endpoints: nat, live: seq<int>, k: nat, actors: map<Actor, Pc>, n: nat): nat {
    if n == 0 then 0
    else Total(endpoints, live, k, actors, n - 1) + if n - 1 in actors then Weight(endpoints, live, k, actors[n - 1]) else 0
  }

  /** An idle connection waits to be drained: three steps, one of them a change to a live count. */
  function IdleWeight(k: nat, idle: seq<seq<Conn>>): nat {
    if idle == [] then 0 else IdleWeight(k, idle[..|idle| - 1]) + ConnsWeight(k, idle[|idle| - 1])
  }

  function ConnsWeight(k: nat, conns: seq<Conn>): nat {
    if conns == [] then 0 else ConnsWeight(k, conns[1..]) + 3 + k
  }

  /** A bound on the steps left, for actors with ids below n. */
  function Measure(cfg: Config, s: State, n: nat): nat {
    var k := 2 * n + 1;
    Total(cfg.endpoints, s.live, k, s.actors, n) + IdleWeight(k, s.idle)
  }

  // ------------------------------------------------------------ how the sums change

  /** Changing live adds at most 2 to an actor's weight. */
  lemma WeightAfterCount(endpoints: nat, live: seq<int>, live': seq<int>, k: nat, pc: Pc)
    ensures Weight(endpoints, live', k, pc) <= Weight(endpoints, live, k, pc) + 2
  {
  }

  lemma {:induction false} TotalAfterMove(
    endpoints: nat, live: seq<int>, k: nat, actors: map<Actor, Pc>, a: Actor, pc: Pc, n: nat)
    requires a in actors
    ensures Total(endpoints, live, k, actors[a := pc], n)
         == Total(endpoints, live, k, actors, n) +
            if a < n then Weight(endpoints, live, k, pc) - Weight(endpoints, live, k, actors[a]) else 0
  {
    hide Weight;
    if n > 0 {
      TotalAfterMove(endpoints, live, k, actors, a, pc, n - 1);
    }
  }

  /** A change of live adds at most 2 for each of the others. */
  lemma {:induction false} OthersAfterCount(
    endpoints: nat, live: seq<int>, live': seq<int>, k: nat, actors: map<Actor, Pc>, a: Actor, n: nat)
    requires a in actors
    ensures Total(endpoints, live', k, actors, n) - (if a < n then Weight(endpoints, live', k, actors[a]) else 0)
         <= Total(endpoints, live, k, actors, n) - (if a < n then Weight(endpoints, live, k, actors[a]) else 0) + 2 * n
  {
    hide Weight;
    if n > 0 {
      OthersAfterCount(endpoints, live, live', k, actors, a, n - 1);
      if n - 1 in actors {
        WeightAfterCount(endpoints, live, live', k, actors[n - 1]);
      }
    }
  }

  lemma {:induction false} IdleAfterTakeWeighs(k: nat, idle: seq<seq<Conn>>, e: nat)
    requires e < |idle| && idle[e] != []
    ensures IdleWeight(k, idle) == IdleWeight(k, idle[e := idle[e][1..]]) + 3 + k
    decreases |idle|
  {
    var last := |idle| - 1;
    var after := idle[e := idle[e][1..]];
    if e == last {
      assert after[..last] == idle[..last];
    } else {
      IdleAfterTakeWeighs(k, idle[..last], e);
      assert after[..last] == idle[..last][e := idle[e][1..]];
    }
  }

  // ------------------------------------------------------------ every step takes weight off

  /** What a transition of a closed client costs: the actor's old weight pays for all of it. */
  predicate Pays(cfg: Config, s: State, k: nat, pc: Pc, t: Transition) {
    var before, after := Weight(cfg.endpoints, s.live, k, pc), Weight(cfg.endpoints, LiveAfter(s.live, t.effect), k, t.pc);
    if t.effect.Count? || t.effect.TakeBack? then after + k < before
    else if t.effect.Take? then after < before + 3 + k
    else !t.effect.Put? && !t.effect.Donate? && after < before
  }

  lemma CallerPays(cfg: Config, s: State, k: nat, e: nat, at: CallPoint, choice: Choice)
    requires Sized(cfg, s) && e < cfg.endpoints && CallAllowed(s, e, at, choice) && s.closed
    ensures Pays(cfg, s, k, Calling(e, at), CallerStep(cfg, s, e, at, choice))
  {
    hide Poisons;
  }

  lemma CloserPays(cfg: Config, s: State, k: nat, at: ClosePoint)
    requires Sized(cfg, s) && PcInRange(cfg, Shutting(at)) && CloseAllowed(s, at, Go) && s.closed
    ensures Pays(cfg, s, k, Shutting(at), CloserStep(cfg, s, at))
  {
  }

  lemma ProbePays(cfg: Config, s: State, k: nat, todo: seq<nat>, at: ProbePoint, choice: Choice)
    requires Sized(cfg, s) && PcInRange(cfg, Probing(todo, at)) && ProbeAllowed(cfg, s, at, choice) && s.closed
    requires !choice.Tick? && !at.Send?
    ensures Pays(cfg, s, k, Probing(todo, at), ProbeStep(cfg, s, todo, at, choice))
  {
  }

  /** A closed client's probe is not inside its send: it would hold the mutex Close took. */
  lemma ProbeIsNotSending(cfg: Config, s: State, a: Actor)
    requires Inv(cfg, s) && s.closed && a in s.actors
    ensures !(s.actors[a].Probing? && s.actors[a].probe.Send?)
  {
    hide CountsOk, PlacesOk, CapacityOk, SessionOk, TaintOk;
  }

  lemma MovePays(cfg: Config, s: State, k: nat, a: Actor, choice: Choice)
    requires Inv(cfg, s) && s.closed && Enabled(cfg, s, Move(a, choice)) && !choice.Tick?
    ensures Shape(cfg, s) && Pays(cfg, s, k, s.actors[a], NextOf(cfg, s, s.actors[a], choice))
  {
    InvIsSized(cfg, s);
    ProbeIsNotSending(cfg, s, a);
    hide Inv, Pays, CallerStep, CloserStep, ProbeStep;
    match s.actors[a]
    case Calling(e, at) => CallerPays(cfg, s, k, e, at, choice);
    case Shutting(at) => CloserPays(cfg, s, k, at);
    case Probing(todo, at) => ProbePays(cfg, s, k, todo, at, choice);
  }

  lemma PaidStepDrops(cfg: Config, s: State, a: Actor, t: Transition, n: nat)
    requires a in s.actors && a < n && EffectInRange(s, t.effect) && Pays(cfg, s, 2 * n + 1, s.actors[a], t)
    ensures Measure(cfg, Perform(s, a, t), n) < Measure(cfg, s, n)
  {
    hide Weight, Total, IdleWeight, ConnsWeight;
    var k, live := 2 * n + 1, LiveAfter(s.live, t.effect);
    TotalAfterMove(cfg.endpoints, live, k, s.actors, a, t.pc, n);
    if t.effect.Take? {
      IdleAfterTakeWeighs(k, s.idle, t.effect.e);
    }
    OthersAfterCount(cfg.endpoints, s.live, live, k, s.actors, a, n);
  }

  // ------------------------------------------------------------ runs

  /** The steps of actors already there, with the probe's ticker quiet. */
  predicate Winding(step: Step) { step.Move? && !step.choice.Tick? }

  ghost predicate Below(s: State, n: nat) { forall a :: a in s.actors ==> a < n }

  lemma StepDrops(cfg: Config, s: State, step: Step, n: nat)
    requires Inv(cfg, s) && s.closed && Enabled(cfg, s, step) && Winding(step) && Below(s, n)
    ensures Shape(cfg, s)
    ensures var s' := Apply(cfg, s, step);
            s'.closed && Below(s', n) && Measure(cfg, s', n) < Measure(cfg, s, n)
  {
    InvIsSized(cfg, s);
    MovePays(cfg, s, 2 * n + 1, step.a, step.choice);
    hide Inv, Pays, Measure, NextOf;
    var t := NextOf(cfg, s, s.actors[step.a], step.choice);
    PaidStepDrops(cfg, s, step.a, t, n);
  }

  /** Every such run of a closed client is at most as long as the measure of where it starts. */
  lemma {:induction false} ShutdownIsBounded(cfg: Config, s: State, steps: seq<Step>, s': State, n: nat)
    requires Inv(cfg, s) && s.closed && Below(s, n) && Runs(cfg, s, steps, s')
    requires forall i :: 0 <= i < |steps| ==> Winding(steps[i])
    ensures |steps| + Measure(cfg, s', n) <= Measure(cfg, s, n)
    ensures Inv(cfg, s') && s'.closed
    decreases |steps|
  {
    hide Inv, Measure, Apply, Enabled;
    if steps != [] {
      StepDrops(cfg, s, steps[0], n);
      StepKeepsInv(cfg, s, steps[0]);
      ShutdownIsBounded(cfg, Apply(cfg, s, steps[0]), steps[1..], s', n);
    }
  }

  /** Nobody can take such a step. */
  ghost predicate AtRest(cfg: Config, s: State) {
    forall step :: Winding(step) ==> !Enabled(cfg, s, step)
  }

  /**
   Close completes: from any reachable closed state, however the actors go on, they come
   to rest after at most Measure steps; and where they rest everybody has finished, live
   is 0 on every endpoint, every connection ever dialed has been closed exactly once, and
   the session has been released.
   */
  lemma ShutdownCompletes(cfg: Config, s: State, steps: seq<Step>, s': State, n: nat)
    requires cfg.poolSize >= 1 && Reachable(cfg, s) && s.closed && Below(s, n) && Runs(cfg, s, steps, s')
    requires forall i :: 0 <= i < |steps| ==> Winding(steps[i])
    ensures |steps| <= Measure(cfg, s, n)
    ensures AtRest(cfg, s') ==>
              && AllFinished(s') && s'.sessionCloses == 1
              && Sized(cfg, s') && (forall e :: 0 <= e < cfg.endpoints ==> s'.live[e] == 0 && s'.idle[e] == [])
              && forall c :: c in s'.place ==> c in s'.closes && s'.closes[c] == 1
  {
    ReachableInv(cfg, s);
    ReachableRuns(cfg, s, steps, s');
    hide Inv, Reachable, Runs, Measure, Enabled;
    ShutdownIsBounded(cfg, s, steps, s', n);
    if !AllFinished(s') {
      UnfinishedMeansUnrest(cfg, s');
    } else {
      NothingLeaksAfterClose(cfg, s');
      FinishedCloseReleased(cfg, s');
    }
  }

  lemma UnfinishedMeansUnrest(cfg: Config, s: State)
    requires cfg.poolSize >= 1 && Reachable(cfg, s) && s.closed && !AllFinished(s)
    ensures !AtRest(cfg, s)
  {
    hide Reachable, Allowed;
    var a := ShutdownIsNeverStuck(cfg, s);
    var choice: Choice :| !choice.ContextDone? && !choice.Tick? && a in s.actors && Allowed(cfg, s, s.actors[a], choice);
    assert Winding(Move(a, choice)) && Enabled(cfg, s, Move(a, choice));
  }

  lemma {:induction false} RunsConcat(cfg: Config, s: State, a: seq<Step>, s1: State, b: seq<Step>, s2: State)
    requires Runs(cfg, s, a, s1) && Runs(cfg, s1, b, s2)
    ensures Runs(cfg, s, a + b, s2)
    decreases |a|
  {
    hide Apply, Enabled, Shape;
    if a == [] {
      assert a + b == b;
    } else {
      RunsConcat(cfg, Apply(cfg, s, a[0]), a[1..], s1, b, s2);
      assert (a + b)[1..] == a[1..] + b;
    }
  }

  lemma ReachableRuns(cfg: Config, s: State, steps: seq<Step>, s': State)
    requires Reachable(cfg, s) && Runs(cfg, s, steps, s')
    ensures Reachable(cfg, s')
  {
    hide Runs, Initial;
    var e: nat, first :| e < cfg.endpoints && Runs(cfg, Initial(cfg, e), first, s);
    RunsConcat(cfg, Initial(cfg, e), first, s, steps, s');
  }
}
