/**
 What the pool is for: when acquire reuses, dials or waits, what becomes of a dial, and
 what the recovery probe does with the endpoints it is given.
 */
module PoolAcquire {
  import opened Wrappers
  import Errors
  import opened Pool
  import opened PoolInvariant
  import opened PoolSafety

  // ------------------------------------------------------------ one actor on its own

  /** n steps of actor a that need nothing from outside. */
  function Alone(a: Actor, n: nat): seq<Step> { if n == 0 then [] else [Move(a, Go)] + Alone(a, n - 1) }

  lemma RunsCons(cfg: Config, s: State, step: Step, rest: seq<Step>, s': State)
    requires Shape(cfg, s) && Enabled(cfg, s, step) && Runs(cfg, Apply(cfg, s, step), rest, s')
    ensures Runs(cfg, s, [step] + rest, s')
  {
    assert ([step] + rest)[1..] == rest;
  }

  lemma AloneCons(cfg: Config, s: State, a: Actor, n: nat, s': State)
    requires Shape(cfg, s) && Enabled(cfg, s, Move(a, Go)) && Runs(cfg, Apply(cfg, s, Move(a, Go)), Alone(a, n), s')
    ensures Runs(cfg, s, Alone(a, n + 1), s')
  {
    hide Apply, Enabled, Runs;
    RunsCons(cfg, s, Move(a, Go), Alone(a, n), s');
  }

  lemma AloneStops(cfg: Config, s: State, a: Actor)
    ensures Runs(cfg, s, Alone(a, 0), s)
  {
  }

  /** One step of an actor whose transition is known. */
  lemma Does(cfg: Config, s: State, a: Actor, choice: Choice, t: Transition) returns (s': State)
    requires Shape(cfg, s) && Enabled(cfg, s, Move(a, choice)) && t == NextOf(cfg, s, s.actors[a], choice)
    ensures s' == Apply(cfg, s, Move(a, choice)) == Perform(s, a, t) && Shape(cfg, s')
  {
    var t' := StepIsRight(cfg, s, Move(a, choice));
    s' := Apply(cfg, s, Move(a, choice));
    KeepsShape(cfg, s, a, t);
  }

  /** The fields an actor's own steps are described by. */
  ghost predicate Now(s: State, s': State, a: Actor, pc: Pc, live: seq<int>, idle: seq<seq<Conn>>) {
    && s'.actors == s.actors[a := pc] && s'.live == live && s'.idle == idle
    && s'.closed == s.closed && s'.mu == s.mu && s'.tainted == s.tainted
  }

  /** Before an acquire on an open client whose mutex nobody holds. */
  ghost predicate MayAcquire(cfg: Config, s: State, a: Actor, e: nat, at: CallPoint) {
    && Shape(cfg, s) && e < cfg.endpoints && !s.closed && s.mu.None?
    && a in s.actors && s.actors[a] == Calling(e, at)
  }

  /**
   acquire on its own, on an open client: it takes the oldest idle connection if there is
   one; else it reserves a place and dials if live is below the pool size; else it waits.
   */
  lemma AcquireAlone(cfg: Config, s: State, a: Actor, e: nat) returns (n: nat, s': State)
    requires MayAcquire(cfg, s, a, e, Check)
    ensures Runs(cfg, s, Alone(a, n), s')
    ensures s.idle[e] != [] ==>
              n == 2 && Now(s, s', a, Calling(e, Loaned(s.idle[e][0])), s.live, s.idle[e := s.idle[e][1..]])
    ensures s.idle[e] == [] && s.live[e] < cfg.poolSize ==>
              n == 5 && Now(s, s', a, Calling(e, Dialing), s.live[e := s.live[e] + 1], s.idle)
    ensures s.idle[e] == [] && s.live[e] >= cfg.poolSize ==>
              n == 3 && Now(s, s', a, Calling(e, Waiting), s.live, s.idle)
  {
    hide Runs, Apply, Alone, CloserStep, ProbeStep, Poisons;
    var s1 := Does(cfg, s, a, Go, Quiet(Calling(e, TryIdle)));
    if s.idle[e] != [] {
      s' := Does(cfg, s1, a, Go, To(Calling(e, Loaned(s.idle[e][0])), Take(e), Keep));
      AloneStops(cfg, s', a);
      AloneCons(cfg, s1, a, 0, s');
      n := 2;
    } else {
      var s2 := Does(cfg, s1, a, Go, Quiet(Calling(e, Load)));
      n, s' := AcquireFromLoad(cfg, s2, a, e);
      AloneCons(cfg, s1, a, n, s');
      n := n + 2;
    }
    AloneCons(cfg, s, a, n - 1, s');
  }

  lemma AcquireFromLoad(cfg: Config, s: State, a: Actor, e: nat) returns (n: nat, s': State)
    requires MayAcquire(cfg, s, a, e, Load)
    ensures Runs(cfg, s, Alone(a, n), s')
    ensures s.live[e] < cfg.poolSize ==> n == 3 && Now(s, s', a, Calling(e, Dialing), s.live[e := s.live[e] + 1], s.idle)
    ensures s.live[e] >= cfg.poolSize ==> n == 1 && Now(s, s', a, Calling(e, Waiting), s.live, s.idle)
  {
    hide Runs, Apply, Alone, CloserStep, ProbeStep, Poisons;
    if s.live[e] < cfg.poolSize {
      var s1 := Does(cfg, s, a, Go, Quiet(Calling(e, Cas(s.live[e]))));
      var s2 := Does(cfg, s1, a, Go, To(Calling(e, Reserve), Count(e, 1), Keep));
      s' := Does(cfg, s2, a, Go, To(Calling(e, Dialing), Register, Keep));
      AloneStops(cfg, s', a);
      AloneCons(cfg, s2, a, 0, s');
      AloneCons(cfg, s1, a, 1, s');
      n := 3;
    } else {
      s' := Does(cfg, s, a, Go, Quiet(Calling(e, Waiting)));
      AloneStops(cfg, s', a);
      n := 1;
    }
    AloneCons(cfg, s, a, n - 1, s');
  }

  lemma CallerWaitsOnlyWhenFull(cfg: Config, s: State, e: nat, at: CallPoint, choice: Choice)
    requires Sized(cfg, s) && e < cfg.endpoints && CallAllowed(s, e, at, choice)
    ensures var pc := CallerStep(cfg, s, e, at, choice).pc;
            pc.Calling? && pc.call.Waiting? ==> pc.e == e && s.live[e] >= cfg.poolSize
  {
    hide Poisons;
  }

  lemma OthersDoNotWait(cfg: Config, s: State, pc: Pc, choice: Choice)
    requires Sized(cfg, s) && PcInRange(cfg, pc) && Allowed(cfg, s, pc, choice) && !pc.Calling?
    ensures !NextOf(cfg, s, pc, choice).pc.Calling?
  {
    hide CallerStep;
  }

  /** However the others interleave: a caller comes to wait only where live has reached the pool size. */
  lemma WaitsOnlyWhenFull(cfg: Config, s: State, step: Step, a: Actor, e: nat)
    requires Shape(cfg, s) && Enabled(cfg, s, step)
    requires a in Apply(cfg, s, step).actors && Apply(cfg, s, step).actors[a] == Calling(e, Waiting)
    requires !(a in s.actors && s.actors[a] == Calling(e, Waiting))
    ensures e < |s.live| && s.live[e] >= cfg.poolSize
  {
    hide CallerStep, CloserStep, ProbeStep;
    if step.Move? {
      match s.actors[step.a]
      case Calling(f, at) => CallerWaitsOnlyWhenFull(cfg, s, f, at, step.choice);
      case _ => OthersDoNotWait(cfg, s, s.actors[step.a], step.choice);
    }
  }

  // ------------------------------------------------------------ what becomes of a dial

  /** A dial that succeeds ends on loan to its caller, with its place kept. */
  lemma DialLoans(cfg: Config, s: State, a: Actor, e: nat, c: Conn) returns (s': State)
    requires Shape(cfg, s) && a in s.actors && s.actors[a] == Calling(e, Dialing) && c !in s.place
    ensures Runs(cfg, s, [Move(a, DialOk(c))] + Alone(a, 1), s')
    ensures s'.actors == s.actors[a := Calling(e, Loaned(c))] && s'.place == s.place[c := HeldBy(a)]
    ensures s'.live == s.live && s'.idle == s.idle && s'.inFlight == s.inFlight - 1
  {
    hide Runs, Apply, Alone, CloserStep, ProbeStep, Poisons;
    var s1 := Does(cfg, s, a, DialOk(c), To(Calling(e, Dialed(c)), Dial(c), Keep));
    s' := Does(cfg, s1, a, Go, To(Calling(e, Loaned(c)), Unregister, Keep));
    AloneStops(cfg, s', a);
    AloneCons(cfg, s1, a, 0, s');
    RunsCons(cfg, s, Move(a, DialOk(c)), Alone(a, 1), s');
  }

  /** One that fails gives the place back. */
  lemma DialFails(cfg: Config, s: State, a: Actor, e: nat) returns (s': State)
    requires Shape(cfg, s) && a in s.actors && s.actors[a] == Calling(e, Dialing)
    ensures Runs(cfg, s, [Move(a, DialError)] + Alone(a, 2), s') && e < |s.live|
    ensures s'.actors == s.actors[a := Finished] && s'.place == s.place
    ensures s'.live == s.live[e := s.live[e] - 1] && s'.idle == s.idle && s'.inFlight == s.inFlight - 1
  {
    hide Runs, Apply, Alone, CloserStep, ProbeStep, Poisons;
    var s1 := Does(cfg, s, a, DialError, Quiet(Calling(e, DialFailed)));
    var s2 := Does(cfg, s1, a, Go, To(Calling(e, Uncount), Unregister, Keep));
    s' := Does(cfg, s2, a, Go, To(Finished, Count(e, -1), Keep));
    AloneStops(cfg, s', a);
    AloneCons(cfg, s2, a, 0, s');
    AloneCons(cfg, s1, a, 1, s');
    RunsCons(cfg, s, Move(a, DialError), Alone(a, 2), s');
  }

  // ------------------------------------------------------------ the probe

  /** What the probe does with a connection it has dialed, once the endpoint has answered its status call or not. */
  ghost predicate ProbeSettled(cfg: Config, s: State, e: nat, c: Conn, ok: bool, s': State)
    requires e < |s.idle| && e < |s.live|
  {
    if ok && !s.closed && |s.idle[e]| < cfg.poolSize then
      && s'.idle == s.idle[e := s.idle[e] + [c]] && s'.live == s.live[e := s.live[e] + 1] && s'.closes == s.closes
    else
      && s'.idle == s.idle && s'.live == s.live && c in s.closes && s'.closes == s.closes[c := s.closes[c] + 1]
  }

  /**
   The probe on its own: a connection whose endpoint answered is donated to the pool if
   the client is open and there is room; any other is closed, and live is as before.
   */
  lemma ProbeSettles(cfg: Config, s: State, todo: seq<nat>, e: nat, c: Conn, ok: bool) returns (n: nat, s': State)
    requires Inv(cfg, s) && s.mu.None? && PROBE in s.actors && s.actors[PROBE] == Probing(todo, AskStatus(e, c))
    ensures Runs(cfg, s, [Move(PROBE, Status(ok))] + Alone(PROBE, n), s')
    ensures s'.actors == s.actors[PROBE := Probing(todo, Sweep)] && s'.mu.None?
    ensures e < cfg.endpoints && Sized(cfg, s) && ProbeSettled(cfg, s, e, c, ok, s')
  {
    hide Runs, Inv, Apply, Alone, CallerStep, CloserStep;
    InvIsSized(cfg, s);
    ProbeHolds(cfg, s, todo, e, c);
    if ok {
      var s1 := Does(cfg, s, PROBE, Status(true), Quiet(Probing(todo, Offer(e, c))));
      n, s' := OfferSettles(cfg, s1, todo, e, c);
    } else {
      var s1 := Does(cfg, s, PROBE, Status(false), Quiet(Probing(todo, CloseFailed(c))));
      s' := UnwantedSettles(cfg, s1, todo, c);
      n := 1;
    }
    RunsCons(cfg, s, Move(PROBE, Status(ok)), Alone(PROBE, n), s');
  }

  lemma ProbeHolds(cfg: Config, s: State, todo: seq<nat>, e: nat, c: Conn)
    requires Inv(cfg, s) && PROBE in s.actors && s.actors[PROBE] == Probing(todo, AskStatus(e, c))
    ensures c in s.closes && e < cfg.endpoints && |s.idle[e]| <= cfg.poolSize
  {
    hide MutexOk, CountsOk, ProbeOk, CloseOk, SessionOk, TaintOk;
    assert Hand(s.actors[PROBE]) == Some(c);
  }

  lemma OfferSettles(cfg: Config, s: State, todo: seq<nat>, e: nat, c: Conn) returns (n: nat, s': State)
    requires Shape(cfg, s) && s.mu.None? && PROBE in s.actors && s.actors[PROBE] == Probing(todo, Offer(e, c))
    requires c in s.closes && s.donated[e] >= 0
    ensures Runs(cfg, s, Alone(PROBE, n), s')
    ensures s'.actors == s.actors[PROBE := Probing(todo, Sweep)] && s'.mu.None?
    ensures ProbeSettled(cfg, s, e, c, true, s')
  {
    hide Runs, Apply, Alone, CallerStep, CloserStep;
    if s.closed {
      var s1 := Does(cfg, s, PROBE, Go, Quiet(Probing(todo, CloseFailed(c))));
      s' := UnwantedSettles(cfg, s1, todo, c);
      n := 2;
    } else {
      var s1 := Does(cfg, s, PROBE, Go, To(Probing(todo, Send(e, c)), Donate(e), Lock));
      n, s' := SendSettles(cfg, s1, todo, e, c);
      n := n + 1;
    }
    AloneCons(cfg, s, PROBE, n - 1, s');
  }

  lemma SendSettles(cfg: Config, s: State, todo: seq<nat>, e: nat, c: Conn) returns (n: nat, s': State)
    requires Shape(cfg, s) && PROBE in s.actors && s.actors[PROBE] == Probing(todo, Send(e, c)) && c in s.closes
    ensures Runs(cfg, s, Alone(PROBE, n), s') && n >= 1
    ensures s'.actors == s.actors[PROBE := Probing(todo, Sweep)] && s'.mu.None? && e < |s.idle| && e < |s.live|
    ensures if |s.idle[e]| < cfg.poolSize
            then s'.idle == s.idle[e := s.idle[e] + [c]] && s'.live == s.live && s'.closes == s.closes
            else && s'.idle == s.idle && s'.live == s.live[e := s.live[e] - 1]
                 && s'.closes == s.closes[c := s.closes[c] + 1]
  {
    hide Runs, Apply, Alone, CallerStep, CloserStep;
    if |s.idle[e]| < cfg.poolSize {
      s' := Does(cfg, s, PROBE, Go, To(Probing(todo, Sweep), Put(e, c), Unlock));
      AloneStops(cfg, s', PROBE);
      n := 1;
    } else {
      var s1 := Does(cfg, s, PROBE, Go, To(Probing(todo, CloseRejected(e, c)), Nothing, Unlock));
      s' := RejectedSettles(cfg, s1, todo, e, c);
      n := 3;
    }
    AloneCons(cfg, s, PROBE, n - 1, s');
  }

  lemma RejectedSettles(cfg: Config, s: State, todo: seq<nat>, e: nat, c: Conn) returns (s': State)
    requires Shape(cfg, s) && PROBE in s.actors && s.actors[PROBE] == Probing(todo, CloseRejected(e, c)) && c in s.closes
    ensures Runs(cfg, s, Alone(PROBE, 2), s') && e < |s.live|
    ensures s'.actors == s.actors[PROBE := Probing(todo, Sweep)] && s'.mu == s.mu
    ensures s'.idle == s.idle && s'.live == s.live[e := s.live[e] - 1] && s'.closes == s.closes[c := s.closes[c] + 1]
  {
    hide Runs, Apply, Alone, CallerStep, CloserStep;
    var s1 := Does(cfg, s, PROBE, Go, To(Probing(todo, UncountRejected(e)), Shutdown(c), Keep));
    s' := Does(cfg, s1, PROBE, Go, To(Probing(todo, Sweep), TakeBack(e), Keep));
    AloneStops(cfg, s', PROBE);
    AloneCons(cfg, s1, PROBE, 0, s');
    AloneCons(cfg, s, PROBE, 1, s');
  }

  /** A connection that is not wanted is closed. */
  lemma UnwantedSettles(cfg: Config, s: State, todo: seq<nat>, c: Conn) returns (s': State)
    requires Shape(cfg, s) && PROBE in s.actors && s.actors[PROBE] == Probing(todo, CloseFailed(c)) && c in s.closes
    ensures Runs(cfg, s, Alone(PROBE, 1), s')
    ensures s'.actors == s.actors[PROBE := Probing(todo, Sweep)] && s'.mu == s.mu
    ensures s'.idle == s.idle && s'.live == s.live && s'.closes == s.closes[c := s.closes[c] + 1]
  {
    hide Runs, Apply, Alone, CallerStep, CloserStep;
    s' := Does(cfg, s, PROBE, Go, To(Probing(todo, Sweep), Shutdown(c), Keep));
    AloneStops(cfg, s', PROBE);
    AloneCons(cfg, s, PROBE, 0, s');
  }

  // ------------------------------------------------------------ the probe's rounds

  /** The endpoints the probe has been told to try and has not yet dialed. */
  function Agenda(pc: Pc): seq<nat> {
    if !pc.Probing? then [] else (if pc.probe.ProbeDial? then [pc.probe.e] else []) + pc.todo
  }

  /** At its select and once gone the probe has nothing left to try. */
  predicate Idles(pc: Pc) { pc.Probing? && (pc.probe.Select? || pc.probe.Gone? ==> pc.todo == []) }

  /** The cooling endpoints a step hands to the probe. */
  function Handed(step: Step): seq<nat> { if step.Move? && step.choice.Tick? then step.choice.cooling else [] }

  /** The endpoint a step of the probe dials. */
  function Tried(s: State, step: Step): seq<nat> {
    if step.Move? && step.a == PROBE && PROBE in s.actors && s.actors[PROBE].Probing? && s.actors[PROBE].probe.ProbeDial?
    then [s.actors[PROBE].probe.e] else []
  }

  lemma ProbeKeepsAgenda(cfg: Config, s: State, todo: seq<nat>, at: ProbePoint, choice: Choice)
    requires Sized(cfg, s) && PcInRange(cfg, Probing(todo, at)) && ProbeAllowed(cfg, s, at, choice)
    requires Idles(Probing(todo, at))
    ensures var pc := ProbeStep(cfg, s, todo, at, choice).pc;
            && Idles(pc)
            && Agenda(Probing(todo, at)) + (if choice.Tick? then choice.cooling else [])
               == (if at.ProbeDial? then [at.e] else []) + Agenda(pc)
  {
    if at.Sweep? && todo != [] {
      assert [todo[0]] + todo[1..] == todo;
    }
  }

  lemma StepKeepsAgenda(cfg: Config, s: State, step: Step)
    requires Inv(cfg, s) && Enabled(cfg, s, step) && PROBE in s.actors && Idles(s.actors[PROBE])
    ensures Shape(cfg, s) && PROBE in Apply(cfg, s, step).actors
    ensures var pc := Apply(cfg, s, step).actors[PROBE];
            Idles(pc) && Agenda(s.actors[PROBE]) + Handed(step) == Tried(s, step) + Agenda(pc)
  {
    InvIsSized(cfg, s);
    OnlyProbeProbes(cfg, s);
    hide Inv, ProbeStep, CallerStep, CloserStep, Agenda;
    if step.a == PROBE {
      ProbeKeepsAgenda(cfg, s, s.actors[PROBE].todo, s.actors[PROBE].probe, step.choice);
    } else {
      StepLeavesActorAlone(cfg, s, step, PROBE);
      assert Handed(step) == [];
      assert [] + Agenda(s.actors[PROBE]) == Agenda(s.actors[PROBE]) == Agenda(s.actors[PROBE]) + [];
    }
  }

  lemma OnlyProbeProbes(cfg: Config, s: State)
    requires Inv(cfg, s)
    ensures PROBE in s.actors && forall a :: a in s.actors && s.actors[a].Probing? ==> a == PROBE
  {
    hide MutexOk, CountsOk, PlacesOk, CapacityOk, CloseOk, SessionOk, TaintOk;
  }

  /** The endpoints handed to the probe over a run, and those it dials. */
  function AllHanded(steps: seq<Step>): seq<nat> { if steps == [] then [] else Handed(steps[0]) + AllHanded(steps[1..]) }

  ghost function AllTried(cfg: Config, s: State, steps: seq<Step>): seq<nat>
    requires CanRun(cfg, s, steps)
    decreases |steps|
  {
    if steps == [] then [] else Tried(s, steps[0]) + AllTried(cfg, Apply(cfg, s, steps[0]), steps[1..])
  }

  lemma RunsCanRun(cfg: Config, s: State, steps: seq<Step>, s': State)
    requires Runs(cfg, s, steps, s')
    ensures CanRun(cfg, s, steps)
    decreases |steps|
  {
    hide Shape, Apply, Enabled;
    if steps != [] {
      RunsCanRun(cfg, Apply(cfg, s, steps[0]), steps[1..], s');
    }
  }

  /**
   Over every run, the endpoints the probe dials are those its ticks found cooling, each
   once and in that order, up to the ones it has still to try.
   */
  lemma {:induction false} ProbeTriesWhatCools(cfg: Config, s: State, steps: seq<Step>, s': State)
    requires Inv(cfg, s) && PROBE in s.actors && Idles(s.actors[PROBE]) && Runs(cfg, s, steps, s')
    ensures CanRun(cfg, s, steps) && PROBE in s'.actors
    ensures Agenda(s.actors[PROBE]) + AllHanded(steps) == AllTried(cfg, s, steps) + Agenda(s'.actors[PROBE])
    decreases |steps|
  {
    RunsCanRun(cfg, s, steps, s');
    hide Inv, Apply, Enabled, Agenda, Handed, Tried, Idles;
    if steps == [] {
      assert Agenda(s.actors[PROBE]) + [] == [] + Agenda(s.actors[PROBE]);
    } else {
      var s1 := Apply(cfg, s, steps[0]);
      StepKeepsAgenda(cfg, s, steps[0]);
      StepKeepsInv(cfg, s, steps[0]);
      ProbeTriesWhatCools(cfg, s1, steps[1..], s');
      Balance(Agenda(s.actors[PROBE]), Handed(steps[0]), Tried(s, steps[0]), Agenda(s1.actors[PROBE]),
              AllHanded(steps[1..]), AllTried(cfg, s1, steps[1..]), Agenda(s'.actors[PROBE]));
    }
  }

  lemma Balance(before: seq<nat>, handed: seq<nat>, tried: seq<nat>, between: seq<nat>,
                handed': seq<nat>, tried': seq<nat>, after: seq<nat>)
    requires before + handed == tried + between && between + handed' == tried' + after
    ensures before + (handed + handed') == (tried + tried') + after
  {
    calc {
      before + (handed + handed');
      (before + handed) + handed';
      tried + (between + handed');
      (tried + tried') + after;
    }
  }

  // ------------------------------------------------------------ when Close returns

  /** Every Close, the first or a later one, returns only once the probe goroutine has exited. */
  lemma CloseReturnsAfterProbe(cfg: Config, s: State, step: Step)
    requires Inv(cfg, s) && Enabled(cfg, s, step) && step.a in s.actors && s.actors[step.a].Shutting?
    ensures Shape(cfg, s)
    ensures Apply(cfg, s, step).actors[step.a].Finished? ==> s.probeDone && s.closed
  {
    hide MutexOk, CountsOk, PlacesOk, CapacityOk, TaintOk, CallerStep, ProbeStep;
  }
}
