/** Runs that show where the pool stops short of what one might expect of it. */
module PoolWitnesses {
  import opened Wrappers
  import Errors
  import opened Pool
  import opened PoolInvariant
  import opened PoolSafety

  /** One endpoint, a pool of one connection. */
  const SMALL := Config(1, 1)

  lemma {:induction false} RunsThenStep(cfg: Config, s: State, steps: seq<Step>, s1: State, step: Step)
    requires Runs(cfg, s, steps, s1) && Shape(cfg, s1) && Enabled(cfg, s1, step)
    ensures Runs(cfg, s, steps + [step], Apply(cfg, s1, step))
    decreases |steps|
  {
    if steps == [] {
      assert Runs(cfg, Apply(cfg, s1, step), [], Apply(cfg, s1, step));
      assert [step][1..] == [];
    } else {
      RunsThenStep(cfg, Apply(cfg, s, steps[0]), steps[1..], s1, step);
      assert (steps + [step])[1..] == steps[1..] + [step];
    }
  }

  /** Take one step whose transition is known; only the fields of interest are reported. */
  lemma Walk(cfg: Config, s: State, a: Actor, choice: Choice, t: Transition) returns (s': State)
    requires cfg.poolSize >= 1 && Reachable(cfg, s) && Sized(cfg, s)
    requires a in s.actors && PcInRange(cfg, s.actors[a]) && Allowed(cfg, s, s.actors[a], choice)
    requires t == NextOf(cfg, s, s.actors[a], choice)
    ensures Reachable(cfg, s') && Sized(cfg, s')
    ensures s'.actors == s.actors[a := t.pc] && s'.closed == (s.closed || t.effect.CloseClient?)
    ensures s'.live == LiveAfter(s.live, t.effect) && s'.idle == IdleAfter(s.idle, t.effect)
    ensures s'.place == PlaceAfter(s.place, a, Oldest(s.idle, t.effect), t.effect)
    ensures s'.mu == match t.mutex { case Keep => s.mu case Lock => Some(a) case Unlock => None }
  {
    s' := Arrive(cfg, s, Move(a, choice));
  }

  lemma Arrive(cfg: Config, s: State, step: Step) returns (s': State)
    requires cfg.poolSize >= 1 && Reachable(cfg, s) && Enabled(cfg, s, step)
    ensures Shape(cfg, s)
    ensures s' == Apply(cfg, s, step) && Reachable(cfg, s') && Sized(cfg, s')
  {
    hide Reachable, Apply, MutexOk, CountsOk, PlacesOk, CapacityOk, ProbeOk, CloseOk, SessionOk, TaintOk;
    ReachableInv(cfg, s);
    StepKeepsInv(cfg, s, step);
    Extend(cfg, s, step);
    s' := Apply(cfg, s, step);
  }

  lemma Extend(cfg: Config, s: State, step: Step)
    requires Reachable(cfg, s) && Shape(cfg, s) && Enabled(cfg, s, step)
    ensures Reachable(cfg, Apply(cfg, s, step))
  {
    hide Apply, Initial, Runs;
    var e: nat, steps :| e < cfg.endpoints && Runs(cfg, Initial(cfg, e), steps, s);
    RunsThenStep(cfg, Initial(cfg, e), steps, s, step);
  }

  /** What the witnesses need to know of a state with one endpoint and a free mutex. */
  ghost predicate Small(s: State, live: int, idle: seq<Conn>, actors: map<Actor, Pc>) {
    && Reachable(SMALL, s) && Sized(SMALL, s)
    && s.live == [live] && s.idle == [idle] && !s.closed && s.mu.None? && s.actors == actors
  }

  const RESTING := Probing([], Select)

  lemma Start() returns (s: State)
    ensures Small(s, 1, [0], map[PROBE := RESTING]) && s.place == map[0 := InIdle(0)]
  {
    s := Initial(SMALL, 0);
    assert Runs(SMALL, s, [], s);
  }

  lemma NewCaller(s: State, a: Actor, live: int, idle: seq<Conn>, actors: map<Actor, Pc>) returns (s': State)
    requires Small(s, live, idle, actors) && a !in actors
    ensures Small(s', live, idle, actors[a := Calling(0, Check)]) && s'.place == s.place
  {
    hide Reachable;
    s' := Arrive(SMALL, s, StartAcquire(a, 0));
  }

  /** After New: caller 1 takes the only connection. */
  lemma FirstLoan() returns (s: State)
    ensures Small(s, 1, [], map[PROBE := RESTING, 1 := Calling(0, Loaned(0))])
    ensures s.place.Keys == {0}
  {
    hide Reachable;
    s := Start();
    s := NewCaller(s, 1, 1, [0], map[PROBE := RESTING]);
    s := Walk(SMALL, s, 1, Go, Quiet(Calling(0, TryIdle)));
    s := Walk(SMALL, s, 1, Go, To(Calling(0, Loaned(0)), Take(0), Keep));
    assert s.idle[0] == [];
  }

  lemma ProbeSweeps() returns (s: State)
    ensures Small(s, 1, [], map[PROBE := Probing([], ProbeDial(0)), 1 := Calling(0, Loaned(0))])
    ensures s.place.Keys == {0}
  {
    hide Reachable;
    s := FirstLoan();
    s := Walk(SMALL, s, PROBE, Tick([0]), Quiet(Probing([0], Sweep)));
    assert [0][1..] == [];
    s := Walk(SMALL, s, PROBE, Go, Quiet(Probing([], ProbeDial(0))));
  }

  lemma ProbeDials() returns (s: State)
    ensures Small(s, 1, [], map[PROBE := Probing([], Offer(0, 1)), 1 := Calling(0, Loaned(0))])
  {
    hide Reachable;
    s := ProbeSweeps();
    s := Walk(SMALL, s, PROBE, DialOk(1), To(Probing([], AskStatus(0, 1)), Dial(1), Keep));
    s := Walk(SMALL, s, PROBE, Status(true), Quiet(Probing([], Offer(0, 1))));
  }

  /** The probe's donation has no capacity check: two live connections in a pool of one. */
  lemma LiveCanExceedPoolSize() returns (s: State)
    ensures Reachable(SMALL, s) && s.live == [2] && s.idle == [[1]] && s.mu.None? && !s.closed
  {
    hide Reachable;
    s := ProbeDials();
    s := Walk(SMALL, s, PROBE, Go, To(Probing([], Send(0, 1)), Donate(0), Lock));
    s := Walk(SMALL, s, PROBE, Go, To(Probing([], Sweep), Put(0, 1), Unlock));
    assert s.idle[0] == [1];
  }

  lemma SecondCallerWaits() returns (s: State)
    ensures Small(s, 1, [], map[PROBE := RESTING, 1 := Calling(0, Loaned(0)), 2 := Calling(0, Waiting)])
  {
    hide Reachable;
    s := FirstLoan();
    s := NewCaller(s, 2, 1, [], s.actors);
    s := Walk(SMALL, s, 2, Go, Quiet(Calling(0, TryIdle)));
    s := Walk(SMALL, s, 2, Go, Quiet(Calling(0, Load)));
    s := Walk(SMALL, s, 2, Go, Quiet(Calling(0, Waiting)));
  }

  lemma EofDiscards() returns (err: Option<Errors.Err>)
    ensures Poisons(err)
  {
    err := Some(Errors.Leaf(Errors.Eof));
    Errors.ClassifyFollowsTable(Errors.Eof);
  }

  lemma DiscardMakesRoom() returns (s: State)
    ensures Small(s, 0, [], map[PROBE := RESTING, 1 := Finished, 2 := Calling(0, Waiting)])
  {
    s := SecondCallerWaits();
    var err := EofDiscards();
    hide Reachable, Poisons;
    s := Walk(SMALL, s, 1, CallReturned(err), To(Calling(0, Closing(0)), Taint(0), Keep));
    s := Walk(SMALL, s, 1, Go, To(Calling(0, Uncount), Shutdown(0), Keep));
    s := Walk(SMALL, s, 1, Go, To(Finished, Count(0, -1), Keep));
  }

  /**
   A caller blocked in acquire's last select is not woken when a discard makes
   room: caller 2 waits although nothing is live, nobody else is running, and the
   only way on is its own context.
   */
  lemma BlockedCallerIsNotWoken() returns (s: State)
    ensures Reachable(SMALL, s) && s.live == [0] && s.idle == [[]] && !s.closed
    ensures s.actors == map[PROBE := RESTING, 1 := Finished, 2 := Calling(0, Waiting)]
    ensures forall choice :: Allowed(SMALL, s, s.actors[2], choice) <==> choice == ContextDone
  {
    s := DiscardMakesRoom();
    OpenMeansChannelOpen(s);
  }

  lemma OpenMeansChannelOpen(s: State)
    requires Reachable(SMALL, s)
    ensures s.closeCh == s.closed
  {
    ReachableInv(SMALL, s);
  }
}
