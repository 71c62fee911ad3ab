/**
 The lifecycle of the Kerberos credentials every connection of a client shares:
 ticket acquisitions that may outlive the dial that started them, Close calls
 from any number of goroutines, and one Destroy.

 The mutex-guarded fields are a class; its methods are the mutex sections of
 begin, end and Close. The machine below interleaves those sections with the two
 sync.Once values and with Destroy itself.
 */
module KerberosSession {
  import opened Counting

  /** The fields guarded by mu. */
  datatype Guarded = Guarded(closed: bool, pending: int)

  function BeginSection(g: Guarded): (Guarded, bool) {
    if g.closed then (g, false) else (g.(pending := g.pending + 1), true)
  }

  function EndSection(g: Guarded): (Guarded, bool) {
    var g' := g.(pending := g.pending - 1);
    (g', g'.closed && g'.pending == 0)
  }

  function CloseSection(g: Guarded): (Guarded, bool) {
    (g.(closed := true), g.pending == 0)
  }

  class Session {
    var closed: bool
    var pending: int

    function View(): Guarded
      reads this
    {
      Guarded(closed, pending)
    }

    constructor ()
      ensures View() == Guarded(false, 0)
    {
      closed, pending := false, 0;
    }

    /** Registers a ticket acquisition, or reports false once the session is closed. */
    method Begin() returns (ok: bool)
      modifies this
      ensures (View(), ok) == BeginSection(old(View()))
      ensures ok == !old(closed) && closed == old(closed) && pending == old(pending) + if ok then 1 else 0
    {
      if closed {
        return false;
      }
      pending := pending + 1;
      return true;
    }

    /** Unregisters one; last says that this acquisition must destroy the credentials. */
    method End() returns (last: bool)
      modifies this
      ensures (View(), last) == EndSection(old(View()))
      ensures closed == old(closed) && pending == old(pending) - 1 && last == (closed && pending == 0)
    {
      pending := pending - 1;
      last := closed && pending == 0;
    }

    /** The body of Close's once, up to the unlock; idle says that Close must destroy. */
    method Close() returns (idle: bool)
      modifies this
      ensures (View(), idle) == CloseSection(old(View()))
      ensures closed && pending == old(pending) && idle == (pending == 0)
    {
      closed := true;
      idle := pending == 0;
    }
  }

  // ------------------------------------------------------------ the machine

  type Actor = nat

  datatype Pc =
    | Acquiring            // between begin and end
    | Destroying           // about to call destroy, from end
    | EnterClose           // at once.Do
    | InClose              // inside once.Do, before the mutex section
    | CloseDestroying      // about to call destroy, from Close
    | LeaveClose           // inside once.Do, after the section
    | Done

  datatype Once = Fresh | Busy(owner: Actor) | Spent

  datatype State = State(
    guarded: Guarded,
    once: Once,
    actors: map<Actor, Pc>,
    // history: how often destroy was called, and how often Destroy ran
    calls: nat,
    destroys: nat)

  datatype Step = Begin(a: Actor) | StartClose(a: Actor) | Move(a: Actor)

  const INITIAL := State(Guarded(false, 0), Fresh, map[], 0, 0)

  predicate Enabled(s: State, step: Step) {
    match step
    case Begin(a) => a !in s.actors
    case StartClose(a) => a !in s.actors
    case Move(a) =>
      a in s.actors && !s.actors[a].Done? && (s.actors[a].EnterClose? ==> !s.once.Busy?)
  }

  function Goto(s: State, a: Actor, pc: Pc): State { s.(actors := s.actors[a := pc]) }

  /** destroyOnce.Do: only the first call runs Destroy. */
  function Destroy(s: State): State {
    s.(calls := s.calls + 1, destroys := if s.calls == 0 then s.destroys + 1 else s.destroys)
  }

  function Apply(s: State, step: Step): State
    requires Enabled(s, step)
  {
    match step
    case Begin(a) =>
      var (g, ok) := BeginSection(s.guarded);
      Goto(s, a, if ok then Acquiring else Done).(guarded := g)
    case StartClose(a) => Goto(s, a, EnterClose)
    case Move(a) =>
      match s.actors[a]
      case Acquiring =>
        var (g, last) := EndSection(s.guarded);
        Goto(s, a, if last then Destroying else Done).(guarded := g)
      case Destroying => Goto(Destroy(s), a, Done)
      case EnterClose => if s.once.Fresh? then Goto(s, a, InClose).(once := Busy(a)) else Goto(s, a, Done)
      case InClose =>
        var (g, idle) := CloseSection(s.guarded);
        Goto(s, a, if idle then CloseDestroying else LeaveClose).(guarded := g)
      case CloseDestroying => Goto(Destroy(s), a, LeaveClose)
      case LeaveClose => Goto(s, a, Done).(once := Spent)
      case Done => s
  }

  // ------------------------------------------------------------ the invariant

  ghost function AcquiringIn(actors: map<Actor, Pc>): set<Actor> {
    set a | a in actors && actors[a].Acquiring?
  }

  ghost function DestroyersIn(actors: map<Actor, Pc>): set<Actor> {
    set a | a in actors && (actors[a].Destroying? || actors[a].CloseDestroying?)
  }

  predicate InsideOnce(pc: Pc) { pc.InClose? || pc.CloseDestroying? || pc.LeaveClose? }

  /**
   pending counts the acquisitions; one Close is inside the once; and destroy is
   owed or paid exactly when the session is closed with nothing pending.
   */
  ghost predicate Inv(s: State) {
    && s.guarded.pending == |AcquiringIn(s.actors)|
    && (forall a :: a in s.actors && InsideOnce(s.actors[a]) ==> s.once == Busy(a))
    && (s.once.Busy? ==> s.once.owner in s.actors && InsideOnce(s.actors[s.once.owner]))
    && (s.guarded.closed <==> s.once.Spent? || (s.once.Busy? && !s.actors[s.once.owner].InClose?))
    && s.calls + |DestroyersIn(s.actors)| == (if s.guarded.closed && s.guarded.pending == 0 then 1 else 0)
    && s.destroys == s.calls
  }

  lemma SetsAfterMove(actors: map<Actor, Pc>, a: Actor, pc: Pc)
    ensures |AcquiringIn(actors[a := pc])| - One(pc.Acquiring?)
         == |AcquiringIn(actors)| - One(a in AcquiringIn(actors))
    ensures |DestroyersIn(actors[a := pc])| - One(pc.Destroying? || pc.CloseDestroying?)
         == |DestroyersIn(actors)| - One(a in DestroyersIn(actors))
  {
    assert AcquiringIn(actors) - {a} == AcquiringIn(actors[a := pc]) - {a};
    CardinalAfterMove(AcquiringIn(actors), AcquiringIn(actors[a := pc]), a);
    assert DestroyersIn(actors) - {a} == DestroyersIn(actors[a := pc]) - {a};
    CardinalAfterMove(DestroyersIn(actors), DestroyersIn(actors[a := pc]), a);
  }

  lemma StepKeepsInv(s: State, step: Step)
    requires Inv(s) && Enabled(s, step)
    ensures Inv(Apply(s, step))
  {
    var s' := Apply(s, step);
    SetsAfterMove(s.actors, step.a, s'.actors[step.a]);
    assert step.Move? && s.actors[step.a].Acquiring? ==> step.a in AcquiringIn(s.actors);
  }

  // ------------------------------------------------------------ over whole runs

  ghost predicate Runs(s: State, steps: seq<Step>, s': State)
    decreases |steps|
  {
    if steps == [] then s == s'
    else Enabled(s, steps[0]) && Runs(Apply(s, steps[0]), steps[1..], s')
  }

  lemma {:induction false} RunKeepsInv(s: State, steps: seq<Step>, s': State)
    requires Inv(s) && Runs(s, steps, s')
    ensures Inv(s') && (s.guarded.closed ==> s'.guarded.closed)
    decreases |steps|
  {
    if steps != [] {
      StepKeepsInv(s, steps[0]);
      RunKeepsInv(Apply(s, steps[0]), steps[1..], s');
    }
  }

  lemma InitialInv()
    ensures Inv(INITIAL)
  {
    assert AcquiringIn(INITIAL.actors) == {} && DestroyersIn(INITIAL.actors) == {};
  }

  /**
   In every run: once destroy has been called, no acquisition is pending and none
   starts; destroy is called at most once, so the second sync.Once never has
   anything to stop.
   */
  lemma DestroyIsSafe(steps: seq<Step>, s: State, more: seq<Step>, s': State)
    requires Runs(INITIAL, steps, s) && s.calls > 0 && Runs(s, more, s')
    ensures s'.guarded.pending == 0 && forall a :: a in s'.actors ==> !s'.actors[a].Acquiring?
    ensures s'.calls == s'.destroys == 1
  {
    InitialInv();
    RunKeepsInv(INITIAL, steps, s);
    CallsOnlyGrow(s, more, s');
    RunKeepsInv(s, more, s');
    forall a | a in s'.actors ensures !s'.actors[a].Acquiring? {
      assert a !in AcquiringIn(s'.actors);
    }
  }

  lemma {:induction false} CallsOnlyGrow(s: State, steps: seq<Step>, s': State)
    requires Runs(s, steps, s')
    ensures s'.calls >= s.calls
    decreases |steps|
  {
    if steps != [] {
      CallsOnlyGrow(Apply(s, steps[0]), steps[1..], s');
    }
  }

  /** Close was called and everybody has finished: Destroy ran exactly once. */
  lemma DestroyRunsExactlyOnce(steps: seq<Step>, s: State)
    requires Runs(INITIAL, steps, s) && !s.once.Fresh?
    requires forall a :: a in s.actors ==> s.actors[a].Done?
    ensures s.destroys == 1
  {
    InitialInv();
    RunKeepsInv(INITIAL, steps, s);
    assert AcquiringIn(s.actors) == {} && DestroyersIn(s.actors) == {};
  }

  /** Until Close has run its section, or while an acquisition is pending, the credentials are intact. */
  lemma CredentialsIntactUntilThen(steps: seq<Step>, s: State)
    requires Runs(INITIAL, steps, s) && (!s.guarded.closed || s.guarded.pending > 0)
    ensures s.destroys == 0
  {
    InitialInv();
    RunKeepsInv(INITIAL, steps, s);
  }
}
