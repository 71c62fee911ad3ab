/**
 ContextClient.Call's ownership of a connection's deadline.

 Calls on one connection run one after another. Each writes the connection's
 deadline, registers a callback that writes it again when the call's context is
 cancelled, and before it returns stops the callback or waits for it to finish.
 Cancellation may come at any moment: before the call, during it, or later.

 The machine is parametric in which calls wait. Every Call does. The SASL handshake
 of DialBinary, which is call 0 of its connection and follows the same pattern, only
 stops its callback and then clears the deadline.
 */
module ContextClient {
  import opened Wrappers

  /** A deadline in force on the connection; None means no deadline. */
  type Deadline = Option<int>

  /** The deadline of a call: the context's, else the fallback timeout, else none. */
  function DeadlineFor(ctx: Deadline, timeout: int, now: int): Deadline {
    if ctx.Some? then ctx else if timeout > 0 then Some(now + timeout) else None
  }

  datatype Writer = Nobody | Call(k: nat) | Callback(k: nat)

  datatype Pc =
    | Between | Setting(d: Deadline) | Registering(d: Deadline) | Inner(d: Deadline) | Stopping | Waiting | Clearing

  /** The life of an AfterFunc callback. */
  datatype Hook = Armed | Started | Written | Fired | Stopped

  datatype State = State(
    writer: Writer,          // who wrote the deadline last
    deadline: Deadline,
    current: nat,            // index of the running call, or of the next one
    pc: Pc,
    hooks: map<nat, Hook>,
    cancelled: set<nat>)

  datatype Step =
    | StartCall(ctx: Deadline, timeout: int, now: int)
    | Advance               // the next statement of the running call
    | Cancel(k: nat)        // context k is cancelled or expires
    | HookWrites(k: nat, now: int)
    | HookCloses(k: nat)

  const INITIAL := State(Nobody, None, 0, Between, map[], {})

  predicate Enabled(waits: nat -> bool, s: State, step: Step) {
    match step
    case StartCall(_, _, _) => s.pc.Between?
    case Advance =>
      && !s.pc.Between?
      && (s.pc.Stopping? ==> s.current in s.hooks)
      && (s.pc.Waiting? ==> s.current in s.hooks && s.hooks[s.current].Fired?)
    case Cancel(k) => k !in s.cancelled
    case HookWrites(k, _) => k in s.hooks && s.hooks[k].Started?
    case HookCloses(k) => k in s.hooks && s.hooks[k].Written?
  }

  function Apply(waits: nat -> bool, s: State, step: Step): State
    requires Enabled(waits, s, step)
  {
    match step
    case StartCall(ctx, timeout, now) => s.(pc := Setting(DeadlineFor(ctx, timeout, now)))
    case Advance =>
      (match s.pc
       case Between => s
       case Setting(d) => s.(writer := Call(s.current), deadline := d, pc := Registering(d))
       case Registering(d) =>
         s.(hooks := s.hooks[s.current := if s.current in s.cancelled then Started else Armed], pc := Inner(d))
       case Inner(_) => s.(pc := Stopping)
       case Stopping =>
         // stop() reports false when the callback has already started
         if s.hooks[s.current].Armed? then
           s.(hooks := s.hooks[s.current := Stopped]).(
           pc := if waits(s.current) then Between else Clearing,
           current := if waits(s.current) then s.current + 1 else s.current)
         else s.(pc := if waits(s.current) then Waiting else Clearing)
       case Waiting => s.(pc := Between, current := s.current + 1)
       case Clearing => s.(writer := Call(s.current), deadline := None, pc := Between, current := s.current + 1))
    case Cancel(k) =>
      s.(cancelled := s.cancelled + {k},
      hooks := if k in s.hooks && s.hooks[k].Armed? then s.hooks[k := Started] else s.hooks)
    case HookWrites(k, now) => s.(writer := Callback(k), deadline := Some(now), hooks := s.hooks[k := Written])
    case HookCloses(k) => s.(hooks := s.hooks[k := Fired])
  }

  ghost predicate Runs(waits: nat -> bool, s: State, steps: seq<Step>, s': State)
    decreases |steps|
  {
    if steps == [] then s == s'
    else Enabled(waits, s, steps[0]) && Runs(waits, Apply(waits, s, steps[0]), steps[1..], s')
  }

  /**
   What a call is promised while it is on the wire: the deadline in force is the
   one it set, or the one its own cancelled context's callback set.
   */
  ghost predicate OwnDeadline(s: State) {
    s.pc.Inner? ==>
      || (s.writer == Call(s.current) && s.deadline == s.pc.d)
      || (s.writer == Callback(s.current) && s.current in s.cancelled)
  }

  /** No callback of a call that has returned can still write. */
  ghost predicate NoLateWriter(s: State) {
    forall k :: k in s.hooks && (s.hooks[k].Armed? || s.hooks[k].Started?) ==> k == s.current && !s.pc.Between?
  }

  // ------------------------------------------------------------ every call waits

  ghost predicate Inv(s: State) {
    && NoLateWriter(s)
    && OwnDeadline(s)
    && (s.pc.Registering? ==> s.writer == Call(s.current) && s.deadline == s.pc.d)
    && (forall k :: k in s.hooks ==> k <= s.current)
    && (s.current in s.hooks ==> s.pc.Inner? || s.pc.Stopping? || s.pc.Waiting?)
    && (s.pc.Inner? || s.pc.Stopping? || s.pc.Waiting? ==> s.current in s.hooks && !s.hooks[s.current].Stopped?)
    && (s.pc.Waiting? ==> !s.hooks[s.current].Armed?)
    && (forall k :: k in s.hooks && !s.hooks[k].Armed? && !s.hooks[k].Stopped? ==> k in s.cancelled)
    && !s.pc.Clearing?
  }

  lemma StepKeepsInv(waits: nat -> bool, s: State, step: Step)
    requires (forall k :: waits(k)) && Inv(s) && Enabled(waits, s, step)
    ensures Inv(Apply(waits, s, step))
  {
  }

  /**
   Every call waits, so over any run and any timing of cancellations each call
   runs under its own deadline, and no callback writes after its call returned.
   */
  lemma {:induction false} CallsOwnTheirDeadline(waits: nat -> bool, s: State, steps: seq<Step>, s': State)
    requires (forall k :: waits(k)) && Inv(s) && Runs(waits, s, steps, s')
    ensures Inv(s') && OwnDeadline(s') && NoLateWriter(s')
    decreases |steps|
  {
    if steps != [] {
      StepKeepsInv(waits, s, steps[0]);
      CallsOwnTheirDeadline(waits, Apply(waits, s, steps[0]), steps[1..], s');
    }
  }

  /**
   A call reaches the wire under its context's deadline if that has one, whatever the
   timeout; else under the timeout, if it is positive; else under none. What an earlier
   call left on the connection does not matter.
   */
  lemma CallRunsUnderContextDeadline(waits: nat -> bool, s: State, ctx: Deadline, timeout: int, now: int) returns (s': State)
    requires s.pc.Between?
    ensures Runs(waits, s, [StartCall(ctx, timeout, now), Advance, Advance], s') && s'.pc.Inner?
    ensures s'.writer == Call(s.current) && s'.deadline == s'.pc.d
    ensures ctx.Some? ==> s'.deadline == ctx
    ensures ctx.None? && timeout > 0 ==> s'.deadline == Some(now + timeout)
    ensures ctx.None? && timeout <= 0 ==> s'.deadline == None
  {
    var s1 := Apply(waits, s, StartCall(ctx, timeout, now));
    var s2 := Apply(waits, s1, Advance);
    s' := Apply(waits, s2, Advance);
    var steps := [StartCall(ctx, timeout, now), Advance, Advance];
    assert steps[1..] == [Advance, Advance] && [Advance, Advance][1..] == [Advance] && [Advance][1..] == [];
    assert Runs(waits, s2, [Advance], s') by {
      assert Runs(waits, s', [], s');
    }
    assert Runs(waits, s1, [Advance, Advance], s');
  }

  // ------------------------------------------------------------ why they must

  lemma {:induction false} RunsThenStep(waits: nat -> bool, s: State, steps: seq<Step>, s1: State, step: Step)
    requires Runs(waits, s, steps, s1) && Enabled(waits, s1, step)
    ensures Runs(waits, s, steps + [step], Apply(waits, s1, step))
    decreases |steps|
  {
    if steps == [] {
      assert Runs(waits, Apply(waits, s1, step), [], Apply(waits, s1, step));
      assert [step][1..] == [];
    } else {
      RunsThenStep(waits, Apply(waits, s, steps[0]), steps[1..], s1, step);
      assert (steps + [step])[1..] == steps[1..] + [step];
    }
  }

  lemma Go(waits: nat -> bool, steps: seq<Step>, s: State, step: Step) returns (steps': seq<Step>, s': State)
    requires Runs(waits, INITIAL, steps, s) && Enabled(waits, s, step)
    ensures s' == Apply(waits, s, step) && Runs(waits, INITIAL, steps', s')
  {
    RunsThenStep(waits, INITIAL, steps, s, step);
    steps', s' := steps + [step], Apply(waits, s, step);
  }

  /** From a quiet connection a call starts and reaches the wire. */
  lemma CallReachesWire(waits: nat -> bool, steps: seq<Step>, s: State) returns (steps': seq<Step>, s': State)
    requires Runs(waits, INITIAL, steps, s) && s.pc.Between? && s.current !in s.cancelled
    ensures Runs(waits, INITIAL, steps', s')
    ensures s' == s.(writer := Call(s.current), deadline := None, pc := Inner(None), hooks := s.hooks[s.current := Armed])
  {
    steps', s' := Go(waits, steps, s, StartCall(None, 0, 0));
    steps', s' := Go(waits, steps', s', Advance);
    steps', s' := Go(waits, steps', s', Advance);
  }

  /** n undisturbed calls. */
  lemma {:induction false} CallsReturn(waits: nat -> bool, n: nat) returns (steps: seq<Step>, s: State)
    ensures Runs(waits, INITIAL, steps, s) && s.pc.Between? && s.current == n && s.cancelled == {}
  {
    if n == 0 {
      steps, s := [], INITIAL;
    } else {
      steps, s := CallsReturn(waits, n - 1);
      steps, s := CallReachesWire(waits, steps, s);
      steps, s := Go(waits, steps, s, Advance);
      steps, s := Go(waits, steps, s, Advance);
      if s.pc.Clearing? {
        steps, s := Go(waits, steps, s, Advance);
      }
    }
  }

  /**
   A call that only stops its callback, without waiting for one that has started,
   can break the call after it: its callback's write lands on that call's deadline.
   */
  lemma StopAloneIsNotEnough(waits: nat -> bool, k: nat) returns (steps: seq<Step>, s: State)
    requires !waits(k)
    ensures Runs(waits, INITIAL, steps, s) && !OwnDeadline(s) && !(s.current in s.cancelled)
  {
    steps, s := CallsReturn(waits, k);
    steps, s := CallReachesWire(waits, steps, s);
    hide Runs;
    steps, s := Go(waits, steps, s, Cancel(k));
    steps, s := StartedHookIsLeft(waits, steps, s);
    steps, s := CallReachesWire(waits, steps, s);
    steps, s := Go(waits, steps, s, HookWrites(k, 0));
  }

  /**
   What happens to a connection with a SASL handshake, which does not wait. The
   handshake and the first RPC run under one context, which is cancelled; the next RPC
   has its own, live context, and is on the wire when the handshake's callback gets to
   write: it runs under a deadline that has already passed.
   */
  lemma HandshakeCanBreakLaterCall(waits: nat -> bool) returns (steps: seq<Step>, s: State)
    requires !waits(0) && waits(1)
    ensures Runs(waits, INITIAL, steps, s) && s.cancelled == {0, 1}
    ensures s.current == 2 && s.pc.Inner? && s.writer == Callback(0) && !OwnDeadline(s)
  {
    hide Runs;
    steps, s := HandshakeLeavesCallback(waits);
    steps, s := CancelledCallReturns(waits, steps, s);
    steps, s := CallReachesWire(waits, steps, s);
    steps, s := Go(waits, steps, s, HookWrites(0, 0));
  }

  /** The handshake returns while its callback, and that of the RPC after it, are due. */
  lemma HandshakeLeavesCallback(waits: nat -> bool) returns (steps: seq<Step>, s: State)
    requires !waits(0)
    ensures Runs(waits, INITIAL, steps, s) && s.pc.Between? && s.current == 1
    ensures s.cancelled == {0, 1} && s.hooks == map[0 := Started]
  {
    assert Runs(waits, INITIAL, [], INITIAL);
    hide Runs;
    steps, s := CallReachesWire(waits, [], INITIAL);
    steps, s := Go(waits, steps, s, Cancel(0));
    steps, s := Go(waits, steps, s, Cancel(1));
    steps, s := StartedHookIsLeft(waits, steps, s);
  }

  /** A call that does not wait returns although its callback has started. */
  lemma StartedHookIsLeft(waits: nat -> bool, steps: seq<Step>, s: State) returns (steps': seq<Step>, s': State)
    requires Runs(waits, INITIAL, steps, s) && s.pc.Inner? && !waits(s.current)
    requires s.current in s.hooks && s.hooks[s.current].Started?
    ensures Runs(waits, INITIAL, steps', s')
    ensures s'.pc.Between? && s'.current == s.current + 1 && s'.hooks == s.hooks && s'.cancelled == s.cancelled
  {
    hide Runs;
    steps', s' := Go(waits, steps, s, Advance);
    steps', s' := Go(waits, steps', s', Advance);
    steps', s' := Go(waits, steps', s', Advance);
  }

  /** A call whose context is already cancelled, and which waits for its callback. */
  lemma CancelledCallReturns(waits: nat -> bool, steps: seq<Step>, s: State) returns (steps': seq<Step>, s': State)
    requires Runs(waits, INITIAL, steps, s) && s.pc.Between? && s.current in s.cancelled && waits(s.current)
    ensures Runs(waits, INITIAL, steps', s')
    ensures s'.pc.Between? && s'.current == s.current + 1 && s'.cancelled == s.cancelled
    ensures s'.hooks == s.hooks[s.current := Fired]
  {
    hide Runs;
    var k := s.current;
    steps', s' := Go(waits, steps, s, StartCall(None, 0, 0));
    steps', s' := Go(waits, steps', s', Advance);
    steps', s' := Go(waits, steps', s', Advance);
    steps', s' := Go(waits, steps', s', HookWrites(k, 0));
    steps', s' := Go(waits, steps', s', HookCloses(k));
    steps', s' := Go(waits, steps', s', Advance);
    steps', s' := Go(waits, steps', s', Advance);
    steps', s' := Go(waits, steps', s', Advance);
  }

  ghost predicate Reachable(waits: nat -> bool, s: State) {
    exists steps :: Runs(waits, INITIAL, steps, s)
  }

  /** Deadlines are owned in every run exactly when every call waits for a started callback. */
  lemma OwnershipIffAllWait(waits: nat -> bool)
    ensures (forall s :: Reachable(waits, s) ==> OwnDeadline(s)) <==> (forall k :: waits(k))
  {
    if forall k :: waits(k) {
      forall s | Reachable(waits, s) ensures OwnDeadline(s) {
        var steps :| Runs(waits, INITIAL, steps, s);
        CallsOwnTheirDeadline(waits, INITIAL, steps, s);
      }
    } else {
      var k: nat :| !waits(k);
      var steps, s := StopAloneIsNotEnough(waits, k);
      assert Reachable(waits, s) && !OwnDeadline(s);
    }
  }

  // ------------------------------------------------------------ run by run

  /** From the moment a call has set its deadline until its RPC returns, the deadline is its own. */
  ghost predicate Kept(s: State) {
    && (s.pc.Registering? ==> s.writer == Call(s.current) && s.deadline == s.pc.d)
    && OwnDeadline(s)
  }

  /** The callback of a call that has returned writes while another call relies on its own deadline. */
  predicate LateWrite(s: State, step: Step) {
    step.HookWrites? && step.k != s.current && (s.pc.Registering? || s.pc.Inner?)
  }

  /** Holds whoever waits. */
  ghost predicate Tidy(s: State) {
    && (forall k :: k in s.hooks ==> k <= s.current)
    && (s.current in s.hooks ==> s.pc.Inner? || s.pc.Stopping? || s.pc.Waiting? || s.pc.Clearing?)
    && (forall k :: k in s.hooks && !s.hooks[k].Armed? && !s.hooks[k].Stopped? ==> k in s.cancelled)
  }

  lemma StepKeepsDeadlineIff(waits: nat -> bool, s: State, step: Step)
    requires Tidy(s) && Kept(s) && Enabled(waits, s, step)
    ensures Tidy(Apply(waits, s, step))
    ensures Kept(Apply(waits, s, step)) <==> !LateWrite(s, step)
  {
  }

  ghost predicate KeptThroughout(waits: nat -> bool, s: State, steps: seq<Step>)
    requires CanRun(waits, s, steps)
    decreases |steps|
  {
    Kept(s) && (steps != [] ==> KeptThroughout(waits, Apply(waits, s, steps[0]), steps[1..]))
  }

  ghost predicate NoLateWrite(waits: nat -> bool, s: State, steps: seq<Step>)
    requires CanRun(waits, s, steps)
    decreases |steps|
  {
    steps != [] ==> !LateWrite(s, steps[0]) && NoLateWrite(waits, Apply(waits, s, steps[0]), steps[1..])
  }

  /** The steps can be taken one after another. */
  ghost predicate CanRun(waits: nat -> bool, s: State, steps: seq<Step>)
    decreases |steps|
  {
    steps != [] ==> Enabled(waits, s, steps[0]) && CanRun(waits, Apply(waits, s, steps[0]), steps[1..])
  }

  lemma {:induction false} KeptThroughoutIffFrom(waits: nat -> bool, s: State, steps: seq<Step>)
    requires Tidy(s) && Kept(s) && CanRun(waits, s, steps)
    ensures KeptThroughout(waits, s, steps) <==> NoLateWrite(waits, s, steps)
    decreases |steps|
  {
    if steps != [] {
      StepKeepsDeadlineIff(waits, s, steps[0]);
      if !LateWrite(s, steps[0]) {
        KeptThroughoutIffFrom(waits, Apply(waits, s, steps[0]), steps[1..]);
      }
    }
  }

  /**
   Whoever waits, on connections with and without a handshake: every call keeps its
   own deadline throughout a run exactly when no callback of an earlier call writes
   while it relies on it.
   */
  lemma KeptThroughoutIff(waits: nat -> bool, steps: seq<Step>)
    requires CanRun(waits, INITIAL, steps)
    ensures KeptThroughout(waits, INITIAL, steps) <==> NoLateWrite(waits, INITIAL, steps)
  {
    KeptThroughoutIffFrom(waits, INITIAL, steps);
  }
}
