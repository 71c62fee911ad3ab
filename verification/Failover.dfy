/**
 A retry goes to another endpoint: the retry loop's picks, answered by the cluster it
 marks its failures in.
 */
module Failover {
  import opened Arithmetic
  import opened Wrappers
  import opened Errors
  import opened Retry
  import C = Cluster

  // ------------------------------------------------------------ after one failure

  predicate FreeIn(s: C.State, e: nat, now: int) {
    e < |s.order| && e < |s.coolUntil| && !C.CoolingAt(s.coolUntil[e], now)
  }

  /** Once around from just after position p, only the last stop is p itself. */
  lemma OnlyLastStopIsStart(n: nat, p: nat, d: nat)
    requires p < n && d < n && (p + 1 + d) % n == p
    ensures d == n - 1
  {
    if d < n - 1 {
      if p + 1 + d < n {
        DivisionIsUnique(p + 1 + d, n, 0, p + 1 + d);
      } else {
        DivisionIsUnique(p + 1 + d, n, 1, p + 1 + d - n);
      }
    }
  }

  /** If any other endpoint is free when idx fails, a free one other than idx becomes active. */
  lemma AnotherBecomesActive(s: C.State, idx: nat, now: int, jitter: nat, other: nat) returns (e: nat)
    requires C.Valid(s) && idx < |s.order| && other != idx && FreeIn(s, other, now)
    ensures e != idx && C.ActiveAndFree(C.MarkedFailed(s, idx, now, jitter), e, now)
  {
    var d := C.FailureAdvances(s, idx, now, jitter);
    var s1, s' := C.Cooled(s, idx, now, jitter), C.MarkedFailed(s, idx, now, jitter);
    var n, start := |s.order|, s.posOf[idx] + 1;
    assert !C.CoolingAt(s1.coolUntil[other], now);
    e := s.order[s'.pos];
    var i := C.ModCovers(n, start, s.posOf[other]);
    assert C.At(s1, start, i) == other;
    assert i >= d;
    if e == idx {
      assert (start + d) % n == s.posOf[idx];
      OnlyLastStopIsStart(n, s.posOf[idx], d);
    }
  }

  /**
   After idx fails while another endpoint is free, every Pick until the next failure
   returns one and the same endpoint, which is not idx, however the clock moves on.
   */
  lemma NextPicksAvoidFailed(s: C.State, idx: nat, now: int, jitter: nat, other: nat, evs: seq<C.Event>)
    requires C.Valid(s) && idx < |s.order| && other != idx && FreeIn(s, other, now)
    requires C.QuietFrom(C.MarkedFailed(s, idx, now, jitter), evs, now)
    ensures var answers := C.Answers(C.MarkedFailed(s, idx, now, jitter), evs);
            forall i :: 0 <= i < |answers| ==> answers[i].Some? && answers[i] == answers[0] && answers[i].value != idx
  {
    var e := AnotherBecomesActive(s, idx, now, jitter, other);
    C.QuietKeepsAnswer(C.MarkedFailed(s, idx, now, jitter), e, now, evs);
  }

  /** At once after its failure idx is picked again exactly when its jitter left it free and every other endpoint cools. */
  lemma FailedIsPickedAgainIff(s: C.State, idx: nat, now: int, jitter: nat)
    requires C.Valid(s) && idx < |s.order|
    ensures C.Picked(C.MarkedFailed(s, idx, now, jitter), now).1 == Some(idx)
       <==> !C.CoolingAt(now + jitter, now) && forall e: nat :: e < |s.order| && e != idx ==> !FreeIn(s, e, now)
  {
    hide C.MarkedFailed, C.Picked, C.ActiveAndFree;
    var s' := C.MarkedFailed(s, idx, now, jitter);
    if other: nat :| other < |s.order| && other != idx && FreeIn(s, other, now) {
      var e := AnotherBecomesActive(s, idx, now, jitter, other);
      C.FreeActiveIsPicked(s', e, now, now);
    } else if !C.CoolingAt(now + jitter, now) {
      OnlyFreeBecomesActive(s, idx, now, jitter);
      C.FreeActiveIsPicked(s', idx, now, now);
    } else {
      CoolingIsNotPicked(s, idx, now, jitter);
    }
  }

  lemma OnlyFreeBecomesActive(s: C.State, idx: nat, now: int, jitter: nat)
    requires C.Valid(s) && idx < |s.order| && !C.CoolingAt(now + jitter, now)
    requires forall e: nat :: e < |s.order| && e != idx ==> !FreeIn(s, e, now)
    ensures C.ActiveAndFree(C.MarkedFailed(s, idx, now, jitter), idx, now)
  {
    var d := C.FailureAdvances(s, idx, now, jitter);
    hide C.MarkedFailed;
    var s1, s' := C.Cooled(s, idx, now, jitter), C.MarkedFailed(s, idx, now, jitter);
    assert !C.CoolingAt(s1.coolUntil[idx], now);
    var e := s.order[s'.pos];
    assert e == idx || !FreeIn(s, e, now);
  }

  lemma CoolingIsNotPicked(s: C.State, idx: nat, now: int, jitter: nat)
    requires C.Valid(s) && idx < |s.order| && C.CoolingAt(now + jitter, now)
    ensures C.Picked(C.MarkedFailed(s, idx, now, jitter), now).1 != Some(idx)
  {
    var d := C.FailureAdvances(s, idx, now, jitter);
    hide C.MarkedFailed, C.Picked;
    var d' := C.PickIsFirstAvailable(C.MarkedFailed(s, idx, now, jitter), now);
  }

  // ------------------------------------------------------------ over the attempts of one call

  /** What an event of the loop is to the cluster, at the time and with the jitter of its index. */
  function ToCluster(ev: Event, now: int, jitter: nat): C.Event {
    match ev
    case AllCooling => C.Pick(now)
    case Picked(_) => C.Pick(now)
    case MarkedFailed(idx) => C.Fail(idx, now, jitter)
    case MarkedHealthy(idx) => C.Heal(idx, now)
    case _ => C.List(now)
  }

  /** The cluster just before the i-th event. */
  function ClusterAt(s: C.State, log: seq<Event>, clock: nat -> int, jitter: nat -> nat, i: nat): C.State
    requires i <= |log|
  {
    if i == 0 then s
    else C.Apply(ClusterAt(s, log, clock, jitter, i - 1), ToCluster(log[i - 1], clock(i - 1), jitter(i - 1)))
  }

  /** The i-th event fits the cluster: a pick is the cluster's answer, and time goes forward. */
  ghost predicate Fits(s: C.State, log: seq<Event>, clock: nat -> int, jitter: nat -> nat, i: nat)
    requires i < |log|
  {
    var at := ClusterAt(s, log, clock, jitter, i);
    && C.Possible(at, ToCluster(log[i], clock(i), jitter(i)))
    && (log[i].Picked? ==> C.Picked(at, clock(i)).1 == Some(log[i].idx))
    && (log[i].AllCooling? ==> C.Picked(at, clock(i)).1 == None)
    && clock(i) <= clock(i + 1)
  }

  /** The loop runs against this cluster. */
  ghost predicate RunsAgainst(s: C.State, log: seq<Event>, clock: nat -> int, jitter: nat -> nat) {
    forall i: nat :: i < |log| ==> Fits(s, log, clock, jitter, i)
  }

  predicate Opens(ev: Event) { ev.Picked? || ev.AllCooling? }

  /** Attempts begin by asking the cluster, and a failure is marked last in its attempt. */
  ghost predicate AsksAfterFailure(log: seq<Event>) {
    && (log != [] ==> Opens(log[0]))
    && forall i :: 0 <= i < |log| - 1 && log[i].MarkedFailed? ==> Opens(log[i + 1])
  }

  lemma JudgeAsks<T>(op: string, idempotent: bool, last: Option<Err>, a: Attempt<T>)
    ensures AsksAfterFailure(Judge(op, idempotent, last, a).0)
  {
    hide Classify, IsProtocolError, WrapError, Has, JoinUnavailable;
  }

  lemma AsksConcat(a: seq<Event>, b: seq<Event>)
    requires AsksAfterFailure(a) && AsksAfterFailure(b)
    ensures AsksAfterFailure(a + b)
  {
    var log := a + b;
    forall i | 0 <= i < |log| - 1 && log[i].MarkedFailed? ensures Opens(log[i + 1]) {
      if i >= |a| {
        assert log[i] == b[i - |a|] && log[i + 1] == b[i + 1 - |a|];
      }
    }
  }

  lemma {:induction false} LoopAsks<T>(
    op: string, idempotent: bool, schedule: nat -> Attempt<T>, k: nat, left: nat, last: Option<Err>)
    ensures AsksAfterFailure(Loop(op, idempotent, schedule, k, left, last).log)
    decreases left
  {
    hide AsksAfterFailure, Judge, WrapError;
    if left == 0 {
      NothingAsks();
    } else {
      var (log, verdict) := Judge(op, idempotent, last, schedule(k));
      JudgeAsks(op, idempotent, last, schedule(k));
      if verdict.Again? {
        LoopAsks(op, idempotent, schedule, k + 1, left - 1, Some(verdict.last));
        AsksConcat(log, Loop(op, idempotent, schedule, k + 1, left - 1, Some(verdict.last)).log);
      }
    }
  }

  lemma NothingAsks()
    ensures AsksAfterFailure([])
  {
  }

  lemma {:induction false} ClusterStaysValid(s: C.State, log: seq<Event>, clock: nat -> int, jitter: nat -> nat, i: nat)
    requires C.Valid(s) && RunsAgainst(s, log, clock, jitter) && i <= |log|
    ensures C.Valid(ClusterAt(s, log, clock, jitter, i)) && |ClusterAt(s, log, clock, jitter, i).order| == |s.order|
  {
    hide C.Valid, C.Apply, C.Picked;
    if i > 0 {
      assert Fits(s, log, clock, jitter, i - 1);
      ClusterStaysValid(s, log, clock, jitter, i - 1);
      C.ApplyKeepsValid(ClusterAt(s, log, clock, jitter, i - 1), ToCluster(log[i - 1], clock(i - 1), jitter(i - 1)));
    }
  }

  /**
   Within one call: whenever an endpoint is marked failed while another is free, and the
   loop goes on, its next attempt picks an endpoint other than the failed one.
   */
  lemma RetryGoesElsewhere<T>(
    op: string, idempotent: bool, maxRetries: int, schedule: nat -> Attempt<T>,
    s: C.State, clock: nat -> int, jitter: nat -> nat, i: nat, other: nat)
    requires var log := DoSpec(op, idempotent, maxRetries, schedule).log;
             && C.Valid(s) && RunsAgainst(s, log, clock, jitter)
             && i + 1 < |log| && log[i].MarkedFailed? && other != log[i].idx
             && FreeIn(ClusterAt(s, log, clock, jitter, i), other, clock(i))
    ensures var log := DoSpec(op, idempotent, maxRetries, schedule).log;
            log[i + 1].Picked? && log[i + 1].idx != log[i].idx
  {
    hide Loop, C.Valid, C.MarkedFailed, C.Picked, FreeIn;
    var log := DoSpec(op, idempotent, maxRetries, schedule).log;
    LoopAsks(op, idempotent, schedule, 0, ClampRetries(maxRetries), None);
    assert Opens(log[i + 1]);
    ClusterStaysValid(s, log, clock, jitter, i);
    FailureMovesOn(s, log, clock, jitter, i, other);
  }

  lemma FailureMovesOn(s: C.State, log: seq<Event>, clock: nat -> int, jitter: nat -> nat, i: nat, other: nat)
    requires RunsAgainst(s, log, clock, jitter) && i + 1 < |log| && log[i].MarkedFailed?
    requires C.Valid(ClusterAt(s, log, clock, jitter, i))
    requires other != log[i].idx && FreeIn(ClusterAt(s, log, clock, jitter, i), other, clock(i))
    ensures !log[i + 1].AllCooling? && (log[i + 1].Picked? ==> log[i + 1].idx != log[i].idx)
  {
    hide C.MarkedFailed, C.Picked, C.ActiveAndFree;
    var at, idx := ClusterAt(s, log, clock, jitter, i), log[i].idx;
    assert Fits(s, log, clock, jitter, i) && Fits(s, log, clock, jitter, i + 1);
    var e := AnotherBecomesActive(at, idx, clock(i), jitter(i), other);
    assert ClusterAt(s, log, clock, jitter, i + 1) == C.MarkedFailed(at, idx, clock(i), jitter(i));
    C.FreeActiveIsPicked(C.MarkedFailed(at, idx, clock(i), jitter(i)), e, clock(i), clock(i + 1));
  }
}
