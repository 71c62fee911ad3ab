/**
 The retry loop every RPC runs in.

 What the loop cannot decide is the schedule: which endpoint Pick returns, what
 acquire and fn answer, and whether the caller's context has ended by then. The
 loop is proved against a function of the schedule, and its promises are proved
 about the log of events that function produces.
 */
module Retry {
  import opened Wrappers
  import opened Errors

  type Conn = nat

  /** What fn does with a connection: it stores a value for the caller, or fails. */
  datatype Outcome<+T> = Answer(value: T) | Error(err: Err)

  /** The environment of one attempt; done says that ctx has ended at that point. */
  datatype Attempt<+T> = Attempt(
    pick: Option<nat>,
    acquired: Result<Conn, Err>,
    doneAtAcquire: bool,
    outcome: Outcome<T>,
    doneAtReturn: bool)

  datatype Event =
    | AllCooling
    | Picked(idx: nat)
    | AcquireFailed(idx: nat, err: Err, done: bool)
    | Acquired(idx: nat, c: Conn)
    | Started(idx: nat, c: Conn)
    | Returned(idx: nat, c: Conn, result: Option<Err>, done: bool)
    | Released(idx: nat, c: Conn)
    | Discarded(idx: nat, c: Conn)
    | MarkedFailed(idx: nat)
    | MarkedHealthy(idx: nat)

  /** How an attempt ends: another one, or the loop's result and what fn stored. */
  datatype Verdict<+T> = Again(last: Err) | Stop(err: Option<Err>, stored: Option<T>)

  /** config.clamp: an RPC is always attempted at least once, and a usable setting is kept. */
  function ClampRetries(maxRetries: int): (r: nat)
    ensures r >= 1 && (maxRetries >= 1 ==> r == maxRetries)
  {
    if maxRetries < 1 then 1 else maxRetries
  }

  // ------------------------------------------------------------ the specification

  function ErrorOf<T>(o: Outcome<T>): Option<Err> { if o.Answer? then None else Some(o.err) }

  /** The events of an attempt that got a connection, up to fn's return. */
  function Head<T>(idx: nat, c: Conn, a: Attempt<T>): seq<Event> {
    [Picked(idx), Acquired(idx, c), Started(idx, c), Returned(idx, c, ErrorOf(a.outcome), a.doneAtReturn)]
  }

  /** The events and the verdict of one attempt. */
  function Judge<T>(op: string, idempotent: bool, last: Option<Err>, a: Attempt<T>): (seq<Event>, Verdict<T>) {
    if a.pick.None? then ([AllCooling], Stop(Some(WrapError(op, JoinUnavailable(last))), None))
    else
      var idx := a.pick.value;
      match a.acquired
      case Fail(e) =>
        var head := [Picked(idx), AcquireFailed(idx, e, a.doneAtAcquire)];
        if a.doneAtAcquire || Has(e, Closed) then (head, Stop(Some(WrapError(op, e)), None))
        else (head + [MarkedFailed(idx)], Again(e))
      case Ok(c) =>
        var head := Head(idx, c, a);
        match a.outcome
        case Answer(v) => (head + [Released(idx, c), MarkedHealthy(idx)], Stop(None, Some(v)))
        case Error(e) =>
          if Classify(e) == Unavailable then
            if a.doneAtReturn then (head + [Discarded(idx, c)], Stop(Some(WrapError(op, e)), None))
            else (head + [Discarded(idx, c), MarkedFailed(idx)],
                  if idempotent then Again(e) else Stop(Some(WrapError(op, e)), None))
          else (head + [if IsProtocolError(e) then Discarded(idx, c) else Released(idx, c), MarkedHealthy(idx)],
                Stop(Some(WrapError(op, e)), None))
  }

  datatype Result3<+T> = Result3(err: Option<Err>, stored: Option<T>, log: seq<Event>)

  /** The loop from attempt k with left attempts to go. */
  function Loop<T>(op: string, idempotent: bool, schedule: nat -> Attempt<T>, k: nat, left: nat, last: Option<Err>)
    : Result3<T>
    decreases left
  {
    if left == 0 then Result3(if last.None? then None else Some(WrapError(op, last.value)), None, [])
    else
      var (log, verdict) := Judge(op, idempotent, last, schedule(k));
      match verdict
      case Stop(err, stored) => Result3(err, stored, log)
      case Again(e) =>
        var rest := Loop(op, idempotent, schedule, k + 1, left - 1, Some(e));
        Result3(rest.err, rest.stored, log + rest.log)
  }

  function DoSpec<T>(op: string, idempotent: bool, maxRetries: int, schedule: nat -> Attempt<T>): Result3<T> {
    Loop(op, idempotent, schedule, 0, ClampRetries(maxRetries), None)
  }

  // ------------------------------------------------------------ the loop itself

  /**
   One turn of the loop: pick, acquire, run fn, dispose of the connection, decide. It
   logs the outcome its environment decided, disposes of the connection, cools and heals
   as that outcome demands, asks for another
   turn only when that is allowed, and ends with nil exactly when fn returned nil.
   */
  method RunAttempt<T>(op: string, idempotent: bool, last: Option<Err>, a: Attempt<T>)
    returns (log: seq<Event>, verdict: Verdict<T>)
    ensures Tells(op, idempotent, last, a, log, verdict)
    ensures Sound(idempotent, a, log) && Decides(idempotent, a, verdict)
    ensures (log, verdict) == Judge(op, idempotent, last, a)
  {
    hide Judge;
    JudgeTells(op, idempotent, last, a);
    JudgeSound(op, idempotent, last, a);
    JudgeVerdict(op, idempotent, last, a);
    log, verdict := Attempted(op, idempotent, last, a);
  }

  method Attempted<T>(op: string, idempotent: bool, last: Option<Err>, a: Attempt<T>)
    returns (log: seq<Event>, verdict: Verdict<T>)
    ensures (log, verdict) == Judge(op, idempotent, last, a)
  {
    if a.pick.None? {
      return [AllCooling], Stop(Some(WrapError(op, JoinUnavailable(last))), None);
    }
    var idx := a.pick.value;
    log := [Picked(idx)];
    if a.acquired.Fail? {
      var e := a.acquired.error;
      log := log + [AcquireFailed(idx, e, a.doneAtAcquire)];
      assert log == [Picked(idx), AcquireFailed(idx, e, a.doneAtAcquire)];
      if a.doneAtAcquire || Has(e, Closed) {
        return log, Stop(Some(WrapError(op, e)), None);
      }
      return log + [MarkedFailed(idx)], Again(e);
    }
    var c := a.acquired.value;
    log := log + [Acquired(idx, c), Started(idx, c), Returned(idx, c, ErrorOf(a.outcome), a.doneAtReturn)];
    assert log == Head(idx, c, a);
    if a.outcome.Answer? {
      return log + [Released(idx, c), MarkedHealthy(idx)], Stop(None, Some(a.outcome.value));
    }
    var e := a.outcome.err;
    if Classify(e) == Unavailable {
      log := log + [Discarded(idx, c)];
      if !a.doneAtReturn {
        log := log + [MarkedFailed(idx)];
        assert log == Head(idx, c, a) + [Discarded(idx, c), MarkedFailed(idx)];
        if idempotent {
          return log, Again(e);
        }
      }
    } else {
      if IsProtocolError(e) {
        log := log + [Discarded(idx, c)];
      } else {
        log := log + [Released(idx, c)];
      }
      log := log + [MarkedHealthy(idx)];
      assert log == Head(idx, c, a) + [if IsProtocolError(e) then Discarded(idx, c) else Released(idx, c), MarkedHealthy(idx)];
    }
    return log, Stop(Some(WrapError(op, e)), None);
  }

  method Do<T>(op: string, idempotent: bool, maxRetries: int, schedule: nat -> Attempt<T>)
    returns (err: Option<Err>, stored: Option<T>, log: seq<Event>)
    ensures Result3(err, stored, log) == DoSpec(op, idempotent, maxRetries, schedule)
  {
    hide Judge, WrapError, Tells, Sound, Decides;
    log := [];
    var last: Option<Err> := None;
    var attempts := ClampRetries(maxRetries);
    var attempt := 0;
    while attempt < attempts
      invariant 0 <= attempt <= attempts
      invariant var rest := Loop(op, idempotent, schedule, attempt, attempts - attempt, last);
                Result3(rest.err, rest.stored, log + rest.log) == DoSpec(op, idempotent, maxRetries, schedule)
    {
      ghost var before, rest := log, Loop(op, idempotent, schedule, attempt, attempts - attempt, last);
      var events, verdict := RunAttempt(op, idempotent, last, schedule(attempt));
      log := log + events;
      if verdict.Stop? {
        return verdict.err, verdict.stored, log;
      }
      last := Some(verdict.last);
      attempt := attempt + 1;
      ghost var tail := Loop(op, idempotent, schedule, attempt, attempts - attempt, last);
      assert before + (events + tail.log) == log + tail.log;
    }
    return if last.None? then None else Some(WrapError(op, last.value)), None, log;
  }

  // ------------------------------------------------------------ what the log promises

  function Count(log: seq<Event>, p: Event -> bool): nat
    decreases |log|
  {
    if log == [] then 0 else (if p(log[0]) then 1 else 0) + Count(log[1..], p)
  }

  lemma {:induction false} CountConcat(a: seq<Event>, b: seq<Event>, p: Event -> bool)
    ensures Count(a + b, p) == Count(a, p) + Count(b, p)
    decreases |a|
  {
    if a == [] {
      assert a + b == b;
    } else {
      assert (a + b)[1..] == a[1..] + b;
      CountConcat(a[1..], b, p);
    }
  }

  datatype Loan = NoLoan | OnLoan(idx: nat, c: Conn) | Broken

  /** A monitor of the connection in hand: acquired once, disposed of once, same endpoint and connection. */
  function LoanAfter(loan: Loan, ev: Event): Loan {
    match ev
    case Acquired(idx, c) => if loan.NoLoan? then OnLoan(idx, c) else Broken
    case Started(idx, c) => if loan == OnLoan(idx, c) then loan else Broken
    case Returned(idx, c, _, _) => if loan == OnLoan(idx, c) then loan else Broken
    case Released(idx, c) => if loan == OnLoan(idx, c) then NoLoan else Broken
    case Discarded(idx, c) => if loan == OnLoan(idx, c) then NoLoan else Broken
    case _ => loan
  }

  function LoanOver(loan: Loan, log: seq<Event>): Loan
    decreases |log|
  {
    if log == [] then loan else LoanOver(LoanAfter(loan, log[0]), log[1..])
  }

  lemma {:induction false} LoanOverConcat(loan: Loan, a: seq<Event>, b: seq<Event>)
    ensures LoanOver(loan, a + b) == LoanOver(LoanOver(loan, a), b)
    decreases |a|
  {
    if a == [] {
      assert a + b == b;
    } else {
      assert (a + b)[1..] == a[1..] + b;
      LoanOverConcat(LoanAfter(loan, a[0]), a[1..], b);
    }
  }

  /** fn failed in a way that lets an idempotent call be run again. */
  predicate Restartable(ev: Event) {
    ev.Returned? && ev.result.Some? && Classify(ev.result.value) == Unavailable && !ev.done
  }

  /** fn is started again only after a failure that allows it. */
  ghost predicate RestartsJustly(idempotent: bool, log: seq<Event>) {
    forall i, j :: 0 <= i < j < |log| && log[i].Returned? && log[j].Started? ==> idempotent && Restartable(log[i])
  }

  /**
   An endpoint is cooled only for a failure of its own: a dial or acquire failure,
   or an unavailable fn, each under a live context and an open client.
   */
  ghost predicate CooledFor(log: seq<Event>, i: nat)
    requires i < |log| && log[i].MarkedFailed?
  {
    || (i >= 1 && log[i - 1].AcquireFailed? && log[i - 1].idx == log[i].idx
        && !log[i - 1].done && !Has(log[i - 1].err, Closed))
    || (i >= 2 && log[i - 1].Discarded? && log[i - 2].Returned? && Restartable(log[i - 2])
        && log[i - 2].idx == log[i].idx)
  }

  ghost predicate CoolsJustly(log: seq<Event>) {
    forall i :: 0 <= i < |log| && log[i].MarkedFailed? ==> CooledFor(log, i)
  }

  /** What must follow fn's return: a discard exactly when fn left the connection's state unknown. */
  function Disposal(ret: Event): Event
    requires ret.Returned?
  {
    if ret.result.Some? && (Classify(ret.result.value) == Unavailable || IsProtocolError(ret.result.value))
    then Discarded(ret.idx, ret.c) else Released(ret.idx, ret.c)
  }

  ghost predicate DisposesJustly(log: seq<Event>) {
    forall i :: 0 <= i < |log| && log[i].Returned? ==> i + 1 < |log| && log[i + 1] == Disposal(log[i])
  }

  /**
   And every outcome is that of the endpoint picked, and is reported: an endpoint that
   could not be reached, or was unavailable, is cooled unless the context or the client had ended; one that gave
   any other answer, an error included, is marked healthy.
   */
  ghost predicate ReportedAt(log: seq<Event>, i: nat)
    requires i < |log|
  {
    match log[i]
    case AcquireFailed(idx, e, done) =>
      && i >= 1 && log[i - 1] == Picked(idx)
      && (!done && !Has(e, Closed) ==> i + 1 < |log| && log[i + 1] == MarkedFailed(idx))
    case Acquired(idx, _) => i >= 1 && log[i - 1] == Picked(idx)
    case Returned(idx, _, result, done) =>
      if result.Some? && Classify(result.value) == Unavailable
      then !done ==> i + 2 < |log| && log[i + 2] == MarkedFailed(idx)
      else i + 2 < |log| && log[i + 2] == MarkedHealthy(idx)
    case MarkedHealthy(idx) =>
      && i >= 2 && log[i - 2].Returned? && log[i - 2].idx == idx
      && (log[i - 2].result.Some? ==> Classify(log[i - 2].result.value) != Unavailable)
    case _ => true
  }

  ghost predicate ReportsDuly(log: seq<Event>) {
    forall i :: 0 <= i < |log| ==> ReportedAt(log, i)
  }

  /** The failure a caller should hear of, after an event. */
  function FailureAfter(last: Option<Err>, ev: Event): Option<Err> {
    match ev
    case AllCooling => Some(JoinUnavailable(last))
    case AcquireFailed(_, e, _) => Some(e)
    case Returned(_, _, result, _) => if result.Some? then result else last
    case _ => last
  }

  function FailureOver(last: Option<Err>, log: seq<Event>): Option<Err>
    decreases |log|
  {
    if log == [] then last else FailureOver(FailureAfter(last, log[0]), log[1..])
  }

  lemma {:induction false} FailureOverConcat(last: Option<Err>, a: seq<Event>, b: seq<Event>)
    ensures FailureOver(last, a + b) == FailureOver(FailureOver(last, a), b)
    decreases |a|
  {
    if a == [] {
      assert a + b == b;
    } else {
      assert (a + b)[1..] == a[1..] + b;
      FailureOverConcat(FailureAfter(last, a[0]), a[1..], b);
    }
  }

  lemma {:induction false} NoFailureIn(last: Option<Err>, log: seq<Event>)
    requires forall i :: 0 <= i < |log| ==> !log[i].AllCooling? && !log[i].AcquireFailed? && !log[i].Returned?
    ensures FailureOver(last, log) == last
    decreases |log|
  {
    if log != [] {
      NoFailureIn(last, log[1..]);
    }
  }

  lemma OneFailureIn(last: Option<Err>, log: seq<Event>, k: nat)
    requires k < |log|
    requires forall i :: 0 <= i < |log| && i != k ==> !log[i].AllCooling? && !log[i].AcquireFailed? && !log[i].Returned?
    ensures FailureOver(last, log) == FailureAfter(last, log[k])
  {
    assert log == log[..k] + log[k..] && log[k..][1..] == log[k + 1..];
    FailureOverConcat(last, log[..k], log[k..]);
    NoFailureIn(last, log[..k]);
    NoFailureIn(FailureAfter(last, log[k]), log[k + 1..]);
  }

  predicate IsPick(ev: Event) { ev.Picked? }

  predicate IsStart(ev: Event) { ev.Started? }

  predicate IsReturn(ev: Event) { ev.Returned? }

  predicate IsOutcome(ev: Event) { ev.AllCooling? || ev.AcquireFailed? || ev.Returned? }

  function LastOf(log: seq<Event>, p: Event -> bool): (r: Option<Event>)
    ensures r.Some? ==> p(r.value)
    decreases |log|
  {
    if log == [] then None
    else if p(log[|log| - 1]) then Some(log[|log| - 1])
    else LastOf(log[..|log| - 1], p)
  }

  /** fn's last run, if it ran at all. */
  function LastReturn(log: seq<Event>): (r: Option<Event>)
    ensures r.Some? ==> r.value.Returned?
  {
    LastOf(log, IsReturn)
  }

  lemma {:induction false} LastOfConcat(a: seq<Event>, b: seq<Event>, p: Event -> bool)
    ensures LastOf(a + b, p) == if LastOf(b, p).Some? then LastOf(b, p) else LastOf(a, p)
    decreases |b|
  {
    if b == [] {
      assert a + b == a;
    } else {
      assert (a + b)[..|a + b| - 1] == a + b[..|b| - 1];
      LastOfConcat(a, b[..|b| - 1], p);
    }
  }

  lemma {:induction false} NoneIn(log: seq<Event>, p: Event -> bool)
    requires forall i :: 0 <= i < |log| ==> !p(log[i])
    ensures LastOf(log, p) == None
    decreases |log|
  {
    if log != [] {
      NoneIn(log[..|log| - 1], p);
    }
  }

  lemma OneIn(log: seq<Event>, k: nat, p: Event -> bool)
    requires k < |log| && p(log[k]) && forall i :: 0 <= i < |log| && i != k ==> !p(log[i])
    ensures LastOf(log, p) == Some(log[k])
  {
    assert log == log[..k + 1] + log[k + 1..];
    NoneIn(log[k + 1..], p);
    LastOfConcat(log[..k + 1], log[k + 1..], p);
  }

  /** The loop goes on after this, if it has attempts left. */
  predicate Retryable(idempotent: bool, ev: Event) {
    || (ev.AcquireFailed? && !ev.done && !Has(ev.err, Closed))
    || (idempotent && Restartable(ev))
  }

  /** It gave up only because its attempts ran out or its last outcome forbids another. */
  ghost predicate GivesUpJustly(idempotent: bool, left: nat, log: seq<Event>) {
    || Count(log, IsPick) == left
    || (LastOf(log, IsOutcome).Some? && !Retryable(idempotent, LastOf(log, IsOutcome).value))
  }

  /** Unfolds the folds over a log one event at a time. */
  lemma Unfold(log: seq<Event>, i: nat, loan: Loan)
    requires i < |log|
    ensures LoanOver(loan, log[i..]) == LoanOver(LoanAfter(loan, log[i]), log[i + 1..])
    ensures Count(log[i..], IsPick) == (if IsPick(log[i]) then 1 else 0) + Count(log[i + 1..], IsPick)
    ensures Count(log[i..], IsStart) == (if IsStart(log[i]) then 1 else 0) + Count(log[i + 1..], IsStart)
  {
    assert log[i..][1..] == log[i + 1..];
  }

  /** What one attempt's events add up to. */
  ghost predicate BlockIs(log: seq<Event>, picks: nat, starts: nat, last: Option<Event>) {
    && LoanOver(NoLoan, log) == NoLoan
    && Count(log, IsPick) == picks && Count(log, IsStart) == starts
    && LastReturn(log) == last
  }

  lemma ShortBlock(log: seq<Event>)
    requires |log| <= 3 && (|log| > 0 ==> log[0].AllCooling? || log[0].Picked?)
    requires forall i :: 0 < i < |log| ==> log[i].AcquireFailed? || log[i].MarkedFailed?
    ensures BlockIs(log, if |log| > 0 && log[0].Picked? then 1 else 0, 0, None)
  {
    NoneIn(log, IsReturn);
    assert log[0..] == log && log[|log|..] == [];
    for i := 0 to |log|
      invariant LoanOver(NoLoan, log) == LoanOver(NoLoan, log[i..])
      invariant Count(log, IsPick) == Count(log[i..], IsPick) + if i > 0 && log[0].Picked? then 1 else 0
      invariant Count(log, IsStart) == Count(log[i..], IsStart)
    {
      Unfold(log, i, NoLoan);
    }
  }

  predicate IsLong(idx: nat, c: Conn, ret: Event, log: seq<Event>) {
    && 5 <= |log| <= 6 && ret.Returned? && ret.idx == idx && ret.c == c
    && log[0] == Picked(idx) && log[1] == Acquired(idx, c) && log[2] == Started(idx, c) && log[3] == ret
    && (log[4] == Released(idx, c) || log[4] == Discarded(idx, c))
    && (|log| == 6 ==> log[5].MarkedFailed? || log[5].MarkedHealthy?)
  }

  lemma LongBlock(idx: nat, c: Conn, ret: Event, log: seq<Event>)
    requires IsLong(idx, c, ret, log)
    ensures BlockIs(log, 1, 1, Some(ret))
  {
    OneIn(log, 3, IsReturn);
    LongBlockEnd(idx, c, ret, log);
    hide LastOf, Count, LoanOver;
    assert log[0..] == log;
    Unfold(log, 0, NoLoan);
    Unfold(log, 1, NoLoan);
    Unfold(log, 2, OnLoan(idx, c));
    Unfold(log, 3, OnLoan(idx, c));
  }

  lemma LongBlockEnd(idx: nat, c: Conn, ret: Event, log: seq<Event>)
    requires IsLong(idx, c, ret, log)
    ensures LoanOver(OnLoan(idx, c), log[4..]) == NoLoan
    ensures Count(log[4..], IsPick) == 0 && Count(log[4..], IsStart) == 0
  {
    assert log[|log|..] == [];
    Unfold(log, 4, OnLoan(idx, c));
    if |log| == 6 {
      Unfold(log, 5, NoLoan);
    }
  }

  /** fn ran in this attempt. */
  predicate Ran<T>(a: Attempt<T>) { a.pick.Some? && a.acquired.Ok? }

  function ReturnOf<T>(a: Attempt<T>): Event
    requires Ran(a)
  {
    Returned(a.pick.value, a.acquired.value, ErrorOf(a.outcome), a.doneAtReturn)
  }

  lemma JudgeCounts<T>(op: string, idempotent: bool, last: Option<Err>, a: Attempt<T>)
    ensures BlockIs(Judge(op, idempotent, last, a).0, if a.pick.Some? then 1 else 0, if Ran(a) then 1 else 0,
                    if Ran(a) then Some(ReturnOf(a)) else None)
  {
    var log := Judge(op, idempotent, last, a).0;
    if Ran(a) {
      LongBlock(a.pick.value, a.acquired.value, ReturnOf(a), log);
    } else {
      ShortBlock(log);
    }
  }

  /** At most one Returned, which is the attempt's, and no start after it. */
  ghost predicate OneReturn<T>(a: Attempt<T>, log: seq<Event>) {
    && (forall i :: 0 <= i < |log| && log[i].Returned? ==> Ran(a) && log[i] == ReturnOf(a))
    && (forall i, j :: 0 <= i < j < |log| ==> !(log[i].Returned? && log[j].Started?))
  }

  lemma JudgeReturnsOnce<T>(op: string, idempotent: bool, last: Option<Err>, a: Attempt<T>)
    ensures OneReturn(a, Judge(op, idempotent, last, a).0)
  {
    hide Classify, IsProtocolError, WrapError, Has, JoinUnavailable;
  }

  lemma JudgeCoolsJustly<T>(op: string, idempotent: bool, last: Option<Err>, a: Attempt<T>)
    ensures CoolsJustly(Judge(op, idempotent, last, a).0)
  {
    hide Classify, IsProtocolError, WrapError, Has;
  }

  lemma JudgeDisposesJustly<T>(op: string, idempotent: bool, last: Option<Err>, a: Attempt<T>)
    ensures DisposesJustly(Judge(op, idempotent, last, a).0)
  {
    hide Classify, IsProtocolError, WrapError, Has;
  }

  lemma JudgeReportsDuly<T>(op: string, idempotent: bool, last: Option<Err>, a: Attempt<T>)
    ensures ReportsDuly(Judge(op, idempotent, last, a).0)
  {
    hide Classify, IsProtocolError, WrapError, Has;
  }

  /** An attempt passes on the failure its events show. */
  lemma JudgeFails<T>(op: string, idempotent: bool, last: Option<Err>, a: Attempt<T>)
    ensures var (log, v) := Judge(op, idempotent, last, a);
            var failure := FailureOver(last, log);
            && (v.Again? ==> failure == Some(v.last))
            && (v.Stop? && v.err.Some? ==> failure.Some? && v.err.value == WrapError(op, failure.value))
  {
    hide Classify, IsProtocolError, WrapError, Has, JoinUnavailable, FailureOver;
    OneFailureIn(last, Judge(op, idempotent, last, a).0, if a.pick.None? then 0 else if a.acquired.Fail? then 1 else 3);
  }

  /** How an attempt came out, as its environment decided it. */
  function OutcomeOf<T>(a: Attempt<T>): Event {
    if a.pick.None? then AllCooling
    else match a.acquired
         case Fail(e) => AcquireFailed(a.pick.value, e, a.doneAtAcquire)
         case Ok(c) => Returned(a.pick.value, c, ErrorOf(a.outcome), a.doneAtReturn)
  }

  /** The error an attempt that does not answer leaves behind. */
  function CauseOf<T>(last: Option<Err>, a: Attempt<T>): Err
    requires !(Ran(a) && a.outcome.Answer?)
  {
    if a.pick.None? then JoinUnavailable(last)
    else if a.acquired.Fail? then a.acquired.error
    else a.outcome.err
  }

  /**
   The log and the verdict are those of this attempt: its outcome, and no other, is in
   the log; the endpoint is cooled exactly for a failure of its own under a live context;
   another turn is asked for exactly when that outcome allows one; and otherwise the
   result is the attempt's error, wrapped.
   */
  ghost predicate Tells<T>(
    op: string, idempotent: bool, last: Option<Err>, a: Attempt<T>, log: seq<Event>, v: Verdict<T>)
  {
    && Filter(log, IsOutcome) == [OutcomeOf(a)]
    && (a.pick.Some? ==>
          (MarkedFailed(a.pick.value) in log <==> Retryable(true, OutcomeOf(a))))
    && (v.Again? <==> Retryable(idempotent, OutcomeOf(a)))
    && (!(Ran(a) && a.outcome.Answer?) ==>
          v == if v.Again? then Again(CauseOf(last, a)) else Stop(Some(WrapError(op, CauseOf(last, a))), None))
  }

  function Filter(log: seq<Event>, p: Event -> bool): seq<Event>
    decreases |log|
  {
    if log == [] then [] else (if p(log[0]) then [log[0]] else []) + Filter(log[1..], p)
  }

  lemma {:induction false} FilterConcat(a: seq<Event>, b: seq<Event>, p: Event -> bool)
    ensures Filter(a + b, p) == Filter(a, p) + Filter(b, p)
    decreases |a|
  {
    if a == [] {
      assert a + b == b;
    } else {
      assert (a + b)[1..] == a[1..] + b;
      FilterConcat(a[1..], b, p);
      var head := if p(a[0]) then [a[0]] else [];
      assert head + (Filter(a[1..], p) + Filter(b, p)) == (head + Filter(a[1..], p)) + Filter(b, p);
    }
  }

  lemma {:induction false} FilterNone(log: seq<Event>, p: Event -> bool)
    requires forall i :: 0 <= i < |log| ==> !p(log[i])
    ensures Filter(log, p) == []
    decreases |log|
  {
    if log != [] {
      FilterNone(log[1..], p);
    }
  }

  lemma FilterOne(log: seq<Event>, k: nat, p: Event -> bool)
    requires k < |log| && p(log[k]) && forall i :: 0 <= i < |log| && i != k ==> !p(log[i])
    ensures Filter(log, p) == [log[k]]
  {
    assert log == log[..k] + log[k..] && log[k..][1..] == log[k + 1..];
    FilterNone(log[..k], p);
    FilterNone(log[k + 1..], p);
    FilterConcat(log[..k], log[k..], p);
  }

  lemma JudgeOutcome<T>(op: string, idempotent: bool, last: Option<Err>, a: Attempt<T>)
    ensures Filter(Judge(op, idempotent, last, a).0, IsOutcome) == [OutcomeOf(a)]
  {
    hide Classify, IsProtocolError, WrapError, Has, JoinUnavailable, Filter;
    FilterOne(Judge(op, idempotent, last, a).0, if a.pick.None? then 0 else if a.acquired.Fail? then 1 else 3, IsOutcome);
  }

  lemma JudgeMarks<T>(op: string, idempotent: bool, last: Option<Err>, a: Attempt<T>)
    ensures a.pick.Some? ==>
              (MarkedFailed(a.pick.value) in Judge(op, idempotent, last, a).0 <==> Retryable(true, OutcomeOf(a)))
  {
    hide Classify, IsProtocolError, WrapError, Has, JoinUnavailable;
    var log := Judge(op, idempotent, last, a).0;
    if a.pick.Some? && Retryable(true, OutcomeOf(a)) {
      assert log[|log| - 1] == MarkedFailed(a.pick.value);
    }
  }

  lemma JudgeTells<T>(op: string, idempotent: bool, last: Option<Err>, a: Attempt<T>)
    ensures var (log, v) := Judge(op, idempotent, last, a);
            Tells(op, idempotent, last, a, log, v)
  {
    hide Classify, IsProtocolError, WrapError, Has, JoinUnavailable, Filter;
    JudgeOutcome(op, idempotent, last, a);
    JudgeMarks(op, idempotent, last, a);
  }

  /**
   The run is that of this schedule: its outcomes are those of the attempts in order,
   each but the last allows another, and the last does not unless the attempts ran out.
   */
  ghost predicate FollowsSchedule<T>(
    idempotent: bool, left: nat, schedule: nat -> Attempt<T>, k: nat, outcomes: seq<Event>)
  {
    && |outcomes| <= left && (left > 0 ==> outcomes != [])
    && (forall i: nat :: i < |outcomes| ==> outcomes[i] == OutcomeOf(schedule(k + i)))
    && (forall i: nat :: i < |outcomes| - 1 ==> Retryable(idempotent, outcomes[i]))
    && (outcomes != [] && |outcomes| < left ==> !Retryable(idempotent, outcomes[|outcomes| - 1]))
  }

  lemma {:induction false} LoopFollowsSchedule<T>(
    op: string, idempotent: bool, schedule: nat -> Attempt<T>, k: nat, left: nat, last: Option<Err>)
    ensures var r := Loop(op, idempotent, schedule, k, left, last);
            FollowsSchedule(idempotent, left, schedule, k, Filter(r.log, IsOutcome))
    decreases left
  {
    hide Judge, WrapError, Retryable, Filter;
    if left == 0 {
      FilterNone([], IsOutcome);
    } else {
      var (log, verdict) := Judge(op, idempotent, last, schedule(k));
      JudgeTells(op, idempotent, last, schedule(k));
      if verdict.Again? {
        LoopFollowsSchedule(op, idempotent, schedule, k + 1, left - 1, Some(verdict.last));
        var rest := Loop(op, idempotent, schedule, k + 1, left - 1, Some(verdict.last)).log;
        FilterConcat(log, rest, IsOutcome);
        FollowsCons(idempotent, left - 1, schedule, k, Filter(rest, IsOutcome));
      }
    }
  }

  lemma FollowsCons<T>(idempotent: bool, left: nat, schedule: nat -> Attempt<T>, k: nat, rest: seq<Event>)
    requires FollowsSchedule(idempotent, left, schedule, k + 1, rest) && Retryable(idempotent, OutcomeOf(schedule(k)))
    ensures FollowsSchedule(idempotent, left + 1, schedule, k, [OutcomeOf(schedule(k))] + rest)
  {
    hide Retryable, OutcomeOf;
    var all := [OutcomeOf(schedule(k))] + rest;
    forall i: nat | i < |all| ensures all[i] == OutcomeOf(schedule(k + i)) {
      if i > 0 {
        assert rest[i - 1] == OutcomeOf(schedule(k + 1 + (i - 1)));
      }
    }
    forall i: nat | i < |all| - 1 ensures Retryable(idempotent, all[i]) {
      if i > 0 {
        assert Retryable(idempotent, rest[i - 1]);
      }
    }
  }

  // ------------------------------------------------------------ when a call succeeds

  /** Attempt m answers, and each one before it fails in a way that allows another. */
  ghost predicate AnswersAt<T>(idempotent: bool, schedule: nat -> Attempt<T>, k: nat, m: nat) {
    && k <= m && Ran(schedule(m)) && schedule(m).outcome.Answer?
    && forall i: nat :: k <= i < m ==> Retryable(idempotent, OutcomeOf(schedule(i)))
  }

  lemma {:induction false} LoopAnswers<T>(
    op: string, idempotent: bool, schedule: nat -> Attempt<T>, k: nat, left: nat, last: Option<Err>, m: nat)
    requires m < k + left && AnswersAt(idempotent, schedule, k, m)
    ensures Loop(op, idempotent, schedule, k, left, last).stored == Some(schedule(m).outcome.value)
    decreases left
  {
    hide Judge, WrapError, Retryable, Restartable;
      var (log, verdict) := Judge(op, idempotent, last, schedule(k));
    JudgeTells(op, idempotent, last, schedule(k));
    JudgeVerdict(op, idempotent, last, schedule(k));
    if k < m {
      LoopAnswers(op, idempotent, schedule, k + 1, left - 1, Some(verdict.last), m);
    } else {
      AnswersAreFinal(idempotent, schedule(k));
    }
  }

  lemma AnswersAreFinal<T>(idempotent: bool, a: Attempt<T>)
    requires Ran(a) && a.outcome.Answer?
    ensures !Retryable(idempotent, OutcomeOf(a))
  {
  }

  lemma {:induction false} LoopAnswersOnlyThen<T>(
    op: string, idempotent: bool, schedule: nat -> Attempt<T>, k: nat, left: nat, last: Option<Err>) returns (m: nat)
    requires Loop(op, idempotent, schedule, k, left, last).stored.Some?
    ensures m < k + left && AnswersAt(idempotent, schedule, k, m)
    decreases left
  {
    hide Judge, WrapError, Retryable, Restartable;
      var (log, verdict) := Judge(op, idempotent, last, schedule(k));
    JudgeTells(op, idempotent, last, schedule(k));
    JudgeVerdict(op, idempotent, last, schedule(k));
    m := k;
    if verdict.Again? {
      m := LoopAnswersOnlyThen(op, idempotent, schedule, k + 1, left - 1, Some(verdict.last));
    }
  }

  /**
   A call succeeds exactly when some attempt within the limit answers and every one
   before it fails in a way that allows another; the answer is that attempt's.
   */
  lemma DoAnswersIff<T>(op: string, idempotent: bool, maxRetries: int, schedule: nat -> Attempt<T>)
    ensures DoSpec(op, idempotent, maxRetries, schedule).stored.Some?
       <==> exists m: nat :: m < ClampRetries(maxRetries) && AnswersAt(idempotent, schedule, 0, m)
    ensures forall m: nat :: m < ClampRetries(maxRetries) && AnswersAt(idempotent, schedule, 0, m) ==>
                               DoSpec(op, idempotent, maxRetries, schedule).stored == Some(schedule(m).outcome.value)
  {
    hide Loop;
    forall m: nat | m < ClampRetries(maxRetries) && AnswersAt(idempotent, schedule, 0, m)
      ensures DoSpec(op, idempotent, maxRetries, schedule).stored == Some(schedule(m).outcome.value)
    {
      LoopAnswers(op, idempotent, schedule, 0, ClampRetries(maxRetries), None, m);
    }
    if DoSpec(op, idempotent, maxRetries, schedule).stored.Some? {
      var m := LoopAnswersOnlyThen(op, idempotent, schedule, 0, ClampRetries(maxRetries), None);
    }
  }

  /** What a verdict may be: another turn only after a failure that allows it, nil only for an answer. */
  ghost predicate Decides<T>(idempotent: bool, a: Attempt<T>, v: Verdict<T>) {
    && (v.Again? ==> a.pick.Some?)
    && (v.Again? && Ran(a) ==> idempotent && Restartable(ReturnOf(a)))
    && (v.Stop? ==> (v.err.None? <==> Ran(a) && a.outcome.Answer?))
    && (v.Stop? ==> v.stored == if v.err.None? then Some(a.outcome.value) else None)
  }

  lemma JudgeVerdict<T>(op: string, idempotent: bool, last: Option<Err>, a: Attempt<T>)
    ensures Decides(idempotent, a, Judge(op, idempotent, last, a).1)
  {
  }

  // ------------------------------------------------------------ the promises, over every schedule

  lemma CoolsConcat(a: seq<Event>, b: seq<Event>)
    requires CoolsJustly(a) && CoolsJustly(b)
    ensures CoolsJustly(a + b)
  {
    hide Restartable, Has;
    var log := a + b;
    forall i | 0 <= i < |log| && log[i].MarkedFailed? ensures CooledFor(log, i) {
      if i < |a| {
        assert CooledFor(a, i);
      } else {
        assert CooledFor(b, i - |a|);
      }
    }
  }

  lemma ReportsConcat(a: seq<Event>, b: seq<Event>)
    requires ReportsDuly(a) && ReportsDuly(b)
    ensures ReportsDuly(a + b)
  {
    hide Classify, Has;
    var log := a + b;
    forall i | 0 <= i < |log| ensures ReportedAt(log, i) {
      if i < |a| {
        assert ReportedAt(a, i);
      } else {
        assert ReportedAt(b, i - |a|);
      }
    }
  }

  lemma DisposesConcat(a: seq<Event>, b: seq<Event>)
    requires DisposesJustly(a) && DisposesJustly(b)
    ensures DisposesJustly(a + b)
  {
    hide Classify, IsProtocolError;
    var log := a + b;
    forall i | 0 <= i < |log| && log[i].Returned?
      ensures i + 1 < |log| && log[i + 1] == Disposal(log[i])
    {
      if i >= |a| {
        assert log[i] == b[i - |a|];
      }
    }
  }

  lemma RestartsConcat<T>(idempotent: bool, at: Attempt<T>, a: seq<Event>, b: seq<Event>)
    requires OneReturn(at, a) && (Ran(at) ==> idempotent && Restartable(ReturnOf(at)))
    requires RestartsJustly(idempotent, b)
    ensures RestartsJustly(idempotent, a + b)
  {
    hide Restartable;
    var log := a + b;
    forall i, j | 0 <= i < j < |log| && log[i].Returned? && log[j].Started?
      ensures idempotent && Restartable(log[i])
    {
      if i >= |a| {
        assert log[i] == b[i - |a|] && log[j] == b[j - |a|];
      }
    }
  }

  /** Everything the loop promises about its log and its result. */
  ghost predicate Kept<T>(idempotent: bool, left: nat, r: Result3<T>) {
    && Count(r.log, IsPick) <= left
    && (!idempotent ==> Count(r.log, IsStart) <= 1)
    && LoanOver(NoLoan, r.log) == NoLoan
    && RestartsJustly(idempotent, r.log) && CoolsJustly(r.log) && DisposesJustly(r.log) && ReportsDuly(r.log)
    && (r.err.None? <==> LastReturn(r.log).Some? && LastReturn(r.log).value.result.None?)
    && (r.err.None? <==> r.stored.Some?)
  }

  /** What one attempt contributes, for any verdict. */
  ghost predicate Sound<T>(idempotent: bool, a: Attempt<T>, log: seq<Event>) {
    && BlockIs(log, if a.pick.Some? then 1 else 0, if Ran(a) then 1 else 0, if Ran(a) then Some(ReturnOf(a)) else None)
    && OneReturn(a, log) && CoolsJustly(log) && DisposesJustly(log) && ReportsDuly(log)
  }

  lemma JudgeSound<T>(op: string, idempotent: bool, last: Option<Err>, a: Attempt<T>)
    ensures Sound(idempotent, a, Judge(op, idempotent, last, a).0)
  {
    hide Judge;
    JudgeCounts(op, idempotent, last, a);
    JudgeReturnsOnce(op, idempotent, last, a);
    JudgeCoolsJustly(op, idempotent, last, a);
    JudgeDisposesJustly(op, idempotent, last, a);
    JudgeReportsDuly(op, idempotent, last, a);
  }

  lemma StopKeeps<T>(idempotent: bool, left: nat, a: Attempt<T>, r: Result3<T>)
    requires left > 0 && Sound(idempotent, a, r.log)
    requires r.err.None? <==> Ran(a) && a.outcome.Answer?
    requires r.err.None? <==> r.stored.Some?
    ensures Kept(idempotent, left, r)
  {
    hide Restartable, CoolsJustly, DisposesJustly, ReportsDuly;
  }

  lemma AgainKeeps<T>(idempotent: bool, left: nat, a: Attempt<T>, log: seq<Event>, rest: Result3<T>)
    requires Sound(idempotent, a, log) && Kept(idempotent, left, rest)
    requires Ran(a) ==> idempotent && Restartable(ReturnOf(a))
    ensures Kept(idempotent, left + 1, Result3(rest.err, rest.stored, log + rest.log))
  {
    assert Ran(a) ==> ReturnOf(a).result.Some?;
    hide Restartable, CoolsJustly, DisposesJustly, ReportsDuly, OneReturn, RestartsJustly;
    CountConcat(log, rest.log, IsPick);
    CountConcat(log, rest.log, IsStart);
    LoanOverConcat(NoLoan, log, rest.log);
    LastOfConcat(log, rest.log, IsReturn);
    CoolsConcat(log, rest.log);
    DisposesConcat(log, rest.log);
    ReportsConcat(log, rest.log);
    RestartsConcat(idempotent, a, log, rest.log);
  }

  lemma NothingKeeps<T>(idempotent: bool, err: Option<Err>)
    requires err.Some?
    ensures Kept<T>(idempotent, 0, Result3(err, None, []))
  {
  }

  lemma {:induction false} LoopKeeps<T>(
    op: string, idempotent: bool, schedule: nat -> Attempt<T>, k: nat, left: nat, last: Option<Err>)
    requires left > 0 || last.Some?
    ensures Kept(idempotent, left, Loop(op, idempotent, schedule, k, left, last))
    decreases left
  {
    hide Judge, WrapError, Sound, Kept, Restartable;
    if left == 0 {
      NothingKeeps<T>(idempotent, Loop(op, idempotent, schedule, k, left, last).err);
    } else {
      var a := schedule(k);
      var (log, verdict) := Judge(op, idempotent, last, a);
      JudgeSound(op, idempotent, last, a);
      JudgeVerdict(op, idempotent, last, a);
      if verdict.Again? {
        LoopKeeps(op, idempotent, schedule, k + 1, left - 1, Some(verdict.last));
        AgainKeeps(idempotent, left - 1, a, log, Loop(op, idempotent, schedule, k + 1, left - 1, Some(verdict.last)));
      } else {
        StopKeeps(idempotent, left, a, Result3(verdict.err, verdict.stored, log));
      }
    }
  }

  lemma JudgeStops<T>(op: string, idempotent: bool, last: Option<Err>, a: Attempt<T>)
    ensures var (log, v) := Judge(op, idempotent, last, a);
            v.Stop? && v.err.Some? ==>
              LastOf(log, IsOutcome).Some? && !Retryable(idempotent, LastOf(log, IsOutcome).value)
  {
    hide Classify, IsProtocolError, WrapError, Has, JoinUnavailable, LastOf;
    OneIn(Judge(op, idempotent, last, a).0, if a.pick.None? then 0 else if a.acquired.Fail? then 1 else 3, IsOutcome);
  }

  lemma {:induction false} LoopGivesUpJustly<T>(
    op: string, idempotent: bool, schedule: nat -> Attempt<T>, k: nat, left: nat, last: Option<Err>)
    ensures var r := Loop(op, idempotent, schedule, k, left, last);
            r.err.Some? ==> GivesUpJustly(idempotent, left, r.log)
    decreases left
  {
    if left > 0 {
      var a := schedule(k);
      var (log, verdict) := Judge(op, idempotent, last, a);
      JudgeStops(op, idempotent, last, a);
      JudgeVerdict(op, idempotent, last, a);
      JudgeCounts(op, idempotent, last, a);
      hide Judge, WrapError, LastOf, Count, Retryable;
      if verdict.Again? {
        LoopGivesUpJustly(op, idempotent, schedule, k + 1, left - 1, Some(verdict.last));
        var rest := Loop(op, idempotent, schedule, k + 1, left - 1, Some(verdict.last)).log;
        CountConcat(log, rest, IsPick);
        LastOfConcat(log, rest, IsOutcome);
      }
    }
  }

  /** A failed loop returns its last failure, wrapped with the operation. */
  lemma {:induction false} LoopReturnsLastFailure<T>(
    op: string, idempotent: bool, schedule: nat -> Attempt<T>, k: nat, left: nat, last: Option<Err>)
    ensures var r := Loop(op, idempotent, schedule, k, left, last);
            var failure := FailureOver(last, r.log);
            r.err.Some? ==> failure.Some? && r.err.value == WrapError(op, failure.value)
    decreases left
  {
    if left > 0 {
      var (log, verdict) := Judge(op, idempotent, last, schedule(k));
      JudgeFails(op, idempotent, last, schedule(k));
      hide Judge, WrapError, FailureOver;
      if verdict.Again? {
        LoopReturnsLastFailure(op, idempotent, schedule, k + 1, left - 1, Some(verdict.last));
        FailureOverConcat(last, log, Loop(op, idempotent, schedule, k + 1, left - 1, Some(verdict.last)).log);
      }
    }
  }

  /**
   For every schedule and every setting of WithMaxRetries: the outcomes are those of the
   schedule's attempts, in order, going on exactly as long as they allow; at most that many
   attempts (and at least one allowed); a call that is not idempotent starts fn at
   most once; fn is restarted only after it was unavailable under a live context;
   every connection acquired is released or discarded exactly once, discarded
   exactly when its state is unknown; an endpoint is cooled for a failure of its own,
   and only then; it gives up before its attempts run out only on an outcome that
   forbids another; and the result is nil exactly when fn's last run returned nil, and
   else the last failure, wrapped.
   */
  lemma DoKeepsItsPromises<T>(op: string, idempotent: bool, maxRetries: int, schedule: nat -> Attempt<T>)
    ensures var r := DoSpec(op, idempotent, maxRetries, schedule);
            && FollowsSchedule(idempotent, ClampRetries(maxRetries), schedule, 0, Filter(r.log, IsOutcome))
            && Count(r.log, IsPick) <= ClampRetries(maxRetries)
            && (!idempotent ==> Count(r.log, IsStart) <= 1)
            && RestartsJustly(idempotent, r.log)
            && LoanOver(NoLoan, r.log) == NoLoan && DisposesJustly(r.log)
            && CoolsJustly(r.log) && ReportsDuly(r.log)
            && (r.err.Some? ==> GivesUpJustly(idempotent, ClampRetries(maxRetries), r.log))
            && (r.err.Some? ==>
                  FailureOver(None, r.log).Some? && r.err.value == WrapError(op, FailureOver(None, r.log).value))
            && (r.err.None? <==> LastReturn(r.log).Some? && LastReturn(r.log).value.result.None?)
            && (r.err.None? <==> r.stored.Some?)
  {
    hide Loop, WrapError, RestartsJustly, CoolsJustly, DisposesJustly, ReportsDuly, FailureOver, GivesUpJustly;
    hide FollowsSchedule;
    LoopFollowsSchedule(op, idempotent, schedule, 0, ClampRetries(maxRetries), None);
    LoopGivesUpJustly(op, idempotent, schedule, 0, ClampRetries(maxRetries), None);
    LoopKeeps(op, idempotent, schedule, 0, ClampRetries(maxRetries), None);
    LoopReturnsLastFailure(op, idempotent, schedule, 0, ClampRetries(maxRetries), None);
  }
}
