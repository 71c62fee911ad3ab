/**
 Sticky endpoint selection with exponential backoff and full jitter.

 The class has the source's fields and methods; each method is proved against a
 function on the class's abstract value, and what the policy promises is proved
 about those functions, over every sequence of calls. Times are nanoseconds, with
 0 for Go's zero Time. The clock, the jitter and the random draws are parameters.
 */
module Cluster {
  import opened Arithmetic
  import opened Wrappers

  const SECOND := 1_000_000_000
  const MIN_BACKOFF := SECOND
  const MAX_BACKOFF := 30 * SECOND

  // ------------------------------------------------------------ pick order

  ghost predicate IsPermutation(order: seq<nat>) {
    && (forall i :: 0 <= i < |order| ==> order[i] < |order|)
    && (forall i, j :: 0 <= i < j < |order| ==> order[i] != order[j])
    && (forall e: nat :: e < |order| ==> e in order)
  }

  ghost predicate Inverse(order: seq<nat>, posOf: seq<nat>) {
    && |posOf| == |order|
    && (forall i :: 0 <= i < |order| ==> order[i] < |posOf| && posOf[order[i]] == i)
    && (forall e :: 0 <= e < |posOf| ==> posOf[e] < |order| && order[posOf[e]] == e)
  }

  function Identity(n: nat): seq<nat> { seq(n, i requires 0 <= i < n => i as nat) }

  function Swap(s: seq<nat>, i: nat, j: nat): seq<nat>
    requires i < |s| && j < |s|
  {
    s[i := s[j]][j := s[i]]
  }

  /** Fisher-Yates from position i down to 1; draws[k] is the random pick at position k. */
  function Shuffled(s: seq<nat>, i: nat, draws: seq<nat>): (r: seq<nat>)
    requires i < |s| == |draws| && ValidDraws(draws)
    ensures |r| == |s|
    decreases i
  {
    if i == 0 then s else Shuffled(Swap(s, i, draws[i]), i - 1, draws)
  }

  predicate ValidDraws(draws: seq<nat>) { forall k :: 0 <= k < |draws| ==> draws[k] <= k }

  /** The order New computes. */
  function PickOrder(n: nat, random: bool, draws: seq<nat>): seq<nat>
    requires |draws| == n && ValidDraws(draws)
  {
    if random && n > 0 then Shuffled(Identity(n), n - 1, draws) else Identity(n)
  }

  lemma SwapIsPermutation(s: seq<nat>, i: nat, j: nat)
    requires IsPermutation(s) && i < |s| && j < |s|
    ensures IsPermutation(Swap(s, i, j))
  {
    var r := Swap(s, i, j);
    forall e: nat | e < |r| ensures e in r {
      var k := Where(s, e);
      assert r[if k == i then j else if k == j then i else k] == e;
    }
  }

  lemma {:induction false} ShuffledIsPermutation(s: seq<nat>, i: nat, draws: seq<nat>)
    requires i < |s| == |draws| && ValidDraws(draws) && IsPermutation(s)
    ensures IsPermutation(Shuffled(s, i, draws))
    decreases i
  {
    if i > 0 {
      SwapIsPermutation(s, i, draws[i]);
      ShuffledIsPermutation(Swap(s, i, draws[i]), i - 1, draws);
    }
  }

  lemma IdentityIsPermutation(n: nat)
    ensures IsPermutation(Identity(n))
  {
    forall e: nat | e < n ensures e in Identity(n) {
      assert Identity(n)[e] == e;
    }
  }

  /** Whatever is drawn, the pick order visits every endpoint once. */
  lemma PickOrderIsPermutation(n: nat, random: bool, draws: seq<nat>)
    requires |draws| == n && ValidDraws(draws)
    ensures |PickOrder(n, random, draws)| == n && IsPermutation(PickOrder(n, random, draws))
    ensures !random ==> forall i :: 0 <= i < n ==> PickOrder(n, random, draws)[i] == i
  {
    IdentityIsPermutation(n);
    if random && n > 0 {
      ShuffledIsPermutation(Identity(n), n - 1, draws);
    }
  }

  /** Positions above i are final; the draws below can still produce any order of the rest. */
  lemma {:induction false} ShuffleReaches(s: seq<nat>, i: nat, target: seq<nat>) returns (draws: seq<nat>)
    requires i < |s| == |target| && IsPermutation(s) && IsPermutation(target)
    requires forall k :: i < k < |s| ==> s[k] == target[k]
    ensures |draws| == |s| && ValidDraws(draws) && Shuffled(s, i, draws) == target
    decreases i
  {
    if i == 0 {
      draws := seq(|s|, k => 0);
      LastPlaceIsForced(s, target);
    } else {
      var j := Where(s, target[i]);
      assert j <= i;
      var s' := Swap(s, i, j);
      SwapIsPermutation(s, i, j);
      var below := ShuffleReaches(s', i - 1, target);
      draws := below[i := j];
      DrawsAboveDoNotMatter(s', i - 1, draws, below);
    }
  }

  lemma {:induction false} DrawsAboveDoNotMatter(s: seq<nat>, i: nat, draws: seq<nat>, other: seq<nat>)
    requires i < |s| == |draws| == |other| && ValidDraws(draws) && ValidDraws(other)
    requires forall k :: 0 <= k <= i ==> draws[k] == other[k]
    ensures Shuffled(s, i, draws) == Shuffled(s, i, other)
    decreases i
  {
    if i > 0 {
      DrawsAboveDoNotMatter(Swap(s, i, draws[i]), i - 1, draws, other);
    }
  }

  lemma Where(s: seq<nat>, x: nat) returns (j: nat)
    requires IsPermutation(s) && x < |s|
    ensures j < |s| && s[j] == x
  {
    assert x in s;
    j :| 0 <= j < |s| && s[j] == x;
  }

  /** Two permutations that agree everywhere but at 0 agree there too. */
  lemma LastPlaceIsForced(s: seq<nat>, target: seq<nat>)
    requires |s| == |target| > 0 && IsPermutation(s) && IsPermutation(target)
    requires forall k :: 0 < k < |s| ==> s[k] == target[k]
    ensures s == target
  {
    var j := Where(s, target[0]);
    assert j == 0;
  }

  /** No order is left out: every permutation of the endpoints is the result of some draws. */
  lemma EveryOrderIsPossible(target: seq<nat>) returns (draws: seq<nat>)
    requires IsPermutation(target)
    ensures |draws| == |target| && ValidDraws(draws) && PickOrder(|target|, true, draws) == target
  {
    if target == [] {
      draws := [];
    } else {
      IdentityIsPermutation(|target|);
      draws := ShuffleReaches(Identity(|target|), |target| - 1, target);
    }
  }

  // ------------------------------------------------------------ the abstract cluster

  datatype State = State(order: seq<nat>, posOf: seq<nat>, pos: nat, coolUntil: seq<int>, level: seq<int>)

  ghost predicate Valid(s: State) {
    && IsPermutation(s.order) && Inverse(s.order, s.posOf)
    && |s.coolUntil| == |s.level| == |s.order|
    && (s.order != [] ==> s.pos < |s.order|)
  }

  predicate CoolingAt(until: int, now: int) { until != 0 && now < until }

  /** Endpoint at cyclic distance i from position start. */
  function At(s: State, start: nat, i: nat): nat
    requires s.order != []
  {
    s.order[(start + i) % |s.order|]
  }

  predicate FreeAt(s: State, start: nat, i: nat, now: int)
    requires s.order != []
  {
    var e := At(s, start, i);
    e < |s.coolUntil| && !CoolingAt(s.coolUntil[e], now)
  }

  /** The scan shared by Pick and MarkFailed: distance of the first endpoint not cooling, from i on. */
  function ScanFrom(s: State, start: nat, i: nat, now: int): (r: Option<nat>)
    requires i <= |s.order|
    ensures r.Some? ==> i <= r.value < |s.order| && FreeAt(s, start, r.value, now)
    ensures forall k :: i <= k < (if r.Some? then r.value else |s.order|) ==> !FreeAt(s, start, k, now)
    decreases |s.order| - i
  {
    if i == |s.order| then None
    else if FreeAt(s, start, i, now) then Some(i)
    else ScanFrom(s, start, i + 1, now)
  }

  function Scan(s: State, start: nat, now: int): (r: Option<nat>)
    ensures r.Some? ==> r.value < |s.order|
  {
    ScanFrom(s, start, 0, now)
  }

  function Picked(s: State, now: int): (State, Option<nat>) {
    var d := Scan(s, s.pos, now);
    if d.None? then (s, None) else (s.(pos := (s.pos + d.value) % |s.order|), Some(At(s, s.pos, d.value)))
  }

  function NextCeiling(level: int): (c: int)
    ensures c > 0
  {
    if level <= 0 then MIN_BACKOFF
    else if level * 2 > MAX_BACKOFF then MAX_BACKOFF
    else level * 2
  }

  /** The failed endpoint's new cooldown; jitter is the random duration drawn below the new ceiling. */
  function Cooled(s: State, idx: nat, now: int, jitter: nat): State
    requires idx < |s.level| == |s.coolUntil|
  {
    s.(level := s.level[idx := NextCeiling(s.level[idx])], coolUntil := s.coolUntil[idx := now + jitter])
  }

  function MarkedFailed(s: State, idx: nat, now: int, jitter: nat): State
    requires idx < |s.level| == |s.coolUntil| == |s.posOf|
  {
    var s1 := Cooled(s, idx, now, jitter);
    var d := Scan(s1, s.posOf[idx] + 1, now);
    if d.None? then s1 else s1.(pos := (s.posOf[idx] + 1 + d.value) % |s.order|)
  }

  function MarkedHealthy(s: State, idx: nat): State
    requires idx < |s.level| == |s.coolUntil|
  {
    s.(coolUntil := s.coolUntil[idx := 0], level := s.level[idx := 0])
  }

  // ------------------------------------------------------------ what a scan finds

  /** Going once around from any start meets every position. */
  lemma ModCovers(n: nat, start: nat, p: nat) returns (i: nat)
    requires p < n
    ensures i < n && (start + i) % n == p
  {
    var r := start % n;
    i := if p >= r then p - r else p + n - r;
    var q := start / n;
    DivisionIsUnique(start + i, n, if p >= r then q else q + 1, p);
  }

  /** A scan fails exactly when every endpoint is cooling. */
  lemma ScanFailsIffAllCool(s: State, start: nat, now: int)
    requires Valid(s)
    ensures Scan(s, start, now).None? <==>
            forall e :: 0 <= e < |s.order| ==> CoolingAt(s.coolUntil[e], now)
  {
    if Scan(s, start, now).None? {
      forall e | 0 <= e < |s.order| ensures CoolingAt(s.coolUntil[e], now) {
        var i := ModCovers(|s.order|, start, s.posOf[e]);
        assert At(s, start, i) == e;
        assert !FreeAt(s, start, i, now);
      }
    } else {
      var e := At(s, start, Scan(s, start, now).value);
      assert !CoolingAt(s.coolUntil[e], now);
    }
  }

  /** The first d endpoints from start, in cyclic pick order, are all cooling. */
  ghost predicate AllCoolBefore(s: State, start: nat, d: nat, now: int)
    requires Valid(s) && s.order != []
  {
    forall k: nat :: k < d ==> CoolingAt(s.coolUntil[At(s, start, k)], now)
  }

  /** What a scan that succeeds has found. */
  lemma ScanFindsFirst(s: State, start: nat, now: int)
    requires Valid(s) && Scan(s, start, now).Some?
    ensures var d := Scan(s, start, now).value;
            var e := At(s, start, d);
            && e < |s.order| && !CoolingAt(s.coolUntil[e], now) && AllCoolBefore(s, start, d, now)
            && s.posOf[e] == (start + d) % |s.order|
  {
    var d := Scan(s, start, now).value;
    assert FreeAt(s, start, d, now);
    forall k: nat | k < d ensures CoolingAt(s.coolUntil[At(s, start, k)], now) {
      assert !FreeAt(s, start, k, now);
    }
  }

  /**
   Pick returns the first endpoint not cooling, in cyclic pick order from the
   active one; it makes that endpoint active; and it fails, changing nothing,
   exactly when every endpoint is cooling.
   */
  lemma PickIsFirstAvailable(s: State, now: int) returns (d: nat)
    requires Valid(s)
    ensures var (s', r) := Picked(s, now);
            && Valid(s')
            && (r.None? <==> forall e :: 0 <= e < |s.order| ==> CoolingAt(s.coolUntil[e], now))
            && (r.None? ==> s' == s)
            && (r.Some? ==>
                  && d < |s.order| && r.value == At(s, s.pos, d)
                  && r.value < |s.order| && !CoolingAt(s.coolUntil[r.value], now)
                  && AllCoolBefore(s, s.pos, d, now)
                  && s' == s.(pos := s.posOf[r.value]))
  {
    ScanFailsIffAllCool(s, s.pos, now);
    var found := Scan(s, s.pos, now);
    d := if found.Some? then found.value else 0;
    if found.Some? {
      ScanFindsFirst(s, s.pos, now);
    }
  }

  // ------------------------------------------------------------ the class

  /** The pick order of New: list order, or shuffled in place. */
  method MakeOrder(n: nat, random: bool, draws: seq<nat>) returns (order: seq<nat>)
    requires |draws| == n && ValidDraws(draws)
    ensures order == PickOrder(n, random, draws)
  {
    var a := new nat[n](i => i);
    assert a[..] == Identity(n);
    if random && n > 0 {
      var i := n - 1;
      while i > 0
        invariant 0 <= i < n
        invariant Shuffled(a[..], i, draws) == PickOrder(n, random, draws)
      {
        var j := draws[i];
        ghost var before := a[..];
        a[i], a[j] := a[j], a[i];
        assert a[..] == Swap(before, i, j);
        i := i - 1;
      }
    }
    order := a[..];
  }

  method Invert(order: seq<nat>) returns (posOf: seq<nat>)
    requires IsPermutation(order)
    ensures Inverse(order, posOf)
  {
    var inverse := new nat[|order|](i => 0);
    for p := 0 to |order|
      invariant forall k :: 0 <= k < p ==> inverse[order[k]] == k
    {
      inverse[order[p]] := p;
    }
    posOf := inverse[..];
    forall e | 0 <= e < |order| ensures posOf[e] < |order| && order[posOf[e]] == e {
      var k := Where(order, e);
      assert inverse[order[k]] == k;
    }
  }

  class Cluster {
    const order: seq<nat>
    const posOf: seq<nat>
    var pos: nat
    var coolUntil: seq<int>
    var level: seq<int>

    function View(): State
      reads this
    {
      State(order, posOf, pos, coolUntil, level)
    }

    constructor (n: nat, random: bool, draws: seq<nat>)
      requires |draws| == n && ValidDraws(draws)
      ensures Valid(View()) && View() == Fresh(PickOrder(n, random, draws), posOf)
    {
      PickOrderIsPermutation(n, random, draws);
      var o := MakeOrder(n, random, draws);
      var p := Invert(o);
      order, posOf, pos := o, p, 0;
      coolUntil, level := seq(n, i => 0), seq(n, i => 0);
    }

    method Pick(now: int) returns (idx: nat, ok: bool)
      requires Valid(View())
      modifies this
      ensures Valid(View())
      ensures (View(), if ok then Some(idx) else None) == Picked(old(View()), now)
      ensures !ok ==> idx == 0
    {
      ghost var s := View();
      var i := 0;
      while i < |order|
        invariant 0 <= i <= |order| && View() == s
        invariant ScanFrom(s, s.pos, i, now) == Scan(s, s.pos, now)
      {
        var p := (pos + i) % |order|;
        var e := order[p];
        if !CoolingAt(coolUntil[e], now) {
          assert FreeAt(s, s.pos, i, now);
          pos := p;
          return e, true;
        }
        i := i + 1;
      }
      return 0, false;
    }

    /** transitioned says that idx was not already cooling. */
    method MarkFailed(idx: nat, now: int, jitter: nat) returns (transitioned: bool)
      requires Valid(View()) && idx < |order| && jitter < NextCeiling(level[idx])
      modifies this
      ensures Valid(View()) && View() == MarkedFailed(old(View()), idx, now, jitter)
      ensures transitioned == !CoolingAt(old(coolUntil[idx]), now)
    {
      transitioned := !CoolingAt(coolUntil[idx], now);
      var ceiling := level[idx];
      if ceiling <= 0 {
        ceiling := MIN_BACKOFF;
      } else {
        ceiling := ceiling * 2;
        if ceiling > MAX_BACKOFF {
          ceiling := MAX_BACKOFF;
        }
      }
      level := level[idx := ceiling];
      coolUntil := coolUntil[idx := now + jitter];

      ghost var s := View();
      var start := posOf[idx];
      var i := 1;
      while i <= |order|
        invariant 1 <= i <= |order| + 1 && View() == s
        invariant ScanFrom(s, start + 1, i - 1, now) == Scan(s, start + 1, now)
      {
        var p := (start + i) % |order|;
        if !CoolingAt(coolUntil[order[p]], now) {
          assert FreeAt(s, start + 1, i - 1, now);
          pos := p;
          return;
        }
        i := i + 1;
      }
    }

    /** transitioned says that idx was cooling. */
    method MarkHealthy(idx: nat, now: int) returns (transitioned: bool)
      requires Valid(View()) && idx < |order|
      modifies this
      ensures Valid(View()) && View() == MarkedHealthy(old(View()), idx)
      ensures transitioned == CoolingAt(old(coolUntil[idx]), now)
    {
      transitioned := CoolingAt(coolUntil[idx], now);
      coolUntil := coolUntil[idx := 0];
      level := level[idx := 0];
    }

    /** Exactly the endpoints in cooldown, in ascending order. */
    method Cooling(now: int) returns (out: seq<nat>)
      requires Valid(View())
      ensures forall i, j :: 0 <= i < j < |out| ==> out[i] < out[j]
      ensures forall e: nat :: e in out <==> e < |order| && coolUntil[e] != 0 && now < coolUntil[e]
    {
      out := [];
      for idx := 0 to |coolUntil|
        invariant forall i :: 0 <= i < |out| ==> out[i] < idx
        invariant forall i, j :: 0 <= i < j < |out| ==> out[i] < out[j]
        invariant forall e: nat :: e in out <==> e < idx && CoolingAt(coolUntil[e], now)
      {
        if CoolingAt(coolUntil[idx], now) {
          out := out + [idx];
        }
      }
    }
  }

  /** A cluster nothing has happened to. */
  function Fresh(order: seq<nat>, posOf: seq<nat>): State {
    State(order, posOf, 0, seq(|order|, i => 0), seq(|order|, i => 0))
  }

  // ------------------------------------------------------------ over whole runs

  datatype Event =
    | Pick(now: int)
    | Fail(idx: nat, now: int, jitter: nat)
    | Heal(idx: nat, now: int)
    | List(now: int)

  /** The events name endpoints of the cluster and draw jitter below the ceiling. */
  ghost predicate Possible(s: State, ev: Event) {
    match ev
    case Fail(idx, _, jitter) => idx < |s.order| && idx < |s.level| && jitter < NextCeiling(s.level[idx])
    case Heal(idx, _) => idx < |s.order|
    case _ => true
  }

  function Apply(s: State, ev: Event): State {
    match ev
    case Pick(now) => Picked(s, now).0
    case Fail(idx, now, jitter) =>
      if idx < |s.level| == |s.coolUntil| == |s.posOf| then MarkedFailed(s, idx, now, jitter) else s
    case Heal(idx, _) => if idx < |s.level| == |s.coolUntil| then MarkedHealthy(s, idx) else s
    case List(_) => s
  }

  lemma ApplyKeepsValid(s: State, ev: Event)
    requires Valid(s) && Possible(s, ev)
    ensures Valid(Apply(s, ev)) && Apply(s, ev).order == s.order && Apply(s, ev).posOf == s.posOf
  {
    if ev.Pick? {
      var d := PickIsFirstAvailable(s, ev.now);
    }
  }

  // ---- stickiness

  /** Events without a failure, with time going forward from t. */
  ghost predicate QuietFrom(s: State, evs: seq<Event>, t: int)
    decreases |evs|
  {
    evs == [] ||
    (!evs[0].Fail? && evs[0].now >= t && Possible(s, evs[0]) && QuietFrom(Apply(s, evs[0]), evs[1..], evs[0].now))
  }

  /** The answers of the Pick calls among the events. */
  function Answers(s: State, evs: seq<Event>): seq<Option<nat>>
    decreases |evs|
  {
    if evs == [] then []
    else (if evs[0].Pick? then [Picked(s, evs[0].now).1] else []) + Answers(Apply(s, evs[0]), evs[1..])
  }

  ghost predicate ActiveAndFree(s: State, e: nat, t: int) {
    Valid(s) && e < |s.order| && s.pos == s.posOf[e] && !CoolingAt(s.coolUntil[e], t)
  }

  lemma FreeActiveIsPicked(s: State, e: nat, t: int, now: int)
    requires ActiveAndFree(s, e, t) && now >= t
    ensures Picked(s, now) == (s, Some(e))
  {
    assert s.pos % |s.order| == s.pos by { DivisionIsUnique(s.pos, |s.order|, 0, s.pos); }
    assert At(s, s.pos, 0) == e;
    assert FreeAt(s, s.pos, 0, now);
  }

  lemma {:induction false} QuietKeepsAnswer(s: State, e: nat, t: int, evs: seq<Event>)
    requires ActiveAndFree(s, e, t) && QuietFrom(s, evs, t)
    ensures forall i :: 0 <= i < |Answers(s, evs)| ==> Answers(s, evs)[i] == Some(e)
    decreases |evs|
  {
    if evs != [] {
      FreeActiveIsPicked(s, e, t, evs[0].now);
      ApplyKeepsValid(s, evs[0]);
      QuietKeepsAnswer(Apply(s, evs[0]), e, evs[0].now, evs[1..]);
    }
  }

  /**
   Sticky: after a Pick that returned e, every later Pick returns e until some
   endpoint is marked failed, whatever MarkHealthy and Cooling calls come between.
   */
  lemma PickIsSticky(s: State, now: int, evs: seq<Event>)
    requires Valid(s) && Picked(s, now).1.Some? && QuietFrom(Picked(s, now).0, evs, now)
    ensures var (s', r) := Picked(s, now);
            forall i :: 0 <= i < |Answers(s', evs)| ==> Answers(s', evs)[i] == r
  {
    var d := PickIsFirstAvailable(s, now);
    var (s', r) := Picked(s, now);
    QuietKeepsAnswer(s', r.value, now, evs);
  }

  // ---- failover

  /**
   After a failure the active endpoint is the first one not cooling after the
   failed endpoint in pick order, wherever the active endpoint was before; if all
   are cooling it does not move.
   */
  lemma FailureAdvances(s: State, idx: nat, now: int, jitter: nat) returns (d: nat)
    requires Valid(s) && idx < |s.order|
    ensures var s1, s' := Cooled(s, idx, now, jitter), MarkedFailed(s, idx, now, jitter);
            && Valid(s1) && s' == s1.(pos := s'.pos)
            && (if forall e :: 0 <= e < |s.order| ==> CoolingAt(s1.coolUntil[e], now)
                then s'.pos == s.pos
                else d < |s.order| && s'.pos < |s.order|
                     && s.order[s'.pos] == At(s, s.posOf[idx] + 1, d)
                     && !CoolingAt(s1.coolUntil[s.order[s'.pos]], now)
                     && AllCoolBefore(s1, s.posOf[idx] + 1, d, now))
  {
    var s1, start := Cooled(s, idx, now, jitter), s.posOf[idx] + 1;
    ScanFailsIffAllCool(s1, start, now);
    var found := Scan(s1, start, now);
    d := if found.Some? then found.value else 0;
    if found.Some? {
      ScanFindsFirst(s1, start, now);
      assert (start + d) % |s.order| == MarkedFailed(s, idx, now, jitter).pos;
      assert At(s1, start, d) == At(s, start, d);
    }
  }

  /**
   A failure cools its endpoint until the jitter has passed, to the instant, and no other
   endpoint; and its next ceiling is doubled, up to the maximum. A time of 0 is Go's zero
   Time, which no clock shows.
   */
  lemma FailureCoolsExactly(s: State, idx: nat, now: int, jitter: nat, t: int)
    requires Valid(s) && idx < |s.order| && now + jitter != 0
    ensures var s' := MarkedFailed(s, idx, now, jitter);
            && (CoolingAt(s'.coolUntil[idx], t) <==> t < now + jitter)
            && s'.coolUntil == s.coolUntil[idx := s'.coolUntil[idx]]
            && s'.level == s.level[idx := NextCeiling(s.level[idx])]
            && s'.order == s.order && s'.posOf == s.posOf
    ensures !CoolingAt(MarkedHealthy(s, idx).coolUntil[idx], t) && MarkedHealthy(s, idx).pos == s.pos
  {
    hide Scan;
  }

  // ---- backoff

  /** The events are possible one after another, from s. */
  ghost predicate AllPossible(s: State, evs: seq<Event>)
    decreases |evs|
  {
    evs == [] || (AllPossible(s, evs[..|evs| - 1]) && Possible(After(s, evs[..|evs| - 1]), evs[|evs| - 1]))
  }

  function After(s: State, evs: seq<Event>): State
    decreases |evs|
  {
    if evs == [] then s else Apply(After(s, evs[..|evs| - 1]), evs[|evs| - 1])
  }

  /** Failures of idx since the start or its last MarkHealthy. */
  function Streak(evs: seq<Event>, idx: nat): nat
    decreases |evs|
  {
    if evs == [] then 0
    else
      var last, before := evs[|evs| - 1], Streak(evs[..|evs| - 1], idx);
      if last.Fail? && last.idx == idx then before + 1
      else if last.Heal? && last.idx == idx then 0
      else before
  }

  /** When idx failed last. */
  function LastFailure(evs: seq<Event>, idx: nat): int
    decreases |evs|
  {
    if evs == [] then 0
    else
      var last := evs[|evs| - 1];
      if last.Fail? && last.idx == idx then last.now else LastFailure(evs[..|evs| - 1], idx)
  }

  function Pow2(k: nat): (r: nat)
    ensures r > 0
  {
    if k == 0 then 1 else 2 * Pow2(k - 1)
  }

  function Min(a: int, b: int): int { if a < b then a else b }

  /** The documented ceiling after k consecutive failures: 1s, 2s, 4s, ..., at most 30s. */
  function Ceiling(k: nat): int { if k == 0 then 0 else Min(Pow2(k - 1) * SECOND, MAX_BACKOFF) }

  lemma CeilingDoubles(k: nat)
    ensures NextCeiling(Ceiling(k)) == Ceiling(k + 1)
  {
    if k > 0 {
      assert Pow2(k) == 2 * Pow2(k - 1);
    }
  }

  /** The state of an endpoint's backoff is a function of its own failure history. */
  ghost predicate BackoffIs(s: State, idx: nat, streak: nat, lastFailure: int) {
    && idx < |s.level| && idx < |s.coolUntil|
    && s.level[idx] == Ceiling(streak)
    && (streak == 0 ==> s.coolUntil[idx] == 0)
    && (streak > 0 ==> lastFailure <= s.coolUntil[idx] < lastFailure + Ceiling(streak))
  }

  lemma BackoffStep(s: State, ev: Event, idx: nat, streak: nat, lastFailure: int)
    requires Valid(s) && Possible(s, ev) && BackoffIs(s, idx, streak, lastFailure)
    ensures BackoffIs(
              Apply(s, ev), idx,
              if ev.Fail? && ev.idx == idx then streak + 1 else if ev.Heal? && ev.idx == idx then 0 else streak,
              if ev.Fail? && ev.idx == idx then ev.now else lastFailure)
  {
    CeilingDoubles(streak);
  }

  lemma {:induction false} BackoffFollowsHistory(s0: State, evs: seq<Event>, idx: nat)
    requires Valid(s0) && AllPossible(s0, evs) && BackoffIs(s0, idx, 0, 0)
    ensures Valid(After(s0, evs)) && BackoffIs(After(s0, evs), idx, Streak(evs, idx), LastFailure(evs, idx))
    decreases |evs|
  {
    if evs != [] {
      var init, last := evs[..|evs| - 1], evs[|evs| - 1];
      BackoffFollowsHistory(s0, init, idx);
      ApplyKeepsValid(After(s0, init), last);
      BackoffStep(After(s0, init), last, idx, Streak(init, idx), LastFailure(init, idx));
    }
  }

  /**
   In every run: after k failures in a row the ceiling is min(2^(k-1) s, 30 s) and
   the cooldown ends before it, so 30 s after its last failure an endpoint is
   available again even if nobody marked it healthy; and one that has not failed
   since it was last healthy is never cooling.
   */
  lemma CooldownIsBounded(order: seq<nat>, posOf: seq<nat>, evs: seq<Event>, idx: nat, now: int)
    requires Valid(Fresh(order, posOf)) && AllPossible(Fresh(order, posOf), evs) && idx < |order|
    ensures var s, k := After(Fresh(order, posOf), evs), Streak(evs, idx);
            && idx < |s.level| && idx < |s.coolUntil|
            && s.level[idx] == Ceiling(k) <= MAX_BACKOFF
            && (k == 0 || now >= LastFailure(evs, idx) + Ceiling(k) || now >= LastFailure(evs, idx) + MAX_BACKOFF
                ==> !CoolingAt(s.coolUntil[idx], now))
  {
    BackoffFollowsHistory(Fresh(order, posOf), evs, idx);
  }
}
