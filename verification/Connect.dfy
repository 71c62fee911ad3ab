/** New's dial loop over a fresh cluster. */
module Connect {
  import opened Arithmetic
  import opened Wrappers
  import C = Cluster

  /** Endpoints order[..k] have failed once each and the rest are untouched. */
  ghost predicate FailedPrefix(s: C.State, k: nat) {
    && C.Valid(s) && k <= |s.order|
    && (k < |s.order| ==> s.pos == k)
    && forall i :: k <= i < |s.order| ==> s.coolUntil[s.order[i]] == 0 && s.level[s.order[i]] == 0
  }

  lemma PicksNext(s: C.State, k: nat, now: int)
    requires FailedPrefix(s, k) && k < |s.order|
    ensures C.Picked(s, now) == (s, Some(s.order[k]))
  {
    C.FreeActiveIsPicked(s, s.order[k], now, now);
  }

  /** After the failure of order[k] the next endpoint in order is active, whatever the jitter. */
  lemma FailsNext(s: C.State, k: nat, now: int, jitter: nat)
    requires FailedPrefix(s, k) && k < |s.order|
    ensures FailedPrefix(C.MarkedFailed(s, s.order[k], now, jitter), k + 1)
  {
    var idx := s.order[k];
    var s1 := C.Cooled(s, idx, now, jitter);
    var d := C.FailureAdvances(s, idx, now, jitter);
    if k + 1 < |s.order| {
      var start := s.posOf[idx] + 1;
      assert start == k + 1;
      DivisionIsUnique(k + 1, |s.order|, 0, k + 1);
      assert C.At(s1, start, 0) == s.order[k + 1];
      assert C.FreeAt(s1, start, 0, now);
    }
  }

  /** One round of the loop: pick, dial, and mark a refusing endpoint failed. */
  method Attempt(cluster: C.Cluster, ghost k: nat, answers: nat -> bool, picked: int, failed: int, jitter: nat)
    returns (idx: nat, ok: bool, answered: bool)
    requires FailedPrefix(cluster.View(), k) && k < |cluster.order| && jitter < C.MIN_BACKOFF
    modifies cluster
    ensures ok && idx == cluster.order[k] && answered == answers(idx)
    ensures !answered ==> FailedPrefix(cluster.View(), k + 1)
  {
    PicksNext(cluster.View(), k, picked);
    idx, ok := cluster.Pick(picked);
    answered := ok && answers(idx);
    if ok && !answered {
      FailsNext(cluster.View(), k, failed, jitter);
      var transitioned := cluster.MarkFailed(idx, failed, jitter);
    }
  }

  method DialAll(cluster: C.Cluster, answers: nat -> bool, clock: nat -> int, jitter: nat -> nat)
    returns (dialed: seq<nat>, connected: Option<nat>)
    requires FailedPrefix(cluster.View(), 0)
    requires forall k :: jitter(k) < C.MIN_BACKOFF
    modifies cluster
    ensures |dialed| <= |cluster.order| && dialed == cluster.order[..|dialed|]
    ensures forall i :: 0 <= i < |dialed| - 1 ==> !answers(dialed[i])
    ensures connected.Some? ==> dialed != [] && connected.value == dialed[|dialed| - 1] && answers(connected.value)
    ensures connected.None? ==> dialed == cluster.order && forall i :: 0 <= i < |dialed| ==> !answers(dialed[i])
  {
    dialed, connected := [], None;
    var attempt := 0;
    while attempt < |cluster.order|
      invariant 0 <= attempt <= |cluster.order| && FailedPrefix(cluster.View(), attempt)
      invariant dialed == cluster.order[..attempt] && connected.None?
      invariant forall i :: 0 <= i < attempt ==> !answers(dialed[i])
    {
      var idx, ok, answered :=
        Attempt(cluster, attempt, answers, clock(2 * attempt), clock(2 * attempt + 1), jitter(attempt));
      if !ok {
        break;
      }
      dialed := dialed + [idx];
      if answered {
        connected := Some(idx);
        return;
      }
      attempt := attempt + 1;
    }
  }

  /**
   Dials endpoints until one answers. answers(e) says whether endpoint e accepts
   the dial; clock(t) is the time of the t-th clock reading, in no particular
   order; jitter(k) is the backoff drawn after the k-th failure, below the first
   ceiling.

   Attempt k dials exactly the k-th endpoint of the pick order: every endpoint is
   dialed at most once, and New gives up only after all of them refused.
   */
  method DialFirst(n: nat, random: bool, draws: seq<nat>, answers: nat -> bool, clock: nat -> int, jitter: nat -> nat)
    returns (dialed: seq<nat>, connected: Option<nat>)
    requires |draws| == n && C.ValidDraws(draws)
    requires forall k :: jitter(k) < C.MIN_BACKOFF
    ensures var order := C.PickOrder(n, random, draws);
            && |dialed| <= |order| && dialed == order[..|dialed|]
            && (forall i :: 0 <= i < |dialed| - 1 ==> !answers(dialed[i]))
            && (connected.Some? ==> dialed != [] && connected.value == dialed[|dialed| - 1] && answers(connected.value))
            && (connected.None? <==> forall e: nat :: e < n ==> !answers(e))
            && (connected.None? ==> dialed == order)
  {
    C.PickOrderIsPermutation(n, random, draws);
    var cluster := new C.Cluster(n, random, draws);
    dialed, connected := DialAll(cluster, answers, clock, jitter);
    if connected.None? {
      forall e: nat | e < n ensures !answers(e) {
        var i := C.Where(cluster.order, e);
        assert dialed[i] == e;
      }
    } else {
      assert connected.value < n;
    }
  }
}
