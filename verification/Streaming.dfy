/**
 The chunked reads: a sequence that lists names, then reads them chunk by chunk and
 hands the items to a consumer that may stop at any time; and the call that reads the
 same chunks and returns everything at once.

 Every read is a run of the retry loop under a schedule of its own. An item stands
 for the converted partition or table. A run is the trace of what the sequence did.
 */
module Streaming {
  import opened Wrappers
  import opened Errors
  import opened Retry

  type Name = string

  /**
   Everything the sequence does not decide: the schedules of the listing and of each
   chunk's read, the state of ctx before each chunk, and the consumer, which goes on
   after its n-th item when goes(n).
   */
  datatype Env<!T> = Env(
    listOp: string,
    chunkOp: string,
    chunkSize: int,
    maxRetries: int,
    listing: nat -> Attempt<seq<Name>>,
    chunkReads: nat -> nat -> Attempt<seq<T>>,
    ended: nat -> Option<Err>,
    goes: nat -> bool)

  datatype Step<+T> =
    | NamesRead(log: seq<Event>)
    | ChunkRead(names: seq<Name>, log: seq<Event>)
    | Yielded(item: T)
    | YieldedError(err: Err)

  /** config.clamp */
  function ClampChunk(chunkSize: int): (r: nat)
    ensures r >= 1 && (chunkSize >= 1 ==> r == chunkSize)
  {
    if chunkSize < 1 then 1 else chunkSize
  }

  function ChunkLen(chunkSize: int, rest: seq<Name>): (r: nat)
    ensures r <= |rest| && (rest != [] ==> r > 0)
  {
    if ClampChunk(chunkSize) < |rest| then ClampChunk(chunkSize) else |rest|
  }

  function ReadNames<T>(env: Env<T>): Result3<seq<Name>> { DoSpec(env.listOp, true, env.maxRetries, env.listing) }

  function ReadChunk<T>(env: Env<T>, j: nat): Result3<seq<T>> { DoSpec(env.chunkOp, true, env.maxRetries, env.chunkReads(j)) }

  function ChunkItems<T>(env: Env<T>, j: nat): seq<T> {
    if ReadChunk(env, j).stored.Some? then ReadChunk(env, j).stored.value else []
  }

  // ------------------------------------------------------------ what a consumer should see

  /** All the items there are, in name order, and the error that ends them. */
  datatype Feed<+T> = Feed(items: seq<T>, err: Option<Err>)

  function FeedFrom<T>(env: Env<T>, rest: seq<Name>, j: nat): Feed<T>
    decreases |rest|
  {
    if rest == [] then Feed([], None)
    else if env.ended(j).Some? then Feed([], Some(WrapError(env.chunkOp, env.ended(j).value)))
    else if ReadChunk(env, j).err.Some? then Feed([], ReadChunk(env, j).err)
    else
      var feed := FeedFrom(env, rest[ChunkLen(env.chunkSize, rest)..], j + 1);
      Feed(ChunkItems(env, j) + feed.items, feed.err)
  }

  /** The items handed over before the consumer stops, which is after it has seen one. */
  function Cut<T>(env: Env<T>, items: seq<T>, n: nat): seq<T> {
    if items == [] then [] else [items[0]] + if env.goes(n) then Cut(env, items[1..], n + 1) else []
  }

  predicate Stops<T>(env: Env<T>, items: seq<T>, n: nat) {
    items != [] && (env.goes(n) ==> Stops(env, items[1..], n + 1))
  }

  // ------------------------------------------------------------ the trace

  function Yields<T>(items: seq<T>): (r: seq<Step<T>>)
    ensures |r| == |items|
  {
    if items == [] then [] else [Yielded(items[0])] + Yields(items[1..])
  }

  /** The trace from chunk j, with n items handed over. */
  function TraceFrom<T>(env: Env<T>, rest: seq<Name>, j: nat, n: nat): seq<Step<T>>
    decreases |rest|, 0
  {
    if rest == [] then []
    else if env.ended(j).Some? then [YieldedError(WrapError(env.chunkOp, env.ended(j).value))]
    else
      var r, k := ReadChunk(env, j), ChunkLen(env.chunkSize, rest);
      var read := [ChunkRead(rest[..k], r.log)];
      if r.err.Some? then read + [YieldedError(r.err.value)]
      else
        var items := ChunkItems(env, j);
        read + Yields(Cut(env, items, n)) + AfterChunk(env, rest[k..], j, n, items)
  }

  function AfterChunk<T>(env: Env<T>, rest: seq<Name>, j: nat, n: nat, items: seq<T>): seq<Step<T>>
    decreases |rest|, 1
  {
    if Stops(env, items, n) then [] else TraceFrom(env, rest, j + 1, n + |items|)
  }

  function Trace<T>(env: Env<T>): seq<Step<T>> {
    var r := ReadNames(env);
    [NamesRead(r.log)] +
    if r.err.Some? then [YieldedError(r.err.value)]
    else if r.stored.Some? then TraceFrom(env, r.stored.value, 0, 0) else []
  }

  // ------------------------------------------------------------ the code

  /** Hands the items over one by one until the consumer stops. */
  method HandOver<T>(env: Env<T>, items: seq<T>, n: nat) returns (trace: seq<Step<T>>, stopped: bool)
    ensures trace == Yields(Cut(env, items, n)) && stopped == Stops(env, items, n)
    ensures !stopped ==> |trace| == |items|
  {
    hide Cut, Stops, Yields;
    trace, stopped := [], false;
    assert items[0..] == items;
    for i := 0 to |items|
      invariant |trace| == i
      invariant trace + Yields(Cut(env, items[i..], n + i)) == Yields(Cut(env, items, n))
      invariant Stops(env, items[i..], n + i) == Stops(env, items, n)
    {
      HandOverStep(env, items, i, n, trace);
      trace := trace + [Yielded(items[i])];
      if !env.goes(n + i) {
        return trace, true;
      }
    }
    CutStep(env, items[|items|..], n + |items|);
    YieldsStep(Cut(env, items[|items|..], n + |items|));
  }

  /** What is left to hand over, before and after the i-th item. */
  lemma HandOverStep<T>(env: Env<T>, items: seq<T>, i: nat, n: nat, trace: seq<Step<T>>)
    requires i < |items|
    ensures var before, more := trace + Yields(Cut(env, items[i..], n + i)), trace + [Yielded(items[i])];
            && (env.goes(n + i) ==>
                  && before == more + Yields(Cut(env, items[i + 1..], n + (i + 1)))
                  && Stops(env, items[i..], n + i) == Stops(env, items[i + 1..], n + (i + 1)))
            && (!env.goes(n + i) ==> before == more && Stops(env, items[i..], n + i))
  {
    hide Cut, Stops, Yields;
    var left := items[i..];
    CutStep(env, left, n + i);
    YieldsStep(Cut(env, left, n + i));
    assert left[1..] == items[i + 1..];
    var rest := Cut(env, left, n + i)[1..];
    YieldsStep(rest);
    assert rest == if env.goes(n + i) then Cut(env, items[i + 1..], n + i + 1) else [];
    assert trace + ([Yielded(items[i])] + Yields(rest)) == (trace + [Yielded(items[i])]) + Yields(rest);
  }

  /** One turn of the chunk loop, as the trace has it. */
  lemma TraceTurn<T>(env: Env<T>, rest: seq<Name>, j: nat, n: nat)
    ensures rest == [] ==> TraceFrom(env, rest, j, n) == []
    ensures rest != [] && env.ended(j).Some? ==>
              TraceFrom(env, rest, j, n) == [YieldedError(WrapError(env.chunkOp, env.ended(j).value))]
    ensures rest != [] && env.ended(j).None? ==>
              var r, k := ReadChunk(env, j), ChunkLen(env.chunkSize, rest);
              TraceFrom(env, rest, j, n) == [ChunkRead(rest[..k], r.log)] +
              if r.err.Some? then [YieldedError(r.err.value)]
              else Yields(Cut(env, ChunkItems(env, j), n)) + AfterChunk(env, rest[k..], j, n, ChunkItems(env, j))
  {
    hide Yields, Cut, Stops, ReadChunk, WrapError;
  }

  /** GetPartitionsSeq and GetTablesSeq. */
  method Sequence<T>(env: Env<T>) returns (trace: seq<Step<T>>)
    ensures trace == Trace(env)
  {
    hide DoSpec, Yields, Cut, Stops, TraceFrom;
    var err, stored, log := Do(env.listOp, true, env.maxRetries, env.listing);
    DoKeepsItsPromises(env.listOp, true, env.maxRetries, env.listing);
    trace := [NamesRead(log)];
    if err.Some? {
      return trace + [YieldedError(err.value)];
    }
    var chunks := Chunks(env, stored.value);
    return trace + chunks;
  }

  lemma ErrOrAnswer<T>(env: Env<T>, j: nat)
    ensures ReadChunk(env, j).err.None? <==> ReadChunk(env, j).stored.Some?
  {
    hide DoSpec;
    DoKeepsItsPromises(env.chunkOp, true, env.maxRetries, env.chunkReads(j));
  }

  lemma ConcatFour<T>(a: seq<Step<T>>, b: seq<Step<T>>, c: seq<Step<T>>, d: seq<Step<T>>)
    ensures ((a + b) + c) + d == a + (b + (c + d))
    ensures d == [] ==> (a + b) + c == a + (b + c)
  {
  }

  lemma SliceTwice(names: seq<Name>, i: nat, end: nat)
    requires i <= end <= |names|
    ensures names[i..][..end - i] == names[i..end] && names[i..][end - i..] == names[end..]
  {
  }

  /** The chunk loop over the listed names. */
  method Chunks<T>(env: Env<T>, names: seq<Name>) returns (trace: seq<Step<T>>)
    ensures trace == TraceFrom(env, names, 0, 0)
  {
    hide DoSpec, Yields, Cut, Stops, TraceFrom, WrapError;
    trace := [];
    var i, j: nat, n: nat := 0, 0, 0;
    assert names[0..] == names;
    while i < |names|
      invariant 0 <= i <= |names|
      invariant trace + TraceFrom(env, names[i..], j, n) == TraceFrom(env, names, 0, 0)
      decreases |names| - i
    {
      TraceTurn(env, names[i..], j, n);
      if env.ended(j).Some? {
        return trace + [YieldedError(WrapError(env.chunkOp, env.ended(j).value))];
      }
      var end := i + ClampChunk(env.chunkSize);
      if end > |names| {
        end := |names|;
      }
      ghost var before, rest, k := trace, names[i..], end - i;
      var chunk := names[i..end];
      SliceTwice(names, i, end);
      assert k == ChunkLen(env.chunkSize, rest);
      var err, stored, log := Do(env.chunkOp, true, env.maxRetries, env.chunkReads(j));
      ErrOrAnswer(env, j);
      trace := trace + [ChunkRead(chunk, log)];
      if err.Some? {
        ConcatFour(before, [ChunkRead(chunk, log)], [YieldedError(err.value)], []);
        return trace + [YieldedError(err.value)];
      }
      var items := stored.value;
      var handed, stopped := HandOver(env, items, n);
      ghost var after := AfterChunk(env, rest[k..], j, n, items);
      ConcatFour(before, [ChunkRead(chunk, log)], handed, after);
      trace := trace + handed;
      if stopped {
        assert trace + [] == trace;
        return;
      }
      i, j, n := end, j + 1, n + |items|;
    }
    TraceTurn(env, names[i..], j, n);
    assert trace + [] == trace;
  }

  // ------------------------------------------------------------ what the consumer sees

  function Items<T>(t: seq<Step<T>>): seq<T> {
    if t == [] then [] else (if t[0].Yielded? then [t[0].item] else []) + Items(t[1..])
  }

  function Failures<T>(t: seq<Step<T>>): seq<Err> {
    if t == [] then [] else (if t[0].YieldedError? then [t[0].err] else []) + Failures(t[1..])
  }

  lemma {:induction false} ItemsConcat<T>(a: seq<Step<T>>, b: seq<Step<T>>)
    ensures Items(a + b) == Items(a) + Items(b)
  {
    if a == [] {
      assert a + b == b;
    } else {
      assert (a + b)[1..] == a[1..] + b;
      ItemsConcat(a[1..], b);
      var head := if a[0].Yielded? then [a[0].item] else [];
      assert head + (Items(a[1..]) + Items(b)) == (head + Items(a[1..])) + Items(b);
    }
  }

  lemma {:induction false} FailuresConcat<T>(a: seq<Step<T>>, b: seq<Step<T>>)
    ensures Failures(a + b) == Failures(a) + Failures(b)
  {
    if a == [] {
      assert a + b == b;
    } else {
      assert (a + b)[1..] == a[1..] + b;
      FailuresConcat(a[1..], b);
      var head := if a[0].YieldedError? then [a[0].err] else [];
      assert head + (Failures(a[1..]) + Failures(b)) == (head + Failures(a[1..])) + Failures(b);
    }
  }

  lemma SeenConcat<T>(a: seq<Step<T>>, b: seq<Step<T>>)
    ensures Items(a + b) == Items(a) + Items(b) && Failures(a + b) == Failures(a) + Failures(b)
  {
    ItemsConcat(a, b);
    FailuresConcat(a, b);
  }

  lemma {:induction false} SeenYields<T>(items: seq<T>)
    ensures Items(Yields(items)) == items && Failures(Yields(items)) == []
  {
    if items != [] {
      SeenYields(items[1..]);
      assert Yields(items)[1..] == Yields(items[1..]);
    }
  }

  lemma SeenOne<T>(s: Step<T>)
    ensures Items([s]) == (if s.Yielded? then [s.item] else []) && Failures([s]) == if s.YieldedError? then [s.err] else []
  {
    assert [s][1..] == [];
  }

  /** Cut and Stops, one item at a time. */
  lemma CutStep<T>(env: Env<T>, items: seq<T>, n: nat)
    ensures items == [] ==> Cut(env, items, n) == [] && !Stops(env, items, n)
    ensures items != [] && env.goes(n) ==>
              && Cut(env, items, n) == [items[0]] + Cut(env, items[1..], n + 1)
              && Stops(env, items, n) == Stops(env, items[1..], n + 1)
    ensures items != [] && !env.goes(n) ==> Cut(env, items, n) == [items[0]] && Stops(env, items, n)
  {
  }

  lemma {:induction false} CutConcat<T>(env: Env<T>, a: seq<T>, b: seq<T>, n: nat)
    ensures Cut(env, a + b, n) == Cut(env, a, n) + if Stops(env, a, n) then [] else Cut(env, b, n + |a|)
    ensures Stops(env, a + b, n) <==> Stops(env, a, n) || Stops(env, b, n + |a|)
  {
    hide Cut, Stops;
    CutStep(env, a, n);
    CutStep(env, a + b, n);
    if a == [] {
      assert a + b == b;
    } else if env.goes(n) {
      assert (a + b)[1..] == a[1..] + b;
      CutConcat(env, a[1..], b, n + 1);
      var more := if Stops(env, a[1..], n + 1) then [] else Cut(env, b, n + |a|);
      assert [a[0]] + (Cut(env, a[1..], n + 1) + more) == ([a[0]] + Cut(env, a[1..], n + 1)) + more;
    }
  }

  /** Cutting keeps everything up to and including the first item after which the consumer stops. */
  lemma {:induction false} CutIsFirstStop<T>(env: Env<T>, items: seq<T>, n: nat)
    ensures var k := |Cut(env, items, n)|;
            && k <= |items| && Cut(env, items, n) == items[..k]
            && (forall i: nat :: n <= i < n + k - 1 ==> env.goes(i))
            && (Stops(env, items, n) <==> k > 0 && !env.goes(n + k - 1))
            && (!Stops(env, items, n) ==> k == |items|)
  {
    if items != [] && env.goes(n) {
      CutIsFirstStop(env, items[1..], n + 1);
      var k := |Cut(env, items, n)|;
      assert items[..k] == [items[0]] + items[1..][..k - 1];
    }
  }

  function FailuresOf(err: Option<Err>): seq<Err> { if err.None? then [] else [err.value] }

  lemma {:induction false} TraceShowsFeed<T>(env: Env<T>, rest: seq<Name>, j: nat, n: nat)
    ensures var feed, t := FeedFrom(env, rest, j), TraceFrom(env, rest, j, n);
            && Items(t) == Cut(env, feed.items, n)
            && Failures(t) == if Stops(env, feed.items, n) then [] else FailuresOf(feed.err)
    decreases |rest|
  {
    hide Yields, Cut, Stops, ReadChunk, WrapError, Items, Failures;
    CutIsFirstStop<T>(env, [], n);
    if rest != [] {
      var t := TraceFrom(env, rest, j, n);
      if env.ended(j).Some? {
        SeenOne(t[0]);
      } else {
        var k := ChunkLen(env.chunkSize, rest);
        var read, r := t[0], ReadChunk(env, j);
        SeenOne(read);
        if r.err.Some? {
          SeenOne(t[1]);
          SeenConcat([t[0]], [t[1]]);
        } else {
          var items := ChunkItems(env, j);
          var handed, after := Yields(Cut(env, items, n)), AfterChunk(env, rest[k..], j, n, items);
          TraceShowsFeed(env, rest[k..], j + 1, n + |items|);
          SeenConcat([read] + handed, after);
          SeenConcat([read], handed);
          SeenYields(Cut(env, items, n));
          CutConcat(env, items, FeedFrom(env, rest[k..], j + 1).items, n);
          SeenNothing<T>();
        }
      }
    }
    SeenNothing<T>();
  }

  lemma SeenNothing<T>()
    ensures Items<T>([]) == [] && Failures<T>([]) == []
  {
  }

  /**
   For every schedule, context and consumer: the consumer sees the items of the chunks'
   answers, in name order, up to where it stops; and if it does not stop, exactly the
   one error that ended the reading, or none.
   */
  lemma ConsumerSeesFeed<T>(env: Env<T>)
    ensures var names := ReadNames(env);
            var feed := if names.stored.Some? then FeedFrom(env, names.stored.value, 0) else Feed([], names.err);
            && Items(Trace(env)) == Cut(env, feed.items, 0)
            && Failures(Trace(env)) == if Stops(env, feed.items, 0) then [] else FailuresOf(feed.err)
  {
    hide DoSpec, Cut, Stops, TraceFrom, Items, Failures;
    var names := ReadNames(env);
    DoKeepsItsPromises(env.listOp, true, env.maxRetries, env.listing);
    var t := Trace(env);
    SeenOne(t[0]);
    CutIsFirstStop<T>(env, [], 0);
    if names.err.Some? {
      SeenOne(t[1]);
      SeenConcat([t[0]], [t[1]]);
    } else {
      TraceShowsFeed(env, names.stored.value, 0, 0);
      SeenConcat([t[0]], TraceFrom(env, names.stored.value, 0, 0));
    }
  }

  // ------------------------------------------------------------ the order of reads and yields

  /** How many items the first j chunks hold. */
  function Bound<T>(env: Env<T>, j: nat): nat {
    if j == 0 then 0 else Bound(env, j - 1) + |ChunkItems(env, j - 1)|
  }

  /** The log is a run of the retry loop for an idempotent call under this schedule. */
  ghost predicate ReadUnder<T, U>(env: Env<U>, schedule: nat -> Attempt<T>, log: seq<Event>) {
    && FollowsSchedule(true, ClampRetries(env.maxRetries), schedule, 0, Filter(log, IsOutcome))
    && LoanOver(NoLoan, log) == NoLoan
  }

  /** The next names, as many as the chunk size allows. */
  predicate IsNextChunk(chunkSize: int, names: seq<Name>, rest: seq<Name>) {
    && names != [] && names <= rest
    && (names == rest || |names| == if chunkSize < 1 then 1 else chunkSize)
    && |names| <= if chunkSize < 1 then 1 else chunkSize
  }

  /**
   A monitor of a trace, with the names not yet asked for, the chunk reads done and
   the items handed over so far. A chunk is read only while ctx is live and when every
   item of the chunks before it has been handed over; it asks for the next names in
   order, in a retried read of its own that leaves no connection on loan; the item handed
   over next is the next item of the last chunk read; nothing follows the item after
   which the consumer stops, nor an error; and the error is ctx's, or that of the last
   read.
   */
  ghost predicate Obeys<T>(env: Env<T>, t: seq<Step<T>>, rest: seq<Name>, done: nat, n: nat)
    decreases |t|
  {
    t != [] ==>
      match t[0]
      case NamesRead(_) => false
      case ChunkRead(names, log) =>
        && IsNextChunk(env.chunkSize, names, rest) && n == Bound(env, done) && env.ended(done).None?
        && ReadUnder(env, env.chunkReads(done), log)
        && Obeys(env, t[1..], rest[|names|..], done + 1, n)
      case Yielded(item) =>
        && done > 0 && Bound(env, done - 1) <= n < Bound(env, done)
        && item == ChunkItems(env, done - 1)[n - Bound(env, done - 1)]
        && (env.goes(n) || |t| == 1)
        && Obeys(env, t[1..], rest, done, n + 1)
      case YieldedError(e) =>
        && n == Bound(env, done) && |t| == 1
        && (|| (rest != [] && env.ended(done).Some? && e == WrapError(env.chunkOp, env.ended(done).value))
            || (done > 0 && ReadChunk(env, done - 1).err == Some(e)))
  }

  /** Handing over the rest of chunk j, from its m-th item, keeps to the rules if what follows does. */
  lemma {:induction false} YieldsObey<T>(env: Env<T>, j: nat, m: nat, rest: seq<Name>, after: seq<Step<T>>)
    requires m <= |ChunkItems(env, j)|
    requires Stops(env, ChunkItems(env, j)[m..], Bound(env, j) + m) ==> after == []
    requires !Stops(env, ChunkItems(env, j)[m..], Bound(env, j) + m) ==> Obeys(env, after, rest, j + 1, Bound(env, j + 1))
    ensures Obeys(env, Yields(Cut(env, ChunkItems(env, j)[m..], Bound(env, j) + m)) + after, rest, j + 1, Bound(env, j) + m)
    decreases |ChunkItems(env, j)| - m
  {
    hide ChunkItems, Cut, Stops, Yields, Obeys;
    var left, n := ChunkItems(env, j)[m..], Bound(env, j) + m;
    var t := Yields(Cut(env, left, n)) + after;
    FirstYield(env, left, n, after);
    if left != [] {
      assert left[1..] == ChunkItems(env, j)[m + 1..] && left[0] == ChunkItems(env, j)[m];
      if env.goes(n) {
        YieldsObey(env, j, m + 1, rest, after);
      } else {
        NothingObeys(env, rest, j + 1, n + 1);
      }
      YieldObeys(env, t, rest, j, m);
    }
  }

  /** What is handed over of some items, one item at a time. */
  lemma FirstYield<T>(env: Env<T>, items: seq<T>, n: nat, after: seq<Step<T>>)
    ensures var t := Yields(Cut(env, items, n)) + after;
            && (items == [] ==> t == after && !Stops(env, items, n))
            && (items != [] ==> t != [] && t[0] == Yielded(items[0]))
            && (items != [] && env.goes(n) ==>
                  && t[1..] == Yields(Cut(env, items[1..], n + 1)) + after
                  && Stops(env, items, n) == Stops(env, items[1..], n + 1))
            && (items != [] && !env.goes(n) ==> t[1..] == after && Stops(env, items, n))
  {
    hide Cut, Stops, Yields;
    CutStep(env, items, n);
    var cut := Cut(env, items, n);
    YieldsStep(cut);
    if items != [] {
      YieldsStep(cut[1..]);
      assert cut[1..] == if env.goes(n) then Cut(env, items[1..], n + 1) else [];
      assert ([Yielded(items[0])] + Yields(cut[1..]) + after)[1..] == Yields(cut[1..]) + after;
    }
  }

  lemma NothingObeys<T>(env: Env<T>, rest: seq<Name>, done: nat, n: nat)
    ensures Obeys(env, [], rest, done, n)
  {
  }

  lemma YieldObeys<T>(env: Env<T>, t: seq<Step<T>>, rest: seq<Name>, j: nat, m: nat)
    requires m < |ChunkItems(env, j)| && t != [] && t[0] == Yielded(ChunkItems(env, j)[m])
    requires env.goes(Bound(env, j) + m) || |t| == 1
    requires Obeys(env, t[1..], rest, j + 1, Bound(env, j) + m + 1)
    ensures Obeys(env, t, rest, j + 1, Bound(env, j) + m)
  {
    hide ChunkItems, ReadUnder, IsNextChunk, ReadChunk, WrapError;
  }

  lemma YieldsStep<T>(items: seq<T>)
    ensures Yields(items) == if items == [] then [] else [Yielded(items[0])] + Yields(items[1..])
  {
  }

  lemma {:induction false} TraceObeys<T>(env: Env<T>, rest: seq<Name>, j: nat)
    ensures Obeys(env, TraceFrom(env, rest, j, Bound(env, j)), rest, j, Bound(env, j))
    decreases |rest|
  {
    hide ReadChunk, ChunkItems, Yields, Cut, Stops, WrapError, TraceFrom;
    var t, k, n := TraceFrom(env, rest, j, Bound(env, j)), ChunkLen(env.chunkSize, rest), Bound(env, j);
    TraceTurn(env, rest, j, n);
    if rest != [] && env.ended(j).None? {
      ChunkFacts(env, j);
      hide ReadUnder;
      assert IsNextChunk(env.chunkSize, rest[..k], rest) && |rest[..k]| == k;
      var items := ChunkItems(env, j);
      if ReadChunk(env, j).err.None? {
        var after := AfterChunk(env, rest[k..], j, n, items);
        TraceObeys(env, rest[k..], j + 1);
        assert items[0..] == items;
        YieldsObey(env, j, 0, rest[k..], after);
        assert t[1..] == Yields(Cut(env, items, n)) + after;
      } else {
        assert t[1..] == [YieldedError(ReadChunk(env, j).err.value)];
        assert Bound(env, j + 1) == n;
      }
    }
  }

  lemma ChunkFacts<T>(env: Env<T>, j: nat)
    ensures ReadUnder(env, env.chunkReads(j), ReadChunk(env, j).log)
    ensures ReadChunk(env, j).err.Some? ==> ChunkItems(env, j) == []
  {
    hide DoSpec, FollowsSchedule;
    DoKeepsItsPromises(env.chunkOp, true, env.maxRetries, env.chunkReads(j));
  }

  /**
   Every sequence, with whatever schedules and consumer, lists the names in one retried
   read and then keeps to those rules; if the listing fails, its error is all there is.
   */
  lemma SequenceObeys<T>(env: Env<T>)
    ensures var t, names := Trace(env), ReadNames(env);
            && t[0] == NamesRead(names.log) && ReadUnder(env, env.listing, names.log)
            && (if names.stored.Some? then Obeys(env, t[1..], names.stored.value, 0, 0)
                else names.err.Some? && t[1..] == [YieldedError(names.err.value)])
  {
    hide DoSpec, TraceFrom, FollowsSchedule;
    DoKeepsItsPromises(env.listOp, true, env.maxRetries, env.listing);
    var t, names := Trace(env), ReadNames(env);
    if names.err.None? {
      TraceObeys(env, names.stored.value, 0);
      assert t[1..] == TraceFrom(env, names.stored.value, 0, 0);
    } else {
      assert t[1..] == [YieldedError(names.err.value)];
    }
  }

  /**
   A read of the sequence, of the names or of a chunk, succeeds exactly when some attempt
   within the limit answers after failures that an idempotent call is retried for; and
   its answer is that attempt's.
   */
  lemma ReadsAreRetried<T>(env: Env<T>, j: nat)
    ensures ReadNames(env).stored.Some?
       <==> exists m: nat :: m < ClampRetries(env.maxRetries) && AnswersAt(true, env.listing, 0, m)
    ensures forall m: nat :: m < ClampRetries(env.maxRetries) && AnswersAt(true, env.listing, 0, m) ==>
                               ReadNames(env).stored == Some(env.listing(m).outcome.value)
    ensures ReadChunk(env, j).err.None?
       <==> exists m: nat :: m < ClampRetries(env.maxRetries) && AnswersAt(true, env.chunkReads(j), 0, m)
    ensures forall m: nat :: m < ClampRetries(env.maxRetries) && AnswersAt(true, env.chunkReads(j), 0, m) ==>
                               ChunkItems(env, j) == env.chunkReads(j)(m).outcome.value
  {
    hide DoSpec;
    DoAnswersIff(env.listOp, true, env.maxRetries, env.listing);
    DoAnswersIff(env.chunkOp, true, env.maxRetries, env.chunkReads(j));
    DoKeepsItsPromises(env.chunkOp, true, env.maxRetries, env.chunkReads(j));
  }

  // ------------------------------------------------------------ reading everything at once

  /** fn of GetPartitionsByNames and GetTables on one connection: all chunks, or the first error. */
  function Bulk<T>(chunkSize: int, answer: seq<Name> -> Outcome<seq<T>>, rest: seq<Name>): Outcome<seq<T>>
    decreases |rest|
  {
    if rest == [] then Answer([])
    else
      var k := ChunkLen(chunkSize, rest);
      match answer(rest[..k])
      case Error(e) => Error(e)
      case Answer(items) =>
        match Bulk(chunkSize, answer, rest[k..])
        case Error(e) => Error(e)
        case Answer(more) => Answer(items + more)
  }

  method BulkRead<T>(chunkSize: int, answer: seq<Name> -> Outcome<seq<T>>, names: seq<Name>) returns (r: Outcome<seq<T>>)
    ensures r == Bulk(chunkSize, answer, names)
  {
    var parts: seq<T> := [];
    var i := 0;
    assert names[0..] == names;
    PrependNothing(Bulk(chunkSize, answer, names));
    while i < |names|
      invariant 0 <= i <= |names|
      invariant Bulk(chunkSize, answer, names) == Prepend(parts, Bulk(chunkSize, answer, names[i..]))
      decreases |names| - i
    {
      var end := i + ClampChunk(chunkSize);
      if end > |names| {
        end := |names|;
      }
      ghost var rest, k := names[i..], end - i;
      SliceTwice(names, i, end);
      assert k == ChunkLen(chunkSize, rest);
      var got := answer(names[i..end]);
      if got.Error? {
        return got;
      }
      PrependTwice(parts, got.value, Bulk(chunkSize, answer, names[end..]));
      parts := parts + got.value;
      i := end;
    }
    assert parts + [] == parts;
    return Answer(parts);
  }

  function Prepend<T>(items: seq<T>, o: Outcome<seq<T>>): Outcome<seq<T>> {
    match o
    case Error(e) => Error(e)
    case Answer(more) => Answer(items + more)
  }

  lemma PrependNothing<T>(o: Outcome<seq<T>>)
    ensures Prepend([], o) == o
  {
    if o.Answer? {
      assert [] + o.value == o.value;
    }
  }

  lemma PrependTwice<T>(a: seq<T>, b: seq<T>, o: Outcome<seq<T>>)
    ensures Prepend(a + b, o) == Prepend(a, Prepend(b, o))
  {
    if o.Answer? {
      assert a + b + o.value == a + (b + o.value);
    }
  }

  /** Each read that succeeds, in the stream's schedules, answers as the server does. */
  ghost predicate Consistent<T(!new)>(env: Env<T>, server: seq<Name> -> Outcome<seq<T>>, rest: seq<Name>, j: nat)
    decreases |rest|
  {
    rest != [] ==>
      var k := ChunkLen(env.chunkSize, rest);
      && (ReadChunk(env, j).stored.Some? ==> server(rest[..k]) == Answer(ReadChunk(env, j).stored.value))
      && Consistent(env, server, rest[k..], j + 1)
  }

  /** A stream that meets no error holds exactly what the single call returns from the same server. */
  lemma {:induction false} StreamAgreesWithBulk<T(!new)>(
    env: Env<T>, server: seq<Name> -> Outcome<seq<T>>, rest: seq<Name>, j: nat)
    requires Consistent(env, server, rest, j) && FeedFrom(env, rest, j).err.None?
    ensures Bulk(env.chunkSize, server, rest) == Answer(FeedFrom(env, rest, j).items)
    decreases |rest|
  {
    hide DoSpec;
    if rest != [] {
      DoKeepsItsPromises(env.chunkOp, true, env.maxRetries, env.chunkReads(j));
      StreamAgreesWithBulk(env, server, rest[ChunkLen(env.chunkSize, rest)..], j + 1);
    }
  }
}
