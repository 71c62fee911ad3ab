/**
 The test metastore's transactions and locks.

 The class has the source's fields and handlers, each proved against a step of an
 abstract state; what holds of the lock table and of transaction ids is proved over
 every sequence of calls. The mutex makes every handler one step.
 */
module LockManager {
  import opened Wrappers

  // ------------------------------------------------------------ components and what they cover

  datatype Level = Db | Table | Partition | OtherLevel(code: int)

  datatype Kind = SharedRead | SharedWrite | ExclWrite | Exclusive

  /** unset says that the component carries no data operation type. */
  datatype Component = Component(
    kind: Kind, level: Level, db: string, table: Option<string>, partition: Option<string>, unset: bool)

  function Depth(c: Component): nat {
    match c.level
    case Db => 1
    case Table => 2
    case _ => 3
  }

  function NameOf(n: Option<string>): string { if n.None? then "" else n.value }

  predicate Overlaps(a: Component, b: Component) {
    var depth := if Depth(a) < Depth(b) then Depth(a) else Depth(b);
    && a.db == b.db
    && (depth >= 2 ==> NameOf(a.table) == NameOf(b.table))
    && (depth >= 3 ==> NameOf(a.partition) == NameOf(b.partition))
  }

  /** A resource, named down to the partition. */
  datatype Resource = Resource(db: string, table: string, partition: string)

  predicate Covers(c: Component, r: Resource) {
    match c.level
    case Db => r.db == c.db
    case Table => r.db == c.db && r.table == NameOf(c.table)
    case _ => r == Resource(c.db, NameOf(c.table), NameOf(c.partition))
  }

  /** Overlap is having a resource in common; it is symmetric. */
  lemma OverlapIffCommonResource(a: Component, b: Component)
    ensures Overlaps(a, b) <==> exists r :: Covers(a, r) && Covers(b, r)
    ensures Overlaps(a, b) == Overlaps(b, a)
  {
    if Overlaps(a, b) {
      var deep := if Depth(a) < Depth(b) then b else a;
      var r := Resource(deep.db, NameOf(deep.table), NameOf(deep.partition));
      assert Covers(a, r) && Covers(b, r);
    }
  }

  // ------------------------------------------------------------ the abstract state

  datatype TxnStatus = Open | Aborted

  datatype LockState = Acquired | Waiting

  datatype Entry = Entry(components: seq<Component>, state: LockState)

  datatype State = State(nextTxn: nat, nextLock: nat, txns: map<int, TxnStatus>, locks: map<int, Entry>)

  const INITIAL := State(0, 0, map[], map[])

  /** Some component of cs is EXCLUSIVE and overlaps c. */
  predicate ExclusiveIn(cs: seq<Component>, c: Component) {
    exists i :: 0 <= i < |cs| && cs[i].kind == Exclusive && Overlaps(cs[i], c)
  }

  predicate Conflicts(locks: map<int, Entry>, c: Component) {
    exists id :: id in locks && locks[id].state == Acquired && ExclusiveIn(locks[id].components, c)
  }

  predicate MustWait(locks: map<int, Entry>, cs: seq<Component>) {
    exists i :: 0 <= i < |cs| && Conflicts(locks, cs[i])
  }

  predicate Rejected(txn: Option<int>, cs: seq<Component>) {
    txn.Some? && exists i :: 0 <= i < |cs| && cs[i].unset
  }

  datatype Call =
    | OpenTxns(n: int) | CommitTxn(txn: int) | AbortTxn(txn: int)
    | Lock(onTxn: Option<int>, components: seq<Component>) | CheckLock(lock: int) | Unlock(lock: int)

  datatype Fault = NoSuchTxn | TxnAborted | NoSuchLock | BadOperation

  datatype Reply = TxnIds(ids: seq<int>) | Granted(lock: int, state: LockState) | Done | Failed(fault: Fault)

  function Opened(txns: map<int, TxnStatus>, from: nat, n: nat): map<int, TxnStatus> {
    if n == 0 then txns else Opened(txns, from, n - 1)[from + n := Open]
  }

  function Ids(from: nat, n: nat): seq<int> { seq(n, i requires 0 <= i < n => from + 1 + i) }

  function LockStep(s: State, cs: seq<Component>): (State, Reply) {
    var state := if MustWait(s.locks, cs) then Waiting else Acquired;
    var id := s.nextLock + 1;
    (s.(nextLock := id, locks := s.locks[id := Entry(cs, state)]), Granted(id, state))
  }

  function CommitStep(s: State, txn: int): (State, Reply) {
    if txn !in s.txns then (s, Failed(NoSuchTxn))
    else if s.txns[txn] == Aborted then (s, Failed(TxnAborted))
    else (s.(txns := s.txns - {txn}), Done)
  }

  function Step(s: State, call: Call): (State, Reply) {
    match call
    case OpenTxns(n) =>
      var count := if n < 1 then 1 else n;
      (s.(nextTxn := s.nextTxn + count, txns := Opened(s.txns, s.nextTxn, count)), TxnIds(Ids(s.nextTxn, count)))
    case CommitTxn(txn) => CommitStep(s, txn)
    case AbortTxn(txn) => if txn !in s.txns then (s, Failed(NoSuchTxn)) else (s.(txns := s.txns[txn := Aborted]), Done)
    case Lock(onTxn, cs) => if Rejected(onTxn, cs) then (s, Failed(BadOperation)) else LockStep(s, cs)
    case CheckLock(id) => (s, if id in s.locks then Granted(id, s.locks[id].state) else Failed(NoSuchLock))
    case Unlock(id) => if id !in s.locks then (s, Failed(NoSuchLock)) else (s.(locks := s.locks - {id}), Done)
  }

  function Run(s: State, calls: seq<Call>): State
    decreases |calls|
  {
    if calls == [] then s else Step(Run(s, calls[..|calls| - 1]), calls[|calls| - 1]).0
  }

  // ------------------------------------------------------------ the handlers

  lemma HasMember(s: set<int>)
    requires s != {}
    ensures exists x :: x in s
  {
    assert (forall x :: x !in s) ==> s == {};
  }

  class Acid {
    var nextTxn: nat
    var nextLock: nat
    var txns: map<int, TxnStatus>
    var locks: map<int, Entry>

    constructor ()
      ensures Abstract() == INITIAL
    {
      nextTxn, nextLock, txns, locks := 0, 0, map[], map[];
    }

    function Abstract(): State
      reads this
    {
      State(nextTxn, nextLock, txns, locks)
    }

    method OpenTxns(n: int) returns (ids: seq<int>)
      modifies this`nextTxn, this`txns
      ensures (Abstract(), TxnIds(ids)) == Step(old(Abstract()), Call.OpenTxns(n))
    {
      var count := if n < 1 then 1 else n;
      ids := [];
      for i := 0 to count
        invariant nextTxn == old(nextTxn) + i && txns == Opened(old(txns), old(nextTxn), i)
        invariant ids == Ids(old(nextTxn), i)
      {
        nextTxn := nextTxn + 1;
        txns := txns[nextTxn := Open];
        ids := ids + [nextTxn];
      }
    }

    method CommitTxn(txn: int) returns (fault: Option<Fault>)
      modifies this`txns
      ensures (Abstract(), ReplyOf(fault)) == Step(old(Abstract()), Call.CommitTxn(txn))
    {
      if txn !in txns {
        return Some(NoSuchTxn);
      }
      if txns[txn] == Aborted {
        return Some(TxnAborted);
      }
      txns := txns - {txn};
      return None;
    }

    method AbortTxn(txn: int) returns (fault: Option<Fault>)
      modifies this`txns
      ensures (Abstract(), ReplyOf(fault)) == Step(old(Abstract()), Call.AbortTxn(txn))
    {
      if txn !in txns {
        return Some(NoSuchTxn);
      }
      txns := txns[txn := Aborted];
      return None;
    }

    /** Scans the table, in any order. */
    method HasExclusiveConflict(c: Component) returns (r: bool)
      ensures r == Conflicts(locks, c)
    {
      var left: set<int> := locks.Keys;
      while left != {}
        invariant left <= locks.Keys
        invariant forall id :: id in locks && id !in left ==>
                                 !(locks[id].state == Acquired && ExclusiveIn(locks[id].components, c))
        decreases |left|
      {
        HasMember(left);
        var id :| id in left;
        left := left - {id};
        if locks[id].state == Acquired {
          var cs := locks[id].components;
          for i := 0 to |cs|
            invariant forall j :: 0 <= j < i ==> !(cs[j].kind == Exclusive && Overlaps(cs[j], c))
          {
            if cs[i].kind == Exclusive && Overlaps(cs[i], c) {
              return true;
            }
          }
        }
      }
      return false;
    }

    method Lock(onTxn: Option<int>, cs: seq<Component>) returns (r: Result<(int, LockState), Fault>)
      modifies this`nextLock, this`locks
      ensures (Abstract(), if r.Ok? then Granted(r.value.0, r.value.1) else Failed(r.error))
           == Step(old(Abstract()), Call.Lock(onTxn, cs))
    {
      if onTxn.Some? {
        for i := 0 to |cs|
          invariant forall j :: 0 <= j < i ==> !cs[j].unset
        {
          if cs[i].unset {
            return Fail(BadOperation);
          }
        }
      }
      var state := Acquired;
      for i := 0 to |cs|
        invariant locks == old(locks) && nextLock == old(nextLock)
        invariant state == Acquired && forall j :: 0 <= j < i ==> !Conflicts(locks, cs[j])
      {
        var conflict := HasExclusiveConflict(cs[i]);
        if conflict {
          state := Waiting;
          break;
        }
      }
      nextLock := nextLock + 1;
      locks := locks[nextLock := Entry(cs, state)];
      return Ok((nextLock, state));
    }

    method CheckLock(id: int) returns (r: Option<LockState>)
      ensures (Abstract(), if r.Some? then Granted(id, r.value) else Failed(NoSuchLock))
           == Step(Abstract(), Call.CheckLock(id))
    {
      return if id in locks then Some(locks[id].state) else None;
    }

    method Unlock(id: int) returns (fault: Option<Fault>)
      modifies this`locks
      ensures (Abstract(), ReplyOf(fault)) == Step(old(Abstract()), Call.Unlock(id))
    {
      if id !in locks {
        return Some(NoSuchLock);
      }
      locks := locks - {id};
      return None;
    }
  }

  function ReplyOf(fault: Option<Fault>): Reply { if fault.None? then Done else Failed(fault.value) }

  // ------------------------------------------------------------ ids and their lives

  lemma {:induction false} OpenedIs(txns: map<int, TxnStatus>, from: nat, n: nat)
    ensures forall id :: id in Opened(txns, from, n) <==> id in txns || from < id <= from + n
    ensures forall id :: id in Opened(txns, from, n) ==>
                           Opened(txns, from, n)[id] == if from < id <= from + n then Open else txns[id]
  {
    if n > 0 {
      OpenedIs(txns, from, n - 1);
    }
  }

  /** Where a transaction id stands; Unknown is committed, or never to be handed out. */
  datatype TxnLife = NotYet | Live | Dead | Unknown

  function LifeOf(s: State, txn: int): TxnLife {
    if txn in s.txns then (if s.txns[txn] == Open then Live else Dead) else if txn > s.nextTxn then NotYet else Unknown
  }

  /** The moves an id may make: opened once, then committed or aborted, each for good. */
  predicate MayBecome(a: TxnLife, b: TxnLife) {
    match a
    case NotYet => true
    case Live => b != NotYet
    case Dead => b == Dead
    case Unknown => b == Unknown
  }

  ghost predicate TxnsInRange(s: State) { forall txn :: txn in s.txns ==> 0 < txn <= s.nextTxn }

  lemma StepMovesTxn(s: State, call: Call, txn: int)
    requires TxnsInRange(s)
    ensures TxnsInRange(Step(s, call).0)
    ensures MayBecome(LifeOf(s, txn), LifeOf(Step(s, call).0, txn))
  {
    hide MustWait, Rejected;
    if call.OpenTxns? {
      OpenedIs(s.txns, s.nextTxn, if call.n < 1 then 1 else call.n);
    }
  }

  lemma {:induction false} RunMovesTxn(s: State, calls: seq<Call>, txn: int)
    requires TxnsInRange(s)
    ensures TxnsInRange(Run(s, calls))
    ensures MayBecome(LifeOf(s, txn), LifeOf(Run(s, calls), txn))
    decreases |calls|
  {
    if calls != [] {
      hide Step;
      RunMovesTxn(s, calls[..|calls| - 1], txn);
      StepMovesTxn(Run(s, calls[..|calls| - 1]), calls[|calls| - 1], txn);
    }
  }

  /**
   In every run: opening hands out as many ids as asked for, one at least, in order, that
   were never handed out before; exactly the open ones commit, and those known abort; an id
   that is committed is unknown to every later call; and an aborted one is refused by
   every later commit.
   */
  lemma TransactionsEndForGood(before: seq<Call>, after: seq<Call>, txn: int, n: int)
    ensures var s := Run(INITIAL, before);
            var later := Run(s, after);
            && (Step(s, CommitTxn(txn)).1 == Done ==> LifeOf(Step(s, CommitTxn(txn)).0, txn) == Unknown)
            && (LifeOf(s, txn) == Unknown ==>
                  Step(later, CommitTxn(txn)).1 == Failed(NoSuchTxn) && Step(later, AbortTxn(txn)).1 == Failed(NoSuchTxn))
            && (LifeOf(s, txn) == Dead ==> Step(later, CommitTxn(txn)).1 == Failed(TxnAborted))
            && |Step(s, OpenTxns(n)).1.ids| == (if n < 1 then 1 else n)
            && (forall i, j :: 0 <= i < j < |Step(s, OpenTxns(n)).1.ids| ==>
                                 Step(s, OpenTxns(n)).1.ids[i] < Step(s, OpenTxns(n)).1.ids[j])
            && (Step(s, CommitTxn(txn)).1 == Done <==> LifeOf(s, txn) == Live)
            && (Step(s, AbortTxn(txn)).1 == Done <==> LifeOf(s, txn) == Live || LifeOf(s, txn) == Dead)
            && (LifeOf(s, txn) == Live ==> LifeOf(Step(s, AbortTxn(txn)).0, txn) == Dead)
            && (forall id :: id in Step(s, OpenTxns(n)).1.ids ==>
                               LifeOf(s, id) == NotYet && LifeOf(Step(s, OpenTxns(n)).0, id) == Live)
  {
    hide Run;
    var s := Run(INITIAL, before);
    RunMovesTxn(INITIAL, before, txn);
    RunMovesTxn(s, after, txn);
    OpenedIs(s.txns, s.nextTxn, if n < 1 then 1 else n);
  }

  // ------------------------------------------------------------ the lock table

  /** If both are acquired, no component of b overlaps an EXCLUSIVE one of a. */
  predicate KeepsOff(a: Entry, b: Entry) {
    a.state == Acquired && b.state == Acquired ==>
      forall k :: 0 <= k < |b.components| ==> !ExclusiveIn(a.components, b.components[k])
  }

  /** No ACQUIRED lock overlaps an EXCLUSIVE component of an earlier ACQUIRED one. */
  ghost predicate EarlierExclusivesHold(locks: map<int, Entry>) {
    forall i, j :: i in locks && j in locks && i < j ==> KeepsOff(locks[i], locks[j])
  }

  ghost predicate LocksInRange(s: State) { forall id :: id in s.locks ==> 0 < id <= s.nextLock }

  ghost predicate LocksOk(s: State) { LocksInRange(s) && EarlierExclusivesHold(s.locks) }

  lemma LockKeeps(s: State, cs: seq<Component>)
    requires LocksOk(s)
    ensures LocksOk(LockStep(s, cs).0)
  {
    hide ExclusiveIn;
    var t, id := LockStep(s, cs).0.locks, s.nextLock + 1;
    forall i, j | i in t && j in t && i < j ensures KeepsOff(t[i], t[j]) {
      if j == id {
        GrantKeepsOff(s.locks, i, cs);
      } else {
        assert s.locks[i] == t[i] && s.locks[j] == t[j];
      }
    }
  }

  /** A request that need not wait keeps off every lock acquired before it. */
  lemma GrantKeepsOff(locks: map<int, Entry>, i: int, cs: seq<Component>)
    requires i in locks
    ensures !MustWait(locks, cs) ==> KeepsOff(locks[i], Entry(cs, Acquired))
  {
    hide ExclusiveIn;
    if !MustWait(locks, cs) && locks[i].state == Acquired {
      forall k | 0 <= k < |cs| ensures !ExclusiveIn(locks[i].components, cs[k]) {
        assert !Conflicts(locks, cs[k]);
      }
    }
  }

  lemma StepKeepsLocks(s: State, call: Call)
    requires LocksOk(s)
    ensures LocksOk(Step(s, call).0)
  {
    hide LockStep, ExclusiveIn, Rejected;
    if call.Lock? {
      LockKeeps(s, call.components);
    }
  }

  /** Over every run from an empty table. */
  lemma {:induction false} EarlierExclusivesAlwaysHold(calls: seq<Call>)
    ensures LocksOk(Run(INITIAL, calls))
    decreases |calls|
  {
    if calls != [] {
      EarlierExclusivesAlwaysHold(calls[..|calls| - 1]);
      StepKeepsLocks(Run(INITIAL, calls[..|calls| - 1]), calls[|calls| - 1]);
    }
  }

  /** The lock's state never changes: it is answered as it was granted until it is released, and unknown after. */
  lemma StepKeepsLock(s: State, call: Call, id: int)
    requires LocksInRange(s)
    ensures LocksInRange(Step(s, call).0)
    ensures var t := Step(s, call).0;
            && s.nextLock <= t.nextLock
            && (id in s.locks && id in t.locks ==> t.locks[id] == s.locks[id])
            && (id !in s.locks && id <= s.nextLock ==> id !in t.locks)
  {
    hide MustWait, Rejected;
  }

  lemma {:induction false} RunKeepsLock(s: State, calls: seq<Call>, id: int)
    requires LocksInRange(s) && id <= s.nextLock
    ensures LocksInRange(Run(s, calls)) && s.nextLock <= Run(s, calls).nextLock
    ensures id in Run(s, calls).locks ==> id in s.locks && Run(s, calls).locks[id] == s.locks[id]
    decreases |calls|
  {
    if calls != [] {
      hide Step;
      RunKeepsLock(s, calls[..|calls| - 1], id);
      StepKeepsLock(Run(s, calls[..|calls| - 1]), calls[|calls| - 1], id);
    }
  }

  /** An acquired lock holds an EXCLUSIVE component on a resource some requested component covers. */
  ghost predicate HeldExclusively(locks: map<int, Entry>, cs: seq<Component>) {
    exists id, i, k, r :: HeldOn(locks, cs, id, i, k, r)
  }

  ghost predicate HeldOn(locks: map<int, Entry>, cs: seq<Component>, id: int, i: int, k: int, r: Resource) {
    && id in locks && locks[id].state == Acquired && 0 <= i < |locks[id].components| && 0 <= k < |cs|
    && locks[id].components[i].kind == Exclusive && Covers(locks[id].components[i], r) && Covers(cs[k], r)
  }

  lemma MustWaitIff(locks: map<int, Entry>, cs: seq<Component>)
    ensures MustWait(locks, cs) <==> HeldExclusively(locks, cs)
  {
    hide Covers, Overlaps;
    if MustWait(locks, cs) {
      var k :| 0 <= k < |cs| && Conflicts(locks, cs[k]);
      var id :| id in locks && locks[id].state == Acquired && ExclusiveIn(locks[id].components, cs[k]);
      var held := locks[id].components;
      var i :| 0 <= i < |held| && held[i].kind == Exclusive && Overlaps(held[i], cs[k]);
      OverlapIffCommonResource(held[i], cs[k]);
      var r :| Covers(held[i], r) && Covers(cs[k], r);
      assert HeldOn(locks, cs, id, i, k, r);
    }
    if HeldExclusively(locks, cs) {
      var id, i, k, r :| HeldOn(locks, cs, id, i, k, r);
      OverlapIffCommonResource(locks[id].components[i], cs[k]);
      assert ExclusiveIn(locks[id].components, cs[k]);
      assert Conflicts(locks, cs[k]);
    }
  }

  /**
   A request gets the next id and is recorded whole, leaving every other lock as it was.
   It waits exactly when some acquired lock holds, exclusively, a resource it asks for;
   and it is refused, changing nothing, exactly when a transaction asks for it with an
   UNSET operation.
   */
  lemma LockGrantedIff(s: State, onTxn: Option<int>, cs: seq<Component>)
    ensures var (t, reply) := Step(s, Lock(onTxn, cs));
            if onTxn.Some? && exists i :: 0 <= i < |cs| && cs[i].unset
            then t == s && reply == Failed(BadOperation)
            else
              var state := if HeldExclusively(s.locks, cs) then Waiting else Acquired;
              && reply == Granted(s.nextLock + 1, state) && t.nextLock == s.nextLock + 1
              && t.locks == s.locks[s.nextLock + 1 := Entry(cs, state)] && t.txns == s.txns && t.nextTxn == s.nextTxn
  {
    MustWaitIff(s.locks, cs);
    hide MustWait, HeldExclusively;
  }

  /** In every run a lock is answered with the state it was given until it is unlocked, and is unknown from then on. */
  lemma {:induction false} LockLivesUntilUnlocked(s: State, calls: seq<Call>, id: int)
    requires LocksInRange(s) && id in s.locks
    ensures var later := Step(Run(s, calls), CheckLock(id)).1;
            if Unlock(id) in calls then later == Failed(NoSuchLock) else later == Granted(id, s.locks[id].state)
    ensures LocksInRange(Run(s, calls)) && id <= Run(s, calls).nextLock
    decreases |calls|
  {
    hide MustWait, Rejected;
    if calls != [] {
      var before, last := calls[..|calls| - 1], calls[|calls| - 1];
      assert calls == before + [last];
      LockLivesUntilUnlocked(s, before, id);
      StepKeepsLock(Run(s, before), last, id);
    }
  }

  /** Polling a WAITING lock never sees it granted, whatever is released meanwhile. */
  lemma WaitingLocksStayWaiting(before: seq<Call>, after: seq<Call>, id: int)
    requires var s := Run(INITIAL, before); id in s.locks && s.locks[id].state == Waiting
    ensures var later := Run(Run(INITIAL, before), after);
            Step(later, CheckLock(id)).1 == Granted(id, Waiting) || Step(later, CheckLock(id)).1 == Failed(NoSuchLock)
  {
    hide Run;
    EarlierExclusivesAlwaysHold(before);
    RunKeepsLock(Run(INITIAL, before), after, id);
  }

  // ------------------------------------------------------------ mutual exclusion

  /** What exclusive locking is for: nothing else acquired overlaps an acquired EXCLUSIVE component. */
  ghost predicate MutualExclusion(locks: map<int, Entry>) {
    forall i, j :: i in locks && j in locks && i != j ==> KeepsOff(locks[i], locks[j])
  }

  /** No acquired lock overlaps an EXCLUSIVE component of the request. */
  ghost predicate ClearFor(locks: map<int, Entry>, cs: seq<Component>) {
    forall j :: j in locks ==> KeepsOff(Entry(cs, Acquired), locks[j])
  }

  /**
   Lock checks one direction only: it keeps mutual exclusion exactly when the request
   waits, or no acquired lock, shared ones included, overlaps its EXCLUSIVE components.
   */
  lemma LockKeepsExclusionIff(s: State, cs: seq<Component>)
    requires LocksInRange(s) && MutualExclusion(s.locks)
    ensures MutualExclusion(LockStep(s, cs).0.locks) <==> MustWait(s.locks, cs) || ClearFor(s.locks, cs)
  {
    var t, id := LockStep(s, cs).0.locks, s.nextLock + 1;
    hide KeepsOff, MustWait;
    if MutualExclusion(t) && !MustWait(s.locks, cs) {
      forall j | j in s.locks ensures KeepsOff(Entry(cs, Acquired), s.locks[j]) {
        assert t[j] == s.locks[j] && t[id] == Entry(cs, Acquired);
      }
    }
    if MustWait(s.locks, cs) || ClearFor(s.locks, cs) {
      forall i, j | i in t && j in t && i != j ensures KeepsOff(t[i], t[j]) {
        WaitersKeepOff(t[i], t[j]);
        if j == id {
          GrantKeepsOff(s.locks, i, cs);
        } else {
          assert s.locks[j] == t[j] && (i != id ==> s.locks[i] == t[i]);
        }
      }
    }
  }

  lemma WaitersKeepOff(a: Entry, b: Entry)
    ensures a.state == Waiting || b.state == Waiting ==> KeepsOff(a, b)
  {
  }

  /** The call is not a request granted over an acquired lock it should exclude. */
  ghost predicate Considerate(s: State, call: Call) {
    call.Lock? && !Rejected(call.onTxn, call.components) ==>
      MustWait(s.locks, call.components) || ClearFor(s.locks, call.components)
  }

  lemma StepKeepsExclusionIff(s: State, call: Call)
    requires LocksInRange(s) && MutualExclusion(s.locks)
    ensures MutualExclusion(Step(s, call).0.locks) <==> Considerate(s, call)
  {
    hide KeepsOff, MustWait, Rejected, LockStep;
    if call.Lock? {
      LockKeepsExclusionIff(s, call.components);
    }
  }

  /** The state after the first k calls. */
  ghost function Before(calls: seq<Call>, k: nat): State
    requires k <= |calls|
  {
    Run(INITIAL, calls[..k])
  }

  lemma BeforeStep(calls: seq<Call>, k: nat)
    requires k < |calls|
    ensures Before(calls, k + 1) == Step(Before(calls, k), calls[k]).0
  {
    assert calls[..k + 1][..k] == calls[..k];
  }

  /** Over whole runs: mutual exclusion holds throughout exactly when every call is considerate when it is made. */
  lemma ExclusionThroughoutIff(calls: seq<Call>)
    ensures (forall k: nat :: k <= |calls| ==> MutualExclusion(Before(calls, k).locks))
       <==> (forall k: nat :: k < |calls| ==> Considerate(Before(calls, k), calls[k]))
  {
    hide Run, MutualExclusion, Considerate;
    if forall k: nat :: k <= |calls| ==> MutualExclusion(Before(calls, k).locks) {
      forall k: nat | k < |calls| ensures Considerate(Before(calls, k), calls[k]) {
        TurnKeepsExclusionIff(calls, k);
      }
    }
    if forall k: nat :: k < |calls| ==> Considerate(Before(calls, k), calls[k]) {
      NothingIsExclusive(calls);
      for k := 0 to |calls|
        invariant forall j: nat :: j <= k ==> MutualExclusion(Before(calls, j).locks)
      {
        TurnKeepsExclusionIff(calls, k);
      }
    }
  }

  lemma TurnKeepsExclusionIff(calls: seq<Call>, k: nat)
    requires k < |calls| && MutualExclusion(Before(calls, k).locks)
    ensures MutualExclusion(Before(calls, k + 1).locks) <==> Considerate(Before(calls, k), calls[k])
  {
    hide Step, Run, Considerate, MutualExclusion;
    BeforeStep(calls, k);
    EarlierExclusivesAlwaysHold(calls[..k]);
    StepKeepsExclusionIff(Before(calls, k), calls[k]);
  }

  lemma NothingIsExclusive(calls: seq<Call>)
    ensures MutualExclusion(Before(calls, 0).locks)
  {
  }

  /** A shared lock and then an exclusive one on the same table are both granted. */
  lemma SharedThenExclusive()
    ensures var shared := Component(SharedRead, Table, "db", Some("t"), None, false);
            var s := Run(INITIAL, [Lock(None, [shared]), Lock(None, [shared.(kind := Exclusive)])]);
            && 1 in s.locks && s.locks[1].state == Acquired && 2 in s.locks && s.locks[2].state == Acquired
            && !MutualExclusion(s.locks)
  {
    var shared := Component(SharedRead, Table, "db", Some("t"), None, false);
    var excl := shared.(kind := Exclusive);
    var calls := [Lock(None, [shared]), Lock(None, [excl])];
    assert calls[..1][..0] == [] && calls[..1][0] == calls[0] && Run(INITIAL, []) == INITIAL;
    var s1, s := Run(INITIAL, calls[..1]), Run(INITIAL, calls);
    assert s1 == Step(INITIAL, calls[0]).0 && s == Step(s1, calls[1]).0;
    assert !MustWait(s1.locks, [excl]);
    assert ExclusiveIn([excl], shared) by {
      assert [excl][0] == excl;
    }
    assert s.locks[1].components[0] == shared;
    assert !KeepsOff(s.locks[2], s.locks[1]);
  }
}
