/**
 Error trees, the way Go's `errors` package sees them, and the classification
 that decides whether a call is retried and whether its connection survives.

 A Go error is a node with a concrete type (or identity) and the errors it
 unwraps to. `errors.As` and `errors.Is` both walk that tree in pre-order and
 stop at the first match, which is what `First` does.
 */
module Errors {
  import opened Wrappers

  datatype Sentinel = NotFound | AlreadyExists | InvalidOperation | NotSupported | Unavailable | Meta

  datatype Kind =
    | Known(sentinel: Sentinel)
      // generated Thrift exceptions
    | NoSuchObjectEx | AlreadyExistsEx | InvalidOperationEx | InvalidObjectEx | InvalidInputEx | MetaEx
    | NoSuchTxnEx | TxnAbortedEx | TxnOpenEx | NoSuchLockEx | ConfigValSecurityEx
      // exceptions of the Thrift runtime
    | ApplicationEx(typeId: int) | TransportEx | ProtocolEx
      // connection failures
    | NetError | HostnameError | UnknownAuthorityError | CertificateInvalidError
    | CertificateVerificationError | RecordHeaderError | AlertError
    | Eof | UnexpectedEof | DeadlineExceeded | Canceled
      // this package's own wrapper, the closed-client cause, and everything else
    | HmsError(op: string) | ClientClosed | Opaque(text: string)

  datatype Err = Node(kind: Kind, causes: seq<Err>)

  // TApplicationException type ids of the Thrift runtime.
  const UNKNOWN_METHOD := 1
  const INVALID_MESSAGE_TYPE := 2
  const WRONG_METHOD_NAME := 3
  const BAD_SEQUENCE_ID := 4
  const PROTOCOL_ERROR := 7

  // ------------------------------------------------------------ tree search

  /** What an errors.As or errors.Is call looks for. */
  datatype Target =
    | NoSuchObject | Existing | Invalid | MetaException | MissingTxnOrLock | TxnState | ConfigSecurity
    | Application | Thrift | ConnectionFailure | Hms | Closed | Sentinel(s: Sentinel)

  predicate Matches(t: Target, k: Kind) {
    match t
    case NoSuchObject => k.NoSuchObjectEx?
    case Existing => k.AlreadyExistsEx?
    case Invalid => k.InvalidOperationEx? || k.InvalidObjectEx? || k.InvalidInputEx?
    case MetaException => k.MetaEx?
    case MissingTxnOrLock => k.NoSuchTxnEx? || k.NoSuchLockEx?
    case TxnState => k.TxnAbortedEx? || k.TxnOpenEx?
    case ConfigSecurity => k.ConfigValSecurityEx?
    case Application => k.ApplicationEx?
    // every generated or runtime Thrift exception implements TException
    case Thrift =>
      || k.NoSuchObjectEx? || k.AlreadyExistsEx? || k.InvalidOperationEx? || k.InvalidObjectEx?
      || k.InvalidInputEx? || k.MetaEx? || k.NoSuchTxnEx? || k.TxnAbortedEx? || k.TxnOpenEx?
      || k.NoSuchLockEx? || k.ConfigValSecurityEx? || k.ApplicationEx? || k.TransportEx? || k.ProtocolEx?
    case ConnectionFailure =>
      || k.Eof? || k.UnexpectedEof? || k.DeadlineExceeded? || k.Canceled?
      || k.TransportEx? || k.NetError?
      || k.HostnameError? || k.UnknownAuthorityError? || k.CertificateInvalidError?
      || k.CertificateVerificationError? || k.RecordHeaderError? || k.AlertError?
    case Hms => k.HmsError?
    case Closed => k.ClientClosed?
    case Sentinel(s) => k == Known(s)
  }

  /** The first kind, in pre-order, that matches t. */
  function First(e: Err, t: Target): (r: Option<Kind>)
    ensures r.Some? ==> Matches(t, r.value)
    decreases e, 1
  {
    if Matches(t, e.kind) then Some(e.kind) else FirstAmong(e.causes, t)
  }

  function FirstAmong(es: seq<Err>, t: Target): (r: Option<Kind>)
    ensures r.Some? ==> Matches(t, r.value)
    decreases es, 0
  {
    if es == [] then None
    else
      var head := First(es[0], t);
      if head.Some? then head else FirstAmong(es[1..], t)
  }

  predicate Has(e: Err, t: Target) { First(e, t).Some? }

  predicate Is(e: Err, s: Sentinel) { Has(e, Sentinel(s)) }

  // ------------------------------------------------------------ classification

  predicate DesyncId(typeId: int) {
    || typeId == BAD_SEQUENCE_ID || typeId == INVALID_MESSAGE_TYPE
    || typeId == PROTOCOL_ERROR || typeId == WRONG_METHOD_NAME
  }

  /** The outermost Thrift exception decides; one further down does not count. */
  predicate IsProtocolError(e: Err) {
    First(e, Thrift) == Some(ProtocolEx)
  }

  /** Everything Classify asks of an error tree. */
  datatype Profile = Profile(
    noSuchObject: bool, existing: bool, invalid: bool, metaException: bool, missingTxnOrLock: bool,
    txnState: bool, configSecurity: bool, application: Option<int>, connectionFailure: bool,
    sentinels: set<Sentinel>)

  function ProfileOf(e: Err): Profile {
    var app := First(e, Application);
    Profile(
      Has(e, NoSuchObject), Has(e, Existing), Has(e, Invalid), Has(e, MetaException), Has(e, MissingTxnOrLock),
      Has(e, TxnState), Has(e, ConfigSecurity), if app.Some? then Some(app.value.typeId) else None,
      Has(e, ConnectionFailure), set s: Sentinel | Is(e, s))
  }

  /** The switch's cases up to the sentinels: what the error's shape alone says. */
  function ShapeClass(p: Profile): Option<Sentinel> {
    if p.noSuchObject then Some(NotFound)
    else if p.existing then Some(AlreadyExists)
    else if p.invalid then Some(InvalidOperation)
    else if p.metaException then Some(Meta)
    else if p.missingTxnOrLock then Some(NotFound)
    else if p.txnState then Some(InvalidOperation)
    else if p.configSecurity then Some(InvalidOperation)
    else if p.application == Some(UNKNOWN_METHOD) then Some(NotSupported)
    else if p.application.Some? && DesyncId(p.application.value) then Some(Unavailable)
    else if p.application.Some? then Some(Meta)
    else if p.connectionFailure then Some(Unavailable)
    else None
  }

  function ClassOf(p: Profile): Sentinel {
    if ShapeClass(p).Some? then ShapeClass(p).value
    else if NotFound in p.sentinels then NotFound
    else if AlreadyExists in p.sentinels then AlreadyExists
    else if InvalidOperation in p.sentinels then InvalidOperation
    else if NotSupported in p.sentinels then NotSupported
    else if Unavailable in p.sentinels then Unavailable
    else Meta
  }

  function Classify(e: Err): Sentinel { ClassOf(ProfileOf(e)) }

  /** Position of a sentinel's case in Classify's switch. */
  function Rank(s: Sentinel): nat {
    match s
    case NotFound => 0
    case AlreadyExists => 1
    case InvalidOperation => 2
    case NotSupported => 3
    case Unavailable => 4
    case Meta => 5
  }

  // ------------------------------------------------------------ wrapping

  function Leaf(l: Kind): Err { Node(l, []) }

  function WrapAs(op: string, s: Sentinel, e: Err): Err {
    Node(HmsError(op), [Leaf(Known(s)), e])
  }

  function WrapError(op: string, e: Err): Err {
    if Has(e, Hms) then e else WrapAs(op, Classify(e), e)
  }

  /** errors.Join(ErrUnavailable, last); a nil last is dropped. */
  function JoinUnavailable(last: Option<Err>): Err {
    Node(Opaque("join"), [Leaf(Known(Unavailable))] + if last.Some? then [last.value] else [])
  }

  // ------------------------------------------------------------ the documented error table

  /** The client's documented error table, one row per kind of error. */
  function TableClass(k: Kind): Sentinel {
    match k
    case Known(s) => s
    case NoSuchObjectEx => NotFound
    case NoSuchTxnEx => NotFound
    case NoSuchLockEx => NotFound
    case AlreadyExistsEx => AlreadyExists
    case InvalidOperationEx => InvalidOperation
    case InvalidObjectEx => InvalidOperation
    case InvalidInputEx => InvalidOperation
    case TxnAbortedEx => InvalidOperation
    case TxnOpenEx => InvalidOperation
    case ConfigValSecurityEx => InvalidOperation
    case ApplicationEx(id) =>
      if id == UNKNOWN_METHOD then NotSupported
      else if id == INVALID_MESSAGE_TYPE || id == WRONG_METHOD_NAME || id == BAD_SEQUENCE_ID || id == PROTOCOL_ERROR
      then Unavailable
      else Meta
    case MetaEx => Meta
    case ProtocolEx => Meta
    case HmsError(_) => Meta
    case ClientClosed => Meta
    case Opaque(_) => Meta
    case _ => Unavailable
  }

  /** The profile of an error that wraps nothing. */
  function KindProfile(k: Kind): Profile {
    Profile(
      Matches(NoSuchObject, k), Matches(Existing, k), Matches(Invalid, k), Matches(MetaException, k),
      Matches(MissingTxnOrLock, k), Matches(TxnState, k), Matches(ConfigSecurity, k),
      if k.ApplicationEx? then Some(k.typeId) else None, Matches(ConnectionFailure, k),
      if k.Known? then {k.sentinel} else {})
  }

  lemma FirstOfLeaf(k: Kind, t: Target)
    ensures First(Leaf(k), t) == if Matches(t, k) then Some(k) else None
  {
  }

  lemma ProfileOfLeaf(k: Kind)
    ensures ProfileOf(Leaf(k)) == KindProfile(k)
  {
    hide First, FirstAmong;
    forall t ensures First(Leaf(k), t) == if Matches(t, k) then Some(k) else None {
      FirstOfLeaf(k, t);
    }
  }

  lemma ThriftShape(k: Kind)
    requires Matches(Thrift, k) && !k.ProtocolEx? && !k.TransportEx?
    ensures ShapeClass(KindProfile(k)) == Some(TableClass(k))
  {
  }

  lemma FailureShape(k: Kind)
    requires Matches(ConnectionFailure, k)
    ensures ShapeClass(KindProfile(k)) == Some(Unavailable) && TableClass(k) == Unavailable
  {
  }

  /** Kinds with no shape of their own: a sentinel is its own class, the rest is ErrMeta. */
  lemma NoShape(k: Kind)
    requires k.Known? || k.ProtocolEx? || k.HmsError? || k.ClientClosed? || k.Opaque?
    ensures ClassOf(KindProfile(k)) == TableClass(k)
  {
    assert ShapeClass(KindProfile(k)) == None;
  }

  /** An error that wraps nothing gets its row of the table. */
  lemma ClassifyFollowsTable(k: Kind)
    ensures Classify(Leaf(k)) == TableClass(k)
    ensures IsProtocolError(Leaf(k)) <==> k == ProtocolEx
  {
    ProfileOfLeaf(k);
    FirstOfLeaf(k, Thrift);
    hide KindProfile, TableClass, ProfileOf, First, FirstAmong, ShapeClass;
    if Matches(ConnectionFailure, k) {
      FailureShape(k);
    } else if k.Known? || k.ProtocolEx? || k.HmsError? || k.ClientClosed? || k.Opaque? {
      NoShape(k);
    } else {
      ThriftShape(k);
    }
  }

  /** Adding context the way fmt.Errorf("...: %w") does never changes the class. */
  lemma ContextKeepsClass(text: string, e: Err)
    ensures Classify(Node(Opaque(text), [e])) == Classify(e)
    ensures IsProtocolError(Node(Opaque(text), [e])) == IsProtocolError(e)
  {
    hide First, FirstAmong, ClassOf;
    forall t ensures First(Node(Opaque(text), [e]), t) == First(e, t) {
      ContextKeepsSearch(text, e, t);
    }
    assert ProfileOf(Node(Opaque(text), [e])).sentinels == ProfileOf(e).sentinels;
  }

  lemma ContextKeepsSearch(text: string, e: Err, t: Target)
    ensures First(Node(Opaque(text), [e]), t) == First(e, t)
  {
    assert FirstAmong([e], t) == First(e, t);
  }

  // ------------------------------------------------------------ what wrapping keeps

  /** What a search of a wrapper finds: the wrapper, then its sentinel, then in the cause. */
  function Searched(op: string, s: Sentinel, e: Err, t: Target): Option<Kind> {
    if t.Hms? then Some(HmsError(op))
    else if t == Sentinel(s) then Some(Known(s))
    else First(e, t)
  }

  lemma FirstOfWrapAs(op: string, s: Sentinel, e: Err, t: Target)
    ensures First(WrapAs(op, s, e), t) == Searched(op, s, e, t)
  {
    var sentinel := Leaf(Known(s));
    assert First(sentinel, t) == if t == Sentinel(s) then Some(Known(s)) else None;
    assert [sentinel, e][1..] == [e];
    assert FirstAmong([e], t) == First(e, t);
  }

  /** A wrapper adds one sentinel and nothing else. */
  lemma WrapAsViews(op: string, s: Sentinel, e: Err)
    ensures ProfileOf(WrapAs(op, s, e)) == ProfileOf(e).(sentinels := ProfileOf(e).sentinels + {s})
    ensures IsProtocolError(WrapAs(op, s, e)) == IsProtocolError(e)
    ensures Has(WrapAs(op, s, e), Hms)
  {
    hide First, FirstAmong, WrapAs;
    var w := WrapAs(op, s, e);
    forall t ensures First(w, t) == Searched(op, s, e, t) {
      FirstOfWrapAs(op, s, e, t);
    }
    assert Has(w, Hms);
    SearchesDecideProfile(w, s, e);
  }

  lemma SearchesDecideProfile(w: Err, s: Sentinel, e: Err)
    requires forall t: Target :: !t.Hms? && !t.Sentinel? ==> First(w, t) == First(e, t)
    requires forall x: Sentinel :: Is(w, x) <==> x == s || Is(e, x)
    ensures ProfileOf(w) == ProfileOf(e).(sentinels := ProfileOf(e).sentinels + {s})
    ensures IsProtocolError(w) == IsProtocolError(e)
  {
    hide First, FirstAmong, Is;
    assert ProfileOf(w).sentinels == ProfileOf(e).sentinels + {s};
  }

  /** Adding the sentinel an error already classifies as changes nothing. */
  lemma AddedOwnClass(p: Profile)
    ensures ClassOf(p.(sentinels := p.sentinels + {ClassOf(p)})) == ClassOf(p)
  {
  }

  /**
   Wrapping never changes what do decides from an error: neither its class nor
   whether it is a protocol error. The class stays reachable by errors.Is.
   */
  lemma WrapErrorKeepsClass(op: string, e: Err)
    ensures Classify(WrapError(op, e)) == Classify(e)
    ensures IsProtocolError(WrapError(op, e)) == IsProtocolError(e)
    ensures !Has(e, Hms) ==> Is(WrapError(op, e), Classify(e)) && First(WrapError(op, e), Hms) == Some(HmsError(op))
  {
    if !Has(e, Hms) {
      var s := Classify(e);
      WrapAsViews(op, s, e);
      AddedOwnClass(ProfileOf(e));
      FirstOfWrapAs(op, s, e, Hms);
      assert s in ProfileOf(WrapAs(op, s, e)).sentinels;
    }
  }

  /** An error is wrapped at most once: the first operation's name stays. */
  lemma WrapErrorIdempotent(op: string, op2: string, e: Err)
    ensures WrapError(op2, WrapError(op, e)) == WrapError(op, e)
  {
    if !Has(e, Hms) {
      FirstOfWrapAs(op, Classify(e), e, Hms);
    }
  }

  lemma AddedSentinelWinsIff(p: Profile, s: Sentinel)
    ensures ClassOf(p.(sentinels := p.sentinels + {s})) == s <==>
            if ShapeClass(p).Some? then ShapeClass(p) == Some(s)
            else forall t :: t in p.sentinels ==> Rank(s) <= Rank(t)
  {
  }

  /**
   A sentinel forced by wrapAs is always reachable by errors.Is, but it is what
   the error classifies as exactly when the cause has no shape of its own that
   says otherwise, and no sentinel of the cause is tested before it.
   */
  lemma WrapAsForcesClassIff(op: string, s: Sentinel, e: Err)
    ensures Is(WrapAs(op, s, e), s)
    ensures Classify(WrapAs(op, s, e)) == s <==>
            if ShapeClass(ProfileOf(e)).Some? then ShapeClass(ProfileOf(e)) == Some(s)
            else forall t :: Is(e, t) ==> Rank(s) <= Rank(t)
  {
    WrapAsViews(op, s, e);
    AddedSentinelWinsIff(ProfileOf(e), s);
    assert s in ProfileOf(WrapAs(op, s, e)).sentinels;
    assert forall t :: t in ProfileOf(e).sentinels <==> Is(e, t);
  }

  /** A forced sentinel can lose: an invalid-operation wrapper around an EOF is unavailable. */
  lemma WrapAsCanLose(op: string)
    ensures Classify(WrapAs(op, InvalidOperation, Leaf(Eof))) == Unavailable
  {
    WrapAsViews(op, InvalidOperation, Leaf(Eof));
    ProfileOfLeaf(Eof);
    hide First, FirstAmong, WrapAs, ProfileOf;
  }

  lemma JoinIsUnavailable(last: Option<Err>)
    ensures Is(JoinUnavailable(last), Unavailable)
  {
    var j := JoinUnavailable(last);
    assert First(j.causes[0], Sentinel(Unavailable)) == Some(Known(Unavailable));
  }

  /** Everything but ErrUnavailable is found in the join exactly as in the last error, or not at all without one. */
  lemma JoinKeepsCause(last: Option<Err>, t: Target)
    requires t != Sentinel(Unavailable)
    ensures First(JoinUnavailable(last), t) == if last.Some? then First(last.value, t) else None
  {
    var j := JoinUnavailable(last);
    FirstOfLeaf(Known(Unavailable), t);
    assert First(j, t) == FirstAmong(j.causes, t);
    if last.Some? {
      assert j.causes[1..] == [last.value];
      assert FirstAmong([last.value], t) == First(last.value, t);
    } else {
      assert j.causes[1..] == [];
    }
  }

  /** Whatever the last error was, "every endpoint is cooling" is reported as unavailable. */
  lemma JoinUnavailableIs(op: string, last: Option<Err>)
    ensures Is(JoinUnavailable(last), Unavailable)
    ensures Is(WrapError(op, JoinUnavailable(last)), Unavailable)
  {
    hide First, FirstAmong, ClassOf, ProfileOf, JoinUnavailable;
    var j := JoinUnavailable(last);
    JoinIsUnavailable(last);
    if !Has(j, Hms) {
      FirstOfWrapAs(op, Classify(j), j, Sentinel(Unavailable));
    }
  }

  // ------------------------------------------------------------ trees, read as lists

  /** The kinds of an error tree in pre-order. */
  function Preorder(e: Err): (r: seq<Kind>)
    ensures r != []
    decreases e, 1
  {
    [e.kind] + PreorderAmong(e.causes)
  }

  function PreorderAmong(es: seq<Err>): seq<Kind>
    decreases es, 0
  {
    if es == [] then [] else Preorder(es[0]) + PreorderAmong(es[1..])
  }

  /** The first kind of a list that matches. */
  function FirstIn(ks: seq<Kind>, t: Target): Option<Kind> {
    if ks == [] then None else if Matches(t, ks[0]) then Some(ks[0]) else FirstIn(ks[1..], t)
  }

  lemma {:induction false} FirstInConcat(a: seq<Kind>, b: seq<Kind>, t: Target)
    ensures FirstIn(a + b, t) == if FirstIn(a, t).Some? then FirstIn(a, t) else FirstIn(b, t)
  {
    hide Matches;
    if a == [] {
      assert a + b == b;
    } else {
      assert (a + b)[1..] == a[1..] + b;
      FirstInConcat(a[1..], b, t);
    }
  }

  /** errors.As and errors.Is find the first match in pre-order. */
  lemma {:induction false} FirstIsPreorder(e: Err, t: Target)
    ensures First(e, t) == FirstIn(Preorder(e), t)
    decreases e, 1
  {
    hide Matches;
    FirstAmongIsPreorder(e.causes, t);
    assert Preorder(e)[1..] == PreorderAmong(e.causes);
  }

  lemma {:induction false} FirstAmongIsPreorder(es: seq<Err>, t: Target)
    ensures FirstAmong(es, t) == FirstIn(PreorderAmong(es), t)
    decreases es, 0
  {
    hide Matches;
    if es != [] {
      FirstIsPreorder(es[0], t);
      FirstAmongIsPreorder(es[1..], t);
      FirstInConcat(Preorder(es[0]), PreorderAmong(es[1..]), t);
    }
  }

  // ------------------------------------------------------------ which kind of a tree decides

  /** How early a kind is looked for; LAST are the kinds nothing looks for. */
  function Priority(k: Kind): (r: nat)
    ensures r <= LAST
  {
    match k
    case NoSuchObjectEx => 0
    case AlreadyExistsEx => 1
    case InvalidOperationEx => 2
    case InvalidObjectEx => 2
    case InvalidInputEx => 2
    case MetaEx => 3
    case NoSuchTxnEx => 4
    case NoSuchLockEx => 4
    case TxnAbortedEx => 5
    case TxnOpenEx => 5
    case ConfigValSecurityEx => 6
    case ApplicationEx(_) => 7
    case Known(s) => 9 + Rank(s)
    case ProtocolEx => LAST
    case HmsError(_) => LAST
    case ClientClosed => LAST
    case Opaque(_) => LAST
    case _ => 8
  }

  const LAST: nat := 14

  function TargetAt(r: nat): Target
    requires r < LAST
  {
    if r == 0 then NoSuchObject else if r == 1 then Existing else if r == 2 then Invalid
    else if r == 3 then MetaException else if r == 4 then MissingTxnOrLock else if r == 5 then TxnState
    else if r == 6 then ConfigSecurity else if r == 7 then Application else if r == 8 then ConnectionFailure
    else if r == 9 then Sentinel(NotFound) else if r == 10 then Sentinel(AlreadyExists)
    else if r == 11 then Sentinel(InvalidOperation) else if r == 12 then Sentinel(NotSupported)
    else Sentinel(Unavailable)
  }

  lemma TargetsByPriority(k: Kind, r: nat)
    requires r < LAST
    ensures Matches(TargetAt(r), k) <==> Priority(k) == r
  {
  }

  /** The decisive kind of a list: of the least priority number there is, the first. */
  ghost predicate Decides(ks: seq<Kind>, k: Kind) {
    exists i :: 0 <= i < |ks| && ks[i] == k && DecidesAt(ks, i)
  }

  ghost predicate DecidesAt(ks: seq<Kind>, i: nat)
    requires i < |ks|
  {
    && (forall j :: 0 <= j < |ks| ==> Priority(ks[i]) <= Priority(ks[j]))
    && (forall j :: 0 <= j < i ==> Priority(ks[i]) < Priority(ks[j]))
  }

  lemma {:induction false} SomeKindDecides(ks: seq<Kind>) returns (i: nat)
    requires ks != []
    ensures i < |ks| && DecidesAt(ks, i)
  {
    hide Priority;
    if |ks| == 1 {
      i := 0;
    } else {
      var last := |ks| - 1;
      i := SomeKindDecides(ks[..last]);
      if Priority(ks[last]) < Priority(ks[i]) {
        i := last;
      }
    }
  }

  /** What searches of a list find, given the kind that decides it. */
  lemma {:induction false} SearchAt(ks: seq<Kind>, i: nat, r: nat)
    requires i < |ks| && r < LAST && DecidesAt(ks, i) && r <= Priority(ks[i])
    ensures FirstIn(ks, TargetAt(r)) == if r == Priority(ks[i]) then Some(ks[i]) else None
  {
    hide Matches, Priority, TargetAt;
    TargetsByPriority(ks[0], r);
    if i > 0 {
      assert DecidesAt(ks[1..], i - 1);
      SearchAt(ks[1..], i - 1, r);
    } else {
      if r != Priority(ks[0]) {
        NothingAt(ks, r);
      }
    }
  }

  lemma {:induction false} NothingAt(ks: seq<Kind>, r: nat)
    requires r < LAST && forall j :: 0 <= j < |ks| ==> Priority(ks[j]) > r
    ensures FirstIn(ks, TargetAt(r)) == None
  {
    hide Matches, Priority, TargetAt;
    if ks != [] {
      TargetsByPriority(ks[0], r);
      NothingAt(ks[1..], r);
    }
  }

  /** The search at priority r finds k if that is k's own, and nothing if it is an earlier one. */
  ghost predicate SearchedAt(e: Err, k: Kind, r: nat)
    requires r < LAST
  {
    r <= Priority(k) ==> First(e, TargetAt(r)) == if r == Priority(k) then Some(k) else None
  }

  /** The searches of classify, by priority, up to the one that succeeds. */
  ghost predicate Searches(e: Err, k: Kind) { forall r: nat :: r < LAST ==> SearchedAt(e, k, r) }

  /** What those searches make of the first nine cases. */
  ghost predicate ShapeFlags(p: Profile, k: Kind, r: nat) {
    && (r >= 0 ==> p.noSuchObject == (r == 0)) && (r >= 1 ==> p.existing == (r == 1))
    && (r >= 2 ==> p.invalid == (r == 2)) && (r >= 3 ==> p.metaException == (r == 3))
    && (r >= 4 ==> p.missingTxnOrLock == (r == 4)) && (r >= 5 ==> p.txnState == (r == 5))
    && (r >= 6 ==> p.configSecurity == (r == 6))
    && (r >= 7 ==> p.application == if r == 7 && k.ApplicationEx? then Some(k.typeId) else None)
    && (r >= 8 ==> p.connectionFailure == (r == 8))
  }

  lemma SearchesSetFlags(e: Err, k: Kind)
    requires Searches(e, k)
    ensures ShapeFlags(ProfileOf(e), k, Priority(k))
  {
    hide First, FirstAmong, Matches, Priority;
    assert SearchedAt(e, k, 0) && SearchedAt(e, k, 1) && SearchedAt(e, k, 2) && SearchedAt(e, k, 3);
    assert SearchedAt(e, k, 4) && SearchedAt(e, k, 5) && SearchedAt(e, k, 6) && SearchedAt(e, k, 7) && SearchedAt(e, k, 8);
    PriorityOfApplication(k);
  }

  lemma PriorityOfApplication(k: Kind)
    ensures Priority(k) == 7 <==> k.ApplicationEx?
  {
  }

  lemma FlagsDecideShape(p: Profile, k: Kind)
    requires ShapeFlags(p, k, Priority(k))
    ensures ShapeClass(p) == if Priority(k) <= 8 then Some(TableClass(k)) else None
  {
    PriorityOfApplication(k);
  }

  lemma SearchesDecide(e: Err, k: Kind)
    requires Searches(e, k)
    ensures Classify(e) == TableClass(k)
  {
    hide First, FirstAmong, Matches, ShapeClass, Priority, TableClass, ShapeFlags;
    SearchesSetFlags(e, k);
    FlagsDecideShape(ProfileOf(e), k);
    assert SearchedAt(e, k, 9) && SearchedAt(e, k, 10) && SearchedAt(e, k, 11) && SearchedAt(e, k, 12) && SearchedAt(e, k, 13);
    LateKinds(k);
  }

  lemma LateKinds(k: Kind)
    ensures Priority(k) > 8 ==>
              TableClass(k) == match Priority(k) - 9 {
                case 0 => NotFound case 1 => AlreadyExists case 2 => InvalidOperation
                case 3 => NotSupported case 4 => Unavailable case _ => Meta
              }
  {
  }

  /**
   An error tree is classified by one of its kinds: of those looked for earliest, the
   first in pre-order. Its row of the table is the class.
   */
  lemma ClassifyIsDecisiveKind(e: Err)
    ensures exists k :: Decides(Preorder(e), k) && Classify(e) == TableClass(k)
  {
    hide First, FirstAmong, Priority, TableClass, Classify, TargetAt, FirstIn;
    var ks := Preorder(e);
    var i := SomeKindDecides(ks);
    forall r: nat | r < LAST ensures SearchedAt(e, ks[i], r) {
      FirstIsPreorder(e, TargetAt(r));
      if r <= Priority(ks[i]) {
        SearchAt(ks, i, r);
      }
    }
    SearchesDecide(e, ks[i]);
    assert Decides(ks, ks[i]);
  }
}
