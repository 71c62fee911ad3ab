/**
 The SASL handshake: a START frame naming the mechanism, the mechanism's initial
 response, then challenge and response frames until the server answers COMPLETE.
 A negotiation frame is a status octet, a four-octet big-endian length and a
 payload.

 Kerberos itself is a parameter: which AP_REP tokens verify, and how wrap tokens
 are opened and made once the AP_REP has settled the context key.
 */
module SaslHandshake {
  import opened Wrappers
  import opened Bytes
  import opened SaslFraming
  import GssTokens

  const START: byte := 1
  const OK: byte := 2
  const BAD: byte := 3
  const ERROR: byte := 4
  const COMPLETE: byte := 5

  const PLAIN_NAME: seq<byte> := [0x50, 0x4C, 0x41, 0x49, 0x4E]
  const GSSAPI_NAME: seq<byte> := [0x47, 0x53, 0x53, 0x41, 0x50, 0x49]

  /** Authentication only, the one security layer the client selects. */
  const QOP_AUTH: byte := 1

  // ------------------------------------------------------------ negotiation frames

  datatype Message = Message(status: byte, payload: seq<byte>)

  function Negotiation(m: Message): seq<byte> { [m.status] + BigEndian(4, |m.payload|) + m.payload }

  /** The next negotiation frame of an input, and the input after it. */
  function Next(input: seq<byte>): (r: Result<(Message, seq<byte>), IoError>)
    ensures r.Ok? ==> |r.value.1| < |input|
  {
    if |input| < 5 then Fail(if input == [] then Eof else UnexpectedEof)
    else
      var n := ToNat(input[1..5]);
      if n > MAX_FRAME then Fail(TooLarge)
      else if |input| - 5 < n then Fail(UnexpectedEof)
      else Ok((Message(input[0], input[5..5 + n]), input[5 + n..]))
  }

  /** Frames are decoded exactly: what is read is what some sender within the limit encoded. */
  lemma NextInvertsNegotiation(input: seq<byte>, m: Message, rest: seq<byte>)
    ensures Next(input) == Ok((m, rest)) <==> input == Negotiation(m) + rest && |m.payload| <= MAX_FRAME
  {
    Pow256Of4();
    if Next(input) == Ok((m, rest)) {
      BigEndianOfToNat(input[1..5]);
      assert input == [input[0]] + input[1..5] + input[5..5 + |m.payload|] + input[5 + |m.payload|..];
    }
    if input == Negotiation(m) + rest && |m.payload| <= MAX_FRAME {
      ToNatOfBigEndian(4, |m.payload|);
      assert input[1..5] == BigEndian(4, |m.payload|);
      assert input[5..5 + |m.payload|] == m.payload;
      assert input[5 + |m.payload|..] == rest;
    }
  }

  // ------------------------------------------------------------ mechanisms

  /** rep is the AP_REP that verified; it may carry the key the wrap tokens use. */
  datatype Stage = ApReq | ApRep | SecLayer(rep: seq<byte>) | Done

  datatype Mech = Plain(user: seq<byte>, password: seq<byte>, sent: bool) | Gssapi(stage: Stage)

  /** unwrap and wrap take the AP_REP and the octets to open or to protect. */
  datatype Kerberos = Kerberos(
    initialToken: Option<seq<byte>>,
    apRepOk: seq<byte> -> bool,
    unwrap: (seq<byte>, seq<byte>) -> Option<seq<byte>>,
    wrap: (seq<byte>, seq<byte>) -> Option<seq<byte>>)

  /** An AP_REP that verifies is a context token, and a wrap token has a header. */
  ghost predicate Genuine(k: Kerberos) {
    && (forall t :: k.apRepOk(t) ==> GssTokens.Parse(t).Some?)
    && (forall rep, t :: k.unwrap(rep, t).Some? ==> |t| >= GssTokens.HDR_LEN)
  }

  function Name(m: Mech): seq<byte> { if m.Plain? then PLAIN_NAME else GSSAPI_NAME }

  function Completed(m: Mech): bool { if m.Plain? then m.sent else m.stage == Done }

  /** The reply to the server's wrapped offer: four octets offering auth are answered with auth alone. */
  function SelectLayer(k: Kerberos, rep: seq<byte>, challenge: seq<byte>): Option<seq<byte>> {
    match k.unwrap(rep, challenge)
    case None => None
    case Some(offer) =>
      if |offer| != 4 || offer[0] % 2 == 0 then None else k.wrap(rep, [QOP_AUTH, 0, 0, 0])
  }

  /** Section 2 of RFC 4616, with no authorization identity. */
  function PlainResponse(user: seq<byte>, password: seq<byte>): seq<byte> { [0] + user + [0] + password }

  /** What a server reads out of a PLAIN response: the parts before the first two NULs, and the rest. */
  datatype Credentials = Credentials(authorization: seq<byte>, user: seq<byte>, password: seq<byte>)

  function FirstNul(s: seq<byte>): (i: nat)
    ensures i <= |s|
    ensures 0 !in s[..i] && (i < |s| ==> s[i] == 0)
  {
    if s == [] || s[0] == 0 then 0 else
    var i := 1 + FirstNul(s[1..]);
    assert s[..i] == [s[0]] + s[1..][..i - 1];
    i
  }

  function ReadPlain(payload: seq<byte>): Option<Credentials> {
    var i := FirstNul(payload);
    if i == |payload| then None
    else
      var rest := payload[i + 1..];
      var j := FirstNul(rest);
      if j == |rest| then None else Some(Credentials(payload[..i], rest[..j], rest[j + 1..]))
  }

  /** The server reads back the user and the password, with no authorization identity, exactly when the user has no NUL. */
  lemma PlainReadsBackIff(user: seq<byte>, password: seq<byte>)
    ensures ReadPlain(PlainResponse(user, password)) == Some(Credentials([], user, password)) <==> 0 !in user
    ensures |PlainResponse(user, password)| == |user| + |password| + 2
  {
    var payload := PlainResponse(user, password);
    assert FirstNul(payload) == 0;
    var rest := payload[1..];
    assert rest == user + [0] + password;
    var j := FirstNul(rest);
    if 0 !in user {
      assert rest[|user|] == 0;
      assert j == |user|;
      assert rest[..j] == user && rest[j + 1..] == password;
    } else {
      var k :| 0 <= k < |user| && user[k] == 0;
      assert rest[k] == 0;
      assert j < |user|;
    }
  }

  datatype Round = Round(response: seq<byte>, done: bool, mech: Mech)

  /** One round of a mechanism; the first has no challenge. */
  function Step(k: Kerberos, m: Mech, challenge: Option<seq<byte>>): Option<Round> {
    match m
    case Plain(user, password, _) =>
      if challenge.Some? then None else Some(Round(PlainResponse(user, password), false, Plain(user, password, true)))
    case Gssapi(stage) =>
      var token := if challenge.Some? then challenge.value else [];
      match stage
      case ApReq =>
        (match k.initialToken
         case None => None
         case Some(t) => Some(Round(t, false, Gssapi(ApRep))))
      case ApRep => if k.apRepOk(token) then Some(Round([], false, Gssapi(SecLayer(token)))) else None
      case SecLayer(rep) =>
        (match SelectLayer(k, rep, token)
         case None => None
         case Some(t) => Some(Round(t, true, Gssapi(Done))))
      case Done => None
  }

  // ------------------------------------------------------------ the exchange

  datatype Event = Sent(m: Message) | Received(m: Message)

  datatype Failure =
    | InnerClosed | SendFailed | ReadFailed(e: IoError) | MechanismFailed
    | Premature | Rejected(message: seq<byte>) | LateChallenge | UnknownStatus(status: byte)

  datatype Transcript = Transcript(r: Result<(), Failure>, log: seq<Event>)

  /** The i-th frame goes out: it is within the limit and the inner transport takes it. */
  predicate Goes(sends: nat -> bool, i: nat, payload: seq<byte>) { |payload| <= MAX_FRAME && sends(i) }

  function Reply(r: Round): Event { Sent(Message(if r.done then COMPLETE else OK, r.response)) }

  function Ends(r: Result<(), Failure>): Transcript { Transcript(r, []) }

  function After(log: seq<Event>, t: Transcript): Transcript { t.(log := log + t.log) }

  /** The rounds from the server's next frame on; frame numbers the client's next one. */
  function Converse(k: Kerberos, m: Mech, done: bool, input: seq<byte>, sends: nat -> bool, frame: nat): Transcript
    decreases |input|, 0
  {
    match Next(input)
    case Fail(e) => Ends(Fail(ReadFailed(e)))
    case Ok((msg, rest)) => After([Received(msg)], Answer(k, m, done, msg, rest, sends, frame))
  }

  function Answer(k: Kerberos, m: Mech, done: bool, msg: Message, rest: seq<byte>, sends: nat -> bool, frame: nat)
    : Transcript
    decreases |rest|, 1
  {
    if msg.status == COMPLETE then Ends(if Completed(m) then Ok(()) else Fail(Premature))
    else if msg.status == BAD || msg.status == ERROR then Ends(Fail(Rejected(msg.payload)))
    else if msg.status != OK then Ends(Fail(UnknownStatus(msg.status)))
    else if done then Ends(Fail(LateChallenge))
    else
      var next := Step(k, m, Some(msg.payload));
      if next.None? then Ends(Fail(MechanismFailed))
      else if !Goes(sends, frame, next.value.response) then Ends(Fail(SendFailed))
      else After([Reply(next.value)], Converse(k, next.value.mech, next.value.done, rest, sends, frame + 1))
  }

  lemma AfterTwice(a: seq<Event>, b: seq<Event>, c: seq<Event>, t: Transcript)
    ensures After(a + b + c, t) == After(a, After(b, After(c, t)))
  {
    assert (a + b + c) + t.log == a + (b + (c + t.log));
  }

  /** Answer, case by case. */
  lemma AnswerIs(k: Kerberos, m: Mech, done: bool, msg: Message, rest: seq<byte>, sends: nat -> bool, frame: nat)
    ensures var t, goesOn := Answer(k, m, done, msg, rest, sends, frame), msg.status == OK && !done;
            var next := Step(k, m, Some(msg.payload));
            && (msg.status == COMPLETE ==> t == Ends(if Completed(m) then Ok(()) else Fail(Premature)))
            && (msg.status == BAD || msg.status == ERROR ==> t == Ends(Fail(Rejected(msg.payload))))
            && (msg.status !in {COMPLETE, BAD, ERROR, OK} ==> t == Ends(Fail(UnknownStatus(msg.status))))
            && (msg.status == OK && done ==> t == Ends(Fail(LateChallenge)))
            && (goesOn && next.None? ==> t == Ends(Fail(MechanismFailed)))
            && (goesOn && next.Some? && !Goes(sends, frame, next.value.response) ==> t == Ends(Fail(SendFailed)))
            && (goesOn && next.Some? && Goes(sends, frame, next.value.response) ==>
                  t == After([Reply(next.value)], Converse(k, next.value.mech, next.value.done, rest, sends, frame + 1)))
  {
    hide Converse, Step, Goes, Completed;
  }

  function Handshake(k: Kerberos, m: Mech, innerOpens: bool, input: seq<byte>, sends: nat -> bool): Transcript {
    if !innerOpens then Ends(Fail(InnerClosed))
    else if !sends(0) then Ends(Fail(SendFailed))
    else
      var start, first := [Sent(Message(START, Name(m)))], Step(k, m, None);
      if first.None? then Transcript(Fail(MechanismFailed), start)
      else if !Goes(sends, 1, first.value.response) then Transcript(Fail(SendFailed), start)
      else After(start + [Reply(first.value)], Converse(k, first.value.mech, first.value.done, input, sends, 2))
  }

  // ------------------------------------------------------------ what a GSSAPI run may do

  /** The only messages a GSSAPI run exchanges, in the only order. */
  predicate GssapiRun(k: Kerberos, log: seq<Event>) {
    && |log| <= 7
    && (|log| > 0 ==> log[0] == Sent(Message(START, GSSAPI_NAME)))
    && (|log| > 1 ==> k.initialToken.Some? && log[1] == Sent(Message(OK, k.initialToken.value)))
    && (|log| > 2 ==> log[2].Received?)
    && (|log| > 3 ==> log[2].m.status == OK && k.apRepOk(log[2].m.payload) && log[3] == Sent(Message(OK, [])))
    && (|log| > 4 ==> log[4].Received?)
    && (|log| > 5 ==>
          var token := Selection(k, log[2].m.payload);
          && log[4].m.status == OK && OffersAuth(k, log[2].m.payload, log[4].m.payload)
          && token.Some? && log[5] == Sent(Message(COMPLETE, token.value)))
    && (|log| > 6 ==> log[6].Received?)
  }

  /** The challenge unwraps to four octets whose first offers authentication alone, bit 0. */
  predicate OffersAuth(k: Kerberos, rep: seq<byte>, challenge: seq<byte>) {
    var offer := k.unwrap(rep, challenge);
    offer.Some? && |offer.value| == 4 && offer.value[0] % 2 == 1
  }

  /** The reply that selects it, with no message size. */
  function Selection(k: Kerberos, rep: seq<byte>): Option<seq<byte>> { k.wrap(rep, [1, 0, 0, 0]) }

  /** The client answers exactly such offers, with exactly that reply. */
  lemma SelectLayerIff(k: Kerberos, rep: seq<byte>, challenge: seq<byte>)
    ensures SelectLayer(k, rep, challenge) == if OffersAuth(k, rep, challenge) then Selection(k, rep) else None
  {
  }

  /** What the server's octets must be for a GSSAPI handshake at this stage to open. */
  predicate GssapiOpensFrom(k: Kerberos, stage: Stage, input: seq<byte>, sends: nat -> bool)
    requires stage != ApReq
    decreases if stage == ApRep then 2 else if stage.SecLayer? then 1 else 0
  {
    match Next(input)
    case Fail(_) => false
    case Ok((m, rest)) =>
      match stage
      case ApRep =>
        m.status == OK && k.apRepOk(m.payload) && sends(2) && GssapiOpensFrom(k, SecLayer(m.payload), rest, sends)
      case SecLayer(rep) =>
        && m.status == OK && SelectLayer(k, rep, m.payload).Some?
        && Goes(sends, 3, SelectLayer(k, rep, m.payload).value) && GssapiOpensFrom(k, Done, rest, sends)
      case Done => m.status == COMPLETE
  }

  predicate GssapiStarts(k: Kerberos, sends: nat -> bool) {
    sends(0) && k.initialToken.Some? && Goes(sends, 1, k.initialToken.value)
  }

  lemma LastRound(k: Kerberos, input: seq<byte>, sends: nat -> bool)
    ensures var t := Converse(k, Gssapi(Done), true, input, sends, 4);
            && (t.r.Ok? <==> GssapiOpensFrom(k, Done, input, sends))
            && |t.log| <= 1 && (t.r.Ok? ==> |t.log| == 1) && (t.log != [] ==> t.log[0].Received?)
  {
    hide Next;
  }

  lemma LayerRound(k: Kerberos, rep: seq<byte>, input: seq<byte>, sends: nat -> bool)
    ensures var t := Converse(k, Gssapi(SecLayer(rep)), false, input, sends, 3);
            && (t.r.Ok? <==> GssapiOpensFrom(k, SecLayer(rep), input, sends))
            && |t.log| <= 3 && (t.r.Ok? ==> |t.log| == 3)
            && (|t.log| > 0 ==> t.log[0].Received?)
            && (|t.log| > 1 ==>
                  var token := SelectLayer(k, rep, t.log[0].m.payload);
                  t.log[0].m.status == OK && token.Some? && t.log[1] == Sent(Message(COMPLETE, token.value)))
            && (|t.log| > 2 ==> t.log[2].Received?)
  {
    hide Next, SelectLayer;
    if Next(input).Ok? {
      LastRound(k, Next(input).value.1, sends);
    }
  }

  lemma RepRound(k: Kerberos, input: seq<byte>, sends: nat -> bool)
    ensures var t := Converse(k, Gssapi(ApRep), false, input, sends, 2);
            && (t.r.Ok? <==> GssapiOpensFrom(k, ApRep, input, sends))
            && |t.log| <= 5 && (t.r.Ok? ==> |t.log| == 5)
            && (|t.log| > 0 ==> t.log[0].Received?)
            && (|t.log| > 1 ==>
                  t.log[0].m.status == OK && k.apRepOk(t.log[0].m.payload) && t.log[1] == Sent(Message(OK, [])))
            && (|t.log| > 2 ==> t.log[2].Received?)
            && (|t.log| > 3 ==>
                  var token := SelectLayer(k, t.log[0].m.payload, t.log[2].m.payload);
                  t.log[2].m.status == OK && token.Some? && t.log[3] == Sent(Message(COMPLETE, token.value)))
            && (|t.log| > 4 ==> t.log[4].Received?)
  {
    hide Next, SelectLayer;
    if Next(input).Ok? {
      LayerRound(k, Next(input).value.0.payload, Next(input).value.1, sends);
    }
  }

  /** Whatever the server sends: the run is a prefix of the one script, and it opens exactly at the script's end. */
  lemma GssapiFollowsScript(k: Kerberos, innerOpens: bool, input: seq<byte>, sends: nat -> bool)
    ensures var t := Handshake(k, Gssapi(ApReq), innerOpens, input, sends);
            && GssapiRun(k, t.log) && (t.r.Ok? ==> |t.log| == 7)
            && (t.r.Ok? <==> innerOpens && GssapiStarts(k, sends) && GssapiOpensFrom(k, ApRep, input, sends))
  {
    hide Converse, GssapiOpensFrom, SelectLayer, OffersAuth, Selection;
    RepRound(k, input, sends);
    var t := Handshake(k, Gssapi(ApReq), innerOpens, input, sends);
    if |t.log| > 5 {
      SelectLayerIff(k, t.log[2].m.payload, t.log[4].m.payload);
    }
  }

  /** The server sent exactly: an AP_REP that verifies, an offer the client accepts, COMPLETE; then anything. */
  ghost predicate Exchange(
    k: Kerberos, input: seq<byte>, rep: seq<byte>, offer: seq<byte>, last: seq<byte>, rest: seq<byte>)
  {
    && input == Negotiation(Message(OK, rep)) +
                (Negotiation(Message(OK, offer)) + (Negotiation(Message(COMPLETE, last)) + rest))
    && |rep| <= MAX_FRAME && |offer| <= MAX_FRAME && |last| <= MAX_FRAME
    && k.apRepOk(rep) && OffersAuth(k, rep, offer)
    && Selection(k, rep).Some? && |Selection(k, rep).value| <= MAX_FRAME
  }

  /** On a working connection a GSSAPI handshake opens exactly on that exchange: no round can be skipped or repeated. */
  lemma GssapiOpensIff(k: Kerberos, input: seq<byte>, sends: nat -> bool)
    requires sends(2) && sends(3)
    ensures GssapiOpensFrom(k, ApRep, input, sends)
       <==> exists rep, offer, last, rest :: Exchange(k, input, rep, offer, last, rest)
  {
    hide Next, SelectLayer, OffersAuth, Selection;
    if GssapiOpensFrom(k, ApRep, input, sends) {
      var (m1, r1) := Next(input).value;
      assert GssapiOpensFrom(k, SecLayer(m1.payload), r1, sends);
      var (m2, r2) := Next(r1).value;
      assert GssapiOpensFrom(k, Done, r2, sends);
      var (m3, r3) := Next(r2).value;
      NextInvertsNegotiation(input, m1, r1);
      NextInvertsNegotiation(r1, m2, r2);
      NextInvertsNegotiation(r2, m3, r3);
      SelectLayerIff(k, m1.payload, m2.payload);
      assert Exchange(k, input, m1.payload, m2.payload, m3.payload, r3);
    }
    if rep, offer, last, rest :| Exchange(k, input, rep, offer, last, rest) {
      ExchangeOpens(k, input, sends, rep, offer, last, rest);
    }
  }

  lemma ExchangeOpens(k: Kerberos, input: seq<byte>, sends: nat -> bool,
                      rep: seq<byte>, offer: seq<byte>, last: seq<byte>, rest: seq<byte>)
    requires sends(2) && sends(3) && Exchange(k, input, rep, offer, last, rest)
    ensures GssapiOpensFrom(k, ApRep, input, sends)
  {
    hide Next, SelectLayer, OffersAuth, Selection;
    SelectLayerIff(k, rep, offer);
    var r2 := Negotiation(Message(COMPLETE, last)) + rest;
    var r1 := Negotiation(Message(OK, offer)) + r2;
    NextInvertsNegotiation(input, Message(OK, rep), r1);
    NextInvertsNegotiation(r1, Message(OK, offer), r2);
    NextInvertsNegotiation(r2, Message(COMPLETE, last), rest);
    assert GssapiOpensFrom(k, Done, r2, sends);
    assert GssapiOpensFrom(k, SecLayer(rep), r1, sends);
  }

  /** A mechanism that has run before, in whole or in part, never opens again: its first round has no challenge. */
  lemma UsedGssapiNeverOpens(k: Kerberos, stage: Stage, innerOpens: bool, input: seq<byte>, sends: nat -> bool)
    requires Genuine(k) && stage != ApReq
    ensures var t := Handshake(k, Gssapi(stage), innerOpens, input, sends);
            t.r.Fail? && |t.log| <= 1
  {
    hide Converse, GssTokens.Parse;
    NoTokenIsEmpty();
    if stage.SecLayer? {
      assert k.unwrap(stage.rep, []).None?;
    }
  }

  lemma NoTokenIsEmpty()
    ensures GssTokens.Parse([]) == None
  {
  }

  // ------------------------------------------------------------ what a PLAIN run may do

  /** PLAIN: the mechanism's name, the credentials as the server will read them, and at most one answer. */
  predicate PlainRun(user: seq<byte>, password: seq<byte>, log: seq<Event>) {
    && |log| <= 3
    && (|log| > 0 ==> log[0] == Sent(Message(START, PLAIN_NAME)))
    && (|log| > 1 ==>
          && log[1] == Sent(Message(OK, [0] + user + [0] + password))
          && (0 !in user ==> ReadPlain(log[1].m.payload) == Some(Credentials([], user, password))))
    && (|log| > 2 ==> log[2].Received?)
  }

  predicate PlainOpens(user: seq<byte>, password: seq<byte>, input: seq<byte>, sends: nat -> bool) {
    && sends(0) && sends(1) && |user| + |password| + 2 <= MAX_FRAME
    && Next(input).Ok? && Next(input).value.0.status == COMPLETE
  }

  lemma PlainRound(k: Kerberos, user: seq<byte>, password: seq<byte>, input: seq<byte>, sends: nat -> bool)
    ensures var t := Converse(k, Plain(user, password, true), false, input, sends, 2);
            && (t.r.Ok? <==> Next(input).Ok? && Next(input).value.0.status == COMPLETE)
            && |t.log| <= 1 && (t.r.Ok? ==> |t.log| == 1) && (t.log != [] ==> t.log[0].Received?)
  {
    hide Next;
  }

  /** The same for PLAIN, used before or not: one response, at most one frame read, open exactly on COMPLETE. */
  lemma PlainFollowsScript(
    k: Kerberos, user: seq<byte>, password: seq<byte>, sent: bool, innerOpens: bool, input: seq<byte>, sends: nat -> bool)
    ensures var t := Handshake(k, Plain(user, password, sent), innerOpens, input, sends);
            && PlainRun(user, password, t.log) && (t.r.Ok? ==> |t.log| == 3)
            && (t.r.Ok? <==> innerOpens && PlainOpens(user, password, input, sends))
  {
    hide Converse, Next, ReadPlain;
    PlainReadsBackIff(user, password);
    PlainRound(k, user, password, input, sends);
  }

  // ------------------------------------------------------------ why a run failed

  predicate Refuses(ev: Event) { ev.Received? && (ev.m.status == BAD || ev.m.status == ERROR) }

  /** A rejection is reported exactly when the last frame is a BAD or ERROR, with that frame's message. */
  ghost predicate ReportsRejection(t: Transcript) {
    && (t.r.Fail? && t.r.error.Rejected? <==> t.log != [] && Refuses(t.log[|t.log| - 1]))
    && (t.r.Fail? && t.r.error.Rejected? ==> t.log[|t.log| - 1].m.payload == t.r.error.message)
  }

  lemma {:induction false} ConverseReports(
    k: Kerberos, m: Mech, done: bool, input: seq<byte>, sends: nat -> bool, frame: nat)
    ensures ReportsRejection(Converse(k, m, done, input, sends, frame))
    decreases |input|
  {
    hide Next, Step;
    if Next(input).Ok? {
      var (msg, rest) := Next(input).value;
      var next := Step(k, m, Some(msg.payload));
      if next.Some? {
        ConverseReports(k, next.value.mech, next.value.done, rest, sends, frame + 1);
      }
    }
  }

  lemma HandshakeReports(k: Kerberos, m: Mech, innerOpens: bool, input: seq<byte>, sends: nat -> bool)
    ensures ReportsRejection(Handshake(k, m, innerOpens, input, sends))
  {
    hide Converse, Step;
    var first := Step(k, m, None);
    if first.Some? {
      ConverseReports(k, first.value.mech, first.value.done, input, sends, 2);
    }
  }

  // ------------------------------------------------------------ names

  /** The octets of an ASCII text. */
  ghost predicate Spells(octets: seq<byte>, text: string) {
    |octets| == |text| && forall i :: 0 <= i < |text| ==> octets[i] == text[i] as int
  }

  lemma MechanismNames()
    ensures Spells(PLAIN_NAME, "PLAIN") && Spells(GSSAPI_NAME, "GSSAPI")
  {
  }

  // ------------------------------------------------------------ the driver

  class Negotiator {
    var inbound: seq<byte>
    var mech: Mech
    var open: bool

    constructor (input: seq<byte>, m: Mech)
      ensures inbound == input && mech == m && !open
    {
      inbound, mech, open := input, m, false;
    }

    /** Reads one negotiation frame, using up what it read. */
    method Receive() returns (r: Result<Message, IoError>)
      modifies this`inbound
      ensures match Next(old(inbound))
              case Fail(e) => r == Fail(e)
              case Ok((m, rest)) => r == Ok(m) && inbound == rest
    {
      if |inbound| < 5 {
        r := Fail(if inbound == [] then Eof else UnexpectedEof);
        inbound := [];
        return;
      }
      var status, n := inbound[0], ToNat(inbound[1..5]);
      inbound := inbound[5..];
      if n > MAX_FRAME {
        return Fail(TooLarge);
      }
      if |inbound| < n {
        inbound := [];
        return Fail(UnexpectedEof);
      }
      assert inbound[..n] == old(inbound)[5..5 + n] && inbound[n..] == old(inbound)[5 + n..];
      r := Ok(Message(status, inbound[..n]));
      inbound := inbound[n..];
    }

    /** The rounds after the initial response. */
    method Rounds(k: Kerberos, sends: nat -> bool, lastSent: bool) returns (r: Result<(), Failure>, log: seq<Event>)
      modifies this
      ensures Transcript(r, log) == Converse(k, old(mech), lastSent, old(inbound), sends, 2)
      ensures open == (old(open) || r.Ok?)
    {
      hide Next, Step, Goes, Completed, Reply, Answer;
      log := [];
      var done, frame: nat := lastSent, 2;
      while true
        invariant open == old(open)
        invariant After(log, Converse(k, mech, done, inbound, sends, frame))
               == Converse(k, old(mech), lastSent, old(inbound), sends, 2)
        decreases |inbound|
      {
        ghost var before := log;
        var received := Receive();
        if received.Fail? {
          return Fail(ReadFailed(received.error)), log;
        }
        var m := received.value;
        AnswerIs(k, mech, done, m, inbound, sends, frame);
        log := log + [Received(m)];
        if m.status == COMPLETE {
          r := if Completed(mech) then Ok(()) else Fail(Premature);
          open := open || r.Ok?;
          return;
        }
        if m.status == BAD || m.status == ERROR {
          return Fail(Rejected(m.payload)), log;
        }
        if m.status != OK {
          return Fail(UnknownStatus(m.status)), log;
        }
        if done {
          return Fail(LateChallenge), log;
        }
        var next := Step(k, mech, Some(m.payload));
        if next == None {
          return Fail(MechanismFailed), log;
        }
        mech := next.value.mech;
        if !Goes(sends, frame, next.value.response) {
          return Fail(SendFailed), log;
        }
        ghost var rest := Converse(k, mech, next.value.done, inbound, sends, frame + 1);
        AfterTwice(before, [Received(m)], [Reply(next.value)], rest);
        log := log + [Reply(next.value)];
        done, frame := next.value.done, frame + 1;
      }
    }

    /**
     Runs the handshake. The inner transport is open or opens (innerOpens), and takes
     the i-th frame when sends(i). Whatever the server sends, the run is a prefix of the
     mechanism's one script; it opens exactly when the server's octets carry the script
     to its end; a rejection is reported with the server's message; and a GSSAPI
     mechanism that has run before does not open.
     */
    method OpenContext(k: Kerberos, innerOpens: bool, sends: nat -> bool)
      returns (r: Result<(), Failure>, log: seq<Event>)
      modifies this
      ensures open == (old(open) || r.Ok?)
      ensures ReportsRejection(Transcript(r, log))
      ensures old(mech) == Gssapi(ApReq) ==> GssapiRun(k, log) && (r.Ok? ==> |log| == 7)
      ensures old(mech) == Gssapi(ApReq) ==>
                (r.Ok? <==> innerOpens && GssapiStarts(k, sends) && GssapiOpensFrom(k, ApRep, old(inbound), sends))
      ensures old(mech).Gssapi? && old(mech).stage != ApReq && Genuine(k) ==> r.Fail? && |log| <= 1
      ensures old(mech).Plain? ==> PlainRun(old(mech).user, old(mech).password, log) && (r.Ok? ==> |log| == 3)
      ensures old(mech).Plain? ==>
                (r.Ok? <==> innerOpens && PlainOpens(old(mech).user, old(mech).password, old(inbound), sends))
    {
      hide Converse, GssapiOpensFrom, GssapiRun, PlainRun, PlainOpens, GssapiStarts, ReportsRejection, Genuine, Handshake;
      ghost var m, input := mech, inbound;
      r, log := Run(k, innerOpens, sends);
      HandshakeReports(k, m, innerOpens, input, sends);
      if m.Plain? {
        PlainFollowsScript(k, m.user, m.password, m.sent, innerOpens, input, sends);
      } else if m.stage == ApReq {
        GssapiFollowsScript(k, innerOpens, input, sends);
      } else if Genuine(k) {
        UsedGssapiNeverOpens(k, m.stage, innerOpens, input, sends);
      }
    }

    method Run(k: Kerberos, innerOpens: bool, sends: nat -> bool) returns (r: Result<(), Failure>, log: seq<Event>)
      modifies this
      ensures Transcript(r, log) == Handshake(k, old(mech), innerOpens, old(inbound), sends)
      ensures open == (old(open) || r.Ok?)
    {
      hide Converse, Step;
      if !innerOpens {
        return Fail(InnerClosed), [];
      }
      if !sends(0) {
        return Fail(SendFailed), [];
      }
      log := [Sent(Message(START, Name(mech)))];
      var first := Step(k, mech, None);
      if first == None {
        return Fail(MechanismFailed), log;
      }
      mech := first.value.mech;
      if !Goes(sends, 1, first.value.response) {
        return Fail(SendFailed), log;
      }
      log := log + [Reply(first.value)];
      var more;
      r, more := Rounds(k, sends, first.value.done);
      log := log + more;
    }
  }
}
