/**
 Kerberos GSS-API tokens on the wire: the rotation of a wrap token's data, and the
 definite-length wrapper around an initial context token.
 */
module GssTokens {
  import opened Arithmetic
  import opened Bytes
  import opened Wrappers

  // ------------------------------------------------------------ wrap tokens

  const HDR_LEN: nat := 16

  /** One right rotation: the last octet moves to the front. */
  function RotateOnce(s: seq<byte>): (r: seq<byte>)
    ensures |r| == |s|
  {
    if s == [] then [] else [s[|s| - 1]] + s[..|s| - 1]
  }

  /** Right rotation by count octets, as section 4.2.5 of RFC 4121 has the sender do it. */
  function Rotate(s: seq<byte>, count: nat): (r: seq<byte>)
    ensures |r| == |s|
  {
    if count == 0 then s else RotateOnce(Rotate(s, count - 1))
  }

  /** A wrap token: a header whose octets 6 and 7 are the rotation count, then the data. */
  function WrapToken(head: seq<byte>, rrc: nat, tail: seq<byte>, data: seq<byte>): seq<byte>
    requires |head| == 6 && |tail| == 8
  {
    head + BigEndian(2, rrc) + tail + data
  }

  function Unrotated(b: seq<byte>): (r: seq<byte>)
    requires |b| >= HDR_LEN
    ensures |r| == |b|
  {
    var data := b[HDR_LEN..];
    if data == [] then WrapToken(b[..6], 0, b[8..HDR_LEN], data)
    else
      var rrc := ToNat(b[6..8]) % |data|;
      WrapToken(b[..6], 0, b[8..HDR_LEN], Turned(data, rrc))
  }

  /** s with the octets from cut on moved to the front. */
  function Turned(s: seq<byte>, cut: nat): (r: seq<byte>)
    requires cut <= |s|
    ensures |r| == |s|
  {
    s[cut..] + s[..cut]
  }

  lemma {:induction false} RotateIsCut(s: seq<byte>, count: nat)
    requires s != []
    ensures Rotate(s, count) == Turned(s, |s| - count % |s|)
  {
    hide Turned, RotateOnce;
    if count == 0 {
      DivisionIsUnique(0, |s|, 0, 0);
      TurnWhole(s);
    } else {
      RotateIsCut(s, count - 1);
      ModStep(count - 1, |s|);
      TurnWhole(s);
      RotateTurned(s, |s| - (count - 1) % |s|);
    }
  }

  lemma TurnWhole(s: seq<byte>)
    ensures Turned(s, |s|) == s == Turned(s, 0)
  {
  }

  lemma RotateTurned(s: seq<byte>, cut: nat)
    requires 1 <= cut <= |s|
    ensures RotateOnce(Turned(s, cut)) == Turned(s, cut - 1)
  {
    var t := Turned(s, cut);
    assert t[|t| - 1] == s[cut - 1];
    assert [s[cut - 1]] + t[..|t| - 1] == Turned(s, cut - 1);
  }

  lemma TurnBack(s: seq<byte>, cut: nat)
    requires cut <= |s|
    ensures Turned(Turned(s, cut), |s| - cut) == s
  {
  }

  /** Whatever count the header carries, the data's length exceeded or not, unrotating gives back the data. */
  lemma UnrotateUndoesRotation(head: seq<byte>, rrc: nat, tail: seq<byte>, data: seq<byte>)
    requires |head| == 6 && |tail| == 8 && rrc < 0x1_0000
    ensures Unrotated(WrapToken(head, rrc, tail, Rotate(data, rrc))) == WrapToken(head, 0, tail, data)
  {
    var b := WrapToken(head, rrc, tail, Rotate(data, rrc));
    assert b[..6] == head && b[6..8] == BigEndian(2, rrc) && b[8..HDR_LEN] == tail && b[HDR_LEN..] == Rotate(data, rrc);
    assert Pow256(1) == 256 && Pow256(2) == 0x1_0000;
    ToNatOfBigEndian(2, rrc);
    if data != [] {
      RotateIsCut(data, rrc);
      TurnBack(data, |data| - rrc % |data|);
    }
  }

  /** And every token is the rotation, by the count it carries, of what unrotating it gives. */
  lemma EveryTokenIsARotation(b: seq<byte>)
    requires |b| >= HDR_LEN
    ensures var plain := Unrotated(b);
            b == WrapToken(plain[..6], ToNat(b[6..8]), plain[8..HDR_LEN], Rotate(plain[HDR_LEN..], ToNat(b[6..8])))
  {
    var plain, rrc, data := Unrotated(b), ToNat(b[6..8]), b[HDR_LEN..];
    BigEndianOfToNat(b[6..8]);
    assert plain[..6] == b[..6] && plain[8..HDR_LEN] == b[8..HDR_LEN];
    assert b == b[..6] + b[6..8] + b[8..HDR_LEN] + data;
    if data == [] {
      assert plain[HDR_LEN..] == [];
      RotateEmpty(rrc);
    } else {
      var r := rrc % |data|;
      assert plain[HDR_LEN..] == Turned(data, r);
      RotateIsCut(Turned(data, r), rrc);
      TurnBack(data, r);
    }
  }

  lemma {:induction false} RotateEmpty(count: nat)
    ensures Rotate([], count) == []
  {
    if count > 0 {
      RotateEmpty(count - 1);
    }
  }

  /** Copies data to the end of out, its first rrc octets last. */
  method CopyTurned(out: array<byte>, data: seq<byte>, rrc: nat)
    requires out.Length == HDR_LEN + |data| && rrc <= |data|
    modifies out
    ensures out[..HDR_LEN] == old(out[..HDR_LEN]) && out[HDR_LEN..] == Turned(data, rrc)
  {
    forall i | 0 <= i < |data| - rrc {
      out[HDR_LEN + i] := data[rrc + i];
    }
    forall i | 0 <= i < rrc {
      out[HDR_LEN + |data| - rrc + i] := data[i];
    }
    forall i | 0 <= i < |data| ensures out[HDR_LEN + i] == Turned(data, rrc)[i] {
      if i >= |data| - rrc {
        assert out[HDR_LEN + |data| - rrc + (i - (|data| - rrc))] == data[i - (|data| - rrc)];
      }
    }
  }

  /** Copies the token with its rotation undone and its count cleared. */
  method Unrotate(b: seq<byte>) returns (r: Option<seq<byte>>)
    ensures r == if |b| < HDR_LEN then None else Some(Unrotated(b))
  {
    if |b| < HDR_LEN {
      return None;
    }
    var data := b[HDR_LEN..];
    var out := new byte[|b|](i requires 0 <= i < |b| => b[i]);
    out[6], out[7] := 0, 0;
    assert out[HDR_LEN..] == data;
    ghost var header := out[..HDR_LEN];
    if |data| > 0 {
      CopyTurned(out, data, ToNat(b[6..8]) % |data|);
    }
    assert header == b[..6] + BigEndian(2, 0) + b[8..HDR_LEN] by {
      assert BigEndian(1, 0) == [0];
    }
    assert out[..] == header + out[HDR_LEN..];
    return Some(out[..]);
  }

  // ------------------------------------------------------------ context tokens

  const APP_TAG: byte := 0x60

  /** The Kerberos 5 mechanism's object identifier, 1.2.840.113554.1.2.2, in DER. */
  const KRB5_OID: seq<byte> := [0x06, 0x09, 0x2A, 0x86, 0x48, 0x86, 0xF7, 0x12, 0x01, 0x02, 0x02]

  const INT_LIMIT: nat := 0x8000_0000_0000_0000

  /** The octets are a definite-length encoding of n, in the short form or with one to four length octets. */
  predicate EncodesLength(octets: seq<byte>, n: nat) {
    || (|octets| == 1 && octets[0] == n && n < 128)
    || (2 <= |octets| <= 5 && octets[0] == 128 + |octets| - 1 && ToNat(octets[1..]) == n)
  }

  /** The content of the element b starts with. */
  function Content(b: seq<byte>): Option<seq<byte>> {
    if |b| < 2 then None
    else if b[1] < 128 then (if b[1] > |b| - 2 then None else Some(b[2..2 + b[1]]))
    else
      var n := b[1] - 128;
      if n == 0 || n > 4 || |b| < 2 + n then None
      else
        var length := ToNat(b[2..2 + n]);
        if length > |b| - 2 - n then None else Some(b[2 + n..2 + n + length])
  }

  ghost predicate Element(b: seq<byte>, octets: seq<byte>, content: seq<byte>, trailing: seq<byte>) {
    && EncodesLength(octets, |content|)
    && |b| >= 1 && b == [b[0]] + octets + content + trailing
  }

  /** Decoding is sound and complete for these encodings, whatever follows the element. */
  lemma ContentIff(b: seq<byte>, content: seq<byte>)
    ensures Content(b) == Some(content) <==> exists octets, trailing :: Element(b, octets, content, trailing)
  {
    if Content(b) == Some(content) {
      var k := if b[1] < 128 then 2 else 2 + b[1] - 128;
      var octets, trailing := b[1..k], b[k + |content|..];
      assert b == [b[0]] + octets + content + trailing;
      assert octets[1..] == b[2..k];
      assert Element(b, octets, content, trailing);
    }
    if octets, trailing :| Element(b, octets, content, trailing) {
      ElementContent(b, octets, content, trailing);
    }
  }

  lemma ElementContent(b: seq<byte>, octets: seq<byte>, content: seq<byte>, trailing: seq<byte>)
    requires Element(b, octets, content, trailing)
    ensures Content(b) == Some(content)
  {
    var k := 1 + |octets|;
    assert b[1] == octets[0];
    assert b[2..k] == octets[1..];
    assert b[k..k + |content|] == content;
  }

  /** Decodes the length octets one by one. */
  method DerContent(b: seq<byte>) returns (r: Option<seq<byte>>)
    ensures r == Content(b)
  {
    if |b| < 2 {
      return None;
    }
    var length, start: nat := b[1], 2;
    if length > 0x7F {
      var n := length % 0x80;
      if n == 0 || n > 4 || |b| < 2 + n {
        return None;
      }
      length := 0;
      for i := 0 to n
        invariant length == ToNat(b[2..2 + i])
      {
        assert b[2..2 + i + 1][..i] == b[2..2 + i];
        length := length * 256 + b[2 + i];
      }
      start := 2 + n;
    }
    if length > |b| - start {
      return None;
    }
    return Some(b[start..start + length]);
  }

  // ------------------------------------------------------------ wrapping and unwrapping

  function Minimal(n: nat): seq<byte> { if n == 0 then [] else Minimal(n / 256) + [n % 256] }

  lemma {:induction false} MinimalIsShort(n: nat, k: nat)
    ensures ToNat(Minimal(n)) == n
    ensures |Minimal(n)| <= k <==> n < Pow256(k)
  {
    if n > 0 {
      MinimalIsShort(n / 256, if k > 0 then k - 1 else 0);
      assert Minimal(n)[..|Minimal(n)| - 1] == Minimal(n / 256);
    }
  }

  /** A slice's length fits in eight octets. */
  lemma MinimalFits(n: nat)
    requires n < INT_LIMIT
    ensures |Minimal(n)| <= 8 && ToNat(Minimal(n)) == n && (|Minimal(n)| <= 4 <==> n < 0x1_0000_0000)
  {
    Pow256Of4();
    assert Pow256(5) == 0x100_0000_0000 && Pow256(6) == 0x1_0000_0000_0000;
    assert Pow256(7) == 0x100_0000_0000_0000 && Pow256(8) == 0x1_0000_0000_0000_0000;
    MinimalIsShort(n, 8);
    MinimalIsShort(n, 4);
  }

  /** DER's length octets: the short form below 128, else the fewest octets that do. */
  function LengthOctets(n: nat): seq<byte>
    requires n < INT_LIMIT
  {
    MinimalFits(n);
    if n < 128 then [n] else [128 + |Minimal(n)|] + Minimal(n)
  }

  lemma {:induction false} MinimalHasNoLeadingZero(n: nat)
    requires n > 0
    ensures Minimal(n) != [] && Minimal(n)[0] != 0
  {
    if n >= 256 {
      MinimalHasNoLeadingZero(n / 256);
    } else {
      assert n / 256 == 0 && Minimal(0) == [];
    }
  }

  /** The one DER form of a length: a single octet below 128, else a count and that many octets, the first not zero. */
  lemma LengthOctetsAreDer(n: nat)
    requires n < INT_LIMIT
    ensures n < 128 ==> LengthOctets(n) == [n]
    ensures n >= 128 ==>
              var octets := LengthOctets(n);
              && 2 <= |octets| <= 9 && octets[0] == 128 + |octets| - 1
              && octets[1] != 0 && ToNat(octets[1..]) == n
  {
    MinimalFits(n);
    if n >= 128 {
      MinimalHasNoLeadingZero(n);
      assert LengthOctets(n)[1..] == Minimal(n);
    }
  }

  function Krb5Body(tokId: seq<byte>, msg: seq<byte>): seq<byte> { KRB5_OID + tokId + msg }

  function Krb5Token(tokId: seq<byte>, msg: seq<byte>): seq<byte>
    requires |tokId| == 2 && |Krb5Body(tokId, msg)| < INT_LIMIT
  {
    [APP_TAG] + LengthOctets(|Krb5Body(tokId, msg)|) + Krb5Body(tokId, msg)
  }

  datatype Parsed = Parsed(tokId: seq<byte>, msg: seq<byte>)

  function Parse(b: seq<byte>): Option<Parsed> {
    if |b| < 2 || b[0] != APP_TAG then None
    else match Content(b)
         case None => None
         case Some(body) =>
           var n := |KRB5_OID|;
           if |body| < n + 2 || body[..n] != KRB5_OID then None else Some(Parsed(body[n..n + 2], body[n + 2..]))
  }

  /** b is a context token for that identifier and message, in any accepted length form, whatever follows it. */
  ghost predicate IsToken(b: seq<byte>, tokId: seq<byte>, msg: seq<byte>) {
    && |tokId| == 2 && |b| > 0 && b[0] == APP_TAG
    && exists octets, trailing :: Element(b, octets, Krb5Body(tokId, msg), trailing)
  }

  /** Parsing accepts exactly those tokens. */
  lemma ParseIff(b: seq<byte>, tokId: seq<byte>, msg: seq<byte>)
    ensures Parse(b) == Some(Parsed(tokId, msg)) <==> IsToken(b, tokId, msg)
  {
    if |tokId| == 2 {
      var body := Krb5Body(tokId, msg);
      ContentIff(b, body);
      assert body[..|KRB5_OID|] == KRB5_OID && body[|KRB5_OID|..|KRB5_OID| + 2] == tokId && body[|KRB5_OID| + 2..] == msg;
      if Parse(b) == Some(Parsed(tokId, msg)) {
        assert Content(b).value == body;
      }
    }
  }

  /** Returns the identifier and the message of a context token, and fails on what is not one. */
  method ParseKrb5Token(b: seq<byte>) returns (r: Option<Parsed>)
    ensures r.Some? ==> IsToken(b, r.value.tokId, r.value.msg)
    ensures r.None? ==> forall tokId, msg :: !IsToken(b, tokId, msg)
    ensures forall tokId, msg :: IsToken(b, tokId, msg) ==> r == Some(Parsed(tokId, msg))
  {
    hide IsToken;
    forall tokId, msg ensures IsToken(b, tokId, msg) <==> Parse(b) == Some(Parsed(tokId, msg)) {
      ParseIff(b, tokId, msg);
    }
    if |b| < 2 || b[0] != APP_TAG {
      return None;
    }
    var content := DerContent(b);
    if content == None {
      return None;
    }
    var body, n := content.value, |KRB5_OID|;
    if |body| < n + 2 || body[..n] != KRB5_OID {
      return None;
    }
    return Some(Parsed(body[n..n + 2], body[n + 2..]));
  }

  /** The client reads back its own tokens exactly when four length octets suffice. */
  lemma TokenRoundTripIff(tokId: seq<byte>, msg: seq<byte>, trailing: seq<byte>)
    requires |tokId| == 2 && |Krb5Body(tokId, msg)| < INT_LIMIT
    ensures Parse(Krb5Token(tokId, msg) + trailing) == Some(Parsed(tokId, msg)) <==> |Krb5Body(tokId, msg)| < 0x1_0000_0000
  {
    var body := Krb5Body(tokId, msg);
    var octets, b := LengthOctets(|body|), Krb5Token(tokId, msg) + trailing;
    MinimalFits(|body|);
    if |body| < 0x1_0000_0000 {
      if |body| >= 128 {
        assert octets[1..] == Minimal(|body|);
        assert Minimal(|body|) != [];
      }
      assert Element(b, octets, body, trailing);
      ParseIff(b, tokId, msg);
    } else {
      assert b[1] == octets[0] == 128 + |Minimal(|body|)|;
      assert Content(b) == None;
    }
  }
}
