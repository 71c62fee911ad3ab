/**
 Hive partition names: key1=value1/key2=value2/..., each part escaped with %XX.
 Strings are Go's, sequences of octets. Lower-casing is a parameter, any function.
 */
module PartitionNames {
  import opened Bytes
  import opened Wrappers

  const SLASH: byte := 0x2F
  const EQUALS: byte := 0x3D
  const PERCENT: byte := 0x25

  /** __HIVE_DEFAULT_PARTITION__ */
  const DEFAULT: seq<byte> := [
    0x5F, 0x5F, 0x48, 0x49, 0x56, 0x45, 0x5F, 0x44, 0x45, 0x46, 0x41, 0x55, 0x4C, 0x54, 0x5F,
    0x50, 0x41, 0x52, 0x54, 0x49, 0x54, 0x49, 0x4F, 0x4E, 0x5F, 0x5F]

  // " # % ' * / : = ? \ { [ ] ^ and the control characters
  predicate NeedsEscape(c: byte) {
    c < 0x20 || c == 0x7F || c in {0x22, 0x23, 0x25, 0x27, 0x2A, 0x2F, 0x3A, 0x3D, 0x3F, 0x5C, 0x7B, 0x5B, 0x5D, 0x5E}
  }

  function Hex(d: nat): byte
    requires d < 16
  {
    if d < 10 then 0x30 + d else 0x41 + d - 10
  }

  function EscapeByte(c: byte): seq<byte> {
    if NeedsEscape(c) then [PERCENT, Hex(c / 16), Hex(c % 16)] else [c]
  }

  function EscapeBytes(s: seq<byte>): seq<byte> {
    if s == [] then [] else EscapeByte(s[0]) + EscapeBytes(s[1..])
  }

  function Escaped(s: seq<byte>): seq<byte> { if s == [] then DEFAULT else EscapeBytes(s) }

  datatype Pair = Pair(key: seq<byte>, value: seq<byte>)

  function Item(p: Pair): seq<byte> { Escaped(p.key) + [EQUALS] + Escaped(p.value) }

  function Joined(ps: seq<Pair>): seq<byte> {
    if ps == [] then [] else if |ps| == 1 then Item(ps[0]) else Item(ps[0]) + [SLASH] + Joined(ps[1..])
  }

  function Zip(keys: seq<seq<byte>>, values: seq<seq<byte>>, lower: seq<byte> -> seq<byte>): (ps: seq<Pair>)
    requires |keys| == |values|
    ensures |ps| == |keys|
  {
    seq(|keys|, i requires 0 <= i < |keys| => Pair(lower(keys[i]), values[i]))
  }

  // ------------------------------------------------------------ the code

  /** Escapes one part; the result is free of unsafe octets and reads back as the part. */
  method Escape(s: seq<byte>) returns (r: seq<byte>)
    ensures r == Escaped(s)
    ensures SafeText(r) && Unescape(r) == Normal(s)
  {
    hide SafeText, Unescape, Escaped;
    EscapedIsSafe(s);
    EscapedNormal(s);
    r := EscapeEach(s);
  }

  method EscapeEach(s: seq<byte>) returns (r: seq<byte>)
    ensures r == Escaped(s)
  {
    if s == [] {
      return DEFAULT;
    }
    r := [];
    for i := 0 to |s|
      invariant r + EscapeBytes(s[i..]) == EscapeBytes(s)
    {
      assert s[i..][1..] == s[i + 1..];
      assert r + (EscapeByte(s[i]) + EscapeBytes(s[i + 1..])) == (r + EscapeByte(s[i])) + EscapeBytes(s[i + 1..]);
      r := r + if NeedsEscape(s[i]) then [PERCENT, Hex(s[i] / 16), Hex(s[i] % 16)] else [s[i]];
    }
    assert s[|s|..] == [];
    assert r + [] == r;
  }

  method PartitionName(keys: seq<seq<byte>>, values: seq<seq<byte>>, lower: seq<byte> -> seq<byte>)
    returns (r: Option<seq<byte>>)
    ensures r.Some? <==> |keys| == |values|
    ensures r.Some? ==> r.value == Joined(Zip(keys, values, lower))
    ensures r.Some? ==> Decode(r.value) == Read(keys, values, lower)
  {
    if |keys| != |values| {
      return None;
    }
    hide Rest, Escaped, Joined, Decode, NormalPairs, Read;
    var b: seq<byte> := [];
    ghost var ps := Zip(keys, values, lower);
    RestEnds(ps);
    for i := 0 to |keys|
      invariant b + Rest(ps, i) == Joined(ps)
    {
      ghost var before := b;
      if i > 0 {
        b := b + [SLASH];
      }
      var key := Escape(lower(keys[i]));
      b := b + key;
      b := b + [EQUALS];
      var value := Escape(values[i]);
      b := b + value;
      RestStep(ps, i);
      Regroup(before, if i > 0 then [SLASH] else [], key, value, Rest(ps, i + 1));
    }
    assert b + Rest(ps, |keys|) == b;
    DecodeInverts(ps);
    ReadIs(keys, values, lower);
    return Some(b);
  }

  /** What is still to be written once i items are. */
  ghost function Rest(ps: seq<Pair>, i: nat): seq<byte>
    requires i <= |ps|
  {
    if i == |ps| then [] else if i == 0 then Joined(ps) else [SLASH] + Joined(ps[i..])
  }

  lemma RestEnds(ps: seq<Pair>)
    ensures Rest(ps, 0) == Joined(ps) && Rest(ps, |ps|) == []
  {
  }

  lemma Regroup(b: seq<byte>, sep: seq<byte>, key: seq<byte>, value: seq<byte>, rest: seq<byte>)
    ensures b + sep + key + [EQUALS] + value + rest == b + (sep + (key + [EQUALS] + value) + rest)
    ensures sep == [] ==> b + key + [EQUALS] + value + rest == b + (sep + (key + [EQUALS] + value) + rest)
  {
  }

  lemma RestStep(ps: seq<Pair>, i: nat)
    requires i < |ps|
    ensures Rest(ps, i) == (if i > 0 then [SLASH] else []) + Item(ps[i]) + Rest(ps, i + 1)
  {
    hide Item;
    assert ps[i..][1..] == ps[i + 1..];
    assert i == 0 ==> ps[i..] == ps;
  }

  // ------------------------------------------------------------ what an escaped part looks like

  /** Hive's reserved characters, apart from the percent sign. */
  const RESERVED: string := "\"#'*/:=?\\{[]^"

  predicate OneOf(c: byte, text: string) { exists i :: 0 <= i < |text| && text[i] as int == c }

  /** Octets that must not appear in a partition's directory name. */
  predicate Unsafe(c: byte) { c < ' ' as int || c == 0x7F || OneOf(c, RESERVED) }

  predicate UpperHex(c: byte) { '0' as int <= c <= '9' as int || 'A' as int <= c <= 'F' as int }

  /** No unsafe octet, and every percent sign starts an escape. */
  ghost predicate SafeText(s: seq<byte>) { forall i :: 0 <= i < |s| ==> SafeAt(s, i) }

  predicate SafeAt(s: seq<byte>, i: nat)
    requires i < |s|
  {
    && !Unsafe(s[i])
    && (s[i] == '%' as int ==> i + 2 < |s| && UpperHex(s[i + 1]) && UpperHex(s[i + 2]))
  }

  lemma EscapeSet(c: byte)
    ensures NeedsEscape(c) <==> Unsafe(c) || c == '%' as int
  {
    assert forall i :: 0 <= i < |RESERVED| ==>
                         RESERVED[i] in {'"', '#', '\'', '*', '/', ':', '=', '?', '\\', '{', '[', ']', '^'};
    assert RESERVED[0] == '"' && RESERVED[1] == '#' && RESERVED[2] == '\'' && RESERVED[3] == '*' && RESERVED[4] == '/';
    assert RESERVED[5] == ':' && RESERVED[6] == '=' && RESERVED[7] == '?' && RESERVED[8] == '\\' && RESERVED[9] == '{';
    assert RESERVED[10] == '[' && RESERVED[11] == ']' && RESERVED[12] == '^';
  }

  lemma EscapeByteIsSafe(c: byte)
    ensures SafeText(EscapeByte(c))
  {
    hide OneOf, Unsafe;
    EscapeSet(c);
    PercentIsNotUnsafe();
    if NeedsEscape(c) {
      EscapeSet(Hex(c / 16));
      EscapeSet(Hex(c % 16));
      var e := EscapeByte(c);
      assert SafeAt(e, 0) && SafeAt(e, 1) && SafeAt(e, 2);
    }
  }

  lemma PercentIsNotUnsafe()
    ensures !Unsafe('%' as int)
  {
    assert forall i :: 0 <= i < |RESERVED| ==> RESERVED[i] != '%';
  }

  lemma SafeConcat(a: seq<byte>, b: seq<byte>)
    requires SafeText(a) && SafeText(b)
    ensures SafeText(a + b)
  {
    hide Unsafe, UpperHex;
    var s := a + b;
    forall i | 0 <= i < |s| ensures SafeAt(s, i) {
      if i < |a| {
        assert SafeAt(a, i);
      } else {
        assert SafeAt(b, i - |a|);
      }
    }
  }

  lemma {:induction false} EscapeBytesIsSafe(s: seq<byte>)
    ensures SafeText(EscapeBytes(s))
  {
    hide SafeText, EscapeByte;
    if s == [] {
      NothingIsSafe();
    } else {
      EscapeByteIsSafe(s[0]);
      EscapeBytesIsSafe(s[1..]);
      SafeConcat(EscapeByte(s[0]), EscapeBytes(s[1..]));
    }
  }

  lemma NothingIsSafe()
    ensures SafeText([])
  {
  }

  /** An escaped part holds no unsafe octet and only whole escapes; one that needs no escaping is left as it is. */
  lemma EscapedIsSafe(s: seq<byte>)
    ensures SafeText(Escaped(s))
    ensures s != [] && (forall c :: c in s ==> !Unsafe(c) && c != '%' as int) ==> Escaped(s) == s
  {
    hide SafeText, EscapeBytes, Unsafe;
    EscapedNormal(s);
    EscapeBytesIsSafe(Normal(s));
    if s != [] && forall c :: c in s ==> !Unsafe(c) && c != '%' as int {
      forall c | c in s ensures !NeedsEscape(c) {
        EscapeSet(c);
      }
      PlainIsUntouched(s);
    }
  }

  /** The name substituted for an empty part. */
  lemma DefaultSpells()
    ensures var text := "__HIVE_DEFAULT_PARTITION__";
            |DEFAULT| == |text| && forall i :: 0 <= i < |text| ==> DEFAULT[i] == text[i] as int
  {
  }

  // ------------------------------------------------------------ the decoder

  /** Where c first is, or the end. */
  function Find(s: seq<byte>, c: byte): (i: nat)
    ensures i <= |s|
  {
    if s == [] || s[0] == c then 0 else 1 + Find(s[1..], c)
  }

  function Digit(c: byte): (r: Option<nat>)
    ensures r.Some? ==> r.value < 16
  {
    if 0x30 <= c <= 0x39 then Some(c - 0x30) else if 0x41 <= c <= 0x46 then Some(c - 0x41 + 10) else None
  }

  /** Undoes %XX; an octet that starts no escape stands for itself. */
  function Unescape(s: seq<byte>): seq<byte> {
    if s == [] then []
    else if s[0] == PERCENT && |s| >= 3 && Digit(s[1]).Some? && Digit(s[2]).Some? then
      [Digit(s[1]).value * 16 + Digit(s[2]).value] + Unescape(s[3..])
    else [s[0]] + Unescape(s[1..])
  }

  function After(s: seq<byte>, i: nat): seq<byte> { if i < |s| then s[i + 1..] else [] }

  function DecodeItem(item: seq<byte>): Pair {
    var e := Find(item, EQUALS);
    Pair(Unescape(item[..e]), Unescape(After(item, e)))
  }

  function Decode(name: seq<byte>): seq<Pair>
    decreases |name|
  {
    if name == [] then []
    else
      var i := Find(name, SLASH);
      [DecodeItem(name[..i])] + Decode(After(name, i))
  }

  // ------------------------------------------------------------ encoder and decoder

  /** What a name should read as: each key lower-cased, each value as it is, "" replaced by the default name. */
  function Read(keys: seq<seq<byte>>, values: seq<seq<byte>>, lower: seq<byte> -> seq<byte>): (r: seq<Pair>)
    requires |keys| == |values|
  {
    seq(|keys|, i requires 0 <= i < |keys| => Pair(Normal(lower(keys[i])), Normal(values[i])))
  }

  lemma ReadIs(keys: seq<seq<byte>>, values: seq<seq<byte>>, lower: seq<byte> -> seq<byte>)
    requires |keys| == |values|
    ensures NormalPairs(Zip(keys, values, lower)) == Read(keys, values, lower)
  {
  }

  function Normal(s: seq<byte>): seq<byte> { if s == [] then DEFAULT else s }

  function NormalPair(p: Pair): Pair { Pair(Normal(p.key), Normal(p.value)) }

  function NormalPairs(ps: seq<Pair>): (r: seq<Pair>)
    ensures |r| == |ps|
  {
    seq(|ps|, i requires 0 <= i < |ps| => NormalPair(ps[i]))
  }

  lemma {:induction false} UnescapeEscaped(s: seq<byte>)
    ensures Unescape(EscapeBytes(s)) == s
  {
    if s != [] {
      UnescapeEscaped(s[1..]);
      var e := EscapeBytes(s);
      if NeedsEscape(s[0]) {
        assert Digit(e[1]) == Some(s[0] / 16) && Digit(e[2]) == Some(s[0] % 16);
        assert e[3..] == EscapeBytes(s[1..]);
      } else {
        assert e[1..] == EscapeBytes(s[1..]);
      }
    }
  }

  lemma {:induction false} PlainIsUntouched(s: seq<byte>)
    requires forall c :: c in s ==> !NeedsEscape(c)
    ensures EscapeBytes(s) == s
  {
    if s != [] {
      PlainIsUntouched(s[1..]);
    }
  }

  lemma {:induction false} SeparatorsAreEscaped(s: seq<byte>)
    ensures SLASH !in EscapeBytes(s) && EQUALS !in EscapeBytes(s)
    ensures s != [] ==> EscapeBytes(s) != []
  {
    if s != [] {
      SeparatorsAreEscaped(s[1..]);
    }
  }

  /** Escaping is a function of the normal form alone, undone by Unescape, and free of separators. */
  lemma EscapedNormal(s: seq<byte>)
    ensures Escaped(s) == EscapeBytes(Normal(s)) && Unescape(Escaped(s)) == Normal(s)
    ensures SLASH !in Escaped(s) && EQUALS !in Escaped(s)
  {
    hide EscapeBytes, Unescape;
    DefaultIsPlain();
    UnescapeEscaped(Normal(s));
    SeparatorsAreEscaped(Normal(s));
  }

  lemma DefaultIsPlain()
    ensures EscapeBytes(DEFAULT) == DEFAULT
  {
    hide EscapeBytes;
    PlainIsUntouched(DEFAULT);
  }

  lemma {:induction false} FindFirst(a: seq<byte>, c: byte, rest: seq<byte>)
    requires c !in a
    ensures Find(a, c) == |a| == Find(a + [c] + rest, c)
  {
    var s := a + [c] + rest;
    if a != [] {
      FindFirst(a[1..], c, rest);
      assert s[1..] == a[1..] + [c] + rest;
    }
  }

  lemma DecodeItemInverts(p: Pair)
    ensures DecodeItem(Item(p)) == NormalPair(p) && SLASH !in Item(p) && Item(p) != []
  {
    hide Escaped, EscapeBytes, Unescape, Find, Normal;
    EscapedNormal(p.key);
    EscapedNormal(p.value);
    FindFirst(Escaped(p.key), EQUALS, Escaped(p.value));
    assert Item(p)[..|Escaped(p.key)|] == Escaped(p.key);
    assert Item(p)[|Escaped(p.key)| + 1..] == Escaped(p.value);
  }

  /** The decoder recovers every key and value, in order, with "" read back as the default name. */
  lemma {:induction false} DecodeInverts(ps: seq<Pair>)
    ensures Decode(Joined(ps)) == NormalPairs(ps)
    decreases |ps|
  {
    hide Item, DecodeItem, NormalPair, Find;
    if ps != [] {
      var name, item, rest := Joined(ps), Item(ps[0]), Joined(ps[1..]);
      DecodeItemInverts(ps[0]);
      FindFirst(item, SLASH, rest);
      DecodeInverts(ps[1..]);
      assert name[..|item|] == item;
      assert After(name, |item|) == rest;
      assert NormalPairs(ps) == [NormalPair(ps[0])] + NormalPairs(ps[1..]);
    }
  }

  lemma {:induction false} JoinedNormal(ps: seq<Pair>)
    ensures Joined(NormalPairs(ps)) == Joined(ps)
    decreases |ps|
  {
    hide Escaped, EscapeBytes;
    if ps != [] {
      EscapedNormal(ps[0].key);
      EscapedNormal(ps[0].value);
      EscapedNormal(Normal(ps[0].key));
      EscapedNormal(Normal(ps[0].value));
      JoinedNormal(ps[1..]);
      assert NormalPairs(ps)[1..] == NormalPairs(ps[1..]);
    }
  }

  /** Two names are equal exactly when their keys and values are, after "" becomes the default name. */
  lemma NamesEqualIff(ps: seq<Pair>, qs: seq<Pair>)
    ensures Joined(ps) == Joined(qs) <==> NormalPairs(ps) == NormalPairs(qs)
  {
    DecodeInverts(ps);
    DecodeInverts(qs);
    JoinedNormal(ps);
    JoinedNormal(qs);
  }

  /** For one key list: value lists give the same name exactly when they agree after that replacement. */
  lemma ValuesDecideName(keys: seq<seq<byte>>, vs: seq<seq<byte>>, ws: seq<seq<byte>>, lower: seq<byte> -> seq<byte>)
    requires |keys| == |vs| == |ws|
    ensures Joined(Zip(keys, vs, lower)) == Joined(Zip(keys, ws, lower))
       <==> forall i :: 0 <= i < |keys| ==> Normal(vs[i]) == Normal(ws[i])
  {
    var ps, qs := Zip(keys, vs, lower), Zip(keys, ws, lower);
    NamesEqualIff(ps, qs);
    assert forall i :: 0 <= i < |keys| ==>
                         NormalPairs(ps)[i].value == Normal(vs[i]) && NormalPairs(qs)[i].value == Normal(ws[i]);
    if forall i :: 0 <= i < |keys| ==> Normal(vs[i]) == Normal(ws[i]) {
      assert NormalPairs(ps) == NormalPairs(qs);
    }
  }

  /** So an empty value and the literal default name collide. */
  lemma EmptyCollidesWithDefault(key: seq<byte>)
    ensures Pair(key, []) != Pair(key, DEFAULT) && Joined([Pair(key, [])]) == Joined([Pair(key, DEFAULT)])
  {
    hide Joined;
    NamesEqualIff([Pair(key, [])], [Pair(key, DEFAULT)]);
  }
}
