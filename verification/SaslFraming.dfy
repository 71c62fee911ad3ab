/**
 SASL data frames: each frame is a four-octet big-endian length and a payload.
 Reads hand out the payload stream in pieces of the caller's choosing; writes are
 buffered and leave as one frame per flush.

 The inner transport is the sequence of octets it will still deliver (ending
 where it fails or closes) and the sequence of octets it has accepted.
 */
module SaslFraming {
  import opened Wrappers
  import opened Bytes

  /** The largest frame accepted from the peer, and sent to it. */
  const MAX_FRAME: nat := 64 * 1024 * 1024

  datatype IoError = Eof | UnexpectedEof | TooLarge | InnerFailed

  // ------------------------------------------------------------ what the octets mean

  function Frame(payload: seq<byte>): seq<byte> { BigEndian(4, |payload|) + payload }

  function Frames(payloads: seq<seq<byte>>): seq<byte> {
    if payloads == [] then [] else Frame(payloads[0]) + Frames(payloads[1..])
  }

  function Concat(payloads: seq<seq<byte>>): seq<byte> {
    if payloads == [] then [] else payloads[0] + Concat(payloads[1..])
  }

  /** The payload octets an input carries, and why it stops. */
  datatype Parsed = Parsed(payload: seq<byte>, end: IoError)

  function Parse(input: seq<byte>): Parsed
    decreases |input|
  {
    if |input| < 4 then Parsed([], if input == [] then Eof else UnexpectedEof)
    else
      var n := ToNat(input[..4]);
      if n > MAX_FRAME then Parsed([], TooLarge)
      else if |input| - 4 < n then Parsed([], UnexpectedEof)
      else
        var rest := Parse(input[4 + n..]);
        Parsed(input[4..4 + n] + rest.payload, rest.end)
  }

  predicate Fits(payloads: seq<seq<byte>>) { forall i :: 0 <= i < |payloads| ==> |payloads[i]| <= MAX_FRAME }

  lemma ParseFrame(payload: seq<byte>, rest: seq<byte>)
    requires |payload| <= MAX_FRAME
    ensures Parse(Frame(payload) + rest) == Parsed(payload + Parse(rest).payload, Parse(rest).end)
  {
    var input := Frame(payload) + rest;
    Pow256Of4();
    ToNatOfBigEndian(4, |payload|);
    assert input[..4] == BigEndian(4, |payload|);
    assert input[4..4 + |payload|] == payload;
    assert input[4 + |payload|..] == rest;
  }

  /** Any framing whatever, zero-length frames included, carries the concatenation of its payloads. */
  lemma {:induction false} ParseFrames(payloads: seq<seq<byte>>, rest: seq<byte>)
    requires Fits(payloads)
    ensures Parse(Frames(payloads) + rest) == Parsed(Concat(payloads) + Parse(rest).payload, Parse(rest).end)
    decreases |payloads|
  {
    if payloads == [] {
      assert Frames(payloads) + rest == rest;
      assert Concat(payloads) + Parse(rest).payload == Parse(rest).payload;
    } else {
      var tail := Frames(payloads[1..]) + rest;
      assert Frames(payloads) + rest == Frame(payloads[0]) + tail;
      ParseFrames(payloads[1..], rest);
      ParseFrame(payloads[0], tail);
      assert payloads[0] + (Concat(payloads[1..]) + Parse(rest).payload) == Concat(payloads) + Parse(rest).payload;
    }
  }

  lemma {:induction false} FramesSnoc(payloads: seq<seq<byte>>, last: seq<byte>)
    ensures Frames(payloads + [last]) == Frames(payloads) + Frame(last)
    ensures Concat(payloads + [last]) == Concat(payloads) + last
    decreases |payloads|
  {
    if payloads == [] {
      assert payloads + [last] == [last];
      assert Frames([last]) == Frame(last) + Frames([]);
      assert Concat([last]) == last + Concat([]);
    } else {
      assert (payloads + [last])[1..] == payloads[1..] + [last];
      FramesSnoc(payloads[1..], last);
    }
  }

  // ------------------------------------------------------------ the transport

  class Transport {
    var inbound: seq<byte>
    var outbound: seq<byte>
    var rbuf: seq<byte>
    var wbuf: seq<byte>

    constructor (input: seq<byte>)
      ensures inbound == input && outbound == [] && rbuf == [] && wbuf == []
    {
      inbound, outbound, rbuf, wbuf := input, [], [], [];
    }

    /** The payload octets still to be read. */
    function Pending(): seq<byte>
      reads this
    {
      rbuf + Parse(inbound).payload
    }

    /**
     Reads at most n octets. It delivers the next octets of the payload stream, at
     least one unless n is 0, and fails exactly when the stream is exhausted, with
     the reason it ended.
     */
    method Read(n: nat) returns (r: Result<seq<byte>, IoError>)
      modifies this`inbound, this`rbuf
      ensures n == 0 ==> r == Ok([]) && inbound == old(inbound) && rbuf == old(rbuf)
      ensures n > 0 ==> (r.Fail? <==> old(Pending()) == [])
      ensures r.Fail? ==> r.error == old(Parse(inbound).end)
      ensures r.Ok? ==> |r.value| <= n && (n > 0 ==> |r.value| > 0)
      ensures r.Ok? ==> r.value + Pending() == old(Pending()) && Parse(inbound).end == old(Parse(inbound).end)
    {
      if n == 0 {
        assert [] + Pending() == Pending();
        return Ok([]);
      }
      while |rbuf| == 0
        invariant Pending() == old(Pending()) && Parse(inbound).end == old(Parse(inbound).end)
        decreases |inbound|
      {
        assert Pending() == Parse(inbound).payload;
        if |inbound| < 4 {
          r := Fail(if inbound == [] then Eof else UnexpectedEof);
          inbound := [];
          return;
        }
        var len := ToNat(inbound[..4]);
        if len > MAX_FRAME {
          inbound := inbound[4..];
          return Fail(TooLarge);
        }
        if |inbound| - 4 < len {
          inbound := [];
          return Fail(UnexpectedEof);
        }
        rbuf := inbound[4..4 + len];
        inbound := inbound[4 + len..];
        if len > 0 {
          break;
        }
      }
      var k := if n < |rbuf| then n else |rbuf|;
      r := Ok(rbuf[..k]);
      assert rbuf[..k] + (rbuf[k..] + Parse(inbound).payload) == rbuf + Parse(inbound).payload;
      rbuf := rbuf[k..];
    }

    /** Buffers p for the next flush. */
    method Write(p: seq<byte>)
      modifies this`wbuf
      ensures wbuf == old(wbuf) + p
    {
      wbuf := wbuf + p;
    }

    /**
     Sends the buffer as one frame. The inner transport takes accepted octets before
     its writes fail, and flushes says whether its own flush succeeds.
     */
    method Flush(accepted: nat, flushes: bool) returns (r: Result<(), IoError>)
      modifies this`wbuf, this`outbound
      ensures Writer(wbuf, outbound, r) == Flushed(old(wbuf), old(outbound), accepted, flushes)
    {
      var n := |wbuf|;
      if n > MAX_FRAME {
        return Fail(TooLarge);
      }
      if n == 0 {
        return InnerFlush(flushes);
      }
      var hdr := BigEndian(4, n);
      if accepted < 4 {
        outbound := outbound + hdr[..accepted];
        assert Frame(wbuf)[..accepted] == hdr[..accepted];
        return Fail(InnerFailed);
      }
      outbound := outbound + hdr;
      if accepted < 4 + n {
        outbound := outbound + wbuf[..accepted - 4];
        assert Frame(wbuf)[..accepted] == hdr + wbuf[..accepted - 4];
        return Fail(InnerFailed);
      }
      outbound := outbound + wbuf;
      wbuf := [];
      return InnerFlush(flushes);
    }
  }

  /** For any sequence of buffer sizes, the reads deliver a prefix of the payload stream, in order. */
  method ReadMany(t: Transport, sizes: seq<nat>) returns (got: seq<byte>, failed: Option<IoError>)
    modifies t
    ensures failed.None? ==> got + t.Pending() == old(t.Pending())
    ensures failed.Some? ==> got == old(t.Pending()) && failed.value == old(Parse(t.inbound).end)
  {
    got, failed := [], None;
    assert [] + t.Pending() == t.Pending();
    for i := 0 to |sizes|
      invariant got + t.Pending() == old(t.Pending())
      invariant Parse(t.inbound).end == old(Parse(t.inbound).end)
    {
      ghost var before, sofar := t.Pending(), got;
      var r := t.Read(sizes[i]);
      if r.Fail? {
        assert got + [] == got;
        return got, Some(r.error);
      }
      got := got + r.value;
      assert sofar + (r.value + t.Pending()) == got + t.Pending();
    }
  }

  // ------------------------------------------------------------ the sending side over whole runs

  datatype Writer = Writer(wbuf: seq<byte>, outbound: seq<byte>, r: Result<(), IoError>)

  function InnerFlush(flushes: bool): Result<(), IoError> { if flushes then Ok(()) else Fail(InnerFailed) }

  function Flushed(wbuf: seq<byte>, outbound: seq<byte>, accepted: nat, flushes: bool): Writer {
    if |wbuf| > MAX_FRAME then Writer(wbuf, outbound, Fail(TooLarge))
    else if wbuf == [] then Writer(wbuf, outbound, InnerFlush(flushes))
    else if accepted < |Frame(wbuf)| then Writer(wbuf, outbound + Frame(wbuf)[..accepted], Fail(InnerFailed))
    else Writer([], outbound + Frame(wbuf), InnerFlush(flushes))
  }

  /**
   Whatever the inner transport does: a flush that is refused as too large changes
   nothing; otherwise the wire gains a prefix of the buffer's frame, and the buffer is
   kept unless that is the whole frame; and the flush succeeds exactly when the frame went
   out whole, or there was none to send, and the inner flush succeeded.
   */
  lemma FlushOutcome(wbuf: seq<byte>, outbound: seq<byte>, accepted: nat, flushes: bool)
    ensures var w := Flushed(wbuf, outbound, accepted, flushes);
            && outbound <= w.outbound && w.outbound[|outbound|..] <= (if wbuf == [] then [] else Frame(wbuf))
            && (|wbuf| > MAX_FRAME <==> w.r == Fail(TooLarge))
            && (|wbuf| > MAX_FRAME ==> w.wbuf == wbuf && w.outbound == outbound)
            && (w.wbuf == wbuf || (w.wbuf == [] && w.outbound == outbound + Frame(wbuf)))
            && (wbuf != [] && w.outbound == outbound + Frame(wbuf) && |wbuf| <= MAX_FRAME ==> w.wbuf == [])
            && (w.r.Ok? <==> |wbuf| <= MAX_FRAME && flushes && (wbuf == [] || accepted >= |wbuf| + 4))
  {
    var w := Flushed(wbuf, outbound, accepted, flushes);
    if 0 < |wbuf| <= MAX_FRAME && accepted < |Frame(wbuf)| {
      assert w.outbound[|outbound|..] == Frame(wbuf)[..accepted];
    } else if 0 < |wbuf| <= MAX_FRAME {
      assert w.outbound[|outbound|..] == Frame(wbuf);
    } else {
      assert w.outbound[|outbound|..] == [];
    }
  }

  datatype Op = Put(p: seq<byte>) | Send

  /** Everything the caller has written. */
  function Written(ops: seq<Op>): seq<byte>
    decreases |ops|
  {
    if ops == [] then []
    else
      var before, last := Written(ops[..|ops| - 1]), ops[|ops| - 1];
      if last.Put? then before + last.p else before
  }

  /** Buffer and wire after the operations, over an inner transport that takes every octet. */
  function Sent(ops: seq<Op>): Writer
    decreases |ops|
  {
    if ops == [] then Writer([], [], Ok(()))
    else
      var w, last := Sent(ops[..|ops| - 1]), ops[|ops| - 1];
      match last
      case Put(p) => Writer(w.wbuf + p, w.outbound, Ok(()))
      case Send => Flushed(w.wbuf, w.outbound, |Frame(w.wbuf)|, true)
  }

  /**
   For any pattern of writes and flushes the wire holds a sequence of non-empty
   frames within the limit, and those frames followed by the buffer are exactly
   what was written: a flush that is refused as too large loses nothing.
   */
  lemma {:induction false} WireIsFramed(ops: seq<Op>) returns (payloads: seq<seq<byte>>)
    ensures Fits(payloads) && forall i :: 0 <= i < |payloads| ==> payloads[i] != []
    ensures Sent(ops).outbound == Frames(payloads)
    ensures Concat(payloads) + Sent(ops).wbuf == Written(ops)
    decreases |ops|
  {
    if ops == [] {
      payloads := [];
    } else {
      var before := ops[..|ops| - 1];
      payloads := WireIsFramed(before);
      var w, last := Sent(before), ops[|ops| - 1];
      match last
      case Put(p) => assert Concat(payloads) + (w.wbuf + p) == (Concat(payloads) + w.wbuf) + p;
      case Send =>
        if w.wbuf != [] && |w.wbuf| <= MAX_FRAME {
          FramesSnoc(payloads, w.wbuf);
          payloads := payloads + [w.wbuf];
          assert Concat(payloads) + [] == Concat(payloads);
        }
    }
  }

  /**
   End to end: whatever one side writes and flushes, what the wire carries is what
   was written, less what is still in the sender's buffer; the receiver's reads
   deliver it whatever their sizes (see Read and ReadMany).
   */
  lemma StreamIsLossless(ops: seq<Op>)
    ensures Parse(Sent(ops).outbound).payload + Sent(ops).wbuf == Written(ops)
    ensures Parse(Sent(ops).outbound).end == Eof
  {
    var payloads := WireIsFramed(ops);
    ParseFrames(payloads, []);
    assert Frames(payloads) + [] == Frames(payloads);
    assert Concat(payloads) + [] == Concat(payloads);
  }

  /** After a flush within the limit nothing is left behind. */
  lemma FlushDeliversAll(ops: seq<Op>)
    requires |Sent(ops).wbuf| <= MAX_FRAME
    ensures Parse(Sent(ops + [Send]).outbound) == Parsed(Written(ops), Eof)
  {
    var all := ops + [Send];
    assert all[..|all| - 1] == ops;
    StreamIsLossless(all);
    assert Sent(all).wbuf == [];
    assert Parse(Sent(all).outbound).payload + [] == Parse(Sent(all).outbound).payload;
  }
}
