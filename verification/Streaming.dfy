/** Messages sent over a connection in order arrive in order, however their bytes are cut into pieces. */
module Streaming {
  import opened Collections
  import opened BinaryQueues
  import opened Wire
  import opened Messages
  import opened Protocol

  /** A message as it is handed to the encoder, with the iteration orders of its maps. */
  datatype Sent = Sent(sequence: nat, message: Message, orders: Orders)

  ghost predicate Proper(d: Dialect, f: Sent) {
    && OpCode(f.message) in OpCodes(d)
    && SendableMessage(f.message)
    && OrdersOf(f.message, f.orders)
    && f.sequence < 0x1_0000
    && HeaderLength + |Encoded(f.message, f.orders)| < TwoTo32
  }

  ghost function BytesOf(d: Dialect, f: Sent): Bytes
    requires Proper(d, f)
  {
    FrameBytes(f.sequence, Encoded(f.message, f.orders))
  }

  ghost predicate AllProper(d: Dialect, frames: seq<Sent>) { forall i :: 0 <= i < |frames| ==> Proper(d, frames[i]) }

  ghost function AllBytes(d: Dialect, frames: seq<Sent>): Bytes
    requires AllProper(d, frames)
  {
    if frames == [] then [] else BytesOf(d, frames[0]) + AllBytes(d, frames[1..])
  }

  function Arrived(f: Sent): Extracted { Request(f.sequence, Delivered(f.message)) }

  function AllArrived(frames: seq<Sent>): (r: seq<Extracted>)
    ensures |r| == |frames| && forall i :: 0 <= i < |r| ==> r[i] == Arrived(frames[i])
  {
    seq(|frames|, i requires 0 <= i < |frames| => Arrived(frames[i]))
  }

  lemma {:induction false} AllBytesSplit(d: Dialect, frames: seq<Sent>, k: nat)
    requires AllProper(d, frames) && k <= |frames|
    ensures AllBytes(d, frames) == AllBytes(d, frames[..k]) + AllBytes(d, frames[k..])
  {
    hide Proper, BytesOf;
    if k == 0 {
      assert frames[0..] == frames && frames[..0] == [];
    } else {
      assert frames[1..][..k - 1] == frames[..k][1..] && frames[1..][k - 1..] == frames[k..];
      AllBytesSplit(d, frames[1..], k - 1);
    }
  }

  lemma AllBytesNext(d: Dialect, frames: seq<Sent>, k: nat)
    requires AllProper(d, frames) && k < |frames|
    ensures AllBytes(d, frames[k..]) == BytesOf(d, frames[k]) + AllBytes(d, frames[k + 1..])
    ensures AllBytes(d, frames[..k + 1]) == AllBytes(d, frames[..k]) + BytesOf(d, frames[k])
  {
    hide Proper, BytesOf;
    assert frames[k..][1..] == frames[k + 1..];
    var front := frames[..k + 1];
    AllBytesSplit(d, front, k);
    assert front[..k] == frames[..k] && front[k..] == [frames[k]];
    assert AllBytes(d, [frames[k]]) == BytesOf(d, frames[k]);
  }

  /** A frame is extracted once its last byte has arrived, not before, and takes exactly its declared length. */
  lemma NextFrameOnPrefix(d: Dialect, f: Sent, s: Bytes, later: Bytes)
    requires Proper(d, f) && s <= BytesOf(d, f) + later
    ensures NextFrame(d, s) == if |s| < |BytesOf(d, f)| then NotYet
                               else Got(f.sequence, Delivered(f.message), s[|BytesOf(d, f)|..])
  {
    hide OpCodes, SendableMessage, OrdersOf, Encoded, Header, Unsigned, Decode, Delivered;
    var body := Encoded(f.message, f.orders);
    var length := HeaderLength + |body|;
    if |s| >= HeaderLength {
      var available := s[HeaderLength..];
      assert s == Header(length, f.sequence) + available;
      HeaderFields(length, f.sequence, available);
      assert BodyArrived(length, |available|) <==> |available| >= |body|;
      if |available| >= |body| {
        assert available == body + available[|body|..];
        MessageRoundTrip(d, f.message, f.orders, available[|body|..]);
        assert available[|body|..] == s[|BytesOf(d, f)|..];
      }
    }
  }

  /**
   The declared length only decides when decoding starts.  Whatever it is, once it
   lets decoding start with the whole body there, exactly the body is consumed, so
   the frame takes its declared length exactly if that is the length it has.
   */
  lemma DeclaredLengthIsNotSkipped(d: Dialect, f: Sent, declared: nat, later: Bytes)
    requires Proper(d, f) && declared < TwoTo32
    requires BodyArrived(declared, |Encoded(f.message, f.orders)| + |later|)
    ensures var s := Header(declared, f.sequence) + Encoded(f.message, f.orders) + later;
            && NextFrame(d, s) == Got(f.sequence, Delivered(f.message), later)
            && (|s| - |NextFrame(d, s).rest| == declared <==> declared == HeaderLength + |Encoded(f.message, f.orders)|)
  {
    hide OpCodes, SendableMessage, OrdersOf, Encoded, Header, Unsigned, Decode, Delivered, BodyArrived;
    var body := Encoded(f.message, f.orders);
    var s := Header(declared, f.sequence) + body + later;
    assert s == Header(declared, f.sequence) + (body + later);
    HeaderFields(declared, f.sequence, body + later);
    MessageRoundTrip(d, f.message, f.orders, later);
  }

  /** `got` are the first messages, and their frames with the unread stream are what was received. */
  ghost predicate InOrder(d: Dialect, frames: seq<Sent>, got: seq<Extracted>, stream: Bytes, received: Bytes)
    requires AllProper(d, frames)
  {
    && |got| <= |frames|
    && got == AllArrived(frames[..|got|])
    && AllBytes(d, frames[..|got|]) + stream == received
  }

  /** No frame has arrived as a whole and not been delivered. */
  ghost predicate Settled(d: Dialect, frames: seq<Sent>, got: seq<Extracted>, stream: Bytes)
    requires AllProper(d, frames)
  {
    |got| < |frames| ==> |stream| < |BytesOf(d, frames[|got|])|
  }

  lemma StepInOrder(d: Dialect, frames: seq<Sent>, got: seq<Extracted>, stream: Bytes, received: Bytes)
    requires AllProper(d, frames) && InOrder(d, frames, got, stream, received) && received <= AllBytes(d, frames)
    ensures var next := NextFrame(d, stream);
            && !next.Broken?
            && (next.NotYet? ==> Settled(d, frames, got, stream))
            && (next.Got? ==>
                  |got| < |frames| && InOrder(d, frames, got + [Request(next.sequence, next.message)], next.rest, received))
  {
    hide AllProper, AllBytes, BytesOf, NextFrame, InOrder, Settled;
    StreamIsNext(d, frames, got, stream, received);
    var k := |got|;
    if k < |frames| {
      var later := AllBytes(d, frames[k + 1..]);
      NextFrameOnPrefix(d, frames[k], stream, later);
      SettledOrNot(d, frames, got, stream);
      if |stream| >= |BytesOf(d, frames[k])| {
        DeliverNext(d, frames, got, stream, received);
      }
    } else {
      NothingOnEmpty(d);
      SettledOrNot(d, frames, got, stream);
    }
  }

  lemma SettledOrNot(d: Dialect, frames: seq<Sent>, got: seq<Extracted>, stream: Bytes)
    requires AllProper(d, frames)
    ensures Settled(d, frames, got, stream) <==> |got| < |frames| ==> |stream| < |BytesOf(d, frames[|got|])|
  {
  }

  lemma StreamIsNext(d: Dialect, frames: seq<Sent>, got: seq<Extracted>, stream: Bytes, received: Bytes)
    requires AllProper(d, frames) && InOrder(d, frames, got, stream, received) && received <= AllBytes(d, frames)
    ensures |got| <= |frames| && AllProper(d, frames[|got|..])
    ensures |got| < |frames| ==> Proper(d, frames[|got|]) && AllProper(d, frames[|got| + 1..])
    ensures |got| < |frames| ==> stream <= BytesOf(d, frames[|got|]) + AllBytes(d, frames[|got| + 1..])
    ensures |got| == |frames| ==> stream == []
  {
    hide Proper, BytesOf;
    var k := |got|;
    AllBytesSplit(d, frames, k);
    PrefixCancels(AllBytes(d, frames[..k]), stream, AllBytes(d, frames[k..]));
    if k < |frames| {
      AllBytesNext(d, frames, k);
    }
  }

  lemma DeliverNext(d: Dialect, frames: seq<Sent>, got: seq<Extracted>, stream: Bytes, received: Bytes)
    requires AllProper(d, frames) && InOrder(d, frames, got, stream, received)
    requires |got| < |frames| && BytesOf(d, frames[|got|]) <= stream
    ensures InOrder(d, frames, got + [Arrived(frames[|got|])], stream[|BytesOf(d, frames[|got|])|..], received)
  {
    hide Proper, BytesOf, Arrived;
    var k := |got|;
    AllBytesNext(d, frames, k);
    var frame := BytesOf(d, frames[k]);
    assert stream == frame + stream[|frame|..];
    assert AllBytes(d, frames[..k]) + frame + stream[|frame|..] == received;
    assert got + [Arrived(frames[k])] == AllArrived(frames[..k + 1]);
  }

  lemma PrefixCancels(a: Bytes, b: Bytes, c: Bytes)
    requires a + b <= a + c
    ensures b <= c
  {
    assert b == (a + b)[|a|..] && c == (a + c)[|a|..];
  }

  lemma NothingOnEmpty(d: Dialect)
    ensures NextFrame(d, []) == NotYet
  {
  }

  /** Extracts until nothing more comes: exactly the frames that have arrived as a whole. */
  method Drain(c: Connection, d: Dialect, before: seq<Extracted>, ghost frames: seq<Sent>, ghost received: Bytes)
      returns (got: seq<Extracted>)
    requires c.Valid() && AllProper(d, frames) && received <= AllBytes(d, frames)
    requires InOrder(d, frames, before, c.Stream(), received)
    modifies c, c.queue
    ensures c.Valid() && InOrder(d, frames, got, c.Stream(), received) && Settled(d, frames, got, c.Stream())
  {
    hide AllProper, AllBytes, InOrder, Settled, NextFrame, Flat, Header;
    got := before;
    StepInOrder(d, frames, got, c.Stream(), received);
    var r := c.Extract(d);
    while !r.Nothing?
      invariant c.Valid()
      invariant r.Nothing? ==> InOrder(d, frames, got, c.Stream(), received) && Settled(d, frames, got, c.Stream())
      invariant !r.Nothing? ==> |got| < |frames| && InOrder(d, frames, got + [r], c.Stream(), received)
      decreases |frames| - |got|
    {
      got := got + [r];
      StepInOrder(d, frames, got, c.Stream(), received);
      r := c.Extract(d);
    }
  }

  lemma {:induction false} ConcatPrefix(chunks: seq<Bytes>, i: nat)
    requires i <= |chunks|
    ensures Concat(chunks[..i]) <= Concat(chunks)
  {
    if i == |chunks| {
      assert chunks[..i] == chunks;
    } else {
      var front := chunks[..|chunks| - 1];
      ConcatPrefix(front, i);
      assert front[..i] == chunks[..i];
    }
  }

  /**
   A connection receives a prefix of what was sent, in chunks of any size, and
   extracts as much as it can after each of them.  It delivers the messages of
   exactly those frames that have arrived as a whole, once and in order.
   */
  method Receive(d: Dialect, chunks: seq<Bytes>, ghost frames: seq<Sent>) returns (got: seq<Extracted>, c: Connection)
    requires AllProper(d, frames) && Concat(chunks) <= AllBytes(d, frames)
    ensures c.Valid() && InOrder(d, frames, got, c.Stream(), Concat(chunks)) && Settled(d, frames, got, c.Stream())
  {
    hide AllProper, AllBytes, InOrder, Settled, Flat, Header;
    c := new Connection();
    StartInOrder(d, frames);
    got := Drain(c, d, [], frames, []);
    for i := 0 to |chunks|
      invariant c.Valid() && fresh(c) && fresh(c.queue)
      invariant InOrder(d, frames, got, c.Stream(), Concat(chunks[..i])) && Settled(d, frames, got, c.Stream())
    {
      ConcatPrefix(chunks, i + 1);
      assert chunks[..i + 1][..i] == chunks[..i];
      MoreInOrder(d, frames, got, c.Stream(), Concat(chunks[..i]), chunks[i]);
      ghost var stream := c.Stream();
      c.queue.AppendCopy(chunks[i]);
      assert c.Stream() == stream + chunks[i];
      got := Drain(c, d, got, frames, Concat(chunks[..i + 1]));
    }
    assert chunks[..|chunks|] == chunks;
  }

  lemma StartInOrder(d: Dialect, frames: seq<Sent>)
    requires AllProper(d, frames)
    ensures InOrder(d, frames, [], [], []) && [] <= AllBytes(d, frames)
  {
    hide Proper, BytesOf;
    assert frames[..0] == [];
  }

  lemma MoreInOrder(d: Dialect, frames: seq<Sent>, got: seq<Extracted>, stream: Bytes, received: Bytes, chunk: Bytes)
    requires AllProper(d, frames) && InOrder(d, frames, got, stream, received)
    ensures InOrder(d, frames, got, stream + chunk, received + chunk)
  {
    hide Proper, BytesOf;
    assert AllBytes(d, frames[..|got|]) + (stream + chunk) == AllBytes(d, frames[..|got|]) + stream + chunk;
  }

  /** When all the bytes are there, all the messages are. */
  lemma EverythingArrives(d: Dialect, frames: seq<Sent>, got: seq<Extracted>, stream: Bytes)
    requires AllProper(d, frames)
    requires InOrder(d, frames, got, stream, AllBytes(d, frames)) && Settled(d, frames, got, stream)
    ensures got == AllArrived(frames) && stream == []
  {
    hide Proper, BytesOf;
    var k := |got|;
    AllBytesSplit(d, frames, k);
    PrefixCancels(AllBytes(d, frames[..k]), AllBytes(d, frames[k..]), stream);
    StreamIsNext(d, frames, got, stream, AllBytes(d, frames));
    assert frames[..k] == frames;
  }
}
