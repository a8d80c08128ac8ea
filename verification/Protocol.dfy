/** Frames on a connection: incremental decoding of a byte stream that arrives in arbitrary pieces. */
module Protocol {
  import opened PolicyTypes
  import opened BinaryQueues
  import opened Numbers
  import opened Wire
  import opened Messages
  import opened MessageReaders

  const Signature: Bytes := ['C', 'P', 'v', '1']
  const HeaderLength := 10
  const TwoTo32 := 0x1_0000_0000
  const TwoTo64 := 0x1_0000_0000_0000_0000

  function Header(length: nat, sequence: nat): (h: Bytes)
    ensures |h| == HeaderLength
  {
    Signature + PutUnsigned(length, 4) + PutUnsigned(sequence, 2)
  }

  /** A whole frame; its length, which counts the header, is a 32-bit number. */
  function FrameBytes(sequence: nat, body: Bytes): Bytes {
    Header((HeaderLength + |body|) % TwoTo32, sequence) + body
  }

  /**
   The bytes of a frame: the signature, four bytes of length and two of sequence
   number, each with the least significant one first, and the body.
   */
  lemma FrameLayout(sequence: nat, body: Bytes, i: nat)
    requires i < |FrameBytes(sequence, body)|
    ensures |FrameBytes(sequence, body)| == 10 + |body|
    ensures var length := (10 + |body|) % 0x1_0000_0000;
            FrameBytes(sequence, body)[i] as int ==
              if i < 4 then "CPv1"[i] as int
              else if i < 8 then ByteAt(length, i - 4)
              else if i < 10 then ByteAt(sequence, i - 8)
              else body[i - 10] as int
  {
    hide PutUnsigned, ByteAt;
    if 4 <= i < 8 { PutUnsignedAt((10 + |body|) % 0x1_0000_0000, 4, i - 4); }
    if 8 <= i < 10 { PutUnsignedAt(sequence, 2, i - 8); }
  }

  /** The test for a complete body, a subtraction of unsigned 64-bit numbers. */
  predicate BodyArrived(length: nat, available: nat) {
    available >= (length + TwoTo64 - HeaderLength) % TwoTo64
  }

  /** What the next extraction makes of the unread bytes of a stream. */
  datatype Step =
    | NotYet
    | Got(sequence: nat, message: Message, rest: Bytes)
    | Broken(error: Error, rest: Bytes)

  function NextFrame(d: Dialect, s: Bytes): Step {
    if |s| < HeaderLength then NotYet
    else if s[..4] != Signature then Broken(InvalidSignature, s[4..])
    else if !BodyArrived(Unsigned(s[4..8]), |s| - HeaderLength) then NotYet
    else match Decode(d, s[HeaderLength..])
      case Done(m, rest) => Got(Unsigned(s[8..10]), m, rest)
      case Fail(error, rest) => Broken(error, rest)
  }

  /** Anything but the signature at the start of a frame is an error, which takes four bytes. */
  lemma BadSignatureBreaks(d: Dialect, s: Bytes)
    requires |s| >= 10 && s[..4] != "CPv1"
    ensures NextFrame(d, s) == Broken(InvalidSignature, s[4..])
  {
  }

  lemma HeaderFields(length: nat, sequence: nat, rest: Bytes)
    requires length < TwoTo32 && sequence < 0x1_0000
    ensures var s := Header(length, sequence) + rest;
            && s[..4] == Signature
            && Unsigned(s[4..8]) == length
            && Unsigned(s[8..10]) == sequence
            && s[HeaderLength..] == rest
  {
    Powers();
    var s := Header(length, sequence) + rest;
    assert s[4..8] == PutUnsigned(length, 4) && s[8..10] == PutUnsigned(sequence, 2);
    UnsignedOfPut(length, 4);
    UnsignedOfPut(sequence, 2);
  }

  lemma HeaderOf(s: Bytes)
    requires |s| >= HeaderLength && s[..4] == Signature
    ensures Header(Unsigned(s[4..8]), Unsigned(s[8..10])) == s[..HeaderLength]
    ensures Unsigned(s[4..8]) < TwoTo32 && Unsigned(s[8..10]) < 0x1_0000
  {
    Powers();
    PutOfUnsigned(s[4..8]);
    PutOfUnsigned(s[8..10]);
    assert s[..HeaderLength] == s[..4] + s[4..8] + s[8..10];
  }

  // ----- sending -----

  class FrameWriter {
    const body: BinaryQueue
    var length: nat

    ghost predicate Valid()
      reads this, body
    {
      body.Valid() && length == (HeaderLength + |body.Contents()|) % TwoTo32
    }

    constructor ()
      ensures Valid() && body.Contents() == [] && fresh(body)
    {
      body := new BinaryQueue();
      length := HeaderLength;
    }

    method Write(bytes: Bytes)
      requires Valid()
      modifies this, body
      ensures Valid() && body.Contents() == old(body.Contents()) + bytes
    {
      hide Flat;
      body.AppendCopy(bytes);
      length := (length + |bytes|) % TwoTo32;
    }

    /** The frame leaves for the output queue. */
    method Finish(sequence: nat, output: BinaryQueue)
      requires Valid() && output.Valid() && output != body
      modifies body, output
      ensures output.Valid() && output.Contents() == old(output.Contents()) + FrameBytes(sequence, old(body.Contents()))
    {
      hide Flat, Header;
      var header := new BinaryQueue();
      header.AppendCopy(Header(length, sequence));
      output.AppendMoveFrom(header);
      output.AppendMoveFrom(body);
    }

    /** Writes nothing and fails when the text is too long. */
    method WriteText(s: string) returns (ok: bool)
      requires Valid()
      modifies this, body
      ensures Valid() && ok == (|s| <= MaxIdLength)
      ensures ok ==> body.Contents() == old(body.Contents()) + PutText(s)
    {
      hide Flat, FrameWriter.Valid, Raw, PutUnsigned;
      if |s| > MaxIdLength {
        return false;
      }
      Write(PutUnsigned(|s|, 4));
      Write(Raw(s));
      return true;
    }

    method WriteKey(k: PolicyKey) returns (ok: bool)
      requires Valid()
      modifies this, body
      ensures Valid() && ok == ShortKey(k)
      ensures ok ==> body.Contents() == old(body.Contents()) + PutKey(k)
    {
      hide Flat, FrameWriter.Valid, PutText;
      ok := WriteText(k.client);
      if !ok {
        return;
      }
      ok := WriteText(k.user);
      if !ok {
        return;
      }
      ok := WriteText(k.privilege);
    }

    method WritePolicy(p: Policy) returns (ok: bool)
      requires Valid()
      modifies this, body
      ensures Valid() && ok == ShortPolicy(p)
      ensures ok ==> body.Contents() == old(body.Contents()) + PutPolicy(p)
    {
      hide Flat, FrameWriter.Valid, PutText, PutKey, ShortKey, PutType;
      ok := WriteKey(p.key);
      if !ok {
        return;
      }
      Write(PutType(p.result.policyType));
      ok := WriteText(p.result.metadata);
    }

    method WritePolicies(items: seq<Policy>) returns (ok: bool)
      requires Valid()
      modifies this, body
      ensures Valid() && (ok <==> forall i :: 0 <= i < |items| ==> ShortPolicy(items[i]))
      ensures ok ==> body.Contents() == old(body.Contents()) + PutAll(PutPolicy, items)
    {
      hide Flat, BinaryQueue.Valid, PutPolicy, ShortPolicy;
      for i := 0 to |items|
        invariant Valid() && forall j :: 0 <= j < i ==> ShortPolicy(items[j])
        invariant body.Contents() == old(body.Contents()) + PutAll(PutPolicy, items[..i])
      {
        PutAllLast(PutPolicy, items, i);
        ok := WritePolicy(items[i]);
        if !ok {
          return;
        }
      }
      assert items[..|items|] == items;
      return true;
    }

    method WritePolicyGroup(id: string, items: seq<Policy>) returns (ok: bool)
      requires Valid()
      modifies this, body
      ensures Valid() && (ok <==> ShortGroup(ShortPolicy, (id, items)))
      ensures ok ==> body.Contents() == old(body.Contents()) + PutGroup(PutPolicy, (id, items))
    {
      hide Flat, FrameWriter.Valid, PutText, PutPolicy, ShortPolicy, PutUnsigned, PutAll;
      ok := WriteText(id);
      if !ok {
        return;
      }
      Write(PutUnsigned(|items| % 0x1_0000, 2));
      ok := WritePolicies(items);
    }

    method WritePolicyGroups(m: map<string, seq<Policy>>, ids: seq<string>) returns (ok: bool)
      requires Valid() && forall i :: 0 <= i < |ids| ==> ids[i] in m
      modifies this, body
      ensures Valid() && (ok <==> forall i :: 0 <= i < |ids| ==> ShortGroup(ShortPolicy, (ids[i], m[ids[i]])))
      ensures ok ==> body.Contents() == old(body.Contents()) + PutGroups(PutPolicy, GroupsOf(m, ids))
    {
      hide Flat, BinaryQueue.Valid, PutGroup, PutUnsigned, ShortGroup;
      ghost var put := (g: Group<Policy>) => PutGroup(PutPolicy, g);
      ghost var groups := GroupsOf(m, ids);
      Write(PutUnsigned(|ids| % 0x1_0000, 2));
      ghost var start := body.Contents();
      for i := 0 to |ids|
        invariant Valid() && forall j :: 0 <= j < i ==> ShortGroup(ShortPolicy, (ids[j], m[ids[j]]))
        invariant body.Contents() == start + PutAll(put, groups[..i])
      {
        PutAllLast(put, groups, i);
        ok := WritePolicyGroup(ids[i], m[ids[i]]);
        if !ok {
          return;
        }
      }
      assert groups[..|groups|] == groups;
      return true;
    }

    method WriteKeys(items: seq<PolicyKey>) returns (ok: bool)
      requires Valid()
      modifies this, body
      ensures Valid() && (ok <==> forall i :: 0 <= i < |items| ==> ShortKey(items[i]))
      ensures ok ==> body.Contents() == old(body.Contents()) + PutAll(PutKey, items)
    {
      hide Flat, BinaryQueue.Valid, PutKey, ShortKey;
      for i := 0 to |items|
        invariant Valid() && forall j :: 0 <= j < i ==> ShortKey(items[j])
        invariant body.Contents() == old(body.Contents()) + PutAll(PutKey, items[..i])
      {
        PutAllLast(PutKey, items, i);
        ok := WriteKey(items[i]);
        if !ok {
          return;
        }
      }
      assert items[..|items|] == items;
      return true;
    }

    method WriteKeyGroup(id: string, items: seq<PolicyKey>) returns (ok: bool)
      requires Valid()
      modifies this, body
      ensures Valid() && (ok <==> ShortGroup(ShortKey, (id, items)))
      ensures ok ==> body.Contents() == old(body.Contents()) + PutGroup(PutKey, (id, items))
    {
      hide Flat, FrameWriter.Valid, PutText, PutKey, ShortKey, PutUnsigned, PutAll;
      ok := WriteText(id);
      if !ok {
        return;
      }
      Write(PutUnsigned(|items| % 0x1_0000, 2));
      ok := WriteKeys(items);
    }

    method WriteKeyGroups(m: map<string, seq<PolicyKey>>, ids: seq<string>) returns (ok: bool)
      requires Valid() && forall i :: 0 <= i < |ids| ==> ids[i] in m
      modifies this, body
      ensures Valid() && (ok <==> forall i :: 0 <= i < |ids| ==> ShortGroup(ShortKey, (ids[i], m[ids[i]])))
      ensures ok ==> body.Contents() == old(body.Contents()) + PutGroups(PutKey, GroupsOf(m, ids))
    {
      hide Flat, BinaryQueue.Valid, PutGroup, PutUnsigned, ShortGroup;
      ghost var put := (g: Group<PolicyKey>) => PutGroup(PutKey, g);
      ghost var groups := GroupsOf(m, ids);
      Write(PutUnsigned(|ids| % 0x1_0000, 2));
      ghost var start := body.Contents();
      for i := 0 to |ids|
        invariant Valid() && forall j :: 0 <= j < i ==> ShortGroup(ShortKey, (ids[j], m[ids[j]]))
        invariant body.Contents() == start + PutAll(put, groups[..i])
      {
        PutAllLast(put, groups, i);
        ok := WriteKeyGroup(ids[i], m[ids[i]]);
        if !ok {
          return;
        }
      }
      assert groups[..|groups|] == groups;
      return true;
    }

    /** The body of a SetPolicies request; fails exactly when one of its texts is too long. */
    method WriteSetPolicies(m: Message, o: Orders) returns (ok: bool)
      requires Valid() && m.SetPolicies? && OrdersOf(m, o)
      modifies this, body
      ensures Valid() && (ok <==> ShortSetPolicies(m, o))
      ensures ok ==> body.Contents() == old(body.Contents()) + Encoded(m, o)
    {
      hide Flat, FrameWriter.Valid, PutGroups, PutUnsigned, ShortGroup;
      Write(PutUnsigned(22, 1));
      ok := WritePolicyGroups(m.inserted, o.inserted);
      if !ok {
        return;
      }
      ok := WriteKeyGroups(m.removed, o.removed);
    }
  }

  predicate ShortKey(k: PolicyKey) {
    |k.client| <= MaxIdLength && |k.user| <= MaxIdLength && |k.privilege| <= MaxIdLength
  }

  predicate ShortPolicy(p: Policy) { ShortKey(p.key) && |p.result.metadata| <= MaxIdLength }

  ghost predicate ShortGroup<T>(short: T -> bool, g: Group<T>) {
    |g.0| <= MaxIdLength && forall i :: 0 <= i < |g.1| ==> short(g.1[i])
  }

  ghost predicate ShortSetPolicies(m: Message, o: Orders)
    requires m.SetPolicies? && OrdersOf(m, o)
  {
    && (forall i :: 0 <= i < |o.inserted| ==> ShortGroup(ShortPolicy, (o.inserted[i], m.inserted[o.inserted[i]])))
    && (forall i :: 0 <= i < |o.removed| ==> ShortGroup(ShortKey, (o.removed[i], m.removed[o.removed[i]])))
  }

  // ----- receiving -----

  datatype Extracted = Nothing | Request(sequence: nat, message: Message) | Exception(error: Error)

  class Connection {
    const queue: BinaryQueue
    var headerComplete: bool
    var bodyComplete: bool
    var frameLength: nat
    var sequenceNumber: nat

    ghost predicate Valid()
      reads this, queue
    {
      && queue.Valid()
      && frameLength < TwoTo32 && sequenceNumber < 0x1_0000
      && !bodyComplete
    }

    /** The unread bytes of the stream, with the header that has been taken off the queue already. */
    ghost function Stream(): Bytes
      requires queue.Valid()
      reads this, queue
    {
      (if headerComplete then Header(frameLength, sequenceNumber) else []) + queue.Contents()
    }

    constructor ()
      ensures Valid() && Stream() == [] && fresh(queue)
    {
      queue := new BinaryQueue();
      headerComplete, bodyComplete, frameLength, sequenceNumber := false, false, 0, 0;
    }

    /** Takes a complete header off the queue, and notes whether the body has arrived. */
    method DeserializeHeader() returns (r: Res<()>)
      requires Valid()
      modifies this, queue
      ensures queue.Valid() && frameLength < TwoTo32 && sequenceNumber < 0x1_0000
      ensures r.Ok? ==> Stream() == old(Stream()) && headerComplete == (|Stream()| >= HeaderLength)
      ensures r.Ok? ==> bodyComplete == (headerComplete && BodyArrived(frameLength, |queue.Contents()|))
      ensures r.Err? <==> |old(Stream())| >= HeaderLength && old(Stream())[..4] != Signature
      ensures r.Err? ==> r.error == InvalidSignature && !headerComplete && !bodyComplete && queue.Contents() == old(Stream())[4..]
    {
      if !headerComplete {
        if queue.size < HeaderLength {
          return Ok(());
        }
        var _ :- TakeHeader();
      }
      if BodyArrived(frameLength, queue.size) {
        bodyComplete := true;
      }
      return Ok(());
    }

    method TakeHeader() returns (r: Res<()>)
      requires Valid() && !headerComplete && |queue.Contents()| >= HeaderLength
      modifies this, queue
      ensures Valid()
      ensures r.Ok? <==> old(Stream())[..4] == Signature
      ensures r.Ok? ==> headerComplete && Stream() == old(Stream())
      ensures r.Err? ==> r.error == InvalidSignature && !headerComplete && queue.Contents() == old(Stream())[4..]
    {
      hide Flat, Header, Unsigned;
      ghost var s := queue.Contents();
      assert Stream() == s;
      var signature := queue.FlattenConsume(4);
      assert signature.bytes == s[..4] && queue.Contents() == s[4..];
      if signature.bytes != Signature {
        return Err(InvalidSignature);
      }
      var length := queue.FlattenConsume(4);
      assert length.bytes == s[4..8] && queue.Contents() == s[8..];
      var sequence := queue.FlattenConsume(2);
      assert sequence.bytes == s[8..10] && queue.Contents() == s[10..];
      HeaderOf(s);
      frameLength, sequenceNumber, headerComplete := Unsigned(length.bytes), Unsigned(sequence.bytes), true;
      assert Stream() == s[..HeaderLength] + s[HeaderLength..] == s;
      return Ok(());
    }

    /**
     Extracts the next message once all of its frame has arrived.  The flags that
     carry the state over from one call to the next are invisible: the outcome is
     a function of the unread stream alone.
     */
    method Extract(d: Dialect) returns (r: Extracted)
      requires Valid()
      modifies this, queue
      ensures Valid()
      ensures match NextFrame(d, old(Stream()))
              case NotYet => r == Nothing && Stream() == old(Stream())
              case Got(sequence, message, rest) => r == Request(sequence, message) && Stream() == rest
              case Broken(error, rest) => r == Exception(error) && Stream() == rest
    {
      hide Decode, Header, Flat, Unsigned, BodyArrived;
      ghost var s := Stream();
      var header := DeserializeHeader();
      if header.Err? {
        return Exception(header.error);
      }
      if headerComplete {
        HeaderFields(frameLength, sequenceNumber, queue.Contents());
        assert |s| - HeaderLength == |queue.Contents()|;
      }
      if !(headerComplete && bodyComplete) {
        return Nothing;
      }
      headerComplete, bodyComplete := false, false;
      var reader := new Reader(queue);
      var message := reader.ReadMessage(d);
      match message {
        case Ok(m) => return Request(sequenceNumber, m);
        case Err(error) => return Exception(error);
      }
    }
  }
}
