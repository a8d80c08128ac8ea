/** The sending side of a socket: what was handed over is on the wire, in the buffer or in the queue, in order. */
module Sockets {
  import opened BinaryQueues

  /** What `poll` and `send` answer in one round of the send loop. */
  datatype Event =
    | NotWritable
    | PollFailed
    | Sent(count: nat)
    | WouldBlock
    | NoMemory
    | BrokenPipe
    | SendFailed

  datatype Status = AllDataSent | PartialDataSent | ConnectionLost | Exception

  /** What the send loop makes of the events with `left` bytes in the buffer. */
  datatype Run = Run(sent: nat, status: Status, rest: seq<Event>)

  function Rounds(left: nat, events: seq<Event>): (run: Run)
    ensures run.sent <= left
    ensures run.status.AllDataSent? <==> run.sent == left
    decreases |events|
  {
    if left == 0 then Run(0, AllDataSent, events)
    else if events == [] then Run(0, PartialDataSent, [])
    else match events[0]
      case NotWritable => Run(0, PartialDataSent, events[1..])
      case WouldBlock => Rounds(left, events[1..])
      case Sent(count) =>
        var taken := if count <= left then count else left;
        var later := Rounds(left - taken, events[1..]);
        later.(sent := taken + later.sent)
      case BrokenPipe => Run(0, ConnectionLost, events[1..])
      case _ => Run(0, Exception, events[1..])
  }

  /** The bytes the kernel took in these events, from a buffer with enough in it. */
  function Taken(events: seq<Event>): nat {
    if events == [] then 0 else (if events[0].Sent? then events[0].count else 0) + Taken(events[1..])
  }

  /** The event leaves the loop. */
  predicate Ends(event: Event) { !event.Sent? && !event.WouldBlock? }

  /**
   How the send loop ends.  It goes through the events up to the one that leaves it,
   or until all is sent, or until there is none left; and the status tells which,
   and is that of the event.
   */
  lemma {:induction false} RoundsEnd(left: nat, events: seq<Event>) returns (n: nat)
    ensures n <= |events|
    ensures var run := Rounds(left, events);
            && run.rest == events[n..] && run.sent == (if Taken(events[..n]) <= left then Taken(events[..n]) else left)
            && (run.status == AllDataSent <==> run.sent == left)
            && (forall i :: 0 <= i < n - 1 ==> !Ends(events[i]))
            && (run.status == ConnectionLost <==> run.sent < left && n > 0 && events[n - 1] == BrokenPipe)
            && (run.status == Exception <==>
                  run.sent < left && n > 0 && events[n - 1] in {PollFailed, NoMemory, SendFailed})
            && (run.status == PartialDataSent <==>
                  run.sent < left && ((n > 0 && events[n - 1] == NotWritable) ||
                                      (n == |events| && (n == 0 || !Ends(events[n - 1])))))
            && (run.sent == left ==> n == 0 || events[n - 1].Sent?)
    decreases |events|
  {
    if left == 0 || events == [] {
      n := 0;
      assert events[..0] == [];
    } else if Ends(events[0]) {
      n := 1;
      assert events[..1][1..] == [];
    } else {
      var taken := if events[0].WouldBlock? then 0 else if events[0].count <= left then events[0].count else left;
      var k := RoundsEnd(left - taken, events[1..]);
      n := k + 1;
      assert events[..n][1..] == events[1..][..k];
      assert events[1..][k..] == events[n..];
    }
  }

  class Socket {
    var sendBuffer: Bytes
    var position: nat
    var end: nat
    const sendQueue: BinaryQueue
    /** The bytes the kernel took on this connection, and all that was handed over on it. */
    ghost var wire: Bytes
    ghost var handed: Bytes

    ghost predicate Valid()
      reads this, sendQueue
    {
      && position <= end <= |sendBuffer|
      && sendQueue.Valid()
      && wire + Unsent() == handed
    }

    ghost function Unsent(): Bytes
      requires position <= end <= |sendBuffer| && sendQueue.Valid()
      reads this, sendQueue
    {
      sendBuffer[position..end] + sendQueue.Contents()
    }

    constructor ()
      ensures Valid() && handed == [] && fresh(sendQueue)
    {
      sendQueue := new BinaryQueue();
      sendBuffer, position, end, wire, handed := [], 0, 0, [], [];
    }

    /** A new connection starts from nothing: what was unsent is forgotten. */
    method Close()
      modifies this, sendQueue
      ensures Valid() && wire == [] && handed == [] && !IsDataToSend()
    {
      position, end, wire, handed := 0, 0, [], [];
      sendQueue.Clear();
    }

    predicate IsDataToSend()
      requires Valid()
      reads this, sendQueue
      ensures !IsDataToSend() ==> wire == handed
    {
      !sendQueue.Empty() || end != 0
    }

    /** The kernel takes the next `t` bytes of the buffer. */
    method Transmit(t: nat)
      requires Valid() && position + t <= end
      modifies this`position, this`wire
      ensures Valid() && position == old(position) + t && wire == old(wire) + sendBuffer[old(position)..position]
    {
      assert sendBuffer[position..end] == sendBuffer[position..position + t] + sendBuffer[position + t..end];
      wire := wire + sendBuffer[position..position + t];
      position := position + t;
    }

    /** The queue moves to the emptied buffer, which grows when it has to. */
    method Refill()
      requires Valid() && position == end
      modifies this`sendBuffer, this`position, this`end, sendQueue
      ensures Valid() && sendQueue.Contents() == [] && end == |old(sendQueue.Contents())|
    {
      var size := sendQueue.size;
      if size > |sendBuffer| {
        sendBuffer := sendBuffer + seq(size - |sendBuffer|, _ => '\0');
      }
      end, position := size, 0;
      var moved := sendQueue.FlattenConsume(size);
      sendBuffer := moved.bytes + sendBuffer[size..];
      assert sendBuffer[0..end] == moved.bytes;
    }

    /** Sends from the buffer in rounds; every round is decided by the next event. */
    method SendBuffer(events: seq<Event>) returns (status: Status, rest: seq<Event>)
      requires Valid()
      modifies this`position, this`wire
      ensures Valid() && old(wire) <= wire
      ensures status.AllDataSent? <==> position == end
      ensures Run(position - old(position), status, rest) == Rounds(old(end - position), events)
      ensures wire == old(wire) + sendBuffer[old(position)..position]
    {
      assert position <= end;
      hide Valid, Unsent, Flat;
      rest := events;
      while end != position
        invariant Valid() && old(position) <= position <= end
        invariant wire == old(wire) + sendBuffer[old(position)..position]
        invariant var run, later := Rounds(old(end - position), events), Rounds(end - position, rest);
                  run == later.(sent := position - old(position) + later.sent)
        decreases |rest|
      {
        var event := if rest == [] then NotWritable else rest[0];
        if rest != [] {
          rest := rest[1..];
        }
        match event {
          case NotWritable => return PartialDataSent, rest;
          case PollFailed => return Exception, rest;
          case WouldBlock => continue;
          case NoMemory => return Exception, rest;
          case BrokenPipe => return ConnectionLost, rest;
          case SendFailed => return Exception, rest;
          case Sent(count) => Transmit(if count <= end - position then count else end - position);
        }
      }
      status := AllDataSent;
    }

    /**
     Hands over a queue.  On every path, also the exceptional ones, the wire, the
     buffer and the queue together hold everything handed over, once and in order;
     and when all is reported sent, all of it is on the wire.
     */
    method SendToServer(queue: BinaryQueue, events: seq<Event>) returns (status: Status, rest: seq<Event>)
      requires Valid() && queue.Valid() && queue != sendQueue
      modifies this, sendQueue, queue
      ensures Valid() && old(wire) <= wire
      ensures handed == old(handed) + old(queue.Contents())
      ensures queue.Valid() && queue.Contents() == []
      ensures status.AllDataSent? ==> wire == handed
      ensures var first := Rounds(old(end - position), events);
              status == if first.status.AllDataSent? then Rounds(|handed| - |old(handed)| + old(sendQueue.size), first.rest).status
                        else first.status
      ensures status.AllDataSent? ==> (IsDataToSend() <==> old(sendQueue.Contents()) + old(queue.Contents()) != [])
    {
      hide Flat, Rounds;
      sendQueue.AppendMoveFrom(queue);
      handed := handed + old(queue.Contents());
      status, rest := SendBuffer(events);
      if !status.AllDataSent? {
        return;
      }
      Refill();
      status, rest := SendBuffer(rest);
    }
  }
}
