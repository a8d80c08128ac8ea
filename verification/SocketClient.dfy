/**
 The socket client of the synchronous library.

 What has been read and not been taken stays in the read queue, over
 reconnections and over exceptions, and responses are taken first in, first out,
 without a look at their sequence numbers.  The model keeps whole responses, each
 with the request it answers and the connection on which it came.  The service
 answers the requests of a connection in their order, each by a response of its
 own kind.

 A connection may end within a response, and then a fragment of it stays in the
 queue.  What is decoded from a fragment on runs into what follows it: it may wait
 for more, yield something that answers no request, or throw, and it may stop
 anywhere.  When it happens to stop between two responses, the stream is whole
 again from there.
 */
module SocketClients {
  import opened Collections
  import opened PolicyTypes

  /** Requests are numbered; a request that is sent again keeps its number. */
  datatype Request = Request(number: nat, key: PolicyKey, simple: bool)

  datatype Origin = To(request: Request, connection: nat) | Spliced

  datatype Reply = Reply(simple: bool, code: int, result: PolicyResult)

  datatype Arrival = Arrival(reply: Reply, origin: Origin)

  /** What the read queue holds: whole responses, and pieces of others. */
  datatype Item = Entire(arrival: Arrival) | Fragment

  /**
   The response of which only a part has been read: the part is untouched, or
   some of it has been taken by decoding that ran into it, or all of it.
   */
  datatype Tail = NoPart | Part | Remnant | Swallowed

  /** How reading ends: nothing more for now, end of the stream, or an error. */
  datatype Ending = Open | Closed | Broken

  /** Where decoding that began at a fragment stops: between two responses, within one, or at the end of what was read. */
  datatype Stop = Between | Within | AtEnd

  /** What decoding from a fragment on comes to; without a reply it throws. */
  datatype Cut = Waits | Takes(reply: Option<Reply>, eaten: nat, stop: Stop)

  /**
   What one call of `receiveFromServer` reads, whole responses and perhaps part of
   another one, and what is made of the queue if a fragment is in front of it.
   */
  datatype Receipt = Receipt(replies: seq<Reply>, part: bool, ending: Ending, cut: Cut)

  /** A request is not queued if it cannot be encoded; queued, it goes out now or with the next one. */
  datatype Sending = SendsAll | SendLost | SendFails | NotQueued

  /** One `askCynaraServer`; `redial` tells whether a lost connection can be established again after it. */
  datatype Attempt = Attempt(sending: Sending, receipts: seq<Receipt>, redial: bool)

  datatype Answer = Answered(arrival: Arrival) | Lost | Raised

  /** Both ends of the connection: what has been read, and the requests that are queued or sent and not answered. */
  datatype Net = Net(unread: seq<Item>, outstanding: seq<Request>, tail: Tail, connection: nat)

  const NewNet := Net([], [], NoPart, 0)

  /** `connect` drops what was to be sent, and leaves the read queue alone. */
  function Dialled(n: Net): Net {
    Net(if n.tail.Part? || n.tail.Remnant? then n.unread + [Fragment] else n.unread, [], NoPart, n.connection + 1)
  }

  function Queued(n: Net, request: Request): Net { n.(outstanding := n.outstanding + [request]) }

  /** The responses among `replies`: not more than there are requests to answer. */
  function Whole(n: Net, replies: seq<Reply>): (r: seq<Reply>)
    ensures |r| <= |n.outstanding|
    ensures n.outstanding != [] ==> (r == [] <==> replies == [])
  {
    if |replies| <= |n.outstanding| then replies else replies[..|n.outstanding|]
  }

  /** Some of the first response to come has been taken already. */
  predicate Bitten(n: Net) { n.tail.Remnant? || n.tail.Swallowed? }

  function ItemAt(n: Net, i: nat, reply: Reply): Item
    requires i < |n.outstanding|
  {
    if i == 0 && Bitten(n) then Fragment
    else Entire(Arrival(reply.(simple := n.outstanding[i].simple), To(n.outstanding[i], n.connection)))
  }

  function Received(n: Net, receipt: Receipt): Net {
    var whole := Whole(n, receipt.replies);
    var items := seq(|whole|, i requires 0 <= i < |whole| => ItemAt(n, i, whole[i]));
    var rest := n.outstanding[|whole|..];
    var tail := if rest == [] then NoPart
                else if whole != [] then if receipt.part then Part else NoPart
                else if !receipt.part then n.tail
                else if Bitten(n) then Remnant else Part;
    n.(unread := n.unread + items, outstanding := rest, tail := tail)
  }

  /** A fragment is in front. */
  predicate Torn(n: Net) { if n.unread == [] then n.tail.Remnant? else n.unread[0].Fragment? }

  function Eaten(n: Net, eaten: nat, stop: Stop): Net {
    var rest := if eaten <= |n.unread| then n.unread[eaten..] else [];
    match stop
    case Between => n.(unread := rest)
    case Within =>
      if rest != [] then n.(unread := [Fragment] + rest[1..])
      else n.(unread := [], tail := if n.tail.Part? then Remnant else n.tail)
    case AtEnd => n.(unread := [], tail := if n.tail.NoPart? then NoPart else Swallowed)
  }

  /** Reading until there is a response; a script that ends stands for an error at that point. */
  function Waited(n: Net, receipts: seq<Receipt>): (Answer, Net)
    decreases |receipts|
  {
    if receipts == [] then (Raised, n)
    else
      var m := Received(n, receipts[0]);
      match receipts[0].ending
      case Closed => (Lost, m)
      case Broken => (Raised, m)
      case Open =>
        if Torn(m) then
          match receipts[0].cut
          case Waits => Waited(m, receipts[1..])
          case Takes(None, eaten, stop) => (Raised, Eaten(m, eaten, stop))
          case Takes(Some(reply), eaten, stop) => (Answered(Arrival(reply, Spliced)), Eaten(m, eaten, stop))
        else if m.unread == [] then Waited(m, receipts[1..])
        else (Answered(m.unread[0].arrival), m.(unread := m.unread[1..]))
  }

  function Asked(n: Net, request: Request, attempt: Attempt): (Answer, Net) {
    match attempt.sending
    case NotQueued => (Raised, n)
    case SendLost => (Lost, Queued(n, request))
    case SendFails => (Raised, Queued(n, request))
    case SendsAll => Waited(Queued(n, request), attempt.receipts)
  }

  /** Asking again over new connections until there is an answer. */
  function Dialogue(n: Net, request: Request, attempts: seq<Attempt>): (Answer, Net)
    decreases |attempts|
  {
    if attempts == [] then (Raised, n)
    else
      var (answer, m) := Asked(n, request, attempts[0]);
      if !answer.Lost? then (answer, m)
      else if !attempts[0].redial then (Lost, Dialled(m))
      else Dialogue(Dialled(m), request, attempts[1..])
  }

  /** The state in which the request is sent for the last time. */
  ghost function LastSend(n: Net, request: Request, attempts: seq<Attempt>): Net
    decreases |attempts|
  {
    if attempts == [] then n
    else
      var (answer, m) := Asked(n, request, attempts[0]);
      if answer.Lost? && attempts[0].redial then LastSend(Dialled(m), request, attempts[1..]) else n
  }

  /** How many attempts found the connection lost and were followed by another one. */
  ghost function Losses(n: Net, request: Request, attempts: seq<Attempt>): (k: nat)
    ensures k <= |attempts|
    decreases |attempts|
  {
    if attempts == [] then 0
    else
      var (answer, m) := Asked(n, request, attempts[0]);
      if answer.Lost? && attempts[0].redial then 1 + Losses(Dialled(m), request, attempts[1..]) else 0
  }

  /** Nothing is unread and nothing is still to come. */
  ghost predicate Idle(n: Net) { n.unread == [] && n.outstanding == [] }

  ghost predicate Sound(n: Net) {
    && (!n.tail.NoPart? ==> n.outstanding != [])
    && forall i :: 0 <= i < |n.unread| && OriginOf(n.unread[i]).To? ==> OriginOf(n.unread[i]).connection <= n.connection
  }

  /** The request has not been sent on this connection. */
  ghost predicate Unsent(n: Net, request: Request) {
    && (forall i :: 0 <= i < |n.unread| ==> OriginOf(n.unread[i]) != To(request, n.connection))
    && (forall i :: 0 <= i < |n.outstanding| ==> n.outstanding[i] != request)
  }

  /** Every request in the queues has a smaller number. */
  ghost predicate Below(n: Net, next: nat) {
    && (forall i :: 0 <= i < |n.unread| && OriginOf(n.unread[i]).To? ==> OriginOf(n.unread[i]).request.number < next)
    && (forall i :: 0 <= i < |n.outstanding| ==> n.outstanding[i].number < next)
  }

  function OriginOf(item: Item): Origin { if item.Fragment? then Spliced else item.arrival.origin }

  /** What is to come for the request at position `i`. */
  function ToCome(n: Net, i: nat): Origin
    requires i < |n.outstanding|
  {
    if i == 0 && Bitten(n) then Spliced else To(n.outstanding[i], n.connection)
  }

  /** The responses and pieces in the order in which they are taken, those still to come included. */
  ghost function Backlog(n: Net): seq<Origin> {
    seq(|n.unread|, i requires 0 <= i < |n.unread| => OriginOf(n.unread[i])) +
    seq(|n.outstanding|, i requires 0 <= i < |n.outstanding| => ToCome(n, i))
  }

  /** `after` is the end of `before`, perhaps with its first response bitten. */
  ghost predicate Leaves(before: seq<Origin>, after: seq<Origin>) {
    && |after| <= |before|
    && var gone := |before| - |after|;
       after == before[gone..] || (after != [] && after == [Spliced] + before[gone + 1..])
  }

  lemma ReceivedKeepsBacklog(n: Net, receipt: Receipt)
    requires Sound(n)
    ensures Backlog(Received(n, receipt)) == Backlog(n) && Sound(Received(n, receipt))
  {
    var m := Received(n, receipt);
    assert |m.unread| + |m.outstanding| == |n.unread| + |n.outstanding|;
    forall i | 0 <= i < |Backlog(n)| ensures Backlog(m)[i] == Backlog(n)[i] {
    }
  }

  lemma BacklogAt(n: Net, i: nat)
    requires i < |n.unread| + |n.outstanding|
    ensures |Backlog(n)| == |n.unread| + |n.outstanding|
    ensures Backlog(n)[i] == if i < |n.unread| then OriginOf(n.unread[i]) else ToCome(n, i - |n.unread|)
  {
  }

  lemma LeavesIf(before: seq<Origin>, after: seq<Origin>, gone: nat)
    requires |before| == gone + |after| && forall i :: 1 <= i < |after| ==> after[i] == before[gone + i]
    requires after != [] ==> after[0] == Spliced || after[0] == before[gone]
    ensures Leaves(before, after)
  {
    if after != [] && after[0] == Spliced {
      assert after == [Spliced] + before[gone + 1..];
    } else {
      assert after == before[gone..];
    }
  }

  lemma EatenLeaves(n: Net, eaten: nat, stop: Stop)
    requires Sound(n)
    ensures Leaves(Backlog(n), Backlog(Eaten(n, eaten, stop)))
  {
    var m := Eaten(n, eaten, stop);
    var gone := |n.unread| - |m.unread|;
    hide Backlog, Leaves;
    assert |Backlog(n)| == gone + |Backlog(m)| by { BacklogSize(n); BacklogSize(m); }
    forall i | 0 <= i < |Backlog(m)|
      ensures Backlog(m)[i] == Backlog(n)[gone + i] || (i == 0 && Backlog(m)[i] == Spliced)
    {
      BacklogSize(m);
      BacklogAt(m, i);
      BacklogAt(n, gone + i);
    }
    hide Eaten;
    LeavesIf(Backlog(n), Backlog(m), gone);
  }

  lemma BacklogSize(n: Net)
    ensures |Backlog(n)| == |n.unread| + |n.outstanding|
  {
  }

  /**
   What is taken is always the oldest there is, over everything left behind by
   earlier requests.  Nothing is lost and nothing repeated, except that decoding
   from a fragment on may take what follows it along.
   */
  lemma {:induction false} FirstInFirstOut(n: Net, receipts: seq<Receipt>)
    requires Sound(n)
    ensures var (answer, m) := Waited(n, receipts);
            && m.connection == n.connection && Leaves(Backlog(n), Backlog(m))
            && (answer.Answered? ==> Backlog(n) != [] && answer.arrival.origin == Backlog(n)[0])
            && (if answer.Answered? && answer.arrival.origin.To? then Backlog(m) == Backlog(n)[1..]
                else Backlog(m) == Backlog(n) || Backlog(n)[0] == Spliced)
    decreases |receipts|
  {
    if receipts != [] {
      var m := Received(n, receipts[0]);
      ReceivedKeepsBacklog(n, receipts[0]);
      hide Received;
      if receipts[0].ending == Open {
        if Torn(m) && receipts[0].cut.Takes? {
          TornIsSpliced(m);
          EatenLeaves(m, receipts[0].cut.eaten, receipts[0].cut.stop);
        } else if Torn(m) || m.unread == [] {
          FirstInFirstOut(m, receipts[1..]);
        } else {
          TakenIsFirst(m);
        }
      }
    }
  }

  lemma TornIsSpliced(n: Net)
    requires Sound(n) && Torn(n)
    ensures Backlog(n) != [] && Backlog(n)[0] == Spliced
  {
  }

  lemma TakenIsFirst(n: Net)
    requires Sound(n) && n.unread != []
    ensures Backlog(n) == [OriginOf(n.unread[0])] + Backlog(n.(unread := n.unread[1..]))
  {
  }

  lemma IdleBacklog(n: Net)
    ensures Idle(n) <==> Backlog(n) == []
  {
    if Backlog(n) == [] {
      assert |Backlog(n)| == |n.unread| + |n.outstanding|;
    }
  }

  lemma QueuedComesLast(n: Net, request: Request)
    requires Sound(n)
    ensures Sound(Queued(n, request)) && Backlog(Queued(n, request)) == Backlog(n) + [To(request, n.connection)]
    ensures Unsent(n, request) ==> To(request, n.connection) !in Backlog(n)
  {
  }

  /**
   One attempt: the response it takes is the answer to its own request exactly if
   nothing was left when the request was sent, and then nothing is left after it.
   If it is the answer to another one, as much is left as before.
   */
  lemma OwnIffIdle(n: Net, request: Request, attempt: Attempt)
    requires Sound(n) && Unsent(n, request) && Asked(n, request, attempt).0.Answered?
    ensures var (answer, m) := Asked(n, request, attempt);
            && m.connection == n.connection
            && (answer.arrival.origin == To(request, n.connection) <==> Idle(n))
            && (Idle(n) ==> Idle(m))
            && (answer.arrival.origin.To? ==> |Backlog(m)| == |Backlog(n)|)
  {
    var q, own := Queued(n, request), To(request, n.connection);
    var (answer, m) := Asked(n, request, attempt);
    IdleBacklog(n);
    IdleBacklog(m);
    QueuedComesLast(n, request);
    FirstInFirstOut(q, attempt.receipts);
    hide Backlog, Waited, Idle, Queued, Unsent, Sound;
    assert answer.arrival.origin == (Backlog(n) + [own])[0];
  }

  // ----- what is kept -----

  lemma ReceivedKeeps(n: Net, receipt: Receipt, next: nat)
    requires Sound(n) && Below(n, next)
    ensures Sound(Received(n, receipt)) && Below(Received(n, receipt), next)
    ensures Received(n, receipt).connection == n.connection
  {
  }

  lemma EatenKeeps(n: Net, eaten: nat, stop: Stop, next: nat)
    requires Sound(n) && Below(n, next)
    ensures Sound(Eaten(n, eaten, stop)) && Below(Eaten(n, eaten, stop), next)
    ensures Eaten(n, eaten, stop).connection == n.connection
  {
  }

  /** All of what was read has been taken. */
  predicate NothingLeft(n: Net) { n.unread == [] && (n.tail.NoPart? || n.tail.Swallowed?) }

  /**
   A new connection waits for no answer and keeps everything that was read: it
   starts idle if and only if nothing had been read that was not taken.
   */
  lemma DialledKeeps(n: Net, next: nat)
    requires Sound(n) && Below(n, next)
    ensures Sound(Dialled(n)) && Below(Dialled(n), next)
    ensures Idle(Dialled(n)) <==> NothingLeft(n)
    ensures Dialled(n).connection == n.connection + 1 && n.unread <= Dialled(n).unread
  {
  }

  /** No response is from a connection to come. */
  ghost predicate Before(answer: Answer, n: Net) {
    answer.Answered? && answer.arrival.origin.To? ==> answer.arrival.origin.connection <= n.connection
  }

  lemma {:induction false} WaitedKeeps(n: Net, receipts: seq<Receipt>, next: nat)
    requires Sound(n) && Below(n, next)
    ensures var (answer, m) := Waited(n, receipts);
            Sound(m) && Below(m, next) && m.connection == n.connection && Before(answer, m)
    decreases |receipts|
  {
    hide Received, Eaten;
    if receipts != [] {
      ReceivedKeeps(n, receipts[0], next);
      WaitedKeeps(Received(n, receipts[0]), receipts[1..], next);
      if receipts[0].cut.Takes? {
        EatenKeeps(Received(n, receipts[0]), receipts[0].cut.eaten, receipts[0].cut.stop, next);
      }
    }
  }

  lemma AskedKeeps(n: Net, request: Request, attempt: Attempt, next: nat)
    requires Sound(n) && Below(n, next) && request.number < next
    ensures var (answer, m) := Asked(n, request, attempt);
            && Before(answer, m) && Sound(m) && Below(m, next) && m.connection == n.connection
            && Sound(Dialled(m)) && Below(Dialled(m), next)
    ensures Unsent(Dialled(Asked(n, request, attempt).1), request)
  {
    var q := Queued(n, request);
    assert Sound(q) && Below(q, next);
    hide Waited;
    WaitedKeeps(q, attempt.receipts, next);
  }

  lemma {:induction false} DialogueKeeps(n: Net, request: Request, attempts: seq<Attempt>, next: nat)
    requires Sound(n) && Below(n, next) && request.number < next
    ensures var (answer, m) := Dialogue(n, request, attempts); Sound(m) && Below(m, next) && Before(answer, m)
    decreases |attempts|
  {
    if attempts != [] {
      hide Asked, Sound, Below, Dialled, Before;
      AskedKeeps(n, request, attempts[0], next);
      var (answer, m) := Asked(n, request, attempts[0]);
      if answer.Lost? && attempts[0].redial {
        DialogueKeeps(Dialled(m), request, attempts[1..], next);
      }
    }
  }

  /** The same over any number of attempts and connections. */
  lemma {:induction false} OwnAnswerIff(n: Net, request: Request, attempts: seq<Attempt>, next: nat)
    requires Sound(n) && Below(n, next) && request.number < next
    requires Unsent(n, request) && Dialogue(n, request, attempts).0.Answered?
    ensures var (answer, m) := Dialogue(n, request, attempts);
            var last := LastSend(n, request, attempts);
            && m.connection == last.connection
            && (answer.arrival.origin == To(request, m.connection) <==> Idle(last))
            && (Idle(last) ==> Idle(m))
            && (answer.arrival.origin.To? ==> |Backlog(m)| == |Backlog(last)|)
    decreases |attempts|
  {
    hide Asked, Sound, Below, Dialled, Backlog, Idle;
    var (answer, m) := Asked(n, request, attempts[0]);
    AskedKeeps(n, request, attempts[0], next);
    if answer.Lost? {
      OwnAnswerIff(Dialled(m), request, attempts[1..], next);
    } else {
      OwnIffIdle(n, request, attempts[0]);
    }
  }

  /**
   A fragment does not spoil the connection for ever: once it is the last thing
   left, a call that throws over it and the answer to its own request ends idle.
   */
  lemma TearEnds(n: Net, request: Request, reply: Reply)
    requires n.unread == [Fragment] && n.outstanding == [] && n.tail == NoPart
    ensures var cut := Takes(None, 2, Between);
            var (answer, m) := Asked(n, request, Attempt(SendsAll, [Receipt([reply], false, Open, cut)], true));
            answer.Raised? && Idle(m)
  {
    var q, receipt := Queued(n, request), Receipt([reply], false, Open, Takes(None, 2, Between));
    assert |Received(q, receipt).unread| == 2 && Torn(Received(q, receipt));
  }

  // ----- when nothing is left at the last sending -----

  /** Nothing is read before the end of the stream. */
  predicate SilentUntilClosed(receipts: seq<Receipt>)
    decreases |receipts|
  {
    receipts == [] || (receipts[0].replies == [] && !receipts[0].part &&
                       (receipts[0].ending == Closed || SilentUntilClosed(receipts[1..])))
  }

  predicate Silent(attempt: Attempt) { attempt.sending == SendLost || SilentUntilClosed(attempt.receipts) }

  lemma {:induction false} LostWaitIsSilentIff(n: Net, receipts: seq<Receipt>)
    requires Sound(n) && (n.outstanding != [] || n.unread != []) && Waited(n, receipts).0.Lost?
    ensures Idle(Dialled(Waited(n, receipts).1)) <==> NothingLeft(n) && SilentUntilClosed(receipts)
    decreases |receipts|
  {
    var m := Received(n, receipts[0]);
    if receipts[0].ending == Open {
      LostWaitIsSilentIff(m, receipts[1..]);
    }
  }

  /** Which calls find the connection idle when they send their request for the last time. */
  lemma {:induction false} IdleAtLastSendIff(n: Net, request: Request, attempts: seq<Attempt>, next: nat)
    requires Sound(n) && Below(n, next) && request.number < next
    ensures var k := Losses(n, request, attempts);
            Idle(LastSend(n, request, attempts)) <==>
              && (if k == 0 then Idle(n) else NothingLeft(n))
              && forall i :: 0 <= i < k ==> Silent(attempts[i])
    decreases |attempts|
  {
    if attempts != [] {
      var (answer, m) := Asked(n, request, attempts[0]);
      if answer.Lost? && attempts[0].redial {
        var d, k := Dialled(m), Losses(n, request, attempts);
        AskedKeeps(n, request, attempts[0], next);
        IdleAtLastSendIff(d, request, attempts[1..], next);
        assert Idle(d) <==> NothingLeft(n) && Silent(attempts[0]) by {
          if attempts[0].sending != SendLost {
            LostWaitIsSilentIff(Queued(n, request), attempts[0].receipts);
          }
        }
        hide Asked, Silent;
        assert forall i :: 1 <= i < k ==> attempts[i] == attempts[1..][i - 1];
        assert (forall i :: 0 <= i < k ==> Silent(attempts[i])) <==>
               Silent(attempts[0]) && forall i :: 0 <= i < k - 1 ==> Silent(attempts[1..][i]);
      }
    }
  }

  // ----- orderly services -----

  /** The stream ends before anything is read, or a response is read before it ends. */
  predicate Orderly(receipts: seq<Receipt>, part: bool)
    decreases |receipts|
  {
    receipts != [] &&
    match receipts[0].ending
    case Broken => false
    case Closed => receipts[0].replies == [] && !receipts[0].part && !part
    case Open => receipts[0].replies != [] || Orderly(receipts[1..], part || receipts[0].part)
  }

  predicate OrderlyAttempt(attempt: Attempt) {
    attempt.sending == SendLost || (attempt.sending == SendsAll && Orderly(attempt.receipts, false))
  }

  lemma {:induction false} OrderlyWait(n: Net, receipts: seq<Receipt>)
    requires n.unread == [] && n.outstanding != [] && !Bitten(n) && Orderly(receipts, n.tail.Part?)
    ensures var (answer, m) := Waited(n, receipts); !answer.Raised? && (answer.Lost? ==> Idle(Dialled(m)))
    decreases |receipts|
  {
    var m := Received(n, receipts[0]);
    if receipts[0].ending == Open && m.unread == [] {
      OrderlyWait(m, receipts[1..]);
    }
  }

  /** With orderly attempts an idle connection is idle at every sending and after the call. */
  lemma {:induction false} OrderlyStaysIdle(n: Net, request: Request, attempts: seq<Attempt>, next: nat)
    requires Sound(n) && Below(n, next) && request.number < next && Unsent(n, request)
    requires Idle(n) && forall i :: 0 <= i < |attempts| ==> OrderlyAttempt(attempts[i])
    ensures Idle(LastSend(n, request, attempts)) && Idle(Dialogue(n, request, attempts).1)
    decreases |attempts|
  {
    if attempts != [] {
      var (answer, m) := Asked(n, request, attempts[0]);
      AskedKeeps(n, request, attempts[0], next);
      if attempts[0].sending == SendsAll {
        OrderlyWait(Queued(n, request), attempts[0].receipts);
      }
      if answer.Lost? {
        OrderlyStaysIdle(Dialled(m), request, attempts[1..], next);
      } else {
        OwnIffIdle(n, request, attempts[0]);
      }
    }
  }

  class SocketClient {
    var net: Net

    constructor ()
      ensures net == NewNet && Idle(net) && Sound(net) && Below(net, 0)
    {
      net := NewNet;
    }

    /** Whatever was read stays, and nothing that was to come does. */
    method Connect()
      modifies this
      ensures net == Dialled(old(net))
      ensures old(net).unread <= net.unread && net.outstanding == [] && net.connection == old(net).connection + 1
      ensures Idle(net) <==> NothingLeft(old(net))
    {
      net := Dialled(net);
    }

    /** Sends a request and reads until the queue holds a response, which need not be the answer to it. */
    method AskCynaraServer(request: Request, attempt: Attempt) returns (answer: Answer)
      modifies this
      ensures (answer, net) == Asked(old(net), request, attempt)
    {
      if attempt.sending == NotQueued {
        return Raised;
      }
      net := Queued(net, request);
      if attempt.sending == SendLost {
        return Lost;
      }
      if attempt.sending == SendFails {
        return Raised;
      }
      ghost var queued := net;
      var i := 0;
      while i < |attempt.receipts|
        invariant i <= |attempt.receipts|
        invariant Waited(queued, attempt.receipts) == Waited(net, attempt.receipts[i..])
      {
        var receipt := attempt.receipts[i];
        assert attempt.receipts[i..][1..] == attempt.receipts[i + 1..];
        net := Received(net, receipt);
        if receipt.ending == Closed {
          return Lost;
        }
        if receipt.ending == Broken {
          return Raised;
        }
        if Torn(net) {
          if receipt.cut.Takes? {
            net := Eaten(net, receipt.cut.eaten, receipt.cut.stop);
            return if receipt.cut.reply.None? then Raised else Answered(Arrival(receipt.cut.reply.value, Spliced));
          }
        } else if net.unread != [] {
          answer := Answered(net.unread[0].arrival);
          net := net.(unread := net.unread[1..]);
          return;
        }
        i := i + 1;
      }
      answer := Raised;
    }
  }
}
