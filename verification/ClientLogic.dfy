/**
 The synchronous client: a check is answered from the cache or by the service,
 and everything cached is forgotten when the connection is lost.
 */
module ClientLogic {
  import opened Collections
  import opened PolicyTypes
  import opened PolicyKeys
  import opened SocketClients
  import C = CapacityCache
  import M = MonitorCache

  const Success := 0
  const NotAvailable := -5

  datatype Outcome = Returned(code: int) | Throws

  /** The built-in interpreter, registered for ALLOW and DENY; no other plugin is installed. */
  function Naive(t: PolicyType): C.PluginView {
    if t == ALLOW || t == DENY then C.Plugin(true, false, true, if t == ALLOW then C.AccessAllowed else C.AccessDenied)
    else C.NoPlugin
  }

  /** What the caller is told for a result: anything but ALLOW denies. */
  function Verdict(r: PolicyResult): int { if r.policyType == ALLOW then C.AccessAllowed else C.AccessDenied }

  /** The connection when it is looked at: up, lost and established again, or gone. */
  datatype Line = Up | Reconnected | Gone

  function Looked(n: Net, line: Line): Net { if line == Up then n else Dialled(n) }

  datatype Delivery = Delivered | DeliveryLost | DeliveryFails

  /** The time at which an entry is recorded, and what a flush meets if it is due. */
  datatype Flush = Flush(clock: Option<int>, line: Line, delivery: Delivery)

  /** One call of the library. */
  datatype Op = Op(simple: bool, key: PolicyKey, session: string, line: Line, attempts: seq<Attempt>, flush: Flush)

  /** Access is allowed by ALLOW alone; every other type denies it. */
  lemma OnlyAllowAllows(r: PolicyResult)
    ensures Verdict(r) == if r.policyType == 0xFFFF then 2 else 1
  {
  }

  class Client {
    const cache: C.CapacityCache
    const socket: SocketClient
    const monitoring: bool
    var monitor: M.Log
    var sequence: nat
    /** The latest request for each key, and the response that was stored for it. */
    ghost var asked: map<PolicyKey, Request>
    ghost var held: map<PolicyKey, Arrival>

    ghost predicate Valid()
      reads this, cache, socket
    {
      && cache.Valid()
      && Sound(socket.net) && Below(socket.net, sequence)
      && (forall key :: key in asked ==> asked[key].key == key)
      && forall key :: CacheKey(key) in cache.values ==> Holds(key)
    }

    ghost predicate Holds(key: PolicyKey)
      requires CacheKey(key) in cache.values
      reads this, cache
    {
      && key in asked && key in held
      && cache.values[CacheKey(key)].result == held[key].reply.result
      && Naive(held[key].reply.result.policyType).Plugin?
    }

    /** Everything cached is the answer to the latest request for its key, and came on this connection. */
    ghost predicate Genuine()
      reads this, cache, socket
    {
      forall key :: CacheKey(key) in cache.values ==>
        key in asked && key in held && held[key].origin == To(asked[key], socket.net.connection)
    }

    constructor (capacity: nat, monitoring: bool)
      ensures Valid() && Genuine() && fresh(cache) && fresh(socket)
      ensures this.monitoring == monitoring && cache.capacity == capacity && cache.values == map[]
      ensures socket.net == NewNet && monitor == M.Empty && sequence == 0
    {
      cache := new C.CapacityCache(capacity);
      socket := new SocketClient();
      this.monitoring := monitoring;
      monitor, sequence, asked, held := M.Empty, 0, map[], map[];
    }

    method OnDisconnected()
      requires Valid()
      modifies cache
      ensures Valid() && cache.values == map[]
    {
      cache.Clear();
    }

    method EnsureConnection(line: Line) returns (ok: bool)
      requires Valid()
      modifies cache, socket
      ensures Valid() && ok == (line != Gone) && socket.net == Looked(old(socket.net), line)
      ensures line == Up ==> unchanged(cache)
      ensures line != Up ==> cache.values == map[]
    {
      hide CacheKey, C.Sound, SocketClients.Sound, Below, Dialled, Naive;
      if line == Up {
        return true;
      }
      DialledKeeps(socket.net, sequence);
      OnDisconnected();
      socket.Connect();
      ok := line == Reconnected;
    }

    // ----- the monitor -----

    predicate FlushIsDue(key: PolicyKey, result: int, flush: Flush)
      reads this
    {
      monitoring && M.ShouldFlush(M.Updated(monitor, key, result, flush.clock))
    }

    /** Recording the result finds the connection lost. */
    predicate LosesConnection(key: PolicyKey, result: int, flush: Flush)
      reads this
    {
      FlushIsDue(key, result, flush) && flush.line != Up
    }

    predicate FlushThrows(key: PolicyKey, result: int, flush: Flush)
      reads this
    {
      FlushIsDue(key, result, flush) && flush.line != Gone && flush.delivery == DeliveryFails
    }

    /** The entries after recording a result. */
    function Recorded(key: PolicyKey, result: int, flush: Flush): M.Log
      reads this
    {
      if !monitoring then monitor
      else if FlushIsDue(key, result, flush) && flush.line != Gone && flush.delivery == Delivered then M.Empty
      else M.Updated(monitor, key, result, flush.clock)
    }

    /** A flush that finds the connection lost empties the cache; entries are dropped when they have been sent. */
    method UpdateMonitor(key: PolicyKey, result: int, flush: Flush) returns (ok: bool)
      requires Valid()
      modifies `monitor, cache, socket
      ensures Valid() && ok == !old(FlushThrows(key, result, flush))
      ensures if old(LosesConnection(key, result, flush))
              then cache.values == map[] && socket.net == Dialled(old(socket.net))
              else unchanged(cache) && socket.net == old(socket.net)
      ensures monitor == old(Recorded(key, result, flush))
    {
      hide CacheKey, C.Sound, SocketClients.Sound, Below, Naive, M.Updated, M.ShouldFlush;
      if !monitoring {
        return true;
      }
      monitor := M.Updated(monitor, key, result, flush.clock);
      if !M.ShouldFlush(monitor) {
        return true;
      }
      var up := EnsureConnection(flush.line);
      if !up {
        return true;
      }
      if flush.delivery == Delivered {
        monitor := M.Empty;
      }
      ok := flush.delivery != DeliveryFails;
    }

    // ----- asking the service -----

    /** Numbers a request. */
    method NewRequest(key: PolicyKey, simple: bool) returns (request: Request)
      requires Valid()
      modifies `sequence, `asked
      ensures Valid() && request == Request(old(sequence), key, simple)
      ensures sequence == old(sequence) + 1 && asked == old(asked)[key := request]
    {
      hide CacheKey, C.Sound, SocketClients.Sound, Below, Naive;
      request := Request(sequence, key, simple);
      FreshIsUnsent(socket.net, sequence, key, simple);
      sequence, asked := sequence + 1, asked[key := request];
    }

    /** One attempt; a lost connection empties the cache, and is dialled again. */
    method AskOnce(request: Request, attempt: Attempt) returns (answer: Answer)
      requires Valid() && request.number < sequence
      modifies cache, socket
      ensures Valid() && answer == Asked(old(socket.net), request, attempt).0
      ensures var net := Asked(old(socket.net), request, attempt).1;
              if answer.Lost? then cache.values == map[] && socket.net == Dialled(net)
              else unchanged(cache) && socket.net == net && net.connection == old(socket.net).connection
    {
      hide CacheKey, C.Sound, SocketClients.Sound, Below, Naive, Dialled, Asked, Holds;
      AskedKeeps(socket.net, request, attempt, sequence);
      answer := socket.AskCynaraServer(request, attempt);
      if answer.Lost? {
        OnDisconnected();
        socket.Connect();
      }
    }

    /** Asks until there is a response. */
    method RequestResponse(key: PolicyKey, simple: bool, attempts: seq<Attempt>) returns (answer: Answer)
      requires Valid() && CacheKey(key) !in cache.values
      modifies `sequence, `asked, cache, socket
      ensures Valid() && sequence == old(sequence) + 1
      ensures asked == old(asked)[key := Request(old(sequence), key, simple)]
      ensures (answer, socket.net) == Dialogue(old(socket.net), Request(old(sequence), key, simple), attempts)
      ensures cache.values == map[] || (unchanged(cache) && socket.net.connection == old(socket.net).connection)
    {
      hide CacheKey, Valid, Dialled, Asked;
      var request := NewRequest(key, simple);
      var i := 0;
      while i < |attempts|
        invariant i <= |attempts| && Valid()
        invariant sequence == old(sequence) + 1 && asked == old(asked)[key := request] && held == old(held)
        invariant Dialogue(old(socket.net), request, attempts) == Dialogue(socket.net, request, attempts[i..])
        invariant cache.values == map[] || (unchanged(cache) && socket.net.connection == old(socket.net).connection)
      {
        assert attempts[i..][1..] == attempts[i + 1..];
        answer := AskOnce(request, attempts[i]);
        if !answer.Lost? || !attempts[i].redial {
          return;
        }
        i := i + 1;
      }
      answer := Raised;
    }

    // ----- the cache -----

    /** Looks the key up; a hit gives the verdict on the response that was stored for it. */
    method LookUp(key: PolicyKey, session: string) returns (r: int)
      requires Valid()
      modifies cache
      ensures Valid() && cache.values.Keys == old(cache.values).Keys
      ensures r == C.CacheMiss <==> CacheKey(key) !in old(cache.values)
      ensures r == C.CacheMiss ==> cache.values == old(cache.values) && cache.usage == old(cache.usage)
      ensures r != C.CacheMiss ==> key in held && r == Verdict(held[key].reply.result)
      ensures r != C.CacheMiss && Genuine() ==>
                held[key].origin == To(asked[key], socket.net.connection) && asked[key].key == key
    {
      hide CacheKey, C.Sound, SocketClients.Sound, Below;
      if CacheKey(key) in cache.values {
        var t := cache.values[CacheKey(key)].result.policyType;
        assert Holds(key);
        r := cache.Get(key, session, Naive(t));
        forall k | CacheKey(k) in cache.values
          ensures Holds(k)
        {
          assert CacheKey(k) in old(cache.values);
          assert old(Holds(k));
        }
      } else {
        r := cache.Get(key, session, C.NoPlugin);
      }
    }

    /** Whether the cache takes a result at all. */
    predicate Caches(result: PolicyResult) { cache.capacity > 0 && Naive(result.policyType).Plugin? }

    /** Apart from the key, the cache holds only entries it held before. */
    ghost predicate Stored(before: map<string, C.Value>, key: PolicyKey)
      reads cache
    {
      forall k :: CacheKey(k) in cache.values && k != key ==>
        CacheKey(k) in before && before[CacheKey(k)] == cache.values[CacheKey(k)]
    }

    /** Updates the cache.  The key is not cached at this point, so the update is well defined. */
    method UpdateCache(key: PolicyKey, session: string, result: PolicyResult) returns (r: int)
      requires cache.Valid() && CacheKey(key) !in cache.values
      modifies cache
      ensures cache.Valid() && r == Verdict(result) && Stored(old(cache.values), key)
      ensures CacheKey(key) in cache.values <==> Caches(result)
      ensures Caches(result) ==> cache.values[CacheKey(key)].result == result && cache.values[CacheKey(key)].session == session
    {
      hide CacheKey, C.Sound;
      forall k ensures CacheKey(k) == CacheKey(key) ==> k == key {
        if CacheKey(k) == CacheKey(key) { CacheKeyInjective(k, key); }
      }
      assert cache.UpdateIsDefined(CacheKey(key));
      r := cache.Update(key, session, result, Naive(result.policyType));
    }

    /** Stores a response. */
    method Store(key: PolicyKey, session: string, arrival: Arrival) returns (r: int)
      requires Valid() && CacheKey(key) !in cache.values && key in asked
      modifies `held, cache
      ensures Valid() && r == Verdict(arrival.reply.result) && held == old(held)[key := arrival]
      ensures CacheKey(key) in cache.values <==> Caches(arrival.reply.result)
      ensures forall k :: CacheKey(k) in cache.values && k != key ==> CacheKey(k) in old(cache.values)
    {
      hide CacheKey, C.Sound, C.CapacityCache.Valid, SocketClients.Sound, Below, Verdict, Naive;
      r := UpdateCache(key, session, arrival.reply.result);
      held := held[key := arrival];
      forall k | CacheKey(k) in cache.values
        ensures Holds(k)
      {
        if k != key { assert old(Holds(k)); }
      }
    }

    // ----- checks -----

    /** Whether a check has to ask the service. */
    predicate Asks(key: PolicyKey, line: Line)
      reads cache
    {
      line == Reconnected || (line == Up && CacheKey(key) !in cache.values)
    }

    /** The response that a call takes. */
    function Taken(key: PolicyKey, simple: bool, line: Line, attempts: seq<Attempt>): Answer
      reads this, socket
    {
      Dialogue(Looked(socket.net, line), Request(sequence, key, simple), attempts).0
    }

    /** Nothing is left of earlier requests when the request of the call is sent for the last time. */
    ghost predicate SentIdle(key: PolicyKey, simple: bool, line: Line, attempts: seq<Attempt>)
      reads this, socket
    {
      Idle(LastSend(Looked(socket.net, line), Request(sequence, key, simple), attempts))
    }

    /** The state of the connection after the call has asked. */
    function NetAfter(key: PolicyKey, simple: bool, line: Line, attempts: seq<Attempt>): Net
      reads this, socket
    {
      Dialogue(Looked(socket.net, line), Request(sequence, key, simple), attempts).1
    }

    lemma LookedKeeps(line: Line)
      requires Valid()
      ensures SocketClients.Sound(Looked(socket.net, line)) && Below(Looked(socket.net, line), sequence)
      ensures Idle(socket.net) ==> Idle(Looked(socket.net, line))
    {
      DialledKeeps(socket.net, sequence);
    }

    /** The response is the answer to the request of the call, on the connection then up, exactly if it was sent idle. */
    lemma TakenIsOwnIff(key: PolicyKey, simple: bool, line: Line, attempts: seq<Attempt>)
      requires Valid() && Taken(key, simple, line, attempts).Answered?
      ensures var origin := Taken(key, simple, line, attempts).arrival.origin;
              var connection := NetAfter(key, simple, line, attempts).connection;
              && (origin == To(Request(sequence, key, simple), connection) <==> SentIdle(key, simple, line, attempts))
              && (origin.To? ==> origin.connection <= connection)
    {
      hide SocketClients.Sound, Below, Dialogue, LastSend, Idle;
      var start, request := Looked(socket.net, line), Request(sequence, key, simple);
      LookedKeeps(line);
      FreshIsUnsent(start, sequence, key, simple);
      OwnAnswerIff(start, request, attempts, sequence + 1);
      DialogueKeeps(start, request, attempts, sequence + 1);
    }

    /** With orderly attempts a call that starts idle is sent idle and ends idle. */
    lemma OrderlyCallIsIdle(key: PolicyKey, simple: bool, line: Line, attempts: seq<Attempt>)
      requires Valid() && Idle(socket.net) && forall i :: 0 <= i < |attempts| ==> OrderlyAttempt(attempts[i])
      ensures SentIdle(key, simple, line, attempts) && Idle(NetAfter(key, simple, line, attempts))
      ensures Idle(Looked(socket.net, line))
    {
      hide SocketClients.Sound, Below, Dialogue, LastSend, Idle, OrderlyAttempt;
      LookedKeeps(line);
      FreshIsUnsent(Looked(socket.net, line), sequence, key, simple);
      OrderlyStaysIdle(Looked(socket.net, line), Request(sequence, key, simple), attempts, sequence + 1);
    }

    /** The response is of the kind asked for and a result that the cache takes. */
    predicate Keeps(answer: Answer, simple: bool) {
      && answer.Answered? && answer.arrival.reply.simple == simple && Caches(answer.arrival.reply.result)
      && (simple ==> answer.arrival.reply.code == Success)
    }

    /** What a check that asks the service returns. */
    function CheckOutcome(answer: Answer, throws: bool): Outcome {
      if answer.Raised? then Throws
      else if answer.Lost? || answer.arrival.reply.simple then Returned(NotAvailable)
      else if throws then Throws
      else Returned(Verdict(answer.arrival.reply.result))
    }

    function SimpleOutcome(answer: Answer): Outcome {
      if answer.Raised? then Throws
      else if answer.Lost? || !answer.arrival.reply.simple then Returned(NotAvailable)
      else if answer.arrival.reply.code != Success then Returned(answer.arrival.reply.code)
      else Returned(Verdict(answer.arrival.reply.result))
    }

    /** A check that asks allows access exactly if the response taken is an ALLOW of its kind and nothing throws. */
    lemma CheckAllowsIff(answer: Answer, throws: bool)
      ensures CheckOutcome(answer, throws) == Returned(2) <==>
                answer.Answered? && !answer.arrival.reply.simple && !throws && answer.arrival.reply.result.policyType == 0xFFFF
      ensures answer.Lost? ==> CheckOutcome(answer, throws) == Returned(-5)
    {
    }

    /** A simple check passes an error code of the service on, and otherwise allows exactly what an ALLOW does. */
    lemma SimpleCheckAllowsIff(answer: Answer)
      ensures answer.Answered? && answer.arrival.reply.simple ==>
                var reply := answer.arrival.reply;
                SimpleOutcome(answer) == Returned(if reply.code != 0 then reply.code else if reply.result.policyType == 0xFFFF then 2 else 1)
      ensures answer.Lost? || (answer.Answered? && !answer.arrival.reply.simple) ==> SimpleOutcome(answer) == Returned(-5)
      ensures answer.Raised? ==> SimpleOutcome(answer) == Throws
    {
    }

    /** Only answers of the two types the interpreter knows are kept. */
    lemma CachesIff(result: PolicyResult)
      ensures Caches(result) <==> cache.capacity > 0 && (result.policyType == 0xFFFF || result.policyType == 0)
    {
    }

    /**
     A check.  From the cache it is the verdict on what is stored for the key;
     otherwise it is the verdict on the response taken, or an error.  What it
     stores is the answer to its own request, on the connection that is up
     afterwards, exactly if nothing was left of earlier requests when it was sent
     and no flush of the monitor found the connection lost before it was stored.
     */
    method Check(key: PolicyKey, session: string, line: Line, attempts: seq<Attempt>, flush: Flush) returns (r: Outcome)
      requires Valid()
      modifies this, cache, socket
      ensures Valid()
      ensures line == Gone ==> r == Returned(NotAvailable) && cache.values == map[] && socket.net == Dialled(old(socket.net))
      ensures line == Up && CacheKey(key) in old(cache.values) ==>
                && key in old(held) && key in old(asked)
                && (old(Genuine()) ==> old(held)[key].origin == To(old(asked)[key], old(socket.net).connection) &&
                                       old(asked)[key].key == key)
                && var verdict := Verdict(old(held)[key].reply.result);
                   && r == (if old(FlushThrows(key, verdict, flush)) then Throws else Returned(verdict))
                   && (!old(LosesConnection(key, verdict, flush)) ==>
                         cache.values.Keys == old(cache.values).Keys && socket.net == old(socket.net))
                   && monitor == old(Recorded(key, verdict, flush))
      ensures !old(Asks(key, line)) ==> held == old(held) && asked == old(asked)
      ensures old(Asks(key, line)) ==>
                && sequence == old(sequence) + 1
                && r == CheckOutcome(old(Taken(key, false, line, attempts)), old(FlushThrows(key, Success, flush)))
      ensures old(Genuine()) ==>
                (Genuine() <==>
                 (old(Asks(key, line)) && Keeps(old(Taken(key, false, line, attempts)), false) && r.Returned? ==>
                  old(SentIdle(key, false, line, attempts)) && !old(LosesConnection(key, Success, flush))))
      ensures old(Asks(key, line)) && Keeps(old(Taken(key, false, line, attempts)), false) && r.Returned? ==>
                CacheKey(key) in cache.values && key in held && held[key] == old(Taken(key, false, line, attempts)).arrival
      ensures forall k :: CacheKey(k) in cache.values && k != key ==> line == Up && CacheKey(k) in old(cache.values)
      ensures old(Asks(key, line)) ==>
                var net := old(NetAfter(key, false, line, attempts));
                socket.net == net || (socket.net == Dialled(net) && old(LosesConnection(key, Success, flush)))
      ensures old(Asks(key, line)) && old(LosesConnection(key, Success, flush)) &&
              Keeps(old(Taken(key, false, line, attempts)), false) ==>
                socket.net == Dialled(old(NetAfter(key, false, line, attempts)))
      ensures old(Asks(key, line)) && old(Taken(key, false, line, attempts)).Answered? ==>
                monitor == if old(Taken(key, false, line, attempts)).arrival.reply.simple then old(monitor)
                           else old(Recorded(key, Success, flush))
    {
      hide CacheKey, C.Sound, Verdict, Naive, SocketClients.Sound, Below, Dialled, Dialogue, LastSend, Idle;
      var ok := EnsureConnection(line);
      if !ok {
        return Returned(NotAvailable);
      }
      var hit := LookUp(key, session);
      if hit != C.CacheMiss {
        var updated := UpdateMonitor(key, hit, flush);
        return if updated then Returned(hit) else Throws;
      }
      r := FetchAndStore(key, session, attempts, flush);
    }

    /** A check that asks the service. */
    method FetchAndStore(key: PolicyKey, session: string, attempts: seq<Attempt>, flush: Flush) returns (r: Outcome)
      requires Valid() && CacheKey(key) !in cache.values
      modifies this, cache, socket
      ensures Valid()
      ensures sequence == old(sequence) + 1
      ensures r == CheckOutcome(old(Taken(key, false, Up, attempts)), old(FlushThrows(key, Success, flush)))
      ensures old(Genuine()) ==>
                (Genuine() <==>
                 (Keeps(old(Taken(key, false, Up, attempts)), false) && r.Returned? ==>
                  old(SentIdle(key, false, Up, attempts)) && !old(LosesConnection(key, Success, flush))))
      ensures Keeps(old(Taken(key, false, Up, attempts)), false) && r.Returned? ==>
                CacheKey(key) in cache.values && key in held && held[key] == old(Taken(key, false, Up, attempts)).arrival
      ensures forall k :: CacheKey(k) in cache.values && k != key ==> CacheKey(k) in old(cache.values)
      ensures var net := old(NetAfter(key, false, Up, attempts));
              socket.net == net || (socket.net == Dialled(net) && old(LosesConnection(key, Success, flush)))
      ensures old(LosesConnection(key, Success, flush)) && Keeps(old(Taken(key, false, Up, attempts)), false) ==>
                socket.net == Dialled(old(NetAfter(key, false, Up, attempts)))
      ensures old(Taken(key, false, Up, attempts)).Answered? ==>
                monitor == if old(Taken(key, false, Up, attempts)).arrival.reply.simple then old(monitor)
                           else old(Recorded(key, Success, flush))
    {
      hide CacheKey, C.Sound, Verdict, Naive, SocketClients.Sound, Below, Dialogue, LastSend, Idle,
        M.Updated, M.ShouldFlush, Backlog;
      if Taken(key, false, Up, attempts).Answered? {
        TakenIsOwnIff(key, false, Up, attempts);
      }
      var answer := RequestResponse(key, false, attempts);
      if answer.Raised? {
        return Throws;
      }
      if answer.Lost? || answer.arrival.reply.simple {
        return Returned(NotAvailable);
      }
      var updated := UpdateMonitor(key, Success, flush);
      if !updated {
        return Throws;
      }
      var code := Store(key, session, answer.arrival);
      r := Returned(code);
    }

    /** The same without consulting agents or the monitor: the service may decline, and then nothing is cached. */
    method SimpleCheck(key: PolicyKey, session: string, line: Line, attempts: seq<Attempt>) returns (r: Outcome)
      requires Valid()
      modifies this, cache, socket
      ensures Valid() && monitor == old(monitor)
      ensures line == Gone ==> r == Returned(NotAvailable) && cache.values == map[] && socket.net == Dialled(old(socket.net))
      ensures line == Up && CacheKey(key) in old(cache.values) ==>
                && key in old(held) && key in old(asked) && r == Returned(Verdict(old(held)[key].reply.result))
                && (old(Genuine()) ==> old(held)[key].origin == To(old(asked)[key], old(socket.net).connection) &&
                                       old(asked)[key].key == key)
      ensures old(Asks(key, line)) ==> r == SimpleOutcome(old(Taken(key, true, line, attempts)))
      ensures old(Genuine()) ==>
                (Genuine() <==>
                 (old(Asks(key, line)) && Keeps(old(Taken(key, true, line, attempts)), true) ==>
                  old(SentIdle(key, true, line, attempts))))
      ensures old(Asks(key, line)) && old(Taken(key, true, line, attempts)).Answered? ==>
                var reply := old(Taken(key, true, line, attempts)).arrival.reply;
                reply.simple && reply.code != 0 ==> r == Returned(reply.code) && CacheKey(key) !in cache.values
      ensures old(Asks(key, line)) && Keeps(old(Taken(key, true, line, attempts)), true) ==>
                CacheKey(key) in cache.values && key in held && held[key] == old(Taken(key, true, line, attempts)).arrival
      ensures socket.net == if old(Asks(key, line)) then old(NetAfter(key, true, line, attempts))
                            else Looked(old(socket.net), line)
    {
      hide CacheKey, C.Sound, Verdict, Naive, SocketClients.Sound, Below, Dialled, Dialogue, LastSend, Idle;
      var ok := EnsureConnection(line);
      if !ok {
        return Returned(NotAvailable);
      }
      var hit := LookUp(key, session);
      if hit != C.CacheMiss {
        return Returned(hit);
      }
      r := FetchSimple(key, session, attempts);
    }

    /** A simple check that asks the service. */
    method FetchSimple(key: PolicyKey, session: string, attempts: seq<Attempt>) returns (r: Outcome)
      requires Valid() && CacheKey(key) !in cache.values
      modifies this, cache, socket
      ensures Valid() && monitor == old(monitor)
      ensures r == SimpleOutcome(old(Taken(key, true, Up, attempts)))
      ensures old(Genuine()) ==>
                (Genuine() <==> (Keeps(old(Taken(key, true, Up, attempts)), true) ==> old(SentIdle(key, true, Up, attempts))))
      ensures old(Taken(key, true, Up, attempts)).Answered? ==>
                var reply := old(Taken(key, true, Up, attempts)).arrival.reply;
                reply.simple && reply.code != 0 ==> r == Returned(reply.code) && CacheKey(key) !in cache.values
      ensures Keeps(old(Taken(key, true, Up, attempts)), true) ==>
                CacheKey(key) in cache.values && key in held && held[key] == old(Taken(key, true, Up, attempts)).arrival
      ensures socket.net == old(NetAfter(key, true, Up, attempts))
    {
      hide CacheKey, C.Sound, Verdict, Naive, SocketClients.Sound, Below, Dialled, Dialogue, LastSend, Idle;
      if Taken(key, true, Up, attempts).Answered? {
        TakenIsOwnIff(key, true, Up, attempts);
      }
      var answer := RequestResponse(key, true, attempts);
      if answer.Raised? {
        return Throws;
      }
      if answer.Lost? || !answer.arrival.reply.simple {
        return Returned(NotAvailable);
      }
      if answer.arrival.reply.code != Success {
        return Returned(answer.arrival.reply.code);
      }
      var code := Store(key, session, answer.arrival);
      r := Returned(code);
    }

    /** Every attempt of the call is orderly, and a flush of the monitor does not find the connection lost. */
    ghost predicate OrderlyOp(op: Op) {
      && (forall i :: 0 <= i < |op.attempts| ==> OrderlyAttempt(op.attempts[i]))
      && (monitoring && !op.simple ==> op.flush.line == Up)
    }

    method Perform(op: Op) returns (r: Outcome)
      requires Valid()
      modifies this, cache, socket
      ensures Valid()
      ensures old(Genuine() && Idle(socket.net)) && OrderlyOp(op) ==> Genuine() && Idle(socket.net)
    {
      hide CacheKey, C.Sound, SocketClients.Sound, Below, Dialogue, LastSend, Idle, OrderlyAttempt, Valid, Genuine;
      if Idle(socket.net) && OrderlyOp(op) {
        OrderlyCallIsIdle(op.key, op.simple, op.line, op.attempts);
      }
      if op.simple {
        r := SimpleCheck(op.key, op.session, op.line, op.attempts);
      } else {
        r := Check(op.key, op.session, op.line, op.attempts, op.flush);
      }
    }

    /**
     Over any run of orderly calls, everything cached is the answer to the latest
     request for its key, on the present connection.
     */
    method PerformAll(ops: seq<Op>) returns (results: seq<Outcome>)
      requires Valid()
      modifies this, cache, socket
      ensures Valid() && |results| == |ops|
      ensures old(Genuine() && Idle(socket.net)) && (forall i :: 0 <= i < |ops| ==> OrderlyOp(ops[i])) ==>
                Genuine() && Idle(socket.net)
    {
      hide Valid, Genuine, Idle, OrderlyOp;
      results := [];
      for i := 0 to |ops|
        invariant Valid() && |results| == i
        invariant old(Genuine() && Idle(socket.net)) && (forall j :: 0 <= j < |ops| ==> OrderlyOp(ops[j])) ==>
                    Genuine() && Idle(socket.net)
      {
        var r := Perform(ops[i]);
        results := results + [r];
      }
    }
  }

  /** A request with the next number has not been sent. */
  lemma FreshIsUnsent(n: Net, next: nat, key: PolicyKey, simple: bool)
    requires Below(n, next)
    ensures Unsent(n, Request(next, key, simple)) && Below(n, next + 1)
  {
  }

  // ----- runs -----

  const Allow := Reply(false, Success, PolicyResult(ALLOW, ""))
  const Deny := Reply(false, Success, PolicyResult(DENY, ""))

  /** The service answers and the connection stays up. */
  function Replies(reply: Reply): Attempt { Attempt(SendsAll, [Receipt([reply], false, Open, Waits)], true) }

  /** The service answers and closes the connection, which is then established again. */
  function RepliesAndCloses(reply: Reply): Attempt { Attempt(SendsAll, [Receipt([reply], false, Closed, Waits)], true) }

  const NoFlush := Flush(None, Up, Delivered)

  /** A connection on which these responses are unread, and nothing else is left. */
  function Holding(unread: seq<Arrival>, connection: nat): Net {
    Net(seq(|unread|, i requires 0 <= i < |unread| => Entire(unread[i])), [], NoPart, connection)
  }

  /** The response taken is the oldest one, and the answer to the request joins the others. */
  lemma RepliesTakesTheOldest(unread: seq<Arrival>, connection: nat, request: Request, reply: Reply)
    requires request.simple == reply.simple
    ensures var all := unread + [Arrival(reply, To(request, connection))];
            Dialogue(Holding(unread, connection), request, [Replies(reply)]) == (Answered(all[0]), Holding(all[1..], connection))
  {
    var all := unread + [Arrival(reply, To(request, connection))];
    var q, receipt := Queued(Holding(unread, connection), request), Receipt([reply], false, Open, Waits);
    ReplyIsRead(unread, connection, request, reply, receipt);
    assert Holding(all, connection).unread[1..] == Holding(all[1..], connection).unread;
  }

  lemma ReplyIsRead(unread: seq<Arrival>, connection: nat, request: Request, reply: Reply, receipt: Receipt)
    requires request.simple == reply.simple && receipt.replies == [reply]
    ensures Received(Queued(Holding(unread, connection), request), receipt) ==
            Holding(unread + [Arrival(reply, To(request, connection))], connection)
  {
    var q := Queued(Holding(unread, connection), request);
    assert q.outstanding == [request] && Whole(q, [reply]) == [reply] && reply.(simple := request.simple) == reply;
    assert Received(q, receipt).unread == Holding(unread + [Arrival(reply, To(request, connection))], connection).unread;
  }

  /** What a lost connection has answered is there for the next one. */
  lemma RepliesAndClosesLeavesTheAnswer(unread: seq<Arrival>, connection: nat, request: Request, reply: Reply, attempts: seq<Attempt>)
    requires request.simple == reply.simple
    ensures var all := unread + [Arrival(reply, To(request, connection))];
            Dialogue(Holding(unread, connection), request, [RepliesAndCloses(reply)] + attempts) ==
            Dialogue(Holding(all, connection + 1), request, attempts)
  {
    ReplyIsRead(unread, connection, request, reply, Receipt([reply], false, Closed, Waits));
    assert ([RepliesAndCloses(reply)] + attempts)[1..] == attempts;
  }

  lemma SecondAnswerStaysUnread(request: Request)
    requires !request.simple
    ensures Dialogue(Holding([], 1), request, [RepliesAndCloses(Allow), Replies(Allow)]) ==
            (Answered(Arrival(Allow, To(request, 1))), Holding([Arrival(Allow, To(request, 2))], 2))
  {
    var left := [Arrival(Allow, To(request, 1))];
    RepliesAndClosesLeavesTheAnswer([], 1, request, Allow, [Replies(Allow)]);
    RepliesTakesTheOldest(left, 2, request, Allow);
    assert [] + left == left && (left + [Arrival(Allow, To(request, 2))])[1..] == [Arrival(Allow, To(request, 2))];
    assert [RepliesAndCloses(Allow)] + [Replies(Allow)] == [RepliesAndCloses(Allow), Replies(Allow)];
  }

  /**
   A run, without the monitor, in which an answer of a lost connection is stored.
   The service answers the request and closes the connection; asked again it
   answers again, and the second response stays unread.
   */
  method AnswerOfALostConnectionIsStored(a: PolicyKey) returns (c: Client, r: Outcome)
    ensures fresh(c) && fresh(c.cache) && fresh(c.socket)
    ensures c.Valid() && !c.monitoring && c.cache.capacity == 2 && c.sequence == 1
    ensures r == Returned(C.AccessAllowed) && forall k :: CacheKey(k) in c.cache.values ==> k == a
    ensures CacheKey(a) in c.cache.values && a in c.held && c.held[a] == Arrival(Allow, To(Request(0, a, false), 1))
    ensures c.socket.net == Holding([Arrival(Allow, To(Request(0, a, false), 2))], 2)
  {
    hide CacheKey, C.Sound, Client.Valid, Client.Genuine, Dialogue, LastSend;
    c := new Client(2, false);
    SecondAnswerStaysUnread(Request(0, a, false));
    assert Dialled(NewNet) == Holding([], 1);
    r := c.Check(a, "", Reconnected, [RepliesAndCloses(Allow), Replies(Allow)], NoFlush);
  }

  /** The run goes on: a check of `b` takes the second answer to `a`, and the denial of `b` is left in turn. */
  method AnswerToAnotherKeyIsServed(a: PolicyKey, b: PolicyKey) returns (c: Client, r: Outcome)
    requires a != b
    ensures c.Valid() && !c.monitoring && r == Returned(C.AccessAllowed)
    ensures CacheKey(b) in c.cache.values && b in c.held && c.held[b] == Arrival(Allow, To(Request(0, a, false), 2))
    ensures c.socket.net == Holding([Arrival(Deny, To(Request(1, b, false), 2))], 2)
  {
    hide CacheKey, C.Sound, Client.Valid, Client.Genuine, Dialogue, LastSend;
    c, r := AnswerOfALostConnectionIsStored(a);
    RepliesTakesTheOldest([Arrival(Allow, To(Request(0, a, false), 2))], 2, Request(1, b, false), Deny);
    r := c.Check(b, "", Up, [Replies(Deny)], NoFlush);
  }

  /** The first entry of the monitor, recorded by a check of another key. */
  method FirstCheck(key: PolicyKey) returns (c: Client, r: Outcome)
    ensures fresh(c) && fresh(c.cache) && fresh(c.socket)
    ensures c.Valid() && c.monitoring && c.cache.capacity == 2 && c.sequence == 1
    ensures r == Returned(C.AccessAllowed) && forall k :: CacheKey(k) in c.cache.values ==> k == key
    ensures c.monitor == M.Log([M.Entry(key, C.AccessDenied, 0)], 0) && c.socket.net == Holding([], 1)
  {
    hide CacheKey, C.Sound, Client.Valid, Client.Genuine, Dialogue, LastSend;
    c := new Client(2, true);
    RepliesTakesTheOldest([], 1, Request(0, key, false), Allow);
    assert Dialled(NewNet) == Holding([], 1);
    r := c.Check(key, "", Reconnected, [Replies(Allow)], Flush(Some(0), Up, Delivered));
  }

  /**
   A run in which an answer from before a reconnection is served after it: the
   second check comes so late that the monitor is flushed, the flush finds the
   connection lost and establishes it again, and the third check is answered from
   the cache.
   */
  method StaleAnswerIsServed(other: PolicyKey, key: PolicyKey) returns (c: Client, r: Outcome)
    requires other != key
    ensures c.Valid() && r == Returned(C.AccessAllowed) && c.socket.net.connection == 2
    ensures CacheKey(key) in c.cache.values && key in c.held && c.held[key] == Arrival(Allow, To(Request(1, key, false), 1))
  {
    hide CacheKey, C.Sound, Client.Valid, Client.Genuine, Dialogue, LastSend;
    c, r := FirstCheck(other);
    RepliesTakesTheOldest([], 1, Request(1, key, false), Allow);
    r := c.Check(key, "", Up, [Replies(Allow)], Flush(Some(120), Reconnected, Delivered));
    r := c.Check(key, "", Up, [], Flush(None, Up, Delivered));
  }
}
