/**
 The asynchronous client: pending checks, cancellation, answers, reconnection,
 loss of the service and finish, with callbacks that call back into the client.

 The outside world is a script.  A `Script` is what user code does, in the main
 program or inside a callback; every place where a callback runs has a script of
 its own, so re-entrant calls nest to any depth.  Results of the socket layer and
 the responses of the service are part of the actions.  A method that ends by an
 exception returns `Thrown`; exceptions stop at the API boundary.
 */
module AsyncLogic {
  import opened Collections
  import opened PolicyTypes
  import opened AsyncAccounts
  import C = CapacityCache
  import K = PolicyKeys
  import M = MonitorCache
  import S = SequenceContainer

  // ----- scripts -----

  datatype Script = Stop | Then(action: Action, rest: Script)

  /** One script for each callback of a batch; callbacks beyond the list do nothing. */
  datatype Scripts = NoScripts | OneOf(script: Script, rest: Scripts)

  datatype DialOutcome = Succeeded | InProgress | Failed | DialThrows

  /** An attempt to connect. */
  datatype Dial = Dial(outcome: DialOutcome, onChange: Script, onGone: Scripts)

  /** The state of the connection when an operation looks at it. */
  datatype Link = Connected | LinkThrows | Lost(onLost: Script, dial: Dial)

  /** The time at which an entry is recorded for the monitor, and what a flush meets if it is due. */
  datatype Flush = Flush(clock: Option<int>, link: Link, onChange: Script)

  datatype Reply = CheckReply | SimpleReply(returnValue: int) | CancelReply | OtherReply

  /** Responses of the service, with what the cache and the monitor make of them. */
  datatype Responses =
    | NoResponse
    | Response(reply: Reply, id: nat, result: PolicyResult, verdict: int, cached: bool, evicted: set<PolicyKey>,
               flush: Flush, onAnswer: Script, rest: Responses)

  datatype Completion =
    | AlreadyConnected | NowConnected(onChange: Script) | StillConnecting
    | Refused(onLost: Script, onGone: Scripts) | CompletionThrows

  datatype Sending = AllSent(onChange: Script) | PartlySent | SendLost | SendThrows

  datatype Receiving = Received(responses: Responses) | ReceiveLost | ReceiveThrows

  /** The rounds of one call of `process`. */
  datatype Rounds =
    | NoRound
    | Round(completion: Completion, sending: Sending, receiving: Receiving, onLost: Script, dial: Dial, rest: Rounds)

  datatype Action =
    | CheckCache(key: PolicyKey, connected: bool, usable: bool, verdict: int, onHit: Flush, flush: Flush)
    | Create(simple: bool, key: PolicyKey, session: string, link: Link, onChange: Script)
    | CancelCheck(id: nat, cancelLink: Link, onCancel: Script, onChange: Script)
    | Process(rounds: Rounds)
    | FinishClient(flushThrows: bool, onFinish: Scripts, onStatus: Script)

  function DialStatus(dial: Dial): Status {
    match dial.outcome
    case DialThrows => Exception
    case Failed => No
    case _ => Yes
  }

  function LinkStatus(link: Link): Status {
    match link
    case Connected => Yes
    case LinkThrows => Exception
    case Lost(_, dial) => DialStatus(dial)
  }

  predicate FlushThrows(flush: Flush) { LinkStatus(flush.link) == Exception }

  /**
   No flush for the answer to a check throws.  Only the code of answer and cancel
   callbacks matters, since no other callback can change anything.
   */
  predicate Quiet(script: Script) { script.Then? ==> QuietAction(script.action) && Quiet(script.rest) }

  predicate QuietAction(a: Action) {
    match a
    case CancelCheck(_, _, onCancel, _) => Quiet(onCancel)
    case Process(rounds) => QuietRounds(rounds)
    case _ => true
  }

  predicate QuietRounds(rounds: Rounds) { rounds.Round? ==> QuietReceiving(rounds.receiving) && QuietRounds(rounds.rest) }

  predicate QuietReceiving(receiving: Receiving) { receiving.Received? ==> QuietResponses(receiving.responses) }

  predicate QuietResponses(r: Responses) {
    r.Response? ==> (r.reply.CheckReply? ==> !FlushThrows(r.flush)) && Quiet(r.onAnswer) && QuietResponses(r.rest)
  }

  // ----- state -----

  datatype Request = CheckRequest(id: nat, key: PolicyKey) | SimpleRequest(id: nat, key: PolicyKey)
                   | CancelRequest(id: nat) | MonitorRequest

  /** A cached result and the connection on which it arrived. */
  datatype Entry = Entry(result: PolicyResult, epoch: nat)

  datatype Code = Success | NotAllowed | NotAvailable | MaxPending | InvalidParam | CacheMiss | CacheHit(entry: Entry) | Thrown

  datatype Status = Yes | No | Exception

  /** Everything but the flag that permits operations. */
  datatype Core = Core(
    checks: Checks, inAnswerCancel: bool, cache: map<PolicyKey, Entry>, queue: seq<Request>, epoch: nat,
    monitor: M.Log, accepted: nat, calls: seq<Call>, debts: Debts, finished: bool)

  /** What the callback of a check is told. */
  function ReplyCode(r: Responses): int
    requires r.Response?
  {
    if r.reply.SimpleReply? && r.reply.returnValue != 0 then r.reply.returnValue else r.verdict
  }

  /** Only successful answers are stored. */
  predicate Stores(r: Responses)
    requires r.Response?
  {
    r.reply.CheckReply? || (r.reply.SimpleReply? && r.reply.returnValue == 0)
  }

  ghost function Unused(checks: Checks): set<nat> { set n: nat | 0 <= n < S.Ids && n !in checks }

  lemma UnusedWithout(checks: Checks, id: nat)
    requires id < S.Ids
    ensures Unused(checks - {id}) == Unused(checks) + {id}
  {
  }

  function RequestFor(id: nat, data: CheckData): Request {
    if data.simple then SimpleRequest(id, data.key) else CheckRequest(id, data.key)
  }

  /** The requests for the checks with an id below `n`, in ascending order of id. */
  function Resend(checks: Checks, n: nat): seq<Request> {
    if n == 0 then []
    else if n - 1 in checks then Resend(checks, n - 1) + [RequestFor(n - 1, checks[n - 1])]
    else Resend(checks, n - 1)
  }

  lemma ResendStep(checks: Checks, n: nat)
    ensures Resend(checks, n + 1) ==
            Resend(checks, n) + if n in checks then [RequestFor(n, checks[n])] else []
  {
  }

  /** A request of a check with an id below `n`, with the check's own key and kind. */
  predicate Requests(checks: Checks, n: nat, r: Request) {
    !r.MonitorRequest? && r.id < n && r.id in checks && r == RequestFor(r.id, checks[r.id])
  }

  /** Every check is queued exactly once, with its own id, key and kind, and nothing else is. */
  lemma {:induction false} ResendQueuesEachOnce(checks: Checks, n: nat, r: Request)
    ensures multiset(Resend(checks, n))[r] == if Requests(checks, n, r) then 1 else 0
    decreases n
  {
    if n > 0 {
      ResendQueuesEachOnce(checks, n - 1, r);
      ResendStep(checks, n - 1);
      var last := if n - 1 in checks then [RequestFor(n - 1, checks[n - 1])] else [];
      assert multiset(Resend(checks, n)) == multiset(Resend(checks, n - 1)) + multiset(last);
    }
  }

  /** The checks after the cancelled ones with an id below `n` have been dropped. */
  function LiveBelow(checks: Checks, n: nat): Checks {
    map id | id in checks && (id < n ==> !checks[id].cancelled) :: checks[id]
  }

  lemma LiveBelowStep(checks: Checks, n: nat)
    ensures n in checks <==> n in LiveBelow(checks, n)
    ensures n in checks ==> LiveBelow(checks, n)[n] == checks[n]
    ensures n in checks ==> (checks[n].cancelled <==> n !in Live(checks))
    ensures n in Live(checks) ==> n in checks && Live(checks)[n] == checks[n]
    ensures LiveBelow(checks, n + 1) ==
            if n in checks && checks[n].cancelled then LiveBelow(checks, n) - {n} else LiveBelow(checks, n)
  {
  }

  lemma LiveBelowEnds(checks: Checks)
    ensures LiveBelow(checks, 0) == checks
    ensures (forall id :: id in checks ==> id < S.Ids) ==> LiveBelow(checks, S.Ids) == Live(checks)
  {
  }

  class AsyncClient {
    const monitoring: bool
    const sequences: S.SequenceContainer
    var checks: Checks
    var operationPermitted: bool
    var inAnswerCancel: bool
    var cache: map<PolicyKey, Entry>
    var queue: seq<Request>
    var epoch: nat
    var monitor: M.Log
    var accepted: nat
    var finished: bool
    ghost var calls: seq<Call>
    ghost var debts: Debts

    ghost function State(): Core
      reads this
    {
      Core(checks, inAnswerCancel, cache, queue, epoch, monitor, accepted, calls, debts, finished)
    }

    /** The ids taken in the bitmap are exactly those of the pending checks. */
    ghost predicate BitmapAgrees()
      reads this, sequences.words
    {
      sequences.Valid() && sequences.Free() == Unused(checks)
    }

    ghost predicate Valid()
      reads this, sequences.words
    {
      && sequences.Valid()
      && (if finished then checks == map[] && debts.hand == {} else BitmapAgrees())
      && Accounted(checks, accepted, calls, debts)
      && (forall k :: k in cache ==> cache[k].epoch == epoch)
      && (!monitoring ==> debts.lost == {})
    }

    /** The client can be used: no operation of it is half done. */
    ghost predicate Ready()
      reads this, sequences.words
    {
      Valid() && !finished && debts.hand == {}
    }

    constructor (monitoring: bool)
      ensures this.monitoring == monitoring && Ready() && operationPermitted && !inAnswerCancel
      ensures accepted == 0 && calls == [] && debts.lost == {} && checks == map[] && monitor == M.Empty
      ensures fresh(sequences) && fresh(sequences.words)
    {
      this.monitoring := monitoring;
      sequences := new S.SequenceContainer();
      checks, cache, queue := map[], map[], [];
      operationPermitted, inAnswerCancel, finished := true, false, false;
      epoch, monitor, accepted, calls, debts := 0, M.Empty, 0, [], Debts({}, {});
      new;
      assert sequences.Free() == Unused(checks);
    }

    // ----- user code -----

    /**
     User code.  While operations are not permitted it cannot change anything;
     otherwise it leaves the client usable or, outside answer and cancel
     callbacks, finished.
     */
    method RunScript(script: Script)
      requires operationPermitted ==> Ready()
      modifies this, sequences.words
      ensures !old(operationPermitted) ==> unchanged(this) && unchanged(sequences.words)
      ensures old(operationPermitted) ==> Continued(old(State()))
      ensures old(operationPermitted) && !old(finished) ==> Ran(old(State()), script, State())
      ensures Quiet(script) ==> debts.lost == old(debts.lost)
      decreases script, 20
    {
      hide Accounted, Step, QuietAction;
      var rest := script;
      while rest.Then? && !finished
        invariant script nonincreases to rest
        invariant !old(operationPermitted) ==> unchanged(this) && unchanged(sequences.words)
        invariant old(operationPermitted) ==> Continued(old(State()))
        invariant old(operationPermitted) && !old(finished) ==>
                    forall after :: Ran(State(), rest, after) ==> Ran(old(State()), script, after)
        invariant Quiet(script) ==> Quiet(rest) && debts.lost == old(debts.lost)
        decreases rest
      {
        ghost var before := State();
        DoAction(rest.action);
        assert old(operationPermitted) ==>
                 forall after :: Ran(State(), rest.rest, after) ==> Ran(before, rest, after);
        rest := rest.rest;
      }
    }

    /** A script runs its actions one after the other, until the client is finished. */
    ghost predicate Ran(before: Core, script: Script, after: Core)
      decreases script
    {
      if script.Stop? || before.finished then after == before
      else exists middle :: Step(before, script.action, middle) && Ran(middle, script.rest, after)
    }

    /** What is said of single actions, beside the accounts they keep. */
    ghost predicate Step(before: Core, a: Action, after: Core) {
      match a
      case CheckCache(_, _, _, _, _, _) => !monitoring ==> after == before.(cache := CacheAfter(before.cache, a))
      case Create(_, _, _, link, _) => LinkStatus(link) == Yes ==> Created(before, a, after)
      case CancelCheck(_, link, _, _) => link == Connected ==> CancelledIt(before, a, after)
      case Process(rounds) => RanRounds(before, rounds, after)
      case FinishClient(_, _, _) => FinishedIt(before, a, after)
    }

    /** A look into the cache removes an entry that is not usable. */
    ghost function CacheAfter(cache: map<PolicyKey, Entry>, a: Action): map<PolicyKey, Entry>
      requires a.CheckCache?
    {
      if a.connected && !a.usable then cache - {a.key} else cache
    }

    /** The check stays, marked; the cancellation is queued, and the callback called. */
    ghost function Marked(before: Core, id: nat): Core
      requires id in before.checks
    {
      before.(checks := before.checks[id := before.checks[id].(cancelled := true)], queue := before.queue + [CancelRequest(id)],
              calls := before.calls + [Call(before.checks[id].token, id, Cancel)])
    }

    /** The first call made is that of the cancelled check; any other id changes nothing. */
    ghost predicate CancelledIt(before: Core, a: Action, after: Core)
      requires a.CancelCheck?
    {
      if a.id in before.checks && !before.checks[a.id].cancelled then
        && before.calls + [Call(before.checks[a.id].token, a.id, Cancel)] <= after.calls
        && (a.onCancel.Stop? ==> after == Marked(before, a.id))
      else after == before
    }

    /** Finish takes effect outside callbacks, unless flushing the monitor throws. */
    ghost predicate FinishedIt(before: Core, a: Action, after: Core)
      requires a.FinishClient?
    {
      if before.inAnswerCancel || (monitoring && a.flushThrows) then after == before
      else after == before.(checks := map[], calls := before.calls + Notices(before.checks, S.Ids, Finish), finished := true)
    }

    /** Cancelled checks may have been dropped by a reconnection. */
    ghost predicate Created(before: Core, a: Action, after: Core)
      requires a.Create?
    {
      && after.calls == before.calls && after.debts == before.debts && after.monitor == before.monitor
      && after.finished == before.finished && after.inAnswerCancel == before.inAnswerCancel
      && (a.link == Connected ==> after.cache == before.cache)
      && (CreatedFrom(before.checks, before, a, after) || CreatedFrom(Live(before.checks), before, a, after))
    }

    /** The check has the least free id, or none is free. */
    ghost predicate CreatedFrom(base: Checks, before: Core, a: Action, after: Core)
      requires a.Create?
    {
      if forall n :: 0 <= n < S.Ids ==> n in base then after.checks == base && after.accepted == before.accepted
      else
        exists id: nat :: id < S.Ids && id !in base && (forall n :: 0 <= n < id ==> n in base) &&
          after.accepted == before.accepted + 1 &&
          after.checks == base[id := CheckData(a.key, a.session, a.simple, false, before.accepted)] &&
          (a.link == Connected ==> after.queue == before.queue + [if a.simple then SimpleRequest(id, a.key) else CheckRequest(id, a.key)])
    }

    // ----- what responses do -----

    /** The entries of the monitor after the answer has been recorded. */
    ghost function Recorded(before: Core, r: Responses): M.Log
      requires r.Response? && r.id in before.checks
    {
      if monitoring then M.Updated(before.monitor, before.checks[r.id].key, r.verdict, r.flush.clock) else before.monitor
    }

    /** The answer makes a flush of the monitor due. */
    ghost predicate FlushIsDue(before: Core, r: Responses)
      requires r.Response? && r.id in before.checks
    {
      monitoring && M.ShouldFlush(Recorded(before, r))
    }

    /** What belongs to no check, or confirms a cancellation nobody asked for, is an error. */
    ghost predicate Rejected(before: Core, r: Responses)
      requires r.Response?
    {
      r.reply.OtherReply? || r.id !in before.checks || (r.reply.CancelReply? && !before.checks[r.id].cancelled)
    }

    /** A flush is due with the answer, and throws. */
    ghost predicate Throws(before: Core, r: Responses)
      requires r.Response?
    {
      r.reply.CheckReply? && r.id in before.checks && FlushIsDue(before, r) && FlushThrows(r.flush)
    }

    /** No flush is due, and no code runs that could do anything. */
    ghost predicate Settles(before: Core, r: Responses)
      requires r.Response?
    {
      && !Rejected(before, r) && (r.reply.CheckReply? ==> !FlushIsDue(before, r))
      && (r.reply.CancelReply? || before.checks[r.id].cancelled || r.onAnswer.Stop?)
    }

    /** The call that is due for a response, if there is one. */
    ghost function CallFor(checks: Checks, r: Responses): seq<Call>
      requires r.Response? && r.id in checks
    {
      if r.reply.CancelReply? || checks[r.id].cancelled then [] else [Call(checks[r.id].token, r.id, Answer(ReplyCode(r)))]
    }

    /** The check is gone, its callback is the one call made, and nothing else happens to the client. */
    ghost predicate SettledIt(before: Core, r: Responses, after: Core)
      requires r.Response? && r.id in before.checks
    {
      && after == before.(checks := before.checks - {r.id}, calls := before.calls + CallFor(before.checks, r),
                          cache := after.cache, monitor := after.monitor, debts := after.debts)
      && after.debts.lost == before.debts.lost
      && after.monitor == (if r.reply.CheckReply? then Recorded(before, r) else before.monitor)
      && (Stores(r) && r.cached ==> var key := before.checks[r.id].key; key in after.cache && after.cache[key].result == r.result)
      && (!Stores(r) ==> after.cache == before.cache)
    }

    /** The check is gone, nobody has been called, and nobody ever will be. */
    ghost predicate LostIt(before: Core, id: nat, after: Core) {
      && id in before.checks
      && after.checks == before.checks - {id} && after.calls == before.calls && after.accepted == before.accepted
      && (!before.checks[id].cancelled ==> after.debts.lost == before.debts.lost + {before.checks[id].token})
      && after.finished == before.finished && after.inAnswerCancel == before.inAnswerCancel
    }

    /** One response.  An error ends the processing; otherwise the answer reaches its check. */
    ghost predicate HandledBy(before: Core, r: Responses, status: Status, after: Core)
      requires r.Response?
    {
      && after.finished == before.finished && after.inAnswerCancel == before.inAnswerCancel && before.calls <= after.calls
      && (status == if Rejected(before, r) || Throws(before, r) then Exception else Yes)
      && (Rejected(before, r) ==> after == before)
      && (Throws(before, r) ==> LostIt(before, r.id, after))
      && (status == Yes ==> forall call :: call in CallFor(before.checks, r) ==> call in after.calls[|before.calls|..])
      && (status == Yes && !r.reply.CheckReply? ==> before.calls + CallFor(before.checks, r) <= after.calls)
      && (Settles(before, r) ==> SettledIt(before, r, after))
    }

    /** All responses, one after the other, each in the state its predecessor left, up to the first error. */
    ghost predicate RanResponses(before: Core, rs: Responses, status: Status, after: Core)
      decreases rs
    {
      if rs.NoResponse? then status == Yes && after == before
      else exists s, middle ::
        && HandledBy(before, rs, s, middle)
        && if s == Exception then status == Exception && after == middle else RanResponses(middle, rs.rest, status, after)
    }

    /** A connection that was lost is dialled again. */
    ghost predicate Redialled(before: Core, dial: Dial, again: bool, after: Core) {
      && again == (DialStatus(dial) == Yes)
      && after == match DialStatus(dial)
                  case Yes => before.(cache := map[], checks := Live(before.checks),
                                      queue := Resend(Live(before.checks), S.Ids), epoch := before.epoch + 1)
                  case No => NotAvailableTo(before)
                  case Exception => before.(cache := map[])
    }

    /** Everybody has been told that the service is gone. */
    ghost function NotAvailableTo(before: Core): Core {
      before.(cache := map[], checks := map[], queue := [],
              calls := before.calls + Notices(before.checks, S.Ids, ServiceNotAvailable))
    }

    /** One round of `process`: complete the connection, send, receive, and dial again if the connection is lost. */
    ghost predicate RanRound(before: Core, round: Rounds, again: bool, after: Core)
      requires round.Round?
    {
      match round.completion
      case StillConnecting => !again && after == before
      case CompletionThrows => !again && after == before
      case Refused(_, _) => !again && after == NotAvailableTo(before)
      case _ =>
        if round.sending.SendThrows? then !again && after == before
        else if round.sending.SendLost? || round.receiving.ReceiveLost? then Redialled(before, round.dial, again, after)
        else if round.receiving.ReceiveThrows? then !again && after == before
        else !again && exists status :: RanResponses(before, round.receiving.responses, status, after)
    }

    ghost predicate RanRounds(before: Core, rounds: Rounds, after: Core)
      decreases rounds
    {
      if rounds.NoRound? then after == before
      else exists again, middle ::
        RanRound(before, rounds, again, middle) && if again then RanRounds(middle, rounds.rest, after) else after == middle
    }

    /** What holds after an operation that began in `before`. */
    ghost predicate Continued(before: Core)
      reads this, sequences.words
    {
      && Valid() && debts.hand == {}
      && (finished || operationPermitted)
      && inAnswerCancel == before.inAnswerCancel
      && (before.inAnswerCancel ==> !finished)
      && before.accepted <= accepted && before.calls <= calls && before.debts.lost <= debts.lost
    }

    method DoAction(a: Action)
      requires !finished && (operationPermitted ==> Ready())
      modifies this, sequences.words
      ensures !old(operationPermitted) ==> unchanged(this) && unchanged(sequences.words)
      ensures old(operationPermitted) ==> Continued(old(State())) && Step(old(State()), a, State())
      ensures QuietAction(a) ==> debts.lost == old(debts.lost)
      decreases a, 19
    {
      hide Accounted, Created, RanRounds, CancelledIt, FinishedIt, CacheAfter, Quiet, QuietRounds;
      match a
      case CheckCache(_, _, _, _, _, _) => var _ := CheckCacheFor(a);
      case Create(_, _, _, _, _) => var _, _ := CreateRequest(a);
      case CancelCheck(_, _, _, _) => var _ := CancelPending(a);
      case Process(rounds) => var _ := ProcessRounds(rounds);
      case FinishClient(_, _, _) => var _ := FinishAll(a);
    }

    // ----- callbacks during which nothing is permitted -----

    method OnStatusChange(script: Script)
      modifies this, sequences.words
      ensures operationPermitted && State() == old(State()) && unchanged(sequences.words)
      decreases script, 21
    {
      operationPermitted := false;
      RunScript(script);
      operationPermitted := true;
    }

    method OnDisconnected(script: Script)
      modifies this, sequences.words
      ensures operationPermitted && State() == old(State()).(cache := map[]) && unchanged(sequences.words)
      decreases script, 21
    {
      operationPermitted := false;
      cache := map[];
      RunScript(script);
      operationPermitted := true;
    }

    /** Calls back every live check, in the order of their ids; operations are not permitted. */
    method NotifyPending(scripts: Scripts, cause: Cause)
      requires !operationPermitted
      modifies this, sequences.words
      ensures !operationPermitted && unchanged(sequences.words)
      ensures State() == old(State()).(calls := old(calls) + Notices(old(checks), S.Ids, cause))
      decreases scripts, 14
    {
      var rest := scripts;
      for id := 0 to S.Ids
        invariant scripts nonincreases to rest
        invariant !operationPermitted && unchanged(sequences.words)
        invariant State() == old(State()).(calls := old(calls) + Notices(old(checks), id, cause))
      {
        if id in checks && !checks[id].cancelled {
          calls := calls + [Call(checks[id].token, id, cause)];
          if rest.OneOf? {
            RunScript(rest.script);
            rest := rest.rest;
          }
        }
      }
    }

    method OnServiceNotAvailable(scripts: Scripts)
      requires Valid() && !finished
      modifies this, sequences.words
      ensures Valid() && operationPermitted
      ensures State() == old(State()).(checks := map[],
                           calls := old(calls) + Notices(old(checks), S.Ids, ServiceNotAvailable))
      decreases scripts, 15
    {
      NotifyAll(checks, accepted, calls, debts, ServiceNotAvailable);
      operationPermitted := false;
      NotifyPending(scripts, ServiceNotAvailable);
      checks := map[];
      sequences.Clear();
      assert sequences.Free() == Unused(checks);
      operationPermitted := true;
    }

    // ----- connecting -----

    /** Frees a cancelled check, or queues a live one again. */
    method PrepareOne(id: nat)
      requires BitmapAgrees() && id < S.Ids
      modifies this, sequences.words
      ensures BitmapAgrees() && operationPermitted == old(operationPermitted)
      ensures id !in old(checks) ==> State() == old(State())
      ensures id in old(checks) && old(checks)[id].cancelled ==> State() == old(State()).(checks := old(checks) - {id})
      ensures id in old(checks) && !old(checks)[id].cancelled ==>
                State() == old(State()).(queue := old(queue) + [RequestFor(id, old(checks)[id])])
    {
      if id in checks {
        if checks[id].cancelled {
          var taken := sequences.Release(id);
          UnusedWithout(checks, id);
          checks := checks - {id};
        } else {
          queue := queue + [RequestFor(id, checks[id])];
        }
      }
    }

    /** Cancelled checks are dropped and their ids freed; every other check is queued again. */
    method PrepareRequestsToSend()
      requires Valid() && !finished
      modifies this, sequences.words
      ensures Valid() && operationPermitted == old(operationPermitted)
      ensures State() == old(State()).(checks := Live(old(checks)), queue := old(queue) + Resend(Live(old(checks)), S.Ids))
    {
      ghost var all, live := checks, Live(checks);
      DropCancelled(checks, accepted, calls, debts);
      LiveBelowEnds(all);
      assert Resend(live, 0) == [] && queue + [] == queue;
      hide Accounted, RequestFor, Unused, LiveBelow, Live, Resend;
      for id := 0 to S.Ids
        invariant BitmapAgrees() && operationPermitted == old(operationPermitted)
        invariant State() == old(State()).(checks := LiveBelow(all, id), queue := old(queue) + Resend(live, id))
      {
        LiveBelowStep(all, id);
        ResendStep(live, id);
        PrepareOne(id);
      }
    }

    /**
     A new connection starts with an empty queue and, because every caller has
     just cleared it, an empty cache.
     */
    method Connect(dial: Dial) returns (r: Status)
      requires Valid() && !finished && cache == map[] && operationPermitted
      modifies this, sequences.words
      ensures Valid() && operationPermitted
      ensures r == Yes ==> State() == old(State()).(checks := Live(old(checks)),
                             queue := Resend(Live(old(checks)), S.Ids), epoch := old(epoch) + 1)
      ensures r == No ==> State() == old(State()).(checks := map[], queue := [],
                            calls := old(calls) + Notices(old(checks), S.Ids, ServiceNotAvailable))
      ensures r == Exception ==> State() == old(State()) && unchanged(sequences.words)
      ensures r == DialStatus(dial)
      decreases dial, 16
    {
      hide Accounted, Notices, Live, Unused, Resend;
      match dial.outcome
      case DialThrows =>
        return Exception;
      case Failed =>
        queue := [];
        OnServiceNotAvailable(dial.onGone);
        return No;
      case _ =>
        queue, epoch := [], epoch + 1;
        PrepareRequestsToSend();
        assert [] + Resend(Live(old(checks)), S.Ids) == Resend(Live(old(checks)), S.Ids);
        OnStatusChange(dial.onChange);
        return Yes;
    }

    /** The three ways a look at the connection can end. */
    ghost predicate Dialled(before: Core, r: Status)
      reads this, sequences.words
    {
      && Valid() && operationPermitted && !finished
      && inAnswerCancel == before.inAnswerCancel && accepted == before.accepted && debts == before.debts
      && monitor == before.monitor
      && (r == Yes ==> calls == before.calls && (checks == before.checks || checks == Live(before.checks)))
      && (r == No ==> checks == map[] && calls == before.calls + Notices(before.checks, S.Ids, ServiceNotAvailable))
      && (r == Exception ==> calls == before.calls && checks == before.checks)
    }

    method EnsureConnection(link: Link) returns (r: Status)
      requires Valid() && !finished && operationPermitted
      modifies this, sequences.words
      ensures Dialled(old(State()), r)
      ensures link == LinkThrows ==> r == Exception && State() == old(State())
      ensures link == Connected ==> r == Yes && State() == old(State())
      ensures r == LinkStatus(link)
      decreases link, 17
    {
      match link
      case Connected => return Yes;
      case LinkThrows => return Exception;
      case Lost(onLost, dial) =>
        OnDisconnected(onLost);
        r := Connect(dial);
    }

    /** Entries are dropped once their request is queued; a flush throws exactly if looking at the connection does. */
    method FlushMonitor(flush: Flush) returns (r: Status)
      requires Valid() && !finished && operationPermitted && monitoring && monitor.entries != []
      modifies this, sequences.words
      ensures Valid() && operationPermitted && !finished && r != No
      ensures inAnswerCancel == old(inAnswerCancel) && accepted == old(accepted) && debts == old(debts)
      ensures old(calls) <= calls
      ensures monitor == if LinkStatus(flush.link) == Yes then M.Empty else old(monitor)
      ensures flush.link == Connected ==>
                State() == old(State()).(monitor := M.Empty, queue := old(queue) + [MonitorRequest])
      ensures r == Exception <==> FlushThrows(flush)
      ensures r == Exception ==> checks == old(checks) && calls == old(calls)
      decreases flush, 18
    {
      r := EnsureConnection(flush.link);
      match r
      case Exception =>
      case No => r := Yes;
      case Yes =>
        queue := queue + [MonitorRequest];
        OnStatusChange(flush.onChange);
        monitor := M.Empty;
    }

    /** Does nothing without monitoring; otherwise it records the result and may flush, and that may throw. */
    method UpdateMonitor(key: PolicyKey, result: int, flush: Flush) returns (r: Status)
      requires Valid() && !finished && operationPermitted
      modifies this, sequences.words
      ensures Valid() && operationPermitted && !finished && r != No
      ensures inAnswerCancel == old(inAnswerCancel) && accepted == old(accepted) && debts == old(debts)
      ensures old(calls) <= calls
      ensures !monitoring ==> r == Yes && State() == old(State())
      ensures var log := M.Updated(old(monitor), key, result, flush.clock);
              && (r == Exception <==> monitoring && M.ShouldFlush(log) && FlushThrows(flush))
              && (monitoring && !M.ShouldFlush(log) ==> State() == old(State()).(monitor := log))
      ensures r == Exception ==> checks == old(checks) && calls == old(calls)
      decreases flush, 19
    {
      if !monitoring {
        return Yes;
      }
      monitor := M.Updated(monitor, key, result, flush.clock);
      if !M.ShouldFlush(monitor) {
        return Yes;
      }
      r := FlushMonitor(flush);
    }

    // ----- the operations -----

    /** An answer from the cache arrived on the current connection. */
    method CheckCacheFor(a: Action) returns (code: Code)
      requires a.CheckCache? && !finished && (operationPermitted ==> Ready())
      modifies this, sequences.words
      ensures !old(operationPermitted) ==> unchanged(this) && unchanged(sequences.words)
      ensures old(operationPermitted) ==> Continued(old(State()))
      ensures code.CacheHit? ==> old(operationPermitted) && a.connected && a.key in old(cache) &&
                                 code.entry == old(cache)[a.key] && code.entry.epoch == old(epoch)
      ensures old(operationPermitted) && code != Thrown ==>
                if a.connected && a.key in old(cache) && a.usable then code == CacheHit(old(cache)[a.key]) else code == CacheMiss
      ensures code == Thrown ==> monitoring && (FlushThrows(a.onHit) || FlushThrows(a.flush))
      ensures old(operationPermitted) && !monitoring ==> State() == old(State()).(cache := CacheAfter(old(cache), a))
      ensures debts == old(debts)
      decreases a, 18
    {
      if !operationPermitted {
        return NotAllowed;
      }
      if !a.connected {
        return CacheMiss;
      }
      if a.key !in cache {
        code := CacheMiss;
      } else if a.usable {
        code := CacheHit(cache[a.key]);
      } else {
        cache := cache - {a.key};
        code := CacheMiss;
      }
      if monitoring {
        if code.CacheHit? {
          var hit := UpdateMonitor(a.key, a.verdict, a.onHit);
          if hit == Exception {
            return Thrown;
          }
        }
        if M.ShouldFlush(monitor) {
          var r := FlushMonitor(a.flush);
          if r == Exception {
            return Thrown;
          }
        }
      }
    }

    /**
     A new request takes the least free id, which no pending check has.  It is
     refused for want of ids only when all of them are pending.
     */
    method CreateRequest(a: Action) returns (code: Code, id: nat)
      requires a.Create? && !finished && (operationPermitted ==> Ready())
      modifies this, sequences.words
      ensures !old(operationPermitted) ==> unchanged(this) && unchanged(sequences.words) && code == NotAllowed
      ensures old(operationPermitted) ==> Continued(old(State())) && !finished
      ensures code == Success ==> accepted == old(accepted) + 1 && id < S.Ids && id in checks &&
                                  checks[id] == CheckData(a.key, a.session, a.simple, false, old(accepted)) &&
                                  (a.link == Connected ==> id !in old(checks) && calls == old(calls))
      ensures code != Success ==> accepted == old(accepted)
      ensures code == MaxPending ==> forall n :: 0 <= n < S.Ids ==> n in checks
      ensures old(operationPermitted) && a.link == Connected ==>
                code == Success || (code == MaxPending && checks == old(checks))
      ensures old(operationPermitted) && LinkStatus(a.link) == Yes ==> Created(old(State()), a, State())
      ensures debts == old(debts)
      decreases a, 18
    {
      hide Accounted, Live, Notices, Unused;
      id := 0;
      if !operationPermitted {
        return NotAllowed, 0;
      }
      var r := EnsureConnection(a.link);
      if r == Exception {
        return Thrown, 0;
      }
      if r == No {
        return NotAvailable, 0;
      }
      ghost var base := checks;
      var ok;
      ok, id := TakeId(a.key, a.session, a.simple);
      assert base == old(checks) || base == Live(old(checks));
      if !ok {
        return MaxPending, 0;
      }
      OnStatusChange(a.onChange);
      code := Success;
    }

    /** Registers and queues a check under the least free id. */
    method TakeId(key: PolicyKey, session: string, simple: bool) returns (ok: bool, id: nat)
      requires Valid() && !finished
      modifies this, sequences.words
      ensures Valid() && operationPermitted == old(operationPermitted)
      ensures ok ==> id < S.Ids && id !in old(checks) && (forall n :: 0 <= n < id ==> n in old(checks))
      ensures ok ==> var data := CheckData(key, session, simple, false, old(accepted));
                     State() == old(State()).(checks := old(checks)[id := data], accepted := old(accepted) + 1,
                                              queue := old(queue) + [RequestFor(id, data)])
      ensures !ok ==> State() == old(State()) && forall n :: 0 <= n < S.Ids ==> n in checks
    {
      ok, id := sequences.Get();
      if !ok {
        forall n | 0 <= n < S.Ids ensures n in checks { assert n !in Unused(checks); }
        return;
      }
      forall n | 0 <= n < id ensures n in checks { assert n !in Unused(checks); }
      var data := CheckData(key, session, simple, false, accepted);
      Accept(checks, accepted, calls, debts, id, data);
      checks, accepted := checks[id := data], accepted + 1;
      assert sequences.Free() == Unused(checks);
      queue := queue + [RequestFor(id, data)];
    }

    method CancelPending(a: Action) returns (code: Code)
      requires a.CancelCheck? && !finished && (operationPermitted ==> Ready())
      modifies this, sequences.words
      ensures !old(operationPermitted) ==> unchanged(this) && unchanged(sequences.words)
      ensures old(operationPermitted) ==> Continued(old(State())) && !finished
      ensures old(operationPermitted) && a.cancelLink == Connected ==>
                if a.id in old(checks) && !old(checks)[a.id].cancelled then
                  code == Success && old(calls) + [Call(old(checks)[a.id].token, a.id, Cancel)] <= calls
                else code == InvalidParam && State() == old(State())
      ensures old(operationPermitted) && a.cancelLink == Connected ==> CancelledIt(old(State()), a, State())
      ensures Quiet(a.onCancel) ==> debts.lost == old(debts.lost)
      decreases a, 18
    {
      hide Quiet, Accounted, Live, Notices, RequestFor, Unused, Ran, DialStatus, LinkStatus;
      if !operationPermitted {
        return NotAllowed;
      }
      var r := EnsureConnection(a.cancelLink);
      if r == Exception {
        return Thrown;
      }
      if r == No {
        return NotAvailable;
      }
      if a.id !in checks || checks[a.id].cancelled {
        return InvalidParam;
      }
      CallCancel(a);
      code := Success;
    }

    /** The cancel callback and its code. */
    method CallCancel(a: Action)
      requires a.CancelCheck? && Ready() && operationPermitted && a.id in checks && !checks[a.id].cancelled
      modifies this, sequences.words
      ensures Continued(old(State())) && !finished
      ensures old(calls) + [Call(old(checks)[a.id].token, a.id, Cancel)] <= calls
      ensures a.onCancel.Stop? ==> State() == Marked(old(State()), a.id)
      ensures Quiet(a.onCancel) ==> debts.lost == old(debts.lost)
      decreases a, 17
    {
      hide Quiet, Accounted, Live, Notices, RequestFor, Unused;
      MarkCancelled(a.id);
      var onAnswerCancel := inAnswerCancel;
      inAnswerCancel := true;
      RunScript(a.onCancel);
      inAnswerCancel := onAnswerCancel;
      OnStatusChange(a.onChange);
    }

    /** The cancellation is queued, and the call made for it is the only one the check will get. */
    method MarkCancelled(id: nat)
      requires Valid() && !finished && id in checks && !checks[id].cancelled
      modifies this
      ensures Valid() && operationPermitted == old(operationPermitted)
      ensures State() == old(State()).(checks := old(checks)[id := old(checks)[id].(cancelled := true)],
                queue := old(queue) + [CancelRequest(id)], calls := old(calls) + [Call(old(checks)[id].token, id, Cancel)])
    {
      queue := queue + [CancelRequest(id)];
      CancelCalls(checks, accepted, calls, debts, id);
      calls := calls + [Call(checks[id].token, id, Cancel)];
      checks := checks[id := checks[id].(cancelled := true)];
      assert sequences.Free() == Unused(checks);
    }

    /** Finish is ignored inside callbacks, and given up if flushing the monitor throws. */
    method FinishAll(a: Action) returns (code: Code)
      requires a.FinishClient? && !finished && (operationPermitted ==> Ready())
      modifies this, sequences.words
      ensures !old(operationPermitted) ==> unchanged(this) && unchanged(sequences.words)
      ensures old(operationPermitted) ==> Continued(old(State()))
      ensures finished <==> old(operationPermitted) && !old(inAnswerCancel) && !(monitoring && a.flushThrows)
      ensures debts == old(debts) && accepted == old(accepted)
      ensures finished ==> checks == map[] && calls == old(calls) + Notices(old(checks), S.Ids, Finish)
      ensures old(operationPermitted) ==> FinishedIt(old(State()), a, State())
      decreases a, 18
    {
      if !operationPermitted || inAnswerCancel {
        return NotAllowed;
      }
      if monitoring && a.flushThrows {
        return Thrown;
      }
      NotifyAll(checks, accepted, calls, debts, Finish);
      operationPermitted := false;
      NotifyPending(a.onFinish, Finish);
      RunScript(a.onStatus);
      checks, finished := map[], true;
      code := Success;
    }

    // ----- processing responses -----

    method ReleaseRequest(id: nat)
      requires Valid() && !finished && id in checks && debts.hand == {}
      modifies this, sequences.words
      ensures Valid() && operationPermitted == old(operationPermitted)
      ensures State() == old(State()).(checks := old(checks) - {id},
                debts := Debts(if old(checks)[id].cancelled then {} else {old(checks)[id].token}, old(debts).lost))
    {
      Release(checks, accepted, calls, debts.lost, id);
      debts := Debts(if checks[id].cancelled then {} else {checks[id].token}, debts.lost);
      var taken := sequences.Release(id);
      checks := checks - {id};
      assert sequences.Free() == Unused(checks);
    }

    method UpdateCache(key: PolicyKey, result: PolicyResult, cached: bool, evicted: set<PolicyKey>)
      requires Valid() && !finished
      modifies this
      ensures Valid() && State() == old(State()).(cache := cache) && operationPermitted == old(operationPermitted)
      ensures if cached then key in cache && cache[key] == Entry(result, epoch) else key !in cache
      ensures forall k :: k in cache && k != key ==> k in old(cache) && cache[k] == old(cache)[k]
    {
      cache := cache - evicted;
      cache := if cached then cache[key := Entry(result, epoch)] else cache - {key};
    }

    /** The callback of an answered check; cancelled checks have had theirs. */
    method CallAnswer(id: nat, data: CheckData, response: int, script: Script)
      requires Valid() && !finished && operationPermitted
      requires debts.hand == if data.cancelled then {} else {data.token}
      modifies this, sequences.words
      ensures Continued(old(State())) && !finished
      ensures data.cancelled ==> State() == old(State())
      ensures !data.cancelled ==> old(calls) + [Call(data.token, id, Answer(response))] <= calls
      ensures !data.cancelled && script.Stop? ==>
                State() == old(State()).(debts := Debts({}, old(debts).lost),
                                         calls := old(calls) + [Call(data.token, id, Answer(response))])
      ensures Quiet(script) ==> debts.lost == old(debts.lost)
      decreases script, 21
    {
      if !data.cancelled {
        AnswerCalls(checks, accepted, calls, debts.lost, Call(data.token, id, Answer(response)));
        debts := Debts({}, debts.lost);
        calls := calls + [Call(data.token, id, Answer(response))];
        var onAnswerCancel := inAnswerCancel;
        inAnswerCancel := true;
        RunScript(script);
        inAnswerCancel := onAnswerCancel;
      }
    }

    /** The answer is stored, and the request released. */
    method TakeAnswer(r: Responses)
      requires r.Response? && r.id in checks && Valid() && !finished && debts.hand == {}
      modifies this, sequences.words
      ensures Valid() && operationPermitted == old(operationPermitted)
      ensures State() == old(State()).(checks := old(checks) - {r.id}, cache := cache,
                debts := Debts(if old(checks)[r.id].cancelled then {} else {old(checks)[r.id].token}, old(debts).lost))
      ensures r.cached ==> var key := old(checks)[r.id].key; key in cache && cache[key].result == r.result
    {
      hide Accounted;
      UpdateCache(checks[r.id].key, r.result, r.cached, r.evicted);
      ReleaseRequest(r.id);
    }

    /** An exception drops the answer at hand. */
    ghost method LoseHand()
      requires Valid() && !finished && monitoring
      modifies `debts
      ensures Valid() && State() == old(State()).(debts := Debts({}, old(debts).lost + old(debts).hand))
    {
      Lose(checks, accepted, calls, debts);
      debts := Debts({}, debts.lost + debts.hand);
    }

    /**
     The answer to a check.  The request is released first, and if the monitor
     flush throws after that, its callback is never called.
     */
    method ProcessCheckResponse(r: Responses) returns (status: Status)
      requires r.Response? && r.reply.CheckReply? && Ready() && operationPermitted
      modifies this, sequences.words
      ensures Continued(old(State())) && !finished && HandledBy(old(State()), r, status, State())
      ensures QuietResponses(r) ==> debts.lost == old(debts.lost)
      decreases r, 15
    {
      hide Accounted, Notices, Live, Unused, Quiet, M.Updated, M.ShouldFlush, FlushThrows, BitmapAgrees;
      if r.id !in checks {
        return Exception;
      }
      var data := checks[r.id];
      TakeAnswer(r);
      status := UpdateMonitor(data.key, r.verdict, r.flush);
      if status == Exception {
        LoseHand();
        return;
      }
      ghost var n := |calls|;
      CallAnswer(r.id, data, r.verdict, r.onAnswer);
      assert !data.cancelled ==> calls[n] == Call(data.token, r.id, Answer(r.verdict));
    }

    /** A simple check is answered without the monitor; only a successful one is cached. */
    method ProcessSimpleResponse(r: Responses) returns (status: Status)
      requires r.Response? && r.reply.SimpleReply? && Ready() && operationPermitted
      modifies this, sequences.words
      ensures Continued(old(State())) && !finished && HandledBy(old(State()), r, status, State())
      ensures QuietResponses(r) ==> debts.lost == old(debts.lost)
      decreases r, 15
    {
      hide Accounted, Notices, Live, Unused, Quiet, BitmapAgrees, FlushThrows;
      if r.id !in checks {
        return Exception;
      }
      var data := checks[r.id];
      var result := r.reply.returnValue;
      if result == 0 {
        TakeAnswer(r);
        result := r.verdict;
      } else {
        ReleaseRequest(r.id);
      }
      ghost var n := |calls|;
      CallAnswer(r.id, data, result, r.onAnswer);
      assert !data.cancelled ==> calls[n] == Call(data.token, r.id, Answer(result));
      status := Yes;
    }

    /** Only a cancelled check may be confirmed as cancelled. */
    method ProcessCancelResponse(r: Responses) returns (status: Status)
      requires r.Response? && r.reply.CancelReply? && Ready() && operationPermitted
      modifies this, sequences.words
      ensures Continued(old(State())) && !finished && HandledBy(old(State()), r, status, State())
      ensures debts == old(debts)
    {
      hide Accounted, Notices, Live, Unused;
      if r.id !in checks || !checks[r.id].cancelled {
        return Exception;
      }
      ReleaseRequest(r.id);
      status := Yes;
    }

    /** One response, by its kind. */
    method ProcessResponse(r: Responses) returns (status: Status)
      requires r.Response? && Ready() && operationPermitted
      modifies this, sequences.words
      ensures Continued(old(State())) && !finished && status != No
      ensures HandledBy(old(State()), r, status, State())
      ensures QuietResponses(r) ==> debts.lost == old(debts.lost)
      decreases r, 16
    {
      hide Quiet, LostIt, SettledIt, Accounted, Notices, Live, Unused;
      match r.reply {
        case CheckReply => status := ProcessCheckResponse(r);
        case SimpleReply(_) => status := ProcessSimpleResponse(r);
        case CancelReply => status := ProcessCancelResponse(r);
        case OtherReply => status := Exception;
      }
    }

    /** Every response is handled, up to the first that is an error. */
    method ProcessResponses(responses: Responses) returns (status: Status)
      requires Ready() && operationPermitted
      modifies this, sequences.words
      ensures Continued(old(State())) && !finished && status != No
      ensures RanResponses(old(State()), responses, status, State())
      ensures QuietResponses(responses) ==> debts.lost == old(debts.lost)
      decreases responses, 17
    {
      hide Accounted, HandledBy, Quiet;
      var rest := responses;
      while rest.Response?
        invariant responses nonincreases to rest
        invariant Continued(old(State())) && !finished
        invariant forall s, after :: RanResponses(State(), rest, s, after) ==> RanResponses(old(State()), responses, s, after)
        invariant QuietResponses(responses) ==> QuietResponses(rest) && debts.lost == old(debts.lost)
        decreases rest
      {
        ghost var before := State();
        status := ProcessResponse(rest);
        if status == Exception {
          assert RanResponses(before, rest, Exception, State());
          return;
        }
        assert forall s, after :: RanResponses(State(), rest.rest, s, after) ==> RanResponses(before, rest, s, after);
        rest := rest.rest;
      }
      status := Yes;
    }

    /** One round: `Yes` and `Exception` end the loop, `No` means that the connection is gone. */
    method ProcessOut(sending: Sending) returns (status: Status)
      requires Ready() && operationPermitted
      modifies this, sequences.words
      ensures Continued(old(State())) && !finished && State() == old(State())
      ensures sending.AllSent? || sending.PartlySent? <==> status == Yes
      ensures sending.SendLost? <==> status == No
      decreases sending, 16
    {
      match sending
      case AllSent(onChange) => OnStatusChange(onChange); status := Yes;
      case PartlySent => status := Yes;
      case SendLost => status := No;
      case SendThrows => status := Exception;
    }

    method ProcessIn(receiving: Receiving) returns (status: Status)
      requires Ready() && operationPermitted
      modifies this, sequences.words
      ensures Continued(old(State())) && !finished
      ensures if receiving.Received? then status != No && RanResponses(old(State()), receiving.responses, status, State())
              else State() == old(State()) && status == (if receiving.ReceiveLost? then No else Exception)
      ensures QuietReceiving(receiving) ==> debts.lost == old(debts.lost)
      decreases receiving, 18
    {
      match receiving
      case ReceiveThrows => status := Exception;
      case ReceiveLost => status := No;
      case Received(responses) => status := ProcessResponses(responses);
    }

    /** `No` if the connection is not complete, in which case `process` returns. */
    method CompleteConnection(completion: Completion) returns (completed: bool, code: Code)
      requires Ready() && operationPermitted
      modifies this, sequences.words
      ensures Continued(old(State())) && !finished
      ensures completed == (completion.AlreadyConnected? || completion.NowConnected?)
      ensures State() == if completion.Refused? then NotAvailableTo(old(State())) else old(State())
      ensures debts == old(debts)
      decreases completion, 16
    {
      match completion
      case AlreadyConnected => return true, Success;
      case NowConnected(onChange) => OnStatusChange(onChange); return true, Success;
      case StillConnecting => return false, Success;
      case CompletionThrows => return false, Thrown;
      case Refused(onLost, onGone) =>
        queue := [];
        OnDisconnected(onLost);
        OnServiceNotAvailable(onGone);
        return false, NotAvailable;
    }

    /** One round; there is another one after a lost connection has been established again. */
    method ProcessRound(round: Rounds) returns (again: bool, code: Code)
      requires round.Round? && Ready() && operationPermitted
      modifies this, sequences.words
      ensures Continued(old(State())) && !finished && operationPermitted
      ensures RanRound(old(State()), round, again, State())
      ensures QuietReceiving(round.receiving) ==> debts.lost == old(debts.lost)
      decreases round, 19
    {
      hide Accounted, Live, Notices, Unused, RanResponses, Resend, QuietReceiving;
      var completed;
      completed, code := CompleteConnection(round.completion);
      if !completed {
        return false, code;
      }
      var status := ProcessOut(round.sending);
      if status == Yes {
        status := ProcessIn(round.receiving);
      }
      if status == Yes {
        return false, Success;
      }
      if status == Exception {
        return false, Thrown;
      }
      OnDisconnected(round.onLost);
      status := Connect(round.dial);
      if status == No {
        return false, NotAvailable;
      }
      if status == Exception {
        return false, Thrown;
      }
      return true, Success;
    }

    /** `process`: rounds until data has been exchanged, the service is gone or something throws. */
    method ProcessRounds(rounds: Rounds) returns (code: Code)
      requires !finished && (operationPermitted ==> Ready())
      modifies this, sequences.words
      ensures !old(operationPermitted) ==> unchanged(this) && unchanged(sequences.words)
      ensures old(operationPermitted) ==> Continued(old(State())) && !finished
      ensures old(operationPermitted) ==> RanRounds(old(State()), rounds, State())
      ensures QuietRounds(rounds) ==> debts.lost == old(debts.lost)
      decreases rounds, 20
    {
      hide Accounted, Live, Notices, Unused, RanResponses, Resend, QuietReceiving;
      if !operationPermitted {
        return NotAllowed;
      }
      var rest := rounds;
      while rest.Round?
        invariant rounds nonincreases to rest
        invariant Continued(old(State())) && !finished && operationPermitted
        invariant forall after :: RanRounds(State(), rest, after) ==> RanRounds(old(State()), rounds, after)
        invariant QuietRounds(rounds) ==> QuietRounds(rest) && debts.lost == old(debts.lost)
        decreases rest
      {
        ghost var before := State();
        var again;
        again, code := ProcessRound(rest);
        if !again {
          assert RanRounds(before, rest, State());
          return;
        }
        assert forall after :: RanRounds(State(), rest.rest, after) ==> RanRounds(before, rest, after);
        rest := rest.rest;
      }
      code := Success;
    }

    // ----- whole programs -----

    /**
     Exactly one callback for every accepted request, over any run that ends with
     a finished client: any responses, cancellations, losses of the connection
     and re-entrant calls.  With monitoring, the requests in `debts.lost` are the
     only exception; without it there are none.
     */
    method RunToFinish(program: Script)
      requires Ready() && operationPermitted && !inAnswerCancel
      modifies this, sequences.words
      ensures Valid() && (finished ==> forall t: nat :: t < accepted ==>
                Count(calls, t) == if t in debts.lost then 0 else 1)
      ensures finished && !monitoring ==> forall t: nat :: t < accepted ==> Count(calls, t) == 1
      ensures forall t: nat :: Count(calls, t) <= 1
    {
      RunScript(program);
    }
  }

  /**
   A new client, used by any program and then finished.  Without monitoring, or
   when no flush for the answer to a check throws, every request is called exactly
   once.
   */
  method UseClient(monitoring: bool, program: Script, last: Action) returns (c: AsyncClient)
    requires last.FinishClient?
    ensures c.Valid() && c.monitoring == monitoring
    ensures !monitoring || !last.flushThrows ==> c.finished
    ensures c.finished && (!monitoring || Quiet(program)) ==> forall t: nat :: t < c.accepted ==> Count(c.calls, t) == 1
    ensures c.finished ==> forall t: nat :: t < c.accepted ==> Count(c.calls, t) == if t in c.debts.lost then 0 else 1
  {
    c := new AsyncClient(monitoring);
    c.RunScript(program);
    if !c.finished {
      var _ := c.FinishAll(last);
    }
  }

  // ----- answers that arrive together -----

  /** Answers to distinct live checks, with callbacks that do nothing, none of which makes a flush due. */
  ghost predicate AllSettle(monitoring: bool, checks: Checks, log: M.Log, rs: Responses)
    decreases rs
  {
    rs.Response? ==>
      && (rs.reply.CheckReply? || rs.reply.SimpleReply?) && rs.onAnswer.Stop?
      && rs.id in checks && !checks[rs.id].cancelled
      && var recorded := if monitoring && rs.reply.CheckReply?
                         then M.Updated(log, checks[rs.id].key, rs.verdict, rs.flush.clock) else log;
         && (monitoring && rs.reply.CheckReply? ==> !M.ShouldFlush(recorded))
         && AllSettle(monitoring, checks - {rs.id}, recorded, rs.rest)
  }

  /** One answer for each of the responses, in their order. */
  ghost function CallsFor(checks: Checks, rs: Responses): seq<Call>
    decreases rs
  {
    if rs.NoResponse? || rs.id !in checks then []
    else [Call(checks[rs.id].token, rs.id, Answer(ReplyCode(rs)))] + CallsFor(checks - {rs.id}, rs.rest)
  }

  function IdsOf(rs: Responses): set<nat> { if rs.NoResponse? then {} else {rs.id} + IdsOf(rs.rest) }

  lemma OneIsAnswered(c: AsyncClient, before: Core, rs: Responses, status: Status, after: Core)
    requires rs.Response? && c.HandledBy(before, rs, status, after)
    requires AllSettle(c.monitoring, before.checks, before.monitor, rs)
    ensures status == Yes && after.checks == before.checks - {rs.id}
    ensures after.calls == before.calls + [Call(before.checks[rs.id].token, rs.id, Answer(ReplyCode(rs)))]
    ensures AllSettle(c.monitoring, after.checks, after.monitor, rs.rest)
  {
    hide M.Updated, M.ShouldFlush, FlushThrows, ReplyCode;
    assert c.Settles(before, rs);
  }

  /**
   Any number of answers to distinct live checks, delivered together, whose
   callbacks do nothing: exactly these answers are passed on, in their order, and
   exactly these checks are gone.
   */
  lemma {:induction false} AllAreAnswered(c: AsyncClient, before: Core, rs: Responses, status: Status, after: Core)
    requires c.RanResponses(before, rs, status, after) && AllSettle(c.monitoring, before.checks, before.monitor, rs)
    ensures status == Yes && after.calls == before.calls + CallsFor(before.checks, rs)
    ensures after.checks == before.checks - IdsOf(rs)
    decreases rs
  {
    hide AsyncClient.HandledBy, AllSettle, ReplyCode;
    if rs.NoResponse? {
      assert before.checks - {} == before.checks;
    } else {
      var s, middle :| c.HandledBy(before, rs, s, middle) &&
                       if s == Exception then status == Exception && after == middle
                       else c.RanResponses(middle, rs.rest, status, after);
      SettlesFirst(c.monitoring, before.checks, before.monitor, rs);
      OneIsAnswered(c, before, rs, s, middle);
      AllAreAnswered(c, middle, rs.rest, status, after);
      assert before.checks - {rs.id} - IdsOf(rs.rest) == before.checks - IdsOf(rs);
    }
  }

  lemma SettlesFirst(monitoring: bool, checks: Checks, log: M.Log, rs: Responses)
    requires rs.Response? && AllSettle(monitoring, checks, log, rs)
    ensures rs.id in checks
  {
  }

  /** The same of a call of `process` that finds the connection up and reads them. */
  lemma ProcessAnswersAll(c: AsyncClient, before: Core, rounds: Rounds, after: Core)
    requires c.RanRounds(before, rounds, after)
    requires rounds.Round? && (rounds.completion.AlreadyConnected? || rounds.completion.NowConnected?)
    requires (rounds.sending.AllSent? || rounds.sending.PartlySent?) && rounds.receiving.Received?
    requires AllSettle(c.monitoring, before.checks, before.monitor, rounds.receiving.responses)
    ensures var rs := rounds.receiving.responses;
            after.calls == before.calls + CallsFor(before.checks, rs) && after.checks == before.checks - IdsOf(rs)
  {
    hide AsyncClient.RanResponses, AllSettle;
    var again, middle :| c.RanRound(before, rounds, again, middle) &&
                         if again then c.RanRounds(middle, rounds.rest, after) else after == middle;
    var status :| c.RanResponses(before, rounds.receiving.responses, status, after);
    AllAreAnswered(c, before, rounds.receiving.responses, status, after);
  }

  // ----- a run that loses an answer -----

  const Dialling := Lost(Stop, Dial(Succeeded, Stop, NoScripts))

  function AnswerTo(id: nat, flush: Flush): Action {
    var answer := Response(CheckReply, id, PolicyResult(ALLOW, ""), 2, true, {}, flush, Stop, NoResponse);
    Process(Round(AlreadyConnected, AllSent(Stop), Received(answer), Stop, Dialling.dial, NoRound))
  }

  function RequestOf(key: PolicyKey): Action { Create(false, key, "", Dialling, Stop) }

  function NextRequestOf(key: PolicyKey): Action { Create(false, key, "", Connected, Stop) }

  /** Two requests; the first is answered at once, the second two minutes later, when looking at the connection fails. */
  function LateAnswer(key: PolicyKey): Script {
    Then(RequestOf(key), Then(AnswerTo(0, Flush(Some(0), Connected, Stop)),
    Then(RequestOf(key), Then(AnswerTo(0, Flush(Some(120), LinkThrows, Stop)), Stop))))
  }

  /**
   With monitoring the promise can be broken: the flush of the monitor that is due
   with the second answer throws, and the callback of the second request is never
   called, although the client is finished.
   */
  method MonitoringLosesAnAnswer(key: PolicyKey) returns (c: AsyncClient)
    ensures c.Valid() && c.monitoring && c.finished
    ensures c.accepted == 2 && Count(c.calls, 0) == 1 && Count(c.calls, 1) == 0
  {
    hide Accounted;
    c := new AsyncClient(true);
    ghost var before := c.State();
    c.RunScript(LateAnswer(key));
    SecondAnswerIsLost(c, key, before, c.State());
    ghost var calls := c.calls;
    var _ := c.FinishAll(FinishClient(false, NoScripts, Stop));
    NoNotices(S.Ids, Finish);
    assert c.calls == calls;
  }

  lemma {:induction false} NoNotices(n: nat, cause: Cause)
    ensures Notices(map[], n, cause) == []
  {
    if n > 0 { NoNotices(n - 1, cause); }
  }

  /** Nothing is pending, and the client can be used. */
  ghost predicate AtRest(s: Core) { s.checks == map[] && !s.finished && !s.inAnswerCancel }

  lemma SecondAnswerIsLost(c: AsyncClient, key: PolicyKey, before: Core, after: Core)
    requires c.monitoring && AtRest(before) && before.accepted == 0 && before.calls == [] && before.monitor == M.Empty
    requires c.Ran(before, LateAnswer(key), after)
    ensures AtRest(after) && after.accepted == 2 && after.calls == [Call(0, 0, Answer(2))]
  {
    hide AsyncClient.Step, AsyncClient.Ran;
    var second := AnswerTo(0, Flush(Some(120), LinkThrows, Stop));
    var s2 := AskedAndAnswered(c, key, before, LateAnswer(key).rest.rest, after);
    var s3 := FirstOf(c, s2, LateAnswer(key).rest.rest, after);
    RequestAlone(c, s2, RequestOf(key), key, s3);
    var s4 := FirstOf(c, s3, Then(second, Stop), after);
    LateAnswerIsLost(c, s3, key, 1, s4);
    NothingRan(c, s4, after);
  }

  lemma FirstOf(c: AsyncClient, before: Core, script: Script, after: Core) returns (middle: Core)
    requires c.Ran(before, script, after) && script.Then? && !before.finished
    ensures c.Step(before, script.action, middle) && c.Ran(middle, script.rest, after)
  {
    hide AsyncClient.Step;
    middle :| c.Step(before, script.action, middle) && c.Ran(middle, script.rest, after);
  }

  lemma NothingRan(c: AsyncClient, before: Core, after: Core)
    requires c.Ran(before, Stop, after)
    ensures after == before
  {
  }

  /** A request and its answer, the first things that happen. */
  lemma AskedAndAnswered(c: AsyncClient, key: PolicyKey, before: Core, rest: Script, after: Core) returns (middle: Core)
    requires c.monitoring && AtRest(before) && before.accepted == 0 && before.monitor == M.Empty
    requires c.Ran(before, Then(RequestOf(key), Then(AnswerTo(0, Flush(Some(0), Connected, Stop)), rest)), after)
    ensures c.Ran(middle, rest, after) && AtRest(middle) && middle.accepted == 1
    ensures middle.calls == before.calls + [Call(0, 0, Answer(2))] && middle.monitor == M.Log([M.Entry(key, 2, 0)], 0)
    ensures key in middle.cache && middle.cache[key].result == PolicyResult(ALLOW, "")
  {
    hide AsyncClient.Step, AsyncClient.Ran;
    var answer := AnswerTo(0, Flush(Some(0), Connected, Stop));
    var s1 := FirstOf(c, before, Then(RequestOf(key), Then(answer, rest)), after);
    RequestAlone(c, before, RequestOf(key), key, s1);
    middle := FirstOf(c, s1, Then(answer, rest), after);
    FirstAnswer(c, s1, key, middle);
  }

  /** The only request of a client takes the id 0. */
  lemma RequestAlone(c: AsyncClient, before: Core, request: Action, key: PolicyKey, after: Core)
    requires AtRest(before) && c.Step(before, request, after) && (request == RequestOf(key) || request == NextRequestOf(key))
    ensures Waits(after, key, before.accepted) && after.accepted == before.accepted + 1
    ensures after.calls == before.calls && after.monitor == before.monitor
    ensures request.link == Connected ==> after.cache == before.cache
  {
    var none: Checks := map[];
    assert c.Created(before, request, after);
    assert Live(before.checks) == none && 0 !in none;
    assert c.CreatedFrom(none, before, request, after);
    var id: nat :| id < S.Ids && (forall n :: 0 <= n < id ==> n in none) &&
                   after.checks == none[id := CheckData(key, "", false, false, before.accepted)];
    assert 0 <= 0 < id ==> 0 in none;
  }

  /** The client has the one check, with the id 0. */
  ghost predicate Waits(s: Core, key: PolicyKey, token: nat) {
    s.checks == map[0 := CheckData(key, "", false, false, token)] && !s.finished && !s.inAnswerCancel
  }

  lemma OnlyResponse(c: AsyncClient, before: Core, id: nat, flush: Flush, after: Core)
    requires c.Step(before, AnswerTo(id, flush), after)
    ensures exists s :: c.HandledBy(before, AnswerTo(id, flush).rounds.receiving.responses, s, after)
  {
    hide AsyncClient.HandledBy;
    var round := AnswerTo(id, flush).rounds;
    var again, middle :| c.RanRound(before, round, again, middle) &&
                         if again then c.RanRounds(middle, NoRound, after) else after == middle;
    var status :| c.RanResponses(before, round.receiving.responses, status, after);
    var s, last :| c.HandledBy(before, round.receiving.responses, s, last) &&
                   if s == Exception then status == Exception && after == last else c.RanResponses(last, NoResponse, status, after);
  }

  lemma FirstAnswer(c: AsyncClient, before: Core, key: PolicyKey, after: Core)
    requires c.monitoring && Waits(before, key, 0) && before.monitor == M.Empty
    requires c.Step(before, AnswerTo(0, Flush(Some(0), Connected, Stop)), after)
    ensures AtRest(after) && after.accepted == before.accepted && after.calls == before.calls + [Call(0, 0, Answer(2))]
    ensures after.monitor == M.Log([M.Entry(key, 2, 0)], 0)
    ensures key in after.cache && after.cache[key].result == PolicyResult(ALLOW, "")
  {
    var a := AnswerTo(0, Flush(Some(0), Connected, Stop));
    OnlyResponse(c, before, 0, Flush(Some(0), Connected, Stop), after);
    assert before.checks - {0} == map[];
  }

  lemma LateAnswerIsLost(c: AsyncClient, before: Core, key: PolicyKey, token: nat, after: Core)
    requires c.monitoring && Waits(before, key, token) && before.monitor == M.Log([M.Entry(key, 2, 0)], 0)
    requires c.Step(before, AnswerTo(0, Flush(Some(120), LinkThrows, Stop)), after)
    ensures AtRest(after) && after.accepted == before.accepted && after.calls == before.calls
  {
    var a := AnswerTo(0, Flush(Some(120), LinkThrows, Stop));
    OnlyResponse(c, before, 0, Flush(Some(120), LinkThrows, Stop), after);
    assert before.checks - {0} == map[];
  }

  // ----- a run after which the next answer updates a cached key -----

  /** A request, its answer, and a request for the same key, which does not look into the cache. */
  function AskedAgain(key: PolicyKey): Script {
    Then(RequestOf(key), Then(AnswerTo(0, Flush(Some(0), Connected, Stop)), Then(NextRequestOf(key), Stop)))
  }

  lemma KeyIsCachedAndPending(c: AsyncClient, key: PolicyKey, before: Core, after: Core)
    requires c.monitoring && AtRest(before) && before.accepted == 0 && before.monitor == M.Empty
    requires c.Ran(before, AskedAgain(key), after)
    ensures Waits(after, key, 1) && key in after.cache && after.cache[key].result == PolicyResult(ALLOW, "")
  {
    hide AsyncClient.Step, AsyncClient.Ran;
    var s2 := AskedAndAnswered(c, key, before, Then(NextRequestOf(key), Stop), after);
    var s3 := FirstOf(c, s2, Then(NextRequestOf(key), Stop), after);
    RequestAlone(c, s2, NextRequestOf(key), key, s3);
    NothingRan(c, s3, after);
  }

  /** A cache of one entry that has stored an answer, and for which storing the next one for that key is undefined. */
  method FullOfOneKey(key: PolicyKey) returns (cache: C.CapacityCache)
    ensures cache.Valid() && cache.capacity == 1 && !cache.UpdateIsDefined(K.CacheKey(key))
    ensures K.CacheKey(key) in cache.values && cache.values[K.CacheKey(key)].result == PolicyResult(ALLOW, "")
  {
    cache := new C.CapacityCache(1);
    var _ := cache.Update(key, "", PolicyResult(ALLOW, ""), C.Plugin(true, false, true, C.AccessAllowed));
    C.SizesAgree(cache.usage, cache.values);
  }

  /**
   The asynchronous client stores answers for keys that are cached: here the key is
   cached, a check of it is pending, and with a cache of one entry the update for
   its answer is undefined.
   */
  method CachedKeyIsAnsweredAgain(key: PolicyKey) returns (c: AsyncClient, cache: C.CapacityCache)
    ensures c.Valid() && !c.finished && c.checks == map[0 := CheckData(key, "", false, false, 1)]
    ensures key in c.cache && K.CacheKey(key) in cache.values
    ensures cache.values[K.CacheKey(key)].result == c.cache[key].result == PolicyResult(ALLOW, "")
    ensures cache.Valid() && cache.capacity == 1 && !cache.UpdateIsDefined(K.CacheKey(key))
  {
    hide Accounted, C.CapacityCache.Valid, C.CapacityCache.UpdateIsDefined, K.CacheKey;
    c := new AsyncClient(true);
    ghost var before := c.State();
    c.RunScript(AskedAgain(key));
    KeyIsCachedAndPending(c, key, before, c.State());
    cache := FullOfOneKey(key);
  }
}
