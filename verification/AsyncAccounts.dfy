/**
 Which callbacks of the asynchronous client have been called and which are due.

 Every accepted request has a token, standing for the callback and user data it
 was created with.  At any moment a token is due its call because its check is
 pending and not cancelled, because a response to it is being processed (`hand`),
 or it was dropped by an exception (`lost`); otherwise it has had exactly one.
 */
module AsyncAccounts {
  import opened PolicyTypes
  import opened SequenceContainer

  datatype CheckData = CheckData(key: PolicyKey, session: string, simple: bool, cancelled: bool, token: nat)

  type Checks = map<nat, CheckData>

  datatype Cause = Answer(response: int) | Cancel | Finish | ServiceNotAvailable

  datatype Call = Call(token: nat, id: nat, cause: Cause)

  function Count(calls: seq<Call>, t: nat): nat
    decreases |calls|
  {
    if calls == [] then 0
    else Count(calls[..|calls| - 1], t) + if calls[|calls| - 1].token == t then 1 else 0
  }

  lemma CountSnoc(calls: seq<Call>, c: Call, t: nat)
    ensures Count(calls + [c], t) == Count(calls, t) + if c.token == t then 1 else 0
  {
    assert (calls + [c])[..|calls|] == calls;
  }

  lemma {:induction false} CountConcat(a: seq<Call>, b: seq<Call>, t: nat)
    ensures Count(a + b, t) == Count(a, t) + Count(b, t)
    decreases |b|
  {
    if b == [] {
      assert a + b == a;
    } else {
      var n := |b| - 1;
      CountConcat(a, b[..n], t);
      assert a + b == (a + b[..n]) + [b[n]];
      CountSnoc(a + b[..n], b[n], t);
    }
  }

  ghost predicate Pending(checks: Checks, t: nat) {
    exists id :: id in checks && !checks[id].cancelled && checks[id].token == t
  }

  ghost predicate Owned(checks: Checks, accepted: nat) {
    && (forall id :: id in checks ==> id < Ids && checks[id].token < accepted)
    && (forall i, j :: i in checks && j in checks && i != j ==> checks[i].token != checks[j].token)
  }

  /** Requests still owed their callback, other than the pending ones. */
  datatype Debts = Debts(hand: set<nat>, lost: set<nat>)

  ghost predicate Apart(checks: Checks, accepted: nat, d: Debts) {
    && d.hand !! d.lost
    && (forall t :: t in d.hand + d.lost ==> t < accepted)
    && (forall id :: id in checks ==> checks[id].token !in d.hand + d.lost)
  }

  ghost predicate Due(checks: Checks, accepted: nat, d: Debts, t: nat) {
    t >= accepted || Pending(checks, t) || t in d.hand + d.lost
  }

  ghost predicate Accounted(checks: Checks, accepted: nat, calls: seq<Call>, d: Debts) {
    && Owned(checks, accepted) && Apart(checks, accepted, d)
    && forall t: nat :: Count(calls, t) == if Due(checks, accepted, d, t) then 0 else 1
  }

  // ----- what each step does to the accounts -----

  lemma Accept(checks: Checks, accepted: nat, calls: seq<Call>, d: Debts, id: nat, data: CheckData)
    requires Accounted(checks, accepted, calls, d) && id !in checks && id < Ids
    requires data.token == accepted && !data.cancelled
    ensures Accounted(checks[id := data], accepted + 1, calls, d)
  {
    var checks' := checks[id := data];
    forall t: nat ensures Due(checks', accepted + 1, d, t) == Due(checks, accepted, d, t) {
      if Pending(checks, t) {
        var i :| i in checks && !checks[i].cancelled && checks[i].token == t;
        assert i in checks' && checks'[i] == checks[i];
      }
      if t == accepted { assert id in checks' && checks'[id].token == t; }
    }
  }

  lemma CancelCalls(checks: Checks, accepted: nat, calls: seq<Call>, d: Debts, id: nat)
    requires Accounted(checks, accepted, calls, d) && id in checks && !checks[id].cancelled
    ensures Accounted(checks[id := checks[id].(cancelled := true)], accepted,
                      calls + [Call(checks[id].token, id, Cancel)], d)
  {
    var checks' := checks[id := checks[id].(cancelled := true)];
    var c := Call(checks[id].token, id, Cancel);
    forall t: nat ensures Count(calls + [c], t) == if Due(checks', accepted, d, t) then 0 else 1 {
      CountSnoc(calls, c, t);
      OneLess(checks, checks', id, t);
    }
  }

  /** Among distinct tokens, settling one check settles its token and no other. */
  lemma OneLess(checks: Checks, checks': Checks, id: nat, t: nat)
    requires id in checks && forall i, j :: i in checks && j in checks && i != j ==> checks[i].token != checks[j].token
    requires forall i :: i in checks && i != id ==> i in checks' && checks'[i] == checks[i]
    requires forall i :: i in checks' && i != id ==> i in checks
    requires id in checks' ==> checks'[id].cancelled
    ensures Pending(checks', t) <==> Pending(checks, t) && t != checks[id].token
    ensures !checks[id].cancelled ==> Pending(checks, checks[id].token)
  {
    if Pending(checks, t) && t != checks[id].token {
      var i :| i in checks && !checks[i].cancelled && checks[i].token == t;
      assert i in checks' && checks'[i] == checks[i];
    }
  }

  /** Releasing a check: a live one goes into the hand of its response. */
  lemma Release(checks: Checks, accepted: nat, calls: seq<Call>, lost: set<nat>, id: nat)
    requires Accounted(checks, accepted, calls, Debts({}, lost)) && id in checks
    ensures Accounted(checks - {id}, accepted, calls,
                      Debts(if checks[id].cancelled then {} else {checks[id].token}, lost))
  {
    var d := Debts(if checks[id].cancelled then {} else {checks[id].token}, lost);
    forall t: nat ensures Due(checks - {id}, accepted, d, t) == Due(checks, accepted, Debts({}, lost), t) {
      OneLess(checks, checks - {id}, id, t);
      assert checks[id].cancelled ==> forall i :: i in checks && !checks[i].cancelled ==> checks[i].token != checks[id].token;
    }
  }

  lemma AnswerCalls(checks: Checks, accepted: nat, calls: seq<Call>, lost: set<nat>, c: Call)
    requires Accounted(checks, accepted, calls, Debts({c.token}, lost))
    ensures Accounted(checks, accepted, calls + [c], Debts({}, lost))
  {
    forall id | id in checks ensures checks[id].token != c.token { assert checks[id].token !in {c.token} + lost; }
    forall t: nat ensures Count(calls + [c], t) == if Due(checks, accepted, Debts({}, lost), t) then 0 else 1 {
      CountSnoc(calls, c, t);
      assert t in {c.token} + lost <==> t == c.token || t in lost;
      assert c.token in {c.token} && c.token !in lost;
      assert t == c.token ==> !Pending(checks, t);
    }
    forall t | t in lost ensures t < accepted { assert t in {c.token} + lost; }
    forall id | id in checks ensures checks[id].token !in lost { assert checks[id].token !in {c.token} + lost; }
    assert Apart(checks, accepted, Debts({}, lost));
  }

  lemma Lose(checks: Checks, accepted: nat, calls: seq<Call>, d: Debts)
    requires Accounted(checks, accepted, calls, d)
    ensures Accounted(checks, accepted, calls, Debts({}, d.lost + d.hand))
  {
    var d' := Debts({}, d.lost + d.hand);
    assert d'.hand + d'.lost == d.hand + d.lost;
    assert Apart(checks, accepted, d');
    forall t: nat ensures Due(checks, accepted, d', t) == Due(checks, accepted, d, t) {}
  }

  /** The checks that are not cancelled. */
  function Live(checks: Checks): Checks { map id | id in checks && !checks[id].cancelled :: checks[id] }

  lemma DropCancelled(checks: Checks, accepted: nat, calls: seq<Call>, d: Debts)
    requires Accounted(checks, accepted, calls, d)
    ensures Accounted(Live(checks), accepted, calls, d)
  {
    forall t: nat ensures Due(Live(checks), accepted, d, t) == Due(checks, accepted, d, t) {
      if Pending(checks, t) {
        var i :| i in checks && !checks[i].cancelled && checks[i].token == t;
        assert i in Live(checks) && Live(checks)[i] == checks[i];
      }
    }
  }

  // ----- calling back everything that is pending -----

  /** The calls for the live checks with an id below `n`, in ascending order of id. */
  function Notices(checks: Checks, n: nat, cause: Cause): seq<Call> {
    if n == 0 then []
    else
      var before, id := Notices(checks, n - 1, cause), n - 1;
      if id in checks && !checks[id].cancelled then before + [Call(checks[id].token, id, cause)] else before
  }

  lemma {:induction false} NoticesCount(checks: Checks, n: nat, cause: Cause, t: nat)
    requires forall i, j :: i in checks && j in checks && i != j ==> checks[i].token != checks[j].token
    ensures Count(Notices(checks, n, cause), t) ==
            if exists id :: 0 <= id < n && id in checks && !checks[id].cancelled && checks[id].token == t then 1 else 0
    decreases n
  {
    if n > 0 {
      NoticesCount(checks, n - 1, cause, t);
      var id := n - 1;
      if id in checks && !checks[id].cancelled {
        CountSnoc(Notices(checks, n - 1, cause), Call(checks[id].token, id, cause), t);
      }
      if i :| 0 <= i < n && i in checks && !checks[i].cancelled && checks[i].token == t {
        assert i == id || i < n - 1;
      }
    }
  }

  /** Notifying everything that is pending leaves nothing due but the debts. */
  lemma NotifyAll(checks: Checks, accepted: nat, calls: seq<Call>, d: Debts, cause: Cause)
    requires Accounted(checks, accepted, calls, d)
    ensures Accounted(map[], accepted, calls + Notices(checks, Ids, cause), d)
  {
    var none: Checks := map[];
    var more := Notices(checks, Ids, cause);
    forall t: nat ensures Count(calls + more, t) == if Due(none, accepted, d, t) then 0 else 1 {
      CountConcat(calls, more, t);
      NoticesCount(checks, Ids, cause, t);
      if Pending(checks, t) {
        var i :| i in checks && !checks[i].cancelled && checks[i].token == t;
        assert 0 <= i < Ids && checks[i].token == t;
      }
    }
  }
}
