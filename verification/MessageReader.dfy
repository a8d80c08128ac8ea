/** The decoders as they run: reading field after field off the byte queue of a connection. */
module MessageReaders {
  import opened PolicyTypes
  import opened BinaryQueues
  import opened Wire
  import opened Messages

  /** The result of a decoder that may throw. */
  datatype Res<+T> = Ok(value: T) | Err(error: Error) {
    predicate IsFailure() { Err? }

    function PropagateFailure<U>(): Res<U>
      requires Err?
    {
      Err(error)
    }

    function Extract(): T
      requires Ok?
    {
      value
    }
  }

  /** A result together with the bytes that stay in the queue. */
  ghost function With<T>(r: Res<T>, rest: Bytes): Out<T> {
    match r
    case Ok(value) => Done(value, rest)
    case Err(error) => Fail(error, rest)
  }

  ghost function Prepend<T>(xs: seq<T>, out: Out<seq<T>>): Out<seq<T>> {
    match out
    case Done(ys, rest) => Done(xs + ys, rest)
    case Fail(error, rest) => Fail(error, rest)
  }

  lemma PrependOne<T>(xs: seq<T>, get: Bytes -> Out<T>, n: nat, s: Bytes)
    requires n > 0
    ensures Prepend(xs, GetAll(get, n, s)) ==
      match get(s)
      case Done(x, rest) => Prepend(xs + [x], GetAll(get, n - 1, rest))
      case Fail(error, rest) => Fail(error, rest)
  {
    if get(s).Done? && GetAll(get, n - 1, get(s).rest).Done? {
      var x, ys := get(s).value, GetAll(get, n - 1, get(s).rest).value;
      assert xs + ([x] + ys) == xs + [x] + ys;
    }
  }

  lemma PrependNone<T>(out: Out<seq<T>>)
    ensures Prepend([], out) == out
  {
    if out.Done? {
      assert [] + out.value == out.value;
    }
  }

  lemma PushBack<T>(m: map<string, seq<T>>, id: string, items: seq<T>, item: T)
    ensures var bucket := AddGroup(m, (id, items));
            bucket[id := (if id in bucket then bucket[id] else []) + [item]] == AddGroup(m, (id, items + [item]))
  {
    var before := if id in m then m[id] else [];
    assert before + items + [item] == before + (items + [item]);
    if items == [] {
      assert items + [item] == [item];
    }
  }

  lemma {:induction false} CollectLast<T>(m: map<string, seq<T>>, groups: seq<Group<T>>, g: Group<T>)
    ensures Collect(m, groups + [g]) == AddGroup(Collect(m, groups), g)
    decreases |groups|
  {
    if groups == [] {
      assert [g][1..] == [];
    } else {
      assert (groups + [g])[1..] == groups[1..] + [g];
      CollectLast(AddGroup(m, groups[0]), groups[1..], g);
    }
  }

  class Reader {
    const queue: BinaryQueue

    constructor (queue: BinaryQueue)
      ensures this.queue == queue
    {
      this.queue := queue;
    }

    method Read(n: nat) returns (r: Res<Bytes>)
      requires queue.Valid()
      modifies queue
      ensures queue.Valid() && With(r, queue.Contents()) == Get(old(queue.Contents()), n)
    {
      hide Flat;
      var taken := queue.FlattenConsume(n);
      if taken.OutOfData? {
        return Err(Error.OutOfData);
      }
      return Ok(taken.bytes);
    }

    method ReadUnsigned(k: nat) returns (r: Res<nat>)
      requires queue.Valid()
      modifies queue
      ensures queue.Valid() && With(r, queue.Contents()) == GetUnsigned(old(queue.Contents()), k)
      ensures r.Ok? ==> r.value < Power(k)
    {
      hide Flat;
      var b :- Read(k);
      return Ok(Unsigned(b));
    }

    method ReadInt32() returns (r: Res<Int32>)
      requires queue.Valid()
      modifies queue
      ensures queue.Valid() && With(r, queue.Contents()) == GetInt32(old(queue.Contents()))
    {
      hide Flat;
      Powers();
      var n: int :- ReadUnsigned(4);
      return Ok((if n < 0x8000_0000 then n else n - 0x1_0000_0000) as Int32);
    }

    method ReadInt64() returns (r: Res<Int64>)
      requires queue.Valid()
      modifies queue
      ensures queue.Valid() && With(r, queue.Contents()) == GetInt64(old(queue.Contents()))
    {
      hide Flat;
      Powers();
      var n: int :- ReadUnsigned(8);
      return Ok((if n < 0x8000_0000_0000_0000 then n else n - 0x1_0000_0000_0000_0000) as Int64);
    }

    method ReadFlag() returns (r: Res<bool>)
      requires queue.Valid()
      modifies queue
      ensures queue.Valid() && With(r, queue.Contents()) == GetFlag(old(queue.Contents()))
    {
      hide Flat;
      var n :- ReadUnsigned(1);
      return Ok(n != 0);
    }

    method ReadText() returns (r: Res<Bytes>)
      requires queue.Valid()
      modifies queue
      ensures queue.Valid() && With(r, queue.Contents()) == GetText(old(queue.Contents()))
    {
      hide Flat;
      var length :- ReadUnsigned(4);
      if length > MaxIdLength {
        return Err(IdentifierTooLong);
      }
      r := Read(length);
    }

    method ReadKey() returns (r: Res<PolicyKey>)
      requires queue.Valid()
      modifies queue
      ensures queue.Valid() && With(r, queue.Contents()) == GetKey(old(queue.Contents()))
    {
      hide Flat, GetText;
      var client :- ReadText();
      var user :- ReadText();
      var privilege :- ReadText();
      return Ok(PolicyKey(client, user, privilege));
    }

    method ReadType() returns (r: Res<PolicyType>)
      requires queue.Valid()
      modifies queue
      ensures queue.Valid() && With(r, queue.Contents()) == GetType(old(queue.Contents()))
    {
      hide Flat;
      Powers();
      var n :- ReadUnsigned(2);
      return Ok(n as PolicyType);
    }

    method ReadResult() returns (r: Res<PolicyResult>)
      requires queue.Valid()
      modifies queue
      ensures queue.Valid() && With(r, queue.Contents()) == GetResult(old(queue.Contents()))
    {
      hide Flat, GetText, GetType;
      var policyType :- ReadType();
      var metadata :- ReadText();
      return Ok(PolicyResult(policyType, metadata));
    }

    method ReadPolicy() returns (r: Res<Policy>)
      requires queue.Valid()
      modifies queue
      ensures queue.Valid() && With(r, queue.Contents()) == GetPolicy(old(queue.Contents()))
    {
      hide Flat, GetKey, GetResult;
      var key :- ReadKey();
      var result :- ReadResult();
      return Ok(Policy(key, result));
    }

    method ReadEntry() returns (r: Res<MonitorEntry>)
      requires queue.Valid()
      modifies queue
      ensures queue.Valid() && With(r, queue.Contents()) == GetEntry(old(queue.Contents()))
    {
      hide Flat, GetKey, GetInt64;
      var key :- ReadKey();
      var result :- ReadInt64();
      var seconds :- ReadInt64();
      var nanoseconds :- ReadInt64();
      return Ok(MonitorEntry(key, result, seconds, nanoseconds));
    }

    method ReadDescription() returns (r: Res<Description>)
      requires queue.Valid()
      modifies queue
      ensures queue.Valid() && With(r, queue.Contents()) == GetDescription(old(queue.Contents()))
    {
      hide Flat, GetText, GetType;
      var policyType :- ReadType();
      var name :- ReadText();
      return Ok(Description(policyType, name));
    }

    // ----- lists -----

    method ReadEntries() returns (r: Res<seq<MonitorEntry>>)
      requires queue.Valid()
      modifies queue
      ensures queue.Valid() && With(r, queue.Contents()) == GetCounted(GetEntry, old(queue.Contents()))
    {
      hide Flat, GetEntry, GetUnsigned;
      var n :- ReadUnsigned(2);
      ghost var start := queue.Contents();
      var entries := [];
      PrependNone(GetAll(GetEntry, n, start));
      for i := 0 to n
        invariant queue.Valid()
        invariant GetAll(GetEntry, n, start) == Prepend(entries, GetAll(GetEntry, n - i, queue.Contents()))
      {
        PrependOne(entries, GetEntry, n - i, queue.Contents());
        var entry :- ReadEntry();
        entries := entries + [entry];
      }
      assert entries + [] == entries;
      return Ok(entries);
    }

    method ReadPolicies() returns (r: Res<seq<Policy>>)
      requires queue.Valid()
      modifies queue
      ensures queue.Valid() && With(r, queue.Contents()) == GetCounted(GetPolicy, old(queue.Contents()))
    {
      hide Flat, GetPolicy, GetUnsigned;
      var n :- ReadUnsigned(2);
      ghost var start := queue.Contents();
      var policies := [];
      PrependNone(GetAll(GetPolicy, n, start));
      for i := 0 to n
        invariant queue.Valid()
        invariant GetAll(GetPolicy, n, start) == Prepend(policies, GetAll(GetPolicy, n - i, queue.Contents()))
      {
        PrependOne(policies, GetPolicy, n - i, queue.Contents());
        var policy :- ReadPolicy();
        policies := policies + [policy];
      }
      assert policies + [] == policies;
      return Ok(policies);
    }

    method ReadDescriptions() returns (r: Res<seq<Description>>)
      requires queue.Valid()
      modifies queue
      ensures queue.Valid() && With(r, queue.Contents()) == GetCounted(GetDescription, old(queue.Contents()))
    {
      hide Flat, GetDescription, GetUnsigned;
      var n :- ReadUnsigned(2);
      ghost var start := queue.Contents();
      var descriptions := [];
      PrependNone(GetAll(GetDescription, n, start));
      for i := 0 to n
        invariant queue.Valid()
        invariant GetAll(GetDescription, n, start) == Prepend(descriptions, GetAll(GetDescription, n - i, queue.Contents()))
      {
        PrependOne(descriptions, GetDescription, n - i, queue.Contents());
        var description :- ReadDescription();
        descriptions := descriptions + [description];
      }
      assert descriptions + [] == descriptions;
      return Ok(descriptions);
    }

    /** One group: every element read is pushed back to the list of the bucket. */
    method ReadPolicyGroup(m: map<string, seq<Policy>>) returns (r: Res<map<string, seq<Policy>>>)
      requires queue.Valid()
      modifies queue
      ensures queue.Valid()
      ensures With(r, queue.Contents()) == Mapped(GetGroup(GetPolicy, old(queue.Contents())), (g: Group<Policy>) => AddGroup(m, g))
    {
      hide Flat, GetPolicy, GetUnsigned, GetText;
      var id :- ReadText();
      var n :- ReadUnsigned(2);
      ghost var start := queue.Contents();
      ghost var items := [];
      var bucket := m;
      PrependNone(GetAll(GetPolicy, n, start));
      for i := 0 to n
        invariant queue.Valid()
        invariant GetAll(GetPolicy, n, start) == Prepend(items, GetAll(GetPolicy, n - i, queue.Contents()))
        invariant bucket == AddGroup(m, (id, items))
      {
        PrependOne(items, GetPolicy, n - i, queue.Contents());
        var item :- ReadPolicy();
        PushBack(m, id, items, item);
        bucket := bucket[id := (if id in bucket then bucket[id] else []) + [item]];
        items := items + [item];
      }
      assert items + [] == items;
      return Ok(bucket);
    }

    method ReadPolicyGroups() returns (r: Res<map<string, seq<Policy>>>)
      requires queue.Valid()
      modifies queue
      ensures queue.Valid()
      ensures With(r, queue.Contents())
           == Mapped(GetGroups(GetPolicy, old(queue.Contents())), (groups: seq<Group<Policy>>) => Collect(map[], groups))
    {
      hide Flat, GetGroup, GetUnsigned, AddGroup;
      var n :- ReadUnsigned(2);
      ghost var start := queue.Contents();
      ghost var groups: seq<Group<Policy>> := [];
      ghost var get := (s: Bytes) => GetGroup(GetPolicy, s);
      var m := map[];
      PrependNone(GetAll(get, n, start));
      for i := 0 to n
        invariant queue.Valid()
        invariant GetAll(get, n, start) == Prepend(groups, GetAll(get, n - i, queue.Contents()))
        invariant m == Collect(map[], groups)
      {
        PrependOne(groups, get, n - i, queue.Contents());
        ghost var group := GetGroup(GetPolicy, queue.Contents());
        m :- ReadPolicyGroup(m);
        CollectLast(map[], groups, group.value);
        groups := groups + [group.value];
      }
      assert groups + [] == groups;
      return Ok(m);
    }

    /** One group: every element read is pushed back to the list of the bucket. */
    method ReadKeyGroup(m: map<string, seq<PolicyKey>>) returns (r: Res<map<string, seq<PolicyKey>>>)
      requires queue.Valid()
      modifies queue
      ensures queue.Valid()
      ensures With(r, queue.Contents()) == Mapped(GetGroup(GetKey, old(queue.Contents())), (g: Group<PolicyKey>) => AddGroup(m, g))
    {
      hide Flat, GetKey, GetUnsigned, GetText;
      var id :- ReadText();
      var n :- ReadUnsigned(2);
      ghost var start := queue.Contents();
      ghost var items := [];
      var bucket := m;
      PrependNone(GetAll(GetKey, n, start));
      for i := 0 to n
        invariant queue.Valid()
        invariant GetAll(GetKey, n, start) == Prepend(items, GetAll(GetKey, n - i, queue.Contents()))
        invariant bucket == AddGroup(m, (id, items))
      {
        PrependOne(items, GetKey, n - i, queue.Contents());
        var item :- ReadKey();
        PushBack(m, id, items, item);
        bucket := bucket[id := (if id in bucket then bucket[id] else []) + [item]];
        items := items + [item];
      }
      assert items + [] == items;
      return Ok(bucket);
    }

    method ReadKeyGroups() returns (r: Res<map<string, seq<PolicyKey>>>)
      requires queue.Valid()
      modifies queue
      ensures queue.Valid()
      ensures With(r, queue.Contents())
           == Mapped(GetGroups(GetKey, old(queue.Contents())), (groups: seq<Group<PolicyKey>>) => Collect(map[], groups))
    {
      hide Flat, GetGroup, GetUnsigned, AddGroup;
      var n :- ReadUnsigned(2);
      ghost var start := queue.Contents();
      ghost var groups: seq<Group<PolicyKey>> := [];
      ghost var get := (s: Bytes) => GetGroup(GetKey, s);
      var m := map[];
      PrependNone(GetAll(get, n, start));
      for i := 0 to n
        invariant queue.Valid()
        invariant GetAll(get, n, start) == Prepend(groups, GetAll(get, n - i, queue.Contents()))
        invariant m == Collect(map[], groups)
      {
        PrependOne(groups, get, n - i, queue.Contents());
        ghost var group := GetGroup(GetKey, queue.Contents());
        m :- ReadKeyGroup(m);
        CollectLast(map[], groups, group.value);
        groups := groups + [group.value];
      }
      assert groups + [] == groups;
      return Ok(m);
    }

    // ----- messages -----

    method ReadClientRequest(op: nat) returns (r: Res<Message>)
      requires queue.Valid()
      modifies queue
      ensures queue.Valid()
      ensures With(r, queue.Contents()) == Parsed(ClientRequests, op, old(queue.Contents()))
    {
      hide Flat, GetKey, GetEntry, GetCounted;
      match op {
        case 0 =>
          var key :- ReadKey();
          return Ok(CheckRequest(key));
        case 2 => return Ok(CancelRequest);
        case 4 =>
          var key :- ReadKey();
          return Ok(SimpleCheckRequest(key));
        case 6 =>
          var entries :- ReadEntries();
          return Ok(MonitorEntriesPut(entries));
        case 7 =>
          var entry :- ReadEntry();
          return Ok(MonitorEntryPut(entry));
        case _ => return Err(WrongOpCode);
      }
    }

    method ReadClientResponse(op: nat) returns (r: Res<Message>)
      requires queue.Valid()
      modifies queue
      ensures queue.Valid()
      ensures With(r, queue.Contents()) == Parsed(ClientResponses, op, old(queue.Contents()))
    {
      hide Flat, GetResult, GetInt32, AllValid;
      match op {
        case 1 =>
          var result :- ReadResult();
          return Ok(CheckResponse(result));
        case 3 => return Ok(CancelResponse);
        case 5 => r := ReadSimpleCheckResponse();
        case _ => return Err(WrongOpCode);
      }
    }

    method ReadSimpleCheckResponse() returns (r: Res<Message>)
      requires queue.Valid()
      modifies queue
      ensures queue.Valid()
      ensures With(r, queue.Contents()) == Parsed(ClientResponses, 5, old(queue.Contents()))
    {
      hide Flat, GetResult, GetInt32, AllValid;
      var value :- ReadInt32();
      var result :- ReadResult();
      r := Ok(SimpleCheckResponse(value, result));
    }

    method ReadAdminRequest(op: nat) returns (r: Res<Message>)
      requires queue.Valid()
      modifies queue
      ensures queue.Valid()
      ensures With(r, queue.Contents()) == Parsed(AdminRequests, op, old(queue.Contents()))
    {
      hide Flat, GetResult, GetKey, GetText, GetFlag, GetGroups, Collect;
      match op {
        case 20 =>
          var id :- ReadText();
          var result :- ReadResult();
          return Ok(InsertOrUpdateBucket(id, result));
        case 21 =>
          var id :- ReadText();
          return Ok(RemoveBucket(id));
        case 22 =>
          var inserted :- ReadPolicyGroups();
          var removed :- ReadKeyGroups();
          return Ok(SetPolicies(inserted, removed));
        case 24 =>
          var key :- ReadKey();
          var start :- ReadText();
          var recursive :- ReadFlag();
          return Ok(AdminCheckRequest(key, start, recursive));
        case 25 =>
          var id :- ReadText();
          var filter :- ReadKey();
          return Ok(ListRequest(id, filter));
        case 28 =>
          var start :- ReadText();
          var recursive :- ReadFlag();
          var filter :- ReadKey();
          return Ok(EraseRequest(start, recursive, filter));
        case 29 => return Ok(DescriptionListRequest);
        case _ => return Err(WrongOpCode);
      }
    }

    method ReadAdminResponse(op: nat) returns (r: Res<Message>)
      requires queue.Valid()
      modifies queue
      ensures queue.Valid()
      ensures With(r, queue.Contents()) == Parsed(AdminResponses, op, old(queue.Contents()))
    {
      hide Flat, GetResult, GetFlag, GetCounted;
      match op {
        case 23 =>
          Powers();
          var code :- ReadUnsigned(2);
          return Ok(CodeResponse(code as Code));
        case 26 =>
          var policies :- ReadPolicies();
          var bucketValid :- ReadFlag();
          var dbCorrupted :- ReadFlag();
          return Ok(ListResponse(policies, bucketValid, dbCorrupted));
        case 27 =>
          var result :- ReadResult();
          var bucketValid :- ReadFlag();
          var dbCorrupted :- ReadFlag();
          return Ok(AdminCheckResponse(result, bucketValid, dbCorrupted));
        case 30 =>
          var descriptions :- ReadDescriptions();
          var dbCorrupted :- ReadFlag();
          return Ok(DescriptionListResponse(descriptions, dbCorrupted));
        case _ => return Err(WrongOpCode);
      }
    }

    /** The operation code and the message it announces. */
    method ReadMessage(d: Dialect) returns (r: Res<Message>)
      requires queue.Valid()
      modifies queue
      ensures queue.Valid()
      ensures With(r, queue.Contents()) == Decode(d, old(queue.Contents()))
    {
      hide Flat, Parsed, GetUnsigned;
      var op :- ReadUnsigned(1);
      match d {
        case ClientRequests => r := ReadClientRequest(op);
        case ClientResponses => r := ReadClientResponse(op);
        case AdminRequests => r := ReadAdminRequest(op);
        case AdminResponses => r := ReadAdminResponse(op);
      }
    }
  }
}
