/** The messages of the client and admin protocols: what is written for each, and what is read back. */
module Messages {
  import opened Collections
  import opened PolicyTypes
  import opened BinaryQueues
  import opened Wire

  newtype Code = n: int | 0 <= n < 0x1_0000

  datatype MonitorEntry = MonitorEntry(key: PolicyKey, result: Int64, seconds: Int64, nanoseconds: Int64)

  datatype Description = Description(policyType: PolicyType, name: string)

  datatype Message =
    | CheckRequest(key: PolicyKey)
    | CheckResponse(result: PolicyResult)
    | CancelRequest
    | CancelResponse
    | SimpleCheckRequest(key: PolicyKey)
    | SimpleCheckResponse(value: Int32, result: PolicyResult)
    | MonitorEntriesPut(entries: seq<MonitorEntry>)
    | MonitorEntryPut(entry: MonitorEntry)
    | InsertOrUpdateBucket(id: string, result: PolicyResult)
    | RemoveBucket(id: string)
    | SetPolicies(inserted: map<string, seq<Policy>>, removed: map<string, seq<PolicyKey>>)
    | CodeResponse(code: Code)
    | AdminCheckRequest(key: PolicyKey, start: string, recursive: bool)
    | ListRequest(id: string, filter: PolicyKey)
    | ListResponse(policies: seq<Policy>, bucketValid: bool, dbCorrupted: bool)
    | AdminCheckResponse(result: PolicyResult, bucketValid: bool, dbCorrupted: bool)
    | EraseRequest(start: string, recursive: bool, filter: PolicyKey)
    | DescriptionListRequest
    | DescriptionListResponse(descriptions: seq<Description>, dbCorrupted: bool)

  /** Each protocol reads requests on the service's side and responses on the other one. */
  datatype Dialect = ClientRequests | ClientResponses | AdminRequests | AdminResponses

  // ----- composite fields -----

  function PutKey(k: PolicyKey): Bytes { PutText(k.client) + PutText(k.user) + PutText(k.privilege) }

  function GetKey(s: Bytes): Out<PolicyKey> {
    var (client, s1) :- GetText(s);
    var (user, s2) :- GetText(s1);
    var (privilege, s3) :- GetText(s2);
    Done(PolicyKey(client, user, privilege), s3)
  }

  predicate SendableKey(k: PolicyKey) { Sendable(k.client) && Sendable(k.user) && Sendable(k.privilege) }

  lemma KeyRoundTrip(k: PolicyKey, rest: Bytes)
    requires SendableKey(k)
    ensures GetKey(PutKey(k) + rest) == Done(k, rest)
  {
    hide PutText, GetText;
    var s2 := PutText(k.privilege) + rest;
    var s1 := PutText(k.user) + s2;
    assert PutKey(k) + rest == PutText(k.client) + s1;
    TextRoundTrip(k.client, s1);
    TextRoundTrip(k.user, s2);
    TextRoundTrip(k.privilege, rest);
  }

  function PutType(t: PolicyType): (r: Bytes)
    ensures |r| == 2
  {
    PutUnsigned(t as int, 2)
  }

  function GetType(s: Bytes): Out<PolicyType> {
    var (n, rest) :- GetUnsigned(s, 2);
    Powers();
    Done(n as PolicyType, rest)
  }

  lemma TypeRoundTrip(t: PolicyType, rest: Bytes)
    ensures GetType(PutType(t) + rest) == Done(t, rest)
  {
    Powers();
    UnsignedRoundTrip(t as int, 2, rest);
  }

  function PutResult(r: PolicyResult): Bytes { PutType(r.policyType) + PutText(r.metadata) }

  function GetResult(s: Bytes): Out<PolicyResult> {
    var (policyType, s1) :- GetType(s);
    var (metadata, s2) :- GetText(s1);
    Done(PolicyResult(policyType, metadata), s2)
  }

  lemma ResultRoundTrip(r: PolicyResult, rest: Bytes)
    requires Sendable(r.metadata)
    ensures GetResult(PutResult(r) + rest) == Done(r, rest)
  {
    hide PutText, GetText, PutType, GetType;
    assert PutResult(r) + rest == PutType(r.policyType) + (PutText(r.metadata) + rest);
    TypeRoundTrip(r.policyType, PutText(r.metadata) + rest);
    TextRoundTrip(r.metadata, rest);
  }

  function PutPolicy(p: Policy): Bytes { PutKey(p.key) + PutResult(p.result) }

  function GetPolicy(s: Bytes): Out<Policy> {
    var (key, s1) :- GetKey(s);
    var (result, s2) :- GetResult(s1);
    Done(Policy(key, result), s2)
  }

  predicate SendablePolicy(p: Policy) { SendableKey(p.key) && Sendable(p.result.metadata) }

  lemma PolicyRoundTrip(p: Policy, rest: Bytes)
    requires SendablePolicy(p)
    ensures GetPolicy(PutPolicy(p) + rest) == Done(p, rest)
  {
    hide PutKey, GetKey, PutResult, GetResult;
    assert PutPolicy(p) + rest == PutKey(p.key) + (PutResult(p.result) + rest);
    KeyRoundTrip(p.key, PutResult(p.result) + rest);
    ResultRoundTrip(p.result, rest);
  }

  function PutEntry(e: MonitorEntry): Bytes {
    PutKey(e.key) + PutInt64(e.result) + PutInt64(e.seconds) + PutInt64(e.nanoseconds)
  }

  function GetEntry(s: Bytes): Out<MonitorEntry> {
    var (key, s1) :- GetKey(s);
    var (result, s2) :- GetInt64(s1);
    var (seconds, s3) :- GetInt64(s2);
    var (nanoseconds, s4) :- GetInt64(s3);
    Done(MonitorEntry(key, result, seconds, nanoseconds), s4)
  }

  lemma EntryRoundTrip(e: MonitorEntry, rest: Bytes)
    requires SendableKey(e.key)
    ensures GetEntry(PutEntry(e) + rest) == Done(e, rest)
  {
    hide PutKey, GetKey, PutInt64, GetInt64;
    var s3 := PutInt64(e.nanoseconds) + rest;
    var s2 := PutInt64(e.seconds) + s3;
    var s1 := PutInt64(e.result) + s2;
    assert PutEntry(e) + rest == PutKey(e.key) + s1;
    KeyRoundTrip(e.key, s1);
    Int64RoundTrip(e.result, s2);
    Int64RoundTrip(e.seconds, s3);
    Int64RoundTrip(e.nanoseconds, rest);
  }

  function PutDescription(d: Description): Bytes { PutType(d.policyType) + PutText(d.name) }

  function GetDescription(s: Bytes): Out<Description> {
    var (policyType, s1) :- GetType(s);
    var (name, s2) :- GetText(s1);
    Done(Description(policyType, name), s2)
  }

  lemma DescriptionRoundTrip(d: Description, rest: Bytes)
    requires Sendable(d.name)
    ensures GetDescription(PutDescription(d) + rest) == Done(d, rest)
  {
    hide PutText, GetText, PutType, GetType;
    assert PutDescription(d) + rest == PutType(d.policyType) + (PutText(d.name) + rest);
    TypeRoundTrip(d.policyType, PutText(d.name) + rest);
    TextRoundTrip(d.name, rest);
  }

  // ----- groups: a bucket id and a counted list -----

  type Group<T> = (string, seq<T>)

  function PutGroup<T>(put: T -> Bytes, g: Group<T>): Bytes { PutText(g.0) + PutCounted(put, g.1) }

  function GetGroup<T>(get: Bytes -> Out<T>, s: Bytes): Out<Group<T>> {
    var (id, s1) :- GetText(s);
    var (items, s2) :- GetCounted(get, s1);
    Done((id, items), s2)
  }

  ghost predicate SendableGroup<T(!new)>(put: T -> Bytes, get: Bytes -> Out<T>, g: Group<T>) {
    && Sendable(g.0)
    && |g.1| < 0x1_0000
    && forall i :: 0 <= i < |g.1| ==> Inverse(put, get, g.1[i])
  }

  lemma GroupRoundTrip<T(!new)>(put: T -> Bytes, get: Bytes -> Out<T>, g: Group<T>, rest: Bytes)
    requires SendableGroup(put, get, g)
    ensures GetGroup(get, PutGroup(put, g) + rest) == Done(g, rest)
  {
    hide PutText, GetText, PutCounted, GetCounted;
    assert PutGroup(put, g) + rest == PutText(g.0) + (PutCounted(put, g.1) + rest);
    TextRoundTrip(g.0, PutCounted(put, g.1) + rest);
    CountedRoundTrip(put, get, g.1, rest);
  }

  function PutGroups<T>(put: T -> Bytes, groups: seq<Group<T>>): Bytes {
    PutCounted((g: Group<T>) => PutGroup(put, g), groups)
  }

  function GetGroups<T>(get: Bytes -> Out<T>, s: Bytes): Out<seq<Group<T>>> {
    GetCounted((rest: Bytes) => GetGroup(get, rest), s)
  }

  lemma GroupsRoundTrip<T(!new)>(put: T -> Bytes, get: Bytes -> Out<T>, groups: seq<Group<T>>, rest: Bytes)
    requires |groups| < 0x1_0000 && forall i :: 0 <= i < |groups| ==> SendableGroup(put, get, groups[i])
    ensures GetGroups(get, PutGroups(put, groups) + rest) == Done(groups, rest)
  {
    hide PutGroup, GetGroup, PutCounted, GetCounted;
    var putGroup := (g: Group<T>) => PutGroup(put, g);
    var getGroup := (s: Bytes) => GetGroup(get, s);
    forall i | 0 <= i < |groups|
      ensures Inverse(putGroup, getGroup, groups[i])
    {
      forall more: Bytes
        ensures getGroup(putGroup(groups[i]) + more) == Done(groups[i], more)
      {
        GroupRoundTrip(put, get, groups[i], more);
      }
    }
    CountedRoundTrip(putGroup, getGroup, groups, rest);
  }

  /** What is read is pushed back element by element, so an empty group leaves no trace. */
  function AddGroup<T>(m: map<string, seq<T>>, g: Group<T>): map<string, seq<T>> {
    if g.1 == [] then m else m[g.0 := (if g.0 in m then m[g.0] else []) + g.1]
  }

  function Collect<T>(m: map<string, seq<T>>, groups: seq<Group<T>>): map<string, seq<T>>
    decreases |groups|
  {
    if groups == [] then m else Collect(AddGroup(m, groups[0]), groups[1..])
  }

  /** The groups of a map in an order of its keys. */
  function GroupsOf<T>(m: map<string, seq<T>>, ids: seq<string>): (groups: seq<Group<T>>)
    requires forall i :: 0 <= i < |ids| ==> ids[i] in m
    ensures |groups| == |ids| && forall i :: 0 <= i < |ids| ==> groups[i] == (ids[i], m[ids[i]])
  {
    seq(|ids|, i requires 0 <= i < |ids| => (ids[i], m[ids[i]]))
  }

  function NonEmpty<T>(m: map<string, seq<T>>): map<string, seq<T>> {
    map id | id in m && m[id] != [] :: m[id]
  }

  /** Collecting the groups of a map gives back its non-empty groups, with the order of each list kept. */
  lemma CollectGroups<T>(m: map<string, seq<T>>, ids: seq<string>)
    requires Enumerates(ids, m)
    ensures Collect(map[], GroupsOf(m, ids)) == NonEmpty(m)
  {
    CollectFrom(map[], m, ids);
    assert forall id :: id in NonEmpty(m) <==> id in Restricted(m, ids);
    assert map[] + Restricted(m, ids) == NonEmpty(m);
  }

  ghost function Restricted<T>(m: map<string, seq<T>>, ids: seq<string>): map<string, seq<T>> {
    map id | id in ids && id in m && m[id] != [] :: m[id]
  }

  lemma {:induction false} CollectFrom<T>(start: map<string, seq<T>>, m: map<string, seq<T>>, ids: seq<string>)
    requires forall i :: 0 <= i < |ids| ==> ids[i] in m && ids[i] !in start
    requires forall i, j :: 0 <= i < j < |ids| ==> ids[i] != ids[j]
    ensures Collect(start, GroupsOf(m, ids)) == start + Restricted(m, ids)
    decreases |ids|
  {
    if ids == [] {
      assert start + Restricted(m, ids) == start;
    } else {
      var next := AddGroup(start, (ids[0], m[ids[0]]));
      assert GroupsOf(m, ids)[1..] == GroupsOf(m, ids[1..]);
      CollectFrom(next, m, ids[1..]);
      RestrictedStep(start, m, ids);
    }
  }

  lemma RestrictedStep<T>(start: map<string, seq<T>>, m: map<string, seq<T>>, ids: seq<string>)
    requires ids != [] && ids[0] in m && ids[0] !in start && ids[0] !in ids[1..]
    ensures AddGroup(start, (ids[0], m[ids[0]])) + Restricted(m, ids[1..]) == start + Restricted(m, ids)
  {
    assert ids == [ids[0]] + ids[1..];
    var first, later := m[ids[0]], Restricted(m, ids[1..]);
    if first == [] {
      assert Restricted(m, ids) == later;
    } else {
      assert Restricted(m, ids) == later[ids[0] := first] && ids[0] !in later;
      hide Restricted;
      assert [] + first == first;
      assert AddGroup(start, (ids[0], first)) == start[ids[0] := first];
    }
  }

  // ----- messages -----

  function OpCode(m: Message): (op: nat)
    ensures op < 0x100
  {
    match m
    case CheckRequest(_) => 0
    case CheckResponse(_) => 1
    case CancelRequest => 2
    case CancelResponse => 3
    case SimpleCheckRequest(_) => 4
    case SimpleCheckResponse(_, _) => 5
    case MonitorEntriesPut(_) => 6
    case MonitorEntryPut(_) => 7
    case InsertOrUpdateBucket(_, _) => 20
    case RemoveBucket(_) => 21
    case SetPolicies(_, _) => 22
    case CodeResponse(_) => 23
    case AdminCheckRequest(_, _, _) => 24
    case ListRequest(_, _) => 25
    case ListResponse(_, _, _) => 26
    case AdminCheckResponse(_, _, _) => 27
    case EraseRequest(_, _, _) => 28
    case DescriptionListRequest => 29
    case DescriptionListResponse(_, _) => 30
  }

  function OpCodes(d: Dialect): set<nat> {
    match d
    case ClientRequests => {0, 2, 4, 6, 7}
    case ClientResponses => {1, 3, 5}
    case AdminRequests => {20, 21, 22, 24, 25, 28, 29}
    case AdminResponses => {23, 26, 27, 30}
  }

  /** The orders in which the maps of a SetPolicies request are iterated. */
  datatype Orders = Orders(inserted: seq<string>, removed: seq<string>)

  ghost predicate OrdersOf(m: Message, o: Orders) {
    m.SetPolicies? ==> Enumerates(o.inserted, m.inserted) && Enumerates(o.removed, m.removed)
  }

  /** What the encoders write after the operation code. */
  function Body(m: Message, o: Orders): Bytes
    requires OrdersOf(m, o)
  {
    match m
    case CheckRequest(key) => PutKey(key)
    case CheckResponse(result) => PutResult(result)
    case CancelRequest => []
    case CancelResponse => []
    case SimpleCheckRequest(key) => PutKey(key)
    case SimpleCheckResponse(value, result) => PutInt32(value) + PutResult(result)
    case MonitorEntriesPut(entries) => PutCounted(PutEntry, entries)
    case MonitorEntryPut(entry) => PutEntry(entry)
    case InsertOrUpdateBucket(id, result) => PutText(id) + PutResult(result)
    case RemoveBucket(id) => PutText(id)
    case SetPolicies(inserted, removed) =>
      PutGroups(PutPolicy, GroupsOf(inserted, o.inserted)) + PutGroups(PutKey, GroupsOf(removed, o.removed))
    case CodeResponse(code) => PutUnsigned(code as int, 2)
    case AdminCheckRequest(key, start, recursive) => PutKey(key) + PutText(start) + PutFlag(recursive)
    case ListRequest(id, filter) => PutText(id) + PutKey(filter)
    case ListResponse(policies, bucketValid, dbCorrupted) =>
      PutCounted(PutPolicy, policies) + PutFlag(bucketValid) + PutFlag(dbCorrupted)
    case AdminCheckResponse(result, bucketValid, dbCorrupted) =>
      PutResult(result) + PutFlag(bucketValid) + PutFlag(dbCorrupted)
    case EraseRequest(start, recursive, filter) => PutText(start) + PutFlag(recursive) + PutKey(filter)
    case DescriptionListRequest => []
    case DescriptionListResponse(descriptions, dbCorrupted) =>
      PutCounted(PutDescription, descriptions) + PutFlag(dbCorrupted)
  }

  function GetSimpleCheckResponse(s: Bytes): Out<Message> {
    var (value, s1) :- GetInt32(s);
    var (result, s2) :- GetResult(s1);
    Done(SimpleCheckResponse(value, result), s2)
  }

  function GetInsertOrUpdateBucket(s: Bytes): Out<Message> {
    var (id, s1) :- GetText(s);
    var (result, s2) :- GetResult(s1);
    Done(InsertOrUpdateBucket(id, result), s2)
  }

  function GetSetPolicies(s: Bytes): Out<Message> {
    var (inserted, s1) :- GetGroups(GetPolicy, s);
    var (removed, s2) :- GetGroups(GetKey, s1);
    Done(SetPolicies(Collect(map[], inserted), Collect(map[], removed)), s2)
  }

  function GetCodeResponse(s: Bytes): Out<Message> {
    var (code, s1) :- GetUnsigned(s, 2);
    Powers();
    Done(CodeResponse(code as Code), s1)
  }

  function GetAdminCheckRequest(s: Bytes): Out<Message> {
    var (key, s1) :- GetKey(s);
    var (start, s2) :- GetText(s1);
    var (recursive, s3) :- GetFlag(s2);
    Done(AdminCheckRequest(key, start, recursive), s3)
  }

  function GetListRequest(s: Bytes): Out<Message> {
    var (id, s1) :- GetText(s);
    var (filter, s2) :- GetKey(s1);
    Done(ListRequest(id, filter), s2)
  }

  function GetListResponse(s: Bytes): Out<Message> {
    var (policies, s1) :- GetCounted(GetPolicy, s);
    var (bucketValid, s2) :- GetFlag(s1);
    var (dbCorrupted, s3) :- GetFlag(s2);
    Done(ListResponse(policies, bucketValid, dbCorrupted), s3)
  }

  function GetAdminCheckResponse(s: Bytes): Out<Message> {
    var (result, s1) :- GetResult(s);
    var (bucketValid, s2) :- GetFlag(s1);
    var (dbCorrupted, s3) :- GetFlag(s2);
    Done(AdminCheckResponse(result, bucketValid, dbCorrupted), s3)
  }

  function GetEraseRequest(s: Bytes): Out<Message> {
    var (start, s1) :- GetText(s);
    var (recursive, s2) :- GetFlag(s1);
    var (filter, s3) :- GetKey(s2);
    Done(EraseRequest(start, recursive, filter), s3)
  }

  function GetDescriptionListResponse(s: Bytes): Out<Message> {
    var (descriptions, s1) :- GetCounted(GetDescription, s);
    var (dbCorrupted, s2) :- GetFlag(s1);
    Done(DescriptionListResponse(descriptions, dbCorrupted), s2)
  }

  /** What the decoders read after an operation code of their protocol. */
  function Decoded(op: nat, s: Bytes): Out<Message> {
    match op
    case 0 => Mapped(GetKey(s), k => CheckRequest(k))
    case 1 => Mapped(GetResult(s), r => CheckResponse(r))
    case 2 => Done(CancelRequest, s)
    case 3 => Done(CancelResponse, s)
    case 4 => Mapped(GetKey(s), k => SimpleCheckRequest(k))
    case 5 => GetSimpleCheckResponse(s)
    case 6 => Mapped(GetCounted(GetEntry, s), e => MonitorEntriesPut(e))
    case 7 => Mapped(GetEntry(s), e => MonitorEntryPut(e))
    case 20 => GetInsertOrUpdateBucket(s)
    case 21 => Mapped(GetText(s), id => RemoveBucket(id))
    case 22 => GetSetPolicies(s)
    case 23 => GetCodeResponse(s)
    case 24 => GetAdminCheckRequest(s)
    case 25 => GetListRequest(s)
    case 26 => GetListResponse(s)
    case 27 => GetAdminCheckResponse(s)
    case 28 => GetEraseRequest(s)
    case 29 => Done(DescriptionListRequest, s)
    case 30 => GetDescriptionListResponse(s)
    case _ => Fail(WrongOpCode, s)
  }

  function Parsed(d: Dialect, op: nat, s: Bytes): Out<Message> {
    if op in OpCodes(d) then Decoded(op, s) else Fail(WrongOpCode, s)
  }

  /** The operation code and the body, read by one protocol. */
  function Decode(d: Dialect, s: Bytes): Out<Message> {
    var (op, rest) :- GetUnsigned(s, 1);
    Parsed(d, op, rest)
  }

  /** Every text can be sent, and every list is short enough for its count. */
  ghost predicate SendableMessage(m: Message) {
    match m
    case CheckRequest(key) => SendableKey(key)
    case CheckResponse(result) => Sendable(result.metadata)
    case CancelRequest => true
    case CancelResponse => true
    case SimpleCheckRequest(key) => SendableKey(key)
    case SimpleCheckResponse(value, result) => Sendable(result.metadata)
    case MonitorEntriesPut(entries) => |entries| < 0x1_0000 && forall i :: 0 <= i < |entries| ==> SendableKey(entries[i].key)
    case MonitorEntryPut(entry) => SendableKey(entry.key)
    case InsertOrUpdateBucket(id, result) => Sendable(id) && Sendable(result.metadata)
    case RemoveBucket(id) => Sendable(id)
    case SetPolicies(inserted, removed) =>
      && |inserted| < 0x1_0000 && |removed| < 0x1_0000
      && (forall id :: id in inserted ==> Sendable(id) && |inserted[id]| < 0x1_0000)
      && (forall id :: id in removed ==> Sendable(id) && |removed[id]| < 0x1_0000)
      && (forall id, i :: id in inserted && 0 <= i < |inserted[id]| ==> SendablePolicy(inserted[id][i]))
      && (forall id, i :: id in removed && 0 <= i < |removed[id]| ==> SendableKey(removed[id][i]))
    case CodeResponse(_) => true
    case AdminCheckRequest(key, start, recursive) => SendableKey(key) && Sendable(start)
    case ListRequest(id, filter) => Sendable(id) && SendableKey(filter)
    case ListResponse(policies, _, _) =>
      |policies| < 0x1_0000 && forall i :: 0 <= i < |policies| ==> SendablePolicy(policies[i])
    case AdminCheckResponse(result, _, _) => Sendable(result.metadata)
    case EraseRequest(start, recursive, filter) => Sendable(start) && SendableKey(filter)
    case DescriptionListRequest => true
    case DescriptionListResponse(descriptions, _) =>
      |descriptions| < 0x1_0000 && forall i :: 0 <= i < |descriptions| ==> Sendable(descriptions[i].name)
  }

  /** What arrives: the message, but for the empty groups of a SetPolicies request. */
  function Delivered(m: Message): Message {
    match m
    case SetPolicies(inserted, removed) => SetPolicies(NonEmpty(inserted), NonEmpty(removed))
    case _ => m
  }

  // ----- round trips -----

  lemma SimpleCheckResponseRoundTrip(value: Int32, result: PolicyResult, rest: Bytes)
    requires Sendable(result.metadata)
    ensures GetSimpleCheckResponse(PutInt32(value) + PutResult(result) + rest) == Done(SimpleCheckResponse(value, result), rest)
  {
    hide PutInt32, GetInt32, PutResult, GetResult;
    assert PutInt32(value) + PutResult(result) + rest == PutInt32(value) + (PutResult(result) + rest);
    Int32RoundTrip(value, PutResult(result) + rest);
    ResultRoundTrip(result, rest);
  }

  lemma MonitorEntriesRoundTrip(entries: seq<MonitorEntry>, rest: Bytes)
    requires |entries| < 0x1_0000 && forall i :: 0 <= i < |entries| ==> SendableKey(entries[i].key)
    ensures GetCounted(GetEntry, PutCounted(PutEntry, entries) + rest) == Done(entries, rest)
  {
    hide PutEntry, GetEntry, PutCounted, GetCounted;
    forall i | 0 <= i < |entries|
      ensures Inverse(PutEntry, GetEntry, entries[i])
    {
      forall more: Bytes
        ensures GetEntry(PutEntry(entries[i]) + more) == Done(entries[i], more)
      {
        EntryRoundTrip(entries[i], more);
      }
    }
    CountedRoundTrip(PutEntry, GetEntry, entries, rest);
  }

  lemma InsertOrUpdateBucketRoundTrip(id: string, result: PolicyResult, rest: Bytes)
    requires Sendable(id) && Sendable(result.metadata)
    ensures GetInsertOrUpdateBucket(PutText(id) + PutResult(result) + rest) == Done(InsertOrUpdateBucket(id, result), rest)
  {
    hide PutText, GetText, PutResult, GetResult;
    assert PutText(id) + PutResult(result) + rest == PutText(id) + (PutResult(result) + rest);
    TextRoundTrip(id, PutResult(result) + rest);
    ResultRoundTrip(result, rest);
  }

  lemma PolicyInverse(p: Policy)
    requires SendablePolicy(p)
    ensures Inverse(PutPolicy, GetPolicy, p)
  {
    hide PutPolicy, GetPolicy;
    forall more: Bytes
      ensures GetPolicy(PutPolicy(p) + more) == Done(p, more)
    {
      PolicyRoundTrip(p, more);
    }
  }

  lemma KeyInverse(k: PolicyKey)
    requires SendableKey(k)
    ensures Inverse(PutKey, GetKey, k)
  {
    hide PutKey, GetKey;
    forall more: Bytes
      ensures GetKey(PutKey(k) + more) == Done(k, more)
    {
      KeyRoundTrip(k, more);
    }
  }

  lemma {:induction false} EnumerationLength<T>(ids: seq<string>, m: map<string, T>)
    requires Enumerates(ids, m)
    ensures |ids| == |m|
  {
    var seen := set i | 0 <= i < |ids| :: ids[i];
    assert seen == m.Keys;
    DistinctCount(ids);
  }

  lemma {:induction false} DistinctCount(ids: seq<string>)
    requires forall i, j :: 0 <= i < j < |ids| ==> ids[i] != ids[j]
    ensures |(set i | 0 <= i < |ids| :: ids[i])| == |ids|
  {
    var all := set i | 0 <= i < |ids| :: ids[i];
    if ids != [] {
      var last := |ids| - 1;
      var front := ids[..last];
      DistinctCount(front);
      var fewer := set i | 0 <= i < |front| :: front[i];
      assert forall id :: id in all <==> id in fewer + {ids[last]};
      assert all == fewer + {ids[last]} && ids[last] !in fewer;
    }
  }

  lemma InsertedGroupsRoundTrip(inserted: map<string, seq<Policy>>, ids: seq<string>, rest: Bytes)
    requires Enumerates(ids, inserted) && |inserted| < 0x1_0000
    requires forall id :: id in inserted ==> Sendable(id) && |inserted[id]| < 0x1_0000
    requires forall id, i :: id in inserted && 0 <= i < |inserted[id]| ==> SendablePolicy(inserted[id][i])
    ensures GetGroups(GetPolicy, PutGroups(PutPolicy, GroupsOf(inserted, ids)) + rest) == Done(GroupsOf(inserted, ids), rest)
  {
    hide PutPolicy, GetPolicy, PutGroups, GetGroups, SendablePolicy, Inverse, Sendable;
    EnumerationLength(ids, inserted);
    var groups := GroupsOf(inserted, ids);
    forall i | 0 <= i < |groups|
      ensures SendableGroup(PutPolicy, GetPolicy, groups[i])
    {
      forall j | 0 <= j < |groups[i].1|
        ensures Inverse(PutPolicy, GetPolicy, groups[i].1[j])
      {
        PolicyInverse(inserted[ids[i]][j]);
      }
    }
    GroupsRoundTrip(PutPolicy, GetPolicy, groups, rest);
  }

  lemma RemovedGroupsRoundTrip(removed: map<string, seq<PolicyKey>>, ids: seq<string>, rest: Bytes)
    requires Enumerates(ids, removed) && |removed| < 0x1_0000
    requires forall id :: id in removed ==> Sendable(id) && |removed[id]| < 0x1_0000
    requires forall id, i :: id in removed && 0 <= i < |removed[id]| ==> SendableKey(removed[id][i])
    ensures GetGroups(GetKey, PutGroups(PutKey, GroupsOf(removed, ids)) + rest) == Done(GroupsOf(removed, ids), rest)
  {
    hide PutKey, GetKey, PutGroups, GetGroups, SendableKey, Inverse, Sendable;
    EnumerationLength(ids, removed);
    var groups := GroupsOf(removed, ids);
    forall i | 0 <= i < |groups|
      ensures SendableGroup(PutKey, GetKey, groups[i])
    {
      forall j | 0 <= j < |groups[i].1|
        ensures Inverse(PutKey, GetKey, groups[i].1[j])
      {
        KeyInverse(removed[ids[i]][j]);
      }
    }
    GroupsRoundTrip(PutKey, GetKey, groups, rest);
  }

  /** A SetPolicies request arrives without its empty groups, and otherwise unchanged, whatever the order of its maps. */
  lemma SetPoliciesRoundTrip(m: Message, o: Orders, rest: Bytes)
    requires m.SetPolicies? && SendableMessage(m) && OrdersOf(m, o)
    ensures GetSetPolicies(Body(m, o) + rest) == Done(Delivered(m), rest)
  {
    hide PutGroups, GetGroups, Collect, SendablePolicy, SendableKey, Sendable, Enumerates;
    assert Enumerates(o.inserted, m.inserted) && Enumerates(o.removed, m.removed);
    var inserted := PutGroups(PutPolicy, GroupsOf(m.inserted, o.inserted)) by { EnumeratedAreIn(o.inserted, m.inserted); }
    var removed := PutGroups(PutKey, GroupsOf(m.removed, o.removed)) by { EnumeratedAreIn(o.removed, m.removed); }
    assert Body(m, o) + rest == inserted + (removed + rest);
    InsertedGroupsRoundTrip(m.inserted, o.inserted, removed + rest);
    RemovedGroupsRoundTrip(m.removed, o.removed, rest);
    CollectGroups(m.inserted, o.inserted);
    CollectGroups(m.removed, o.removed);
  }

  lemma EnumeratedAreIn<T>(ids: seq<string>, m: map<string, T>)
    requires Enumerates(ids, m)
    ensures forall i :: 0 <= i < |ids| ==> ids[i] in m
  {
  }

  /** It arrives unchanged exactly when no group is empty. */
  lemma SetPoliciesArrivesIffNoGroupIsEmpty(m: Message, o: Orders, rest: Bytes)
    requires m.SetPolicies? && SendableMessage(m) && OrdersOf(m, o)
    ensures GetSetPolicies(Body(m, o) + rest) == Done(m, rest)
       <==> (forall id :: id in m.inserted ==> m.inserted[id] != []) && (forall id :: id in m.removed ==> m.removed[id] != [])
  {
    SetPoliciesRoundTrip(m, o, rest);
    hide GetSetPolicies, Body, SendableMessage, OrdersOf;
    hide NonEmpty;
    NonEmptyIsAll(m.inserted);
    NonEmptyIsAll(m.removed);
  }

  lemma NonEmptyIsAll<T>(m: map<string, seq<T>>)
    ensures NonEmpty(m) == m <==> forall id :: id in m ==> m[id] != []
  {
    if id :| id in m && m[id] == [] {
      assert id !in NonEmpty(m);
    }
  }

  lemma AdminCheckRequestRoundTrip(key: PolicyKey, start: string, recursive: bool, rest: Bytes)
    requires SendableKey(key) && Sendable(start)
    ensures GetAdminCheckRequest(PutKey(key) + PutText(start) + PutFlag(recursive) + rest)
         == Done(AdminCheckRequest(key, start, recursive), rest)
  {
    hide PutKey, GetKey, PutText, GetText, PutFlag, GetFlag;
    var s2 := PutFlag(recursive) + rest;
    assert PutKey(key) + PutText(start) + PutFlag(recursive) + rest == PutKey(key) + (PutText(start) + s2);
    KeyRoundTrip(key, PutText(start) + s2);
    TextRoundTrip(start, s2);
    FlagRoundTrip(recursive, rest);
  }

  lemma ListRequestRoundTrip(id: string, filter: PolicyKey, rest: Bytes)
    requires Sendable(id) && SendableKey(filter)
    ensures GetListRequest(PutText(id) + PutKey(filter) + rest) == Done(ListRequest(id, filter), rest)
  {
    hide PutKey, GetKey, PutText, GetText;
    assert PutText(id) + PutKey(filter) + rest == PutText(id) + (PutKey(filter) + rest);
    TextRoundTrip(id, PutKey(filter) + rest);
    KeyRoundTrip(filter, rest);
  }

  lemma ListResponseRoundTrip(policies: seq<Policy>, bucketValid: bool, dbCorrupted: bool, rest: Bytes)
    requires |policies| < 0x1_0000 && forall i :: 0 <= i < |policies| ==> SendablePolicy(policies[i])
    ensures GetListResponse(PutCounted(PutPolicy, policies) + PutFlag(bucketValid) + PutFlag(dbCorrupted) + rest)
         == Done(ListResponse(policies, bucketValid, dbCorrupted), rest)
  {
    hide PutPolicy, GetPolicy, PutCounted, GetCounted, PutFlag, GetFlag, SendablePolicy, Inverse;
    var s2 := PutFlag(dbCorrupted) + rest;
    var s1 := PutFlag(bucketValid) + s2;
    assert PutCounted(PutPolicy, policies) + PutFlag(bucketValid) + PutFlag(dbCorrupted) + rest
        == PutCounted(PutPolicy, policies) + s1;
    forall i | 0 <= i < |policies|
      ensures Inverse(PutPolicy, GetPolicy, policies[i])
    {
      PolicyInverse(policies[i]);
    }
    CountedRoundTrip(PutPolicy, GetPolicy, policies, s1);
    FlagRoundTrip(bucketValid, s2);
    FlagRoundTrip(dbCorrupted, rest);
  }

  lemma AdminCheckResponseRoundTrip(result: PolicyResult, bucketValid: bool, dbCorrupted: bool, rest: Bytes)
    requires Sendable(result.metadata)
    ensures GetAdminCheckResponse(PutResult(result) + PutFlag(bucketValid) + PutFlag(dbCorrupted) + rest)
         == Done(AdminCheckResponse(result, bucketValid, dbCorrupted), rest)
  {
    hide PutResult, GetResult, PutFlag, GetFlag;
    var s2 := PutFlag(dbCorrupted) + rest;
    var s1 := PutFlag(bucketValid) + s2;
    assert PutResult(result) + PutFlag(bucketValid) + PutFlag(dbCorrupted) + rest == PutResult(result) + s1;
    ResultRoundTrip(result, s1);
    FlagRoundTrip(bucketValid, s2);
    FlagRoundTrip(dbCorrupted, rest);
  }

  lemma EraseRequestRoundTrip(start: string, recursive: bool, filter: PolicyKey, rest: Bytes)
    requires Sendable(start) && SendableKey(filter)
    ensures GetEraseRequest(PutText(start) + PutFlag(recursive) + PutKey(filter) + rest)
         == Done(EraseRequest(start, recursive, filter), rest)
  {
    hide PutKey, GetKey, PutText, GetText, PutFlag, GetFlag;
    var s2 := PutKey(filter) + rest;
    var s1 := PutFlag(recursive) + s2;
    assert PutText(start) + PutFlag(recursive) + PutKey(filter) + rest == PutText(start) + s1;
    TextRoundTrip(start, s1);
    FlagRoundTrip(recursive, s2);
    KeyRoundTrip(filter, rest);
  }

  lemma DescriptionListRoundTrip(descriptions: seq<Description>, dbCorrupted: bool, rest: Bytes)
    requires |descriptions| < 0x1_0000 && forall i :: 0 <= i < |descriptions| ==> Sendable(descriptions[i].name)
    ensures GetDescriptionListResponse(PutCounted(PutDescription, descriptions) + PutFlag(dbCorrupted) + rest)
         == Done(DescriptionListResponse(descriptions, dbCorrupted), rest)
  {
    hide PutDescription, GetDescription, PutCounted, GetCounted, PutFlag, GetFlag, Sendable;
    var s1 := PutFlag(dbCorrupted) + rest;
    assert PutCounted(PutDescription, descriptions) + PutFlag(dbCorrupted) + rest == PutCounted(PutDescription, descriptions) + s1;
    forall i | 0 <= i < |descriptions|
      ensures Inverse(PutDescription, GetDescription, descriptions[i])
    {
      forall more: Bytes
        ensures GetDescription(PutDescription(descriptions[i]) + more) == Done(descriptions[i], more)
      {
        DescriptionRoundTrip(descriptions[i], more);
      }
    }
    CountedRoundTrip(PutDescription, GetDescription, descriptions, s1);
    FlagRoundTrip(dbCorrupted, rest);
  }

  /** Whatever follows it on the stream, a message that can be sent is read back, and nothing beyond it is consumed. */
  lemma BodyRoundTrip(m: Message, o: Orders, rest: Bytes)
    requires SendableMessage(m) && OrdersOf(m, o)
    ensures Decoded(OpCode(m), Body(m, o) + rest) == Done(Delivered(m), rest)
  {
    hide Body, GetSetPolicies, SendableMessage, OrdersOf, GetKey, GetText, GetResult, GetEntry, GetCounted;
    hide GetDescriptionListResponse, GetAdminCheckResponse, GetAdminCheckRequest, GetListRequest, GetSimpleCheckResponse;
    hide GetInsertOrUpdateBucket, GetListResponse, GetEraseRequest, GetCodeResponse;
    if m.SetPolicies? {
      SetPoliciesRoundTrip(m, o, rest);
      assert OpCode(m) == 22;
    } else if OpCode(m) < 20 {
      ClientBodyRoundTrip(m, o, rest);
    } else {
      AdminBodyRoundTrip(m, o, rest);
    }
  }

  lemma ClientBodyRoundTrip(m: Message, o: Orders, rest: Bytes)
    requires SendableMessage(m) && OpCode(m) < 20
    ensures Decoded(OpCode(m), Body(m, o) + rest) == Done(m, rest)
  {
    hide PutKey, GetKey, PutResult, GetResult, PutEntry, GetEntry, PutCounted, GetCounted, PutInt32;
    hide GetSimpleCheckResponse, SendableKey, Sendable;
    assert [] + rest == rest;
    match m
    case CheckRequest(key) => KeyRoundTrip(key, rest);
    case CheckResponse(result) => ResultRoundTrip(result, rest);
    case CancelRequest =>
    case CancelResponse =>
    case SimpleCheckRequest(key) => KeyRoundTrip(key, rest);
    case SimpleCheckResponse(value, result) => SimpleCheckResponseRoundTrip(value, result, rest);
    case MonitorEntriesPut(entries) => MonitorEntriesRoundTrip(entries, rest);
    case MonitorEntryPut(entry) => EntryRoundTrip(entry, rest);
    case _ =>
  }

  lemma AdminBodyRoundTrip(m: Message, o: Orders, rest: Bytes)
    requires SendableMessage(m) && OpCode(m) >= 20 && !m.SetPolicies?
    ensures Decoded(OpCode(m), Body(m, o) + rest) == Done(m, rest)
  {
    hide PutKey, PutText, GetText, PutResult, PutCounted, PutFlag, PutUnsigned, GetUnsigned;
    hide GetListResponse, GetEraseRequest, GetDescriptionListResponse, GetAdminCheckResponse, GetAdminCheckRequest;
    hide GetListRequest, GetInsertOrUpdateBucket, SendableKey, Sendable, SendablePolicy;
    assert [] + rest == rest;
    match m
    case InsertOrUpdateBucket(id, result) => InsertOrUpdateBucketRoundTrip(id, result, rest);
    case RemoveBucket(id) => TextRoundTrip(id, rest);
    case CodeResponse(code) =>
      Powers();
      UnsignedRoundTrip(code as int, 2, rest);
    case AdminCheckRequest(key, start, recursive) => AdminCheckRequestRoundTrip(key, start, recursive, rest);
    case ListRequest(id, filter) => ListRequestRoundTrip(id, filter, rest);
    case ListResponse(policies, bucketValid, dbCorrupted) => ListResponseRoundTrip(policies, bucketValid, dbCorrupted, rest);
    case AdminCheckResponse(result, bucketValid, dbCorrupted) => AdminCheckResponseRoundTrip(result, bucketValid, dbCorrupted, rest);
    case EraseRequest(start, recursive, filter) => EraseRequestRoundTrip(start, recursive, filter, rest);
    case DescriptionListRequest =>
    case DescriptionListResponse(descriptions, dbCorrupted) => DescriptionListRoundTrip(descriptions, dbCorrupted, rest);
    case _ =>
  }

  /** The operation code and the body of a message. */
  function Encoded(m: Message, o: Orders): Bytes
    requires OrdersOf(m, o)
  {
    PutUnsigned(OpCode(m), 1) + Body(m, o)
  }

  /** The operation codes of the protocol; messages come in the order of their declaration, admin messages from 20 on. */
  lemma EncodedStartsWithItsCode(m: Message, o: Orders)
    requires OrdersOf(m, o)
    ensures Encoded(m, o) != []
    ensures Encoded(m, o)[0] as int ==
            match m
            case CheckRequest(_) => 0 case CheckResponse(_) => 1 case CancelRequest => 2 case CancelResponse => 3
            case SimpleCheckRequest(_) => 4 case SimpleCheckResponse(_, _) => 5
            case MonitorEntriesPut(_) => 6 case MonitorEntryPut(_) => 7
            case InsertOrUpdateBucket(_, _) => 20 case RemoveBucket(_) => 21 case SetPolicies(_, _) => 22
            case CodeResponse(_) => 23 case AdminCheckRequest(_, _, _) => 24 case ListRequest(_, _) => 25
            case ListResponse(_, _, _) => 26 case AdminCheckResponse(_, _, _) => 27 case EraseRequest(_, _, _) => 28
            case DescriptionListRequest => 29 case DescriptionListResponse(_, _) => 30
  {
    assert PutUnsigned(OpCode(m), 1)[0] as int == OpCode(m);
  }

  lemma MessageRoundTrip(d: Dialect, m: Message, o: Orders, rest: Bytes)
    requires OpCode(m) in OpCodes(d) && SendableMessage(m) && OrdersOf(m, o)
    ensures Decode(d, Encoded(m, o) + rest) == Done(Delivered(m), rest)
  {
    hide Body, Decoded, SendableMessage, OrdersOf, Delivered, PutUnsigned, GetUnsigned, OpCodes, OpCode;
    Powers();
    assert Encoded(m, o) + rest == PutUnsigned(OpCode(m), 1) + (Body(m, o) + rest);
    UnsignedRoundTrip(OpCode(m), 1, Body(m, o) + rest);
    BodyRoundTrip(m, o, rest);
  }
}
