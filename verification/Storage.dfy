/**
 The policy store: the administrative operations on the bucket map, and what
 every sequence of them keeps.
 */
module Storage {
  import opened PolicyTypes
  import opened PolicyKeys
  import opened PolicyBuckets
  import opened RecursiveErase
  import opened LinkGraphs

  datatype Outcome = Done | BucketNotExists | InvalidBucketId | DefaultBucketDeletion | DefaultBucketSetNone

  /**
   A well-formed store: every BUCKET policy points to a bucket that exists, the
   default bucket exists and its default policy is not a bare NONE.
   */
  ghost predicate Consistent(db: Database) {
    && DefaultBucket in db && !db[DefaultBucket].defaultPolicy.Is(NONE)
    && forall id :: id in db ==> ConsistentBucket(db, id)
  }

  ghost predicate ConsistentBucket(db: Database, id: string)
    requires id in db
  {
    db[id].id == id && ValidId(id) && Indexed(db[id].policies) && Links(db[id].policies) <= db.Keys
  }

  // ----- the operations on values -----

  predicate PointsInto(db: Database, p: Policy) { p.result.policyType == BUCKET ==> p.result.metadata in db }

  /** Every named bucket exists, and so does every bucket pointed to. */
  predicate Insertable(db: Database, groups: map<string, seq<Policy>>) {
    forall id :: id in groups ==> id in db && forall i :: 0 <= i < |groups[id]| ==> PointsInto(db, groups[id][i])
  }

  function Inserted(db: Database, groups: map<string, seq<Policy>>): Database {
    map id | id in db ::
      if id in groups then db[id].(policies := InsertPolicies(db[id].policies, groups[id])) else db[id]
  }

  function WithBucket(db: Database, id: string, defaultPolicy: PolicyResult): Database {
    if id in db then db[id := db[id].(defaultPolicy := defaultPolicy)]
    else db[id := Bucket(id, defaultPolicy, map[])]
  }

  /** The policies that do not point to bucket `id`. */
  function NotLinking(policies: map<string, Policy>, id: string): map<string, Policy> {
    map k | k in policies && !(policies[k].result.policyType == BUCKET && policies[k].result.metadata == id) :: policies[k]
  }

  function Unlinked(db: Database, id: string): Database {
    map x | x in db :: db[x].(policies := NotLinking(db[x].policies, id))
  }

  function WithoutKeys(b: Bucket, keys: seq<PolicyKey>): Bucket
    decreases |keys|
  {
    if keys == [] then b else WithoutKey(WithoutKeys(b, keys[..|keys| - 1]), keys[|keys| - 1])
  }

  /** Keys to delete, by bucket, in the order they are processed. */
  type KeyGroups = seq<(string, seq<PolicyKey>)>

  /** A group whose bucket is missing stops the deletion; an empty group is not even looked at. */
  function KeysDeleted(db: Database, groups: KeyGroups): (Database, Outcome) {
    if groups == [] then (db, Done)
    else
      var (id, keys) := groups[0];
      if keys == [] then KeysDeleted(db, groups[1..])
      else if id !in db then (db, BucketNotExists)
      else KeysDeleted(db[id := WithoutKeys(db[id], keys)], groups[1..])
  }

  ghost function ReachSet(db: Database, start: string): (region: set<string>)
    ensures region <= db.Keys
  {
    set id | id in db && Reachable(db, start, id)
  }

  datatype AdminOp =
    | InsertOp(inserted: map<string, seq<Policy>>)
    | BucketOp(id: string, defaultPolicy: PolicyResult)
    | DeleteBucketOp(id: string)
    | DeleteKeysOp(groups: KeyGroups)
    | EraseOp(id: string, recursive: bool, filter: PolicyKey)

  /** The new store and the outcome of each operation. */
  ghost function Effect(db: Database, op: AdminOp): (Database, Outcome) {
    match op
    case InsertOp(groups) => if Insertable(db, groups) then (Inserted(db, groups), Done) else (db, BucketNotExists)
    case BucketOp(id, d) =>
      if id == DefaultBucket && d.Is(NONE) then (db, DefaultBucketSetNone)
      else if id !in db && !ValidId(id) then (db, InvalidBucketId)
      else (WithBucket(db, id, d), Done)
    case DeleteBucketOp(id) =>
      if id == DefaultBucket then (db, DefaultBucketDeletion)
      else (Unlinked(db, id) - {id}, if id in db then Done else BucketNotExists)
    case DeleteKeysOp(groups) => KeysDeleted(db, groups)
    case EraseOp(id, recursive, filter) =>
      if id !in db then (db, BucketNotExists)
      else (EraseIn(db, if recursive then ReachSet(db, id) else {id}, filter), Done)
  }

  ghost function EffectAll(db: Database, ops: seq<AdminOp>): Database
    decreases |ops|
  {
    if ops == [] then db else Effect(EffectAll(db, ops[..|ops| - 1]), ops[|ops| - 1]).0
  }

  // ----- referential integrity -----

  lemma {:induction false} InsertKeepsBucket(policies: map<string, Policy>, ps: seq<Policy>, ids: set<string>)
    requires Indexed(policies) && Links(policies) <= ids
    requires forall i :: 0 <= i < |ps| ==> ps[i].result.policyType == BUCKET ==> ps[i].result.metadata in ids
    ensures Indexed(InsertPolicies(policies, ps)) && Links(InsertPolicies(policies, ps)) <= ids
    decreases |ps|
  {
    if ps != [] {
      InsertKeepsBucket(policies, ps[..|ps| - 1], ids);
      var before, p := InsertPolicies(policies, ps[..|ps| - 1]), ps[|ps| - 1];
      InsertOneKeeps(before, p, ids);
    }
  }

  lemma InsertOneKeeps(policies: map<string, Policy>, p: Policy, ids: set<string>)
    requires Indexed(policies) && Links(policies) <= ids
    requires p.result.policyType == BUCKET ==> p.result.metadata in ids
    ensures Indexed(policies[GlueKey(p.key) := p]) && Links(policies[GlueKey(p.key) := p]) <= ids
  {
    var glued := GlueKey(p.key);
    forall k | k in policies[glued := p] ensures k == glued || k in policies {}
  }

  lemma FewerPoliciesKeep(policies: map<string, Policy>, fewer: map<string, Policy>)
    requires Indexed(policies)
    requires forall k :: k in fewer ==> k in policies && fewer[k] == policies[k]
    ensures Indexed(fewer) && Links(fewer) <= Links(policies)
  {
  }

  lemma InsertKeepsConsistent(db: Database, groups: map<string, seq<Policy>>)
    requires Consistent(db) && Insertable(db, groups)
    ensures Consistent(Inserted(db, groups))
  {
    var db' := Inserted(db, groups);
    assert db'.Keys == db.Keys;
    forall id | id in db ensures ConsistentBucket(db', id) {
      assert ConsistentBucket(db, id);
      if id in groups { InsertKeepsBucket(db[id].policies, groups[id], db.Keys); }
    }
  }

  lemma WithBucketKeepsConsistent(db: Database, id: string, d: PolicyResult)
    requires Consistent(db) && (id == DefaultBucket ==> !d.Is(NONE)) && (id in db || ValidId(id))
    ensures Consistent(WithBucket(db, id, d))
  {
    var db' := WithBucket(db, id, d);
    forall x | x in db' ensures ConsistentBucket(db', x) {
      if x in db { assert ConsistentBucket(db, x); }
    }
  }

  lemma UnlinkedKeepsConsistent(db: Database, id: string)
    requires Consistent(db) && id != DefaultBucket
    ensures Consistent(Unlinked(db, id) - {id})
  {
    var db' := Unlinked(db, id) - {id};
    forall x | x in db' ensures ConsistentBucket(db', x) {
      assert ConsistentBucket(db, x);
      FewerPoliciesKeep(db[x].policies, NotLinking(db[x].policies, id));
      forall t | t in Links(NotLinking(db[x].policies, id)) ensures t in db' {
        assert t in db && t != id;
      }
    }
  }

  /** With referential integrity, nothing points to a bucket that does not exist. */
  lemma UnlinkedOfMissing(db: Database, id: string)
    requires Consistent(db) && id !in db
    ensures Unlinked(db, id) - {id} == db
  {
    hide Indexed, ValidId;
    var db' := Unlinked(db, id) - {id};
    forall x | x in db ensures db'[x] == db[x] {
      assert ConsistentBucket(db, x);
      var policies := db[x].policies;
      forall k | k in policies ensures k in NotLinking(policies, id) {
        if policies[k].result.policyType == BUCKET { assert policies[k].result.metadata in Links(policies); }
      }
      assert NotLinking(policies, id) == policies;
    }
  }

  lemma {:induction false} WithoutKeysFewer(b: Bucket, keys: seq<PolicyKey>)
    ensures var r := WithoutKeys(b, keys);
            r == b.(policies := r.policies) && forall k :: k in r.policies ==> k in b.policies && r.policies[k] == b.policies[k]
    decreases |keys|
  {
    if keys != [] { WithoutKeysFewer(b, keys[..|keys| - 1]); }
  }

  lemma ShrunkBucketKeepsConsistent(db: Database, id: string, b: Bucket)
    requires Consistent(db) && id in db && b == db[id].(policies := b.policies)
    requires forall k :: k in b.policies ==> k in db[id].policies && b.policies[k] == db[id].policies[k]
    ensures Consistent(db[id := b])
  {
    var db' := db[id := b];
    forall x | x in db' ensures ConsistentBucket(db', x) {
      assert ConsistentBucket(db, x);
      if x == id { FewerPoliciesKeep(db[id].policies, b.policies); }
    }
  }

  lemma {:induction false} KeysDeletedKeepsConsistent(db: Database, groups: KeyGroups)
    requires Consistent(db)
    ensures Consistent(KeysDeleted(db, groups).0)
    decreases |groups|
  {
    if groups != [] {
      var (id, keys) := groups[0];
      if keys == [] {
        KeysDeletedKeepsConsistent(db, groups[1..]);
      } else if id in db {
        WithoutKeysFewer(db[id], keys);
        ShrunkBucketKeepsConsistent(db, id, WithoutKeys(db[id], keys));
        KeysDeletedKeepsConsistent(db[id := WithoutKeys(db[id], keys)], groups[1..]);
      }
    }
  }

  lemma EraseKeepsConsistent(db: Database, visited: set<string>, filter: PolicyKey)
    requires Consistent(db)
    ensures Consistent(EraseIn(db, visited, filter))
  {
    var db' := EraseIn(db, visited, filter);
    assert db'.Keys == db.Keys;
    forall x | x in db' ensures ConsistentBucket(db', x) {
      assert ConsistentBucket(db, x);
      FewerPoliciesKeep(db[x].policies, db'[x].policies);
    }
  }

  lemma EffectKeepsConsistent(db: Database, op: AdminOp)
    requires Consistent(db)
    ensures Consistent(Effect(db, op).0)
  {
    match op
    case InsertOp(groups) => if Insertable(db, groups) { InsertKeepsConsistent(db, groups); }
    case BucketOp(id, d) =>
      if !(id == DefaultBucket && d.Is(NONE)) && (id in db || ValidId(id)) { WithBucketKeepsConsistent(db, id, d); }
    case DeleteBucketOp(id) => if id != DefaultBucket { UnlinkedKeepsConsistent(db, id); }
    case DeleteKeysOp(groups) => KeysDeletedKeepsConsistent(db, groups);
    case EraseOp(id, recursive, filter) =>
      if id in db { EraseKeepsConsistent(db, if recursive then ReachSet(db, id) else {id}, filter); }
  }

  /** Every sequence of administrative operations, failing ones included, keeps the store well-formed. */
  lemma {:induction false} AdminRunsKeepConsistency(db: Database, ops: seq<AdminOp>)
    requires Consistent(db)
    ensures Consistent(EffectAll(db, ops))
    decreases |ops|
  {
    if ops != [] {
      AdminRunsKeepConsistency(db, ops[..|ops| - 1]);
      EffectKeepsConsistent(EffectAll(db, ops[..|ops| - 1]), ops[|ops| - 1]);
    }
  }

  /**
   On a well-formed store an operation that fails leaves the store as it was,
   with one exception: deleting keys from several buckets.  A delete of a missing
   bucket is covered only because no policy can point to that bucket.
   */
  lemma FailureLeavesStoreUnchanged(db: Database, op: AdminOp)
    requires Consistent(db) && !op.DeleteKeysOp? && Effect(db, op).1 != Done
    ensures Effect(db, op).0 == db
  {
    if op.DeleteBucketOp? && op.id != DefaultBucket { UnlinkedOfMissing(db, op.id); }
  }

  /** Where the groups of a failing key deletion stop. */
  function FirstMissing(db: Database, groups: KeyGroups): (n: nat)
    ensures n <= |groups|
  {
    if groups == [] || (groups[0].1 != [] && groups[0].0 !in db) then 0 else 1 + FirstMissing(db, groups[1..])
  }

  /**
   A failing key deletion has deleted the keys of exactly the groups before the
   first non-empty one whose bucket is missing; it fails exactly if there is one.
   */
  lemma {:induction false} KeyDeletionIsAPrefix(db: Database, groups: KeyGroups)
    ensures var n := FirstMissing(db, groups);
            && (KeysDeleted(db, groups).1 == Done <==> n == |groups|)
            && KeysDeleted(db, groups[..n]) == (KeysDeleted(db, groups).0, Done)
    decreases |groups|
  {
    var n := FirstMissing(db, groups);
    if n > 0 {
      var (id, keys) := groups[0];
      var db' := if keys == [] then db else db[id := WithoutKeys(db[id], keys)];
      assert db'.Keys == db.Keys;
      FirstMissingSame(db, db', groups[1..]);
      KeyDeletionIsAPrefix(db', groups[1..]);
      assert groups[..n][1..] == groups[1..][..n - 1];
    }
  }

  lemma {:induction false} FirstMissingSame(db: Database, db': Database, groups: KeyGroups)
    requires db.Keys == db'.Keys
    ensures FirstMissing(db, groups) == FirstMissing(db', groups)
    decreases |groups|
  {
    if groups != [] { FirstMissingSame(db, db', groups[1..]); }
  }

  // ----- what the operations do, policy by policy -----

  /**
   An insertion fails exactly if a bucket that is named or pointed to is missing.
   Otherwise each key of each named bucket has the last policy inserted for it, or
   the one it had; nothing else changes.
   */
  lemma InsertionEffect(db: Database, groups: map<string, seq<Policy>>, id: string, key: PolicyKey)
    requires id in db
    ensures Effect(db, InsertOp(groups)).1 == Done <==>
              && (forall g :: g in groups ==> g in db)
              && (forall g, i :: g in groups && 0 <= i < |groups[g]| && groups[g][i].result.policyType == BUCKET ==>
                    groups[g][i].result.metadata in db)
    ensures var db', k := Effect(db, InsertOp(groups)).0, GlueKey(key);
            && db'.Keys == db.Keys && db'[id] == db[id].(policies := db'[id].policies)
            && (Effect(db, InsertOp(groups)).1 == Done && id in groups ==>
                  && (forall i :: LastFor(groups[id], key, i) ==> k in db'[id].policies && db'[id].policies[k] == groups[id][i])
                  && ((forall i :: 0 <= i < |groups[id]| ==> groups[id][i].key != key) ==>
                        && (k in db'[id].policies <==> k in db[id].policies)
                        && (k in db[id].policies ==> db'[id].policies[k] == db[id].policies[k])))
            && (Effect(db, InsertOp(groups)).1 != Done || id !in groups ==> db'[id] == db[id])
  {
    hide GlueKey;
    if id in groups {
      var policies, ps := db[id].policies, groups[id];
      forall i | LastFor(ps, key, i)
        ensures GlueKey(key) in PolicyBuckets.InsertPolicies(policies, ps)
        ensures PolicyBuckets.InsertPolicies(policies, ps)[GlueKey(key)] == ps[i]
      {
        InsertionReplaces(policies, ps, key, i);
      }
      if forall i :: 0 <= i < |ps| ==> ps[i].key != key { InsertionKeeps(policies, ps, key); }
    }
  }

  /** Setting a default policy keeps the policies of the bucket, and all other buckets. */
  lemma BucketUpdateEffect(db: Database, id: string, d: PolicyResult)
    ensures Effect(db, BucketOp(id, d)).1 == Done <==>
              !(id == "" && d == PolicyResult(NONE, "")) && (id in db || ValidId(id))
    ensures Effect(db, BucketOp(id, d)).1 == Done ==>
              var db' := Effect(db, BucketOp(id, d)).0;
              && db'.Keys == db.Keys + {id} && db'[id].defaultPolicy == d
              && (id in db ==> db'[id].policies == db[id].policies && db'[id].id == db[id].id)
              && (id !in db ==> db'[id].policies == map[] && db'[id].id == id)
              && forall x :: x in db && x != id ==> db'[x] == db[x]
  {
  }

  /** A deleted bucket is gone with exactly the policies that point to it. */
  lemma BucketDeletionEffect(db: Database, id: string)
    requires id != ""
    ensures var db' := Effect(db, DeleteBucketOp(id)).0;
            && db'.Keys == db.Keys - {id}
            && forall x :: x in db' ==>
                 && db'[x].id == db[x].id && db'[x].defaultPolicy == db[x].defaultPolicy && id !in Links(db'[x].policies)
                 && (forall k :: k in db'[x].policies ==> k in db[x].policies && db'[x].policies[k] == db[x].policies[k])
                 && (forall k :: k in db[x].policies && k !in db'[x].policies ==>
                       db[x].policies[k].result.policyType == BUCKET && db[x].policies[k].result.metadata == id)
  {
  }

  /** Exactly the policies stored for the named keys are gone. */
  lemma {:induction false} WithoutKeysHas(b: Bucket, keys: seq<PolicyKey>, k: string)
    ensures k in WithoutKeys(b, keys).policies <==>
              k in b.policies && forall i :: 0 <= i < |keys| ==> GlueKey(keys[i]) != k
    decreases |keys|
  {
    if keys != [] { WithoutKeysHas(b, keys[..|keys| - 1], k); }
  }

  /** A deletion that succeeds has deleted, in every bucket, exactly the keys that some group names for it. */
  lemma {:induction false} KeyDeletionEffect(db: Database, groups: KeyGroups, id: string, k: string)
    requires KeysDeleted(db, groups).1 == Done && id in db
    ensures var db' := KeysDeleted(db, groups).0;
            && db'.Keys == db.Keys && db'[id] == db[id].(policies := db'[id].policies)
            && (k in db'[id].policies <==>
                  k in db[id].policies &&
                  forall g, i :: 0 <= g < |groups| && groups[g].0 == id && 0 <= i < |groups[g].1| ==> GlueKey(groups[g].1[i]) != k)
            && (k in db'[id].policies ==> db'[id].policies[k] == db[id].policies[k])
    decreases |groups|
  {
    hide GlueKey;
    if groups != [] {
      var (g, keys) := groups[0];
      var middle := if keys == [] then db else db[g := WithoutKeys(db[g], keys)];
      if keys != [] {
        WithoutKeysFewer(db[g], keys);
        WithoutKeysHas(db[g], keys, k);
      }
      KeyDeletionEffect(middle, groups[1..], id, k);
      GroupsSplit(groups, id, k);
    }
  }

  lemma GroupsSplit(groups: KeyGroups, id: string, k: string)
    requires groups != []
    ensures (forall g, i :: 0 <= g < |groups| && groups[g].0 == id && 0 <= i < |groups[g].1| ==> GlueKey(groups[g].1[i]) != k)
       <==> && (groups[0].0 == id ==> forall i :: 0 <= i < |groups[0].1| ==> GlueKey(groups[0].1[i]) != k)
            && (forall g, i :: 0 <= g < |groups[1..]| && groups[1..][g].0 == id && 0 <= i < |groups[1..][g].1| ==>
                  GlueKey(groups[1..][g].1[i]) != k)
  {
    forall g, i | 0 < g < |groups| && 0 <= i < |groups[g].1|
      ensures groups[g].1[i] == groups[1..][g - 1].1[i] && groups[g].0 == groups[1..][g - 1].0
    {
    }
  }

  /**
   An erase keeps a policy exactly if its bucket is not visited or the filter names
   one of its features differently; `#` names nothing.
   */
  lemma EraseEffect(db: Database, start: string, recursive: bool, filter: PolicyKey, id: string, k: string)
    requires start in db && id in db
    ensures var db' := Effect(db, EraseOp(start, recursive, filter)).0;
            && db'.Keys == db.Keys && db'[id] == db[id].(policies := db'[id].policies)
            && (k in db'[id].policies <==>
                  && k in db[id].policies
                  && (!(if recursive then Reachable(db, start, id) else id == start) ||
                      (filter.client != "#" && db[id].policies[k].key.client != filter.client) ||
                      (filter.user != "#" && db[id].policies[k].key.user != filter.user) ||
                      (filter.privilege != "#" && db[id].policies[k].key.privilege != filter.privilege)))
            && (k in db'[id].policies ==> db'[id].policies[k] == db[id].policies[k])
  {
    SurvivesIff(db[id].policies, filter, k);
    hide Surviving, Reachable;
  }

  /** The filter of three `#` empties every visited bucket. */
  lemma EraseAll(db: Database, start: string, recursive: bool, id: string)
    requires start in db && id in db
    ensures var b := Effect(db, EraseOp(start, recursive, PolicyKey("#", "#", "#"))).0[id];
            b == if (if recursive then Reachable(db, start, id) else id == start) then db[id].(policies := map[]) else db[id]
  {
    EverythingIsErased(db[id].policies);
    hide Surviving, Reachable;
  }

  /** A filter that names one feature erases exactly the policies with that feature. */
  lemma EraseByOneFeature(db: Database, start: string, recursive: bool, value: string, id: string, k: string)
    requires start in db && id in db && k in db[id].policies && value != "#"
    requires if recursive then Reachable(db, start, id) else id == start
    ensures k in Effect(db, EraseOp(start, recursive, PolicyKey(value, "#", "#"))).0[id].policies <==>
              db[id].policies[k].key.client != value
    ensures k in Effect(db, EraseOp(start, recursive, PolicyKey("#", value, "#"))).0[id].policies <==>
              db[id].policies[k].key.user != value
    ensures k in Effect(db, EraseOp(start, recursive, PolicyKey("#", "#", value))).0[id].policies <==>
              db[id].policies[k].key.privilege != value
  {
    hide Effect, Reachable;
    EraseEffect(db, start, recursive, PolicyKey(value, "#", "#"), id, k);
    EraseEffect(db, start, recursive, PolicyKey("#", value, "#"), id, k);
    EraseEffect(db, start, recursive, PolicyKey("#", "#", value), id, k);
  }

  /** A filter without `#` erases, in every visited bucket, the policy of its own key and no other. */
  lemma EraseOneKey(db: Database, start: string, recursive: bool, filter: PolicyKey, id: string)
    requires Consistent(db) && start in db && id in db
    requires filter.client != "#" && filter.user != "#" && filter.privilege != "#"
    ensures var b := Effect(db, EraseOp(start, recursive, filter)).0[id];
            b.policies == if (if recursive then Reachable(db, start, id) else id == start)
                          then db[id].policies - {GlueKey(filter)} else db[id].policies
  {
    assert ConsistentBucket(db, id);
    OneKeyIsErased(db[id].policies, filter);
    hide Surviving, Reachable, GlueKey;
  }

  /** From an existing bucket of a well-formed store, only existing buckets are reachable. */
  lemma ReachableExists(db: Database, start: string, id: string)
    requires Consistent(db) && start in db && Reachable(db, start, id)
    ensures id in db
  {
    var path :| LinkPath(db, path) && path[0] == start && path[|path| - 1] == id;
    forall x | x in db ensures Links(db[x].policies) <= db.Keys { assert ConsistentBucket(db, x); }
    ClosedHasReachable(db, start, db.Keys, path);
  }

  // ----- the store -----

  lemma {:induction false} RankBound(region: set<string>, rank: map<string, nat>) returns (bound: nat)
    requires region <= rank.Keys
    ensures forall id :: id in region ==> rank[id] < bound
    decreases |region|
  {
    if region == {} {
      bound := 0;
    } else {
      var x :| x in region;
      var rest := RankBound(region - {x}, rank);
      bound := if rank[x] < rest then rest else rank[x] + 1;
      forall id | id in region ensures rank[id] < bound { assert id == x || id in region - {x}; }
    }
  }

  ghost predicate Eraseable(db: Database, start: string, filter: PolicyKey, rank: map<string, nat>, bound: nat) {
    && SurvivorsRanked(db, filter, ReachSet(db, start), rank)
    && forall id :: id in ReachSet(db, start) ==> rank[id] < bound
  }

  /** One round of the erase, with a bucket that exists: it makes progress. */
  lemma TakeOne(db: Database, start: string, filter: PolicyKey, rank: map<string, nat>,
                work: set<string>, visited: set<string>, x: string, bound: nat)
    requires Eraseable(db, start, filter, rank, bound) && Walking(db, start, work, visited) && x in work && x in db
    ensures Walking(db, start, work - {x} + LinksWhenTaken(db, filter, visited, x), visited + {x})
    ensures x in visited ==>
              && db.Keys - (visited + {x}) == db.Keys - visited
              && Weights(db, filter, ReachSet(db, start), rank, work - {x} + LinksWhenTaken(db, filter, visited, x), bound) <
                 Weights(db, filter, ReachSet(db, start), rank, work, bound)
    ensures x !in visited ==> |db.Keys - (visited + {x})| < |db.Keys - visited|
  {
    hide SurvivorsRanked, Reachable, Weights;
    WalkingStep(db, start, filter, work, visited, x);
    if x in visited {
      assert visited + {x} == visited;
      assert LinksWhenTaken(db, filter, visited, x) == SurvivingLinks(db, filter, x);
      RevisitIsLighter(db, start, filter, rank, work, x, bound);
    } else {
      assert db.Keys - (visited + {x}) == db.Keys - visited - {x};
    }
  }

  lemma RevisitIsLighter(db: Database, start: string, filter: PolicyKey, rank: map<string, nat>,
                         work: set<string>, x: string, bound: nat)
    requires Eraseable(db, start, filter, rank, bound) && x in db && x in work && Reachable(db, start, x)
    ensures Weights(db, filter, ReachSet(db, start), rank, work - {x} + SurvivingLinks(db, filter, x), bound) <
            Weights(db, filter, ReachSet(db, start), rank, work, bound)
  {
    TakingMakesLighter(db, filter, ReachSet(db, start), rank, work, x, bound);
  }

  lemma WalkedReachSet(db: Database, start: string, visited: set<string>)
    requires Walking(db, start, {}, visited)
    ensures visited == ReachSet(db, start)
  {
    WalkingDone(db, start, visited);
  }

  lemma WalkedExists(db: Database, start: string, work: set<string>, visited: set<string>, x: string)
    requires Consistent(db) && start in db && Walking(db, start, work, visited) && x in work
    ensures x in db
  {
    ReachableExists(db, start, x);
  }

  /** Any run can be carried on to its end. */
  lemma {:induction false} RunCanFinish(db: Database, start: string, filter: PolicyKey, rank: map<string, nat>, bound: nat,
                                        taken: seq<string>) returns (all: seq<string>)
    requires Consistent(db) && start in db && Eraseable(db, start, filter, rank, bound)
    requires (forall i :: 0 <= i < |taken| ==> taken[i] in db) && IsRun(db, start, filter, taken)
    ensures (forall i :: 0 <= i < |all| ==> all[i] in db) && IsRun(db, start, filter, all)
    ensures WorkAfter(db, start, filter, all) == {}
    decreases |db.Keys - Taken(taken)|, Weights(db, filter, ReachSet(db, start), rank, WorkAfter(db, start, filter, taken), bound)
  {
    hide Consistent, SurvivorsRanked, Walking, Weights, LinksWhenTaken, IsRun, WorkAfter, Taken, ReachSet;
    var work := WorkAfter(db, start, filter, taken);
    if work == {} {
      return taken;
    }
    RunIsAWalk(db, start, filter, taken);
    var x :| x in work;
    WalkedExists(db, start, work, Taken(taken), x);
    TakeOne(db, start, filter, rank, work, Taken(taken), x, bound);
    RunLonger(db, start, filter, taken, x);
    all := RunCanFinish(db, start, filter, rank, bound, taken + [x]);
  }

  /** The erase comes to an end exactly if the links it leaves do not form a cycle among the reachable buckets. */
  lemma EraseFinishesIffAcyclic(db: Database, start: string, filter: PolicyKey)
    requires Consistent(db) && start in db
    ensures (exists taken :: (forall i :: 0 <= i < |taken| ==> taken[i] in db) && IsRun(db, start, filter, taken) &&
                             WorkAfter(db, start, filter, taken) == {})
       <==> Acyclic(SurvivorGraph(db, filter, ReachSet(db, start)))
  {
    hide Consistent, IsRun, WorkAfter, Acyclic, SurvivorGraph, Reachable;
    var region := ReachSet(db, start);
    if Acyclic(SurvivorGraph(db, filter, region)) {
      var rank := SurvivorRank(db, filter, region);
      var bound := RankBound(region, rank);
      EmptyRun(db, start, filter);
      var all := RunCanFinish(db, start, filter, rank, bound, []);
    }
    if taken :| (forall i :: 0 <= i < |taken| ==> taken[i] in db) && IsRun(db, start, filter, taken) &&
                WorkAfter(db, start, filter, taken) == {} {
      FinishedRunIsAcyclic(db, start, filter, taken);
      assert Taken(taken) == region;
    }
  }

  lemma EmptyRun(db: Database, start: string, filter: PolicyKey)
    ensures IsRun(db, start, filter, [])
  {
  }

  /** Every bucket that links lead to from `start` exists. */
  ghost predicate NoneMissing(db: Database, start: string) { forall id :: Reachable(db, start, id) ==> id in db }

  lemma ConsistentMissesNone(db: Database, start: string)
    ensures Consistent(db) && start in db ==> NoneMissing(db, start)
    ensures start !in db ==> !NoneMissing(db, start)
  {
    ReachableStart(db, start);
    if Consistent(db) && start in db {
      forall id | Reachable(db, start, id) ensures id in db { ReachableExists(db, start, id); }
    }
  }

  lemma WalkedIsReached(db: Database, start: string, work: set<string>, visited: set<string>)
    requires Walking(db, start, work, visited)
    ensures visited <= ReachSet(db, start)
    ensures forall x :: x in work && x !in db ==> Reachable(db, start, x) && !NoneMissing(db, start)
  {
  }

  lemma NothingErased(db: Database, filter: PolicyKey)
    ensures EraseIn(db, {}, filter) == db
  {
  }

  lemma LinksLeft(db: Database, filter: PolicyKey, visited: set<string>, x: string)
    requires x in db
    ensures Links(EraseIn(db, visited, filter)[x].policies) == LinksWhenTaken(db, filter, visited, x)
  {
  }

  lemma WalkedMissesNone(db: Database, start: string, visited: set<string>)
    requires Walking(db, start, {}, visited)
    ensures NoneMissing(db, start)
  {
    WalkingDone(db, start, visited);
  }

  class PolicyStore {
    var buckets: Database

    constructor (db: Database)
      ensures buckets == db
    {
      buckets := db;
    }

    /** All buckets are checked before any policy is inserted. */
    method InsertPolicies(groups: map<string, seq<Policy>>) returns (outcome: Outcome)
      modifies this
      ensures (buckets, outcome) == Effect(old(buckets), InsertOp(groups))
    {
      var todo := groups.Keys;
      while todo != {}
        invariant todo <= groups.Keys && buckets == old(buckets)
        invariant forall id :: id in groups && id !in todo ==>
                    id in buckets && forall i :: 0 <= i < |groups[id]| ==> PointsInto(buckets, groups[id][i])
        decreases |todo|
      {
        var id :| id in todo;
        todo := todo - {id};
        if id !in buckets {
          return BucketNotExists;
        }
        for i := 0 to |groups[id]|
          invariant forall j :: 0 <= j < i ==> PointsInto(buckets, groups[id][j])
        {
          var r := groups[id][i].result;
          if r.policyType == BUCKET && r.metadata !in buckets {
            assert !PointsInto(buckets, groups[id][i]);
            return BucketNotExists;
          }
        }
      }
      InsertChecked(groups);
      outcome := Done;
    }

    method InsertChecked(groups: map<string, seq<Policy>>)
      requires forall id :: id in groups ==> id in buckets
      modifies this
      ensures buckets == Inserted(old(buckets), groups)
    {
      var todo := groups.Keys;
      while todo != {}
        invariant todo <= groups.Keys && buckets.Keys == old(buckets).Keys
        invariant forall id :: id in buckets ==>
                    buckets[id] == if id in groups && id !in todo then Inserted(old(buckets), groups)[id] else old(buckets)[id]
        decreases |todo|
      {
        var id :| id in todo;
        todo := todo - {id};
        InsertGroup(id, groups[id]);
      }
      assert buckets == Inserted(old(buckets), groups);
    }

    method InsertGroup(id: string, ps: seq<Policy>)
      requires id in buckets
      modifies this
      ensures buckets == old(buckets)[id := old(buckets)[id].(policies :=
                PolicyBuckets.InsertPolicies(old(buckets)[id].policies, ps))]
    {
      ghost var b := buckets[id];
      for i := 0 to |ps|
        invariant buckets == old(buckets)[id := b.(policies := PolicyBuckets.InsertPolicies(b.policies, ps[..i]))]
      {
        assert ps[..i + 1][..i] == ps[..i];
        buckets := buckets[id := WithPolicy(buckets[id], ps[i])];
      }
      assert ps[..|ps|] == ps;
    }

    method AddOrUpdateBucket(id: string, defaultPolicy: PolicyResult) returns (outcome: Outcome)
      modifies this
      ensures (buckets, outcome) == Effect(old(buckets), BucketOp(id, defaultPolicy))
    {
      if id == DefaultBucket && defaultPolicy.Is(NONE) {
        return DefaultBucketSetNone;
      }
      if id in buckets {
        buckets := buckets[id := buckets[id].(defaultPolicy := defaultPolicy)];
      } else {
        var valid := CheckId(id);
        if !valid {
          return InvalidBucketId;
        }
        buckets := buckets[id := Bucket(id, defaultPolicy, map[])];
      }
      outcome := Done;
    }

    method CheckId(id: string) returns (valid: bool)
      ensures valid == ValidId(id)
      ensures valid <==> forall i :: 0 <= i < |id| ==>
                'a' <= id[i] <= 'z' || 'A' <= id[i] <= 'Z' || '0' <= id[i] <= '9' || id[i] in {'-', '_', '\0'}
    {
      for i := 0 to |id|
        invariant forall j :: 0 <= j < i ==> IdChar(id[j])
      {
        if !IdChar(id[i]) {
          assert id[i] in id;
          return false;
        }
      }
      valid := true;
    }

    /** Links to the bucket go first, whether or not the bucket exists. */
    method DeleteBucket(id: string) returns (outcome: Outcome)
      modifies this
      ensures (buckets, outcome) == Effect(old(buckets), DeleteBucketOp(id))
      ensures Consistent(old(buckets)) && outcome != Done ==> buckets == old(buckets)
    {
      if Consistent(buckets) && Effect(buckets, DeleteBucketOp(id)).1 != Done {
        FailureLeavesStoreUnchanged(buckets, DeleteBucketOp(id));
      }
      if id == DefaultBucket {
        return DefaultBucketDeletion;
      }
      DeleteLinking(id);
      outcome := if id in buckets then Done else BucketNotExists;
      buckets := buckets - {id};
    }

    method DeleteLinking(id: string)
      modifies this
      ensures buckets == Unlinked(old(buckets), id)
    {
      var todo := buckets.Keys;
      while todo != {}
        invariant todo <= buckets.Keys && buckets.Keys == old(buckets).Keys
        invariant forall x :: x in buckets ==>
                    buckets[x] == if x in todo then old(buckets)[x] else Unlinked(old(buckets), id)[x]
        decreases |todo|
      {
        var x :| x in todo;
        todo := todo - {x};
        UnlinkOne(x, id);
      }
      assert buckets == Unlinked(old(buckets), id);
    }

    method UnlinkOne(x: string, id: string)
      requires x in buckets
      modifies this
      ensures buckets == old(buckets)[x := old(buckets)[x].(policies := NotLinking(old(buckets)[x].policies, id))]
    {
      var b := DeleteWhere(buckets[x], (p: Policy) => p.result.policyType == BUCKET && p.result.metadata == id);
      assert b.policies == NotLinking(buckets[x].policies, id);
      buckets := buckets[x := b];
    }

    /** A missing bucket is noticed only when its group is reached. */
    method DeletePolicies(groups: KeyGroups) returns (outcome: Outcome)
      modifies this
      ensures (buckets, outcome) == Effect(old(buckets), DeleteKeysOp(groups))
    {
      for i := 0 to |groups|
        invariant KeysDeleted(old(buckets), groups) == KeysDeleted(buckets, groups[i..])
      {
        var (id, keys) := groups[i];
        assert groups[i..][1..] == groups[i + 1..];
        if keys != [] {
          if id !in buckets {
            return BucketNotExists;
          }
          DeleteKeys(id, keys);
        }
      }
      outcome := Done;
    }

    method DeleteKeys(id: string, keys: seq<PolicyKey>)
      requires id in buckets
      modifies this
      ensures buckets == old(buckets)[id := WithoutKeys(old(buckets)[id], keys)]
    {
      for i := 0 to |keys|
        invariant buckets == old(buckets)[id := WithoutKeys(old(buckets)[id], keys[..i])]
      {
        assert keys[..i + 1][..i] == keys[..i];
        buckets := buckets[id := WithoutKey(buckets[id], keys[i])];
      }
      assert keys[..|keys|] == keys;
    }

    /**
     Only the links that survive the filter must not form a cycle; those that are
     erased on the way may.  Exactly the buckets reachable in the initial store
     are erased, even though links are deleted during the walk.  It fails exactly
     if one of them is missing, and then some of them have been erased.
     */
    method ErasePolicies(id: string, recursive: bool, filter: PolicyKey) returns (outcome: Outcome)
      requires recursive ==> Acyclic(SurvivorGraph(buckets, filter, ReachSet(buckets, id)))
      modifies this
      ensures Consistent(old(buckets)) ==> (buckets, outcome) == Effect(old(buckets), EraseOp(id, recursive, filter))
      ensures outcome == if id in old(buckets) && (recursive ==> NoneMissing(old(buckets), id)) then Done else BucketNotExists
      ensures outcome == Done ==>
                buckets == EraseIn(old(buckets), if recursive then ReachSet(old(buckets), id) else {id}, filter)
      ensures exists visited :: visited <= ReachSet(old(buckets), id) && buckets == EraseIn(old(buckets), visited, filter)
    {
      ghost var db := buckets;
      assert buckets == EraseIn(db, {}, filter) && {} <= ReachSet(db, id);
      ConsistentMissesNone(db, id);
      if id !in buckets {
        return BucketNotExists;
      }
      hide Consistent, NoneMissing, Acyclic, SurvivorGraph, Reachable;
      if recursive {
        outcome := EraseReachable(id, filter);
      } else {
        EraseOne(id, {}, filter, buckets);
        assert {} + {id} == {id};
        ReachableStart(db, id);
        assert {id} <= ReachSet(db, id);
        outcome := Done;
      }
    }

    /** The work-list loop. */
    method EraseReachable(id: string, filter: PolicyKey) returns (outcome: Outcome)
      requires Acyclic(SurvivorGraph(buckets, filter, ReachSet(buckets, id)))
      modifies this
      ensures outcome == if NoneMissing(old(buckets), id) then Done else BucketNotExists
      ensures outcome == Done ==> buckets == EraseIn(old(buckets), ReachSet(old(buckets), id), filter)
      ensures exists visited :: visited <= ReachSet(old(buckets), id) && buckets == EraseIn(old(buckets), visited, filter)
    {
      hide NoneMissing, Acyclic, SurvivorGraph, Reachable, SurvivorsRanked, Weights, Walking, LinksWhenTaken, ReachSet, EraseIn;
      ghost var db := buckets;
      ghost var rank := SurvivorRank(db, filter, ReachSet(db, id));
      ghost var bound := RankBound(ReachSet(db, id), rank);
      var work := {id};
      ghost var visited: set<string> := {};
      WalkingInit(db, id);
      NothingErased(db, filter);
      while work != {}
        invariant buckets == EraseIn(db, visited, filter) && buckets.Keys == db.Keys && Walking(db, id, work, visited)
        decreases |db.Keys - visited|, Weights(db, filter, ReachSet(db, id), rank, work, bound)
      {
        var x :| x in work;
        WalkedIsReached(db, id, work, visited);
        if x !in buckets {
          return BucketNotExists;
        }
        TakeOne(db, id, filter, rank, work, visited, x, bound);
        var subBuckets := Visit(x, visited, filter, db);
        work := work - {x} + subBuckets;
        visited := visited + {x};
      }
      WalkedIsReached(db, id, work, visited);
      WalkedReachSet(db, id, visited);
      WalkedMissesNone(db, id, visited);
      outcome := Done;
    }

    /** Erases in one bucket, after looking where it links to. */
    method Visit(x: string, ghost visited: set<string>, filter: PolicyKey, ghost db: Database) returns (subBuckets: set<string>)
      requires x in db && buckets == EraseIn(db, visited, filter) && buckets.Keys == db.Keys
      modifies this
      ensures buckets == EraseIn(db, visited + {x}, filter) && buckets.Keys == db.Keys
      ensures subBuckets == LinksWhenTaken(db, filter, visited, x)
    {
      subBuckets := SubBuckets(buckets[x]);
      LinksLeft(db, filter, visited, x);
      EraseOne(x, visited, filter, db);
    }

    method EraseOne(x: string, ghost visited: set<string>, filter: PolicyKey, ghost db: Database)
      requires x in db && buckets == EraseIn(db, visited, filter)
      modifies this
      ensures buckets == EraseIn(db, visited + {x}, filter)
    {
      var b := DeleteWhere(buckets[x], (p: Policy) => MatchesFilter(p.key, filter));
      assert b.policies == Surviving(db[x].policies, filter);
      buckets := buckets[x := b];
      assert buckets == EraseIn(db, visited + {x}, filter);
    }
  }
}
