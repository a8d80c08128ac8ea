/**
 A policy bucket: insertion, removal and the indexed search for the policies
 that apply to a key.  Buckets are stored by value in the bucket map, so they
 are values here, and an operation yields the changed bucket.
 */
module PolicyBuckets {
  import opened PolicyTypes
  import opened PolicyKeys

  // ----- the contents of a bucket -----

  function InsertPolicies(policies: map<string, Policy>, ps: seq<Policy>): map<string, Policy>
    decreases |ps|
  {
    if ps == [] then policies
    else
      var p := ps[|ps| - 1];
      InsertPolicies(policies, ps[..|ps| - 1])[GlueKey(p.key) := p]
  }

  ghost predicate Indexed(policies: map<string, Policy>) {
    forall k :: k in policies ==> GlueKey(policies[k].key) == k
  }

  /** `ps` lists the policies of a bucket, in some order. */
  ghost predicate Lists(ps: seq<Policy>, policies: map<string, Policy>) {
    && (forall i :: 0 <= i < |ps| ==> GlueKey(ps[i].key) in policies && policies[GlueKey(ps[i].key)] == ps[i])
    && (forall k :: k in policies ==> policies[k] in ps)
  }

  lemma {:induction false} InsertAll(ps: seq<Policy>, policies: map<string, Policy>)
    requires forall i :: 0 <= i < |ps| ==> GlueKey(ps[i].key) in policies && policies[GlueKey(ps[i].key)] == ps[i]
    ensures var m := InsertPolicies(map[], ps);
            && (forall k :: k in m ==> k in policies && m[k] == policies[k])
            && (forall i :: 0 <= i < |ps| ==> GlueKey(ps[i].key) in m)
    decreases |ps|
  {
    if ps != [] { InsertAll(ps[..|ps| - 1], policies); }
  }

  /** Inserting the policies of a bucket, in whatever order they were written, rebuilds it. */
  lemma RebuildBucket(ps: seq<Policy>, policies: map<string, Policy>)
    requires Lists(ps, policies) && Indexed(policies)
    ensures InsertPolicies(map[], ps) == policies
  {
    InsertAll(ps, policies);
    forall k | k in policies ensures k in InsertPolicies(map[], ps) {
      var i :| 0 <= i < |ps| && ps[i] == policies[k];
    }
  }

  /** The position `i` holds the last policy of `ps` for a key. */
  ghost predicate LastFor(ps: seq<Policy>, key: PolicyKey, i: int) {
    0 <= i < |ps| && ps[i].key == key && forall j :: i < j < |ps| ==> ps[j].key != key
  }

  /** After an insertion a key has the last policy inserted for it, whatever it had before. */
  lemma {:induction false} InsertionReplaces(policies: map<string, Policy>, ps: seq<Policy>, key: PolicyKey, i: nat)
    requires LastFor(ps, key, i)
    ensures var m, k := InsertPolicies(policies, ps), GlueKey(key); k in m && m[k] == ps[i]
    decreases |ps|
  {
    hide InsertPolicies, GlueKey;
    InsertStep(policies, ps);
    var n := |ps| - 1;
    if i < n {
      InsertionReplaces(policies, ps[..n], key, i);
      if GlueKey(ps[n].key) == GlueKey(key) { GlueKeyInjective(ps[n].key, key); }
    }
  }

  /** A key that is not inserted has what it had. */
  lemma {:induction false} InsertionKeeps(policies: map<string, Policy>, ps: seq<Policy>, key: PolicyKey)
    requires forall i :: 0 <= i < |ps| ==> ps[i].key != key
    ensures var m, k := InsertPolicies(policies, ps), GlueKey(key);
            (k in m <==> k in policies) && (k in policies ==> m[k] == policies[k])
    decreases |ps|
  {
    hide InsertPolicies, GlueKey;
    InsertStep(policies, ps);
    if ps != [] {
      var n := |ps| - 1;
      InsertionKeeps(policies, ps[..n], key);
      if GlueKey(ps[n].key) == GlueKey(key) { GlueKeyInjective(ps[n].key, key); }
    }
  }

  lemma InsertStep(policies: map<string, Policy>, ps: seq<Policy>)
    ensures ps == [] ==> InsertPolicies(policies, ps) == policies
    ensures ps != [] ==>
              var n := |ps| - 1;
              InsertPolicies(policies, ps) == InsertPolicies(policies, ps[..n])[GlueKey(ps[n].key) := ps[n]]
  {
  }

  /** And no other index is there. */
  lemma {:induction false} InsertionAddsNothingElse(policies: map<string, Policy>, ps: seq<Policy>, k: string)
    requires k in InsertPolicies(policies, ps)
    ensures k in policies || exists i :: 0 <= i < |ps| && GlueKey(ps[i].key) == k
    decreases |ps|
  {
    if ps != [] && GlueKey(ps[|ps| - 1].key) != k { InsertionAddsNothingElse(policies, ps[..|ps| - 1], k); }
  }

  function WithPolicy(b: Bucket, p: Policy): Bucket {
    b.(policies := b.policies[GlueKey(p.key) := p])
  }

  function WithoutKey(b: Bucket, key: PolicyKey): Bucket {
    b.(policies := b.policies - {GlueKey(key)})
  }

  /** The policies that `keep` holds of. */
  function Keep(policies: map<string, Policy>, keep: Policy -> bool): map<string, Policy> {
    map k | k in policies && keep(policies[k]) :: policies[k]
  }

  /** What a search for `key` must consider: a scan of the whole bucket. */
  function Covering(policies: map<string, Policy>, key: PolicyKey): map<string, Policy> {
    map k | k in policies && Covers(policies[k].key, key) :: policies[k]
  }

  function Matching(policies: map<string, Policy>, filter: PolicyKey): map<string, Policy> {
    map k | k in policies && MatchesFilter(policies[k].key, filter) :: policies[k]
  }

  /** What is left when the policies that match `filter` are erased. */
  function Surviving(policies: map<string, Policy>, filter: PolicyKey): map<string, Policy> {
    map k | k in policies && !MatchesFilter(policies[k].key, filter) :: policies[k]
  }

  /** The buckets that the policies of a bucket refer to. */
  function Links(policies: map<string, Policy>): set<string> {
    set k | k in policies && policies[k].result.policyType == BUCKET :: policies[k].result.metadata
  }

  /** One look-up per index. */
  method LookUpAll(policies: map<string, Policy>, indices: seq<string>) returns (found: map<string, Policy>)
    ensures found == map k | k in policies && k in indices :: policies[k]
  {
    found := map[];
    for i := 0 to |indices|
      invariant found == map k | k in policies && k in indices[..i] :: policies[k]
    {
      if indices[i] in policies {
        found := found[indices[i] := policies[indices[i]]];
      }
      assert indices[..i + 1] == indices[..i] + [indices[i]];
    }
    assert indices[..|indices|] == indices;
  }

  function GluedVariants(key: PolicyKey): seq<string> {
    seq(|KeyVariants(key)|, i requires 0 <= i < |KeyVariants(key)| => GlueKey(KeyVariants(key)[i]))
  }

  /**
   The indexed search: eight look-ups give exactly the policies that a scan of
   the whole bucket would find, and the default policy is inherited.
   */
  method Filtered(b: Bucket, key: PolicyKey) returns (r: Bucket)
    requires Indexed(b.policies)
    ensures r == Bucket(b.id + "_filtered", b.defaultPolicy, Covering(b.policies, key))
  {
    var found := LookUpAll(b.policies, GluedVariants(key));
    LookUpIsScan(b.policies, key);
    r := Bucket(b.id + "_filtered", b.defaultPolicy, found);
  }

  lemma LookUpIsScan(policies: map<string, Policy>, key: PolicyKey)
    requires Indexed(policies)
    ensures Covering(policies, key) == map k | k in policies && k in GluedVariants(key) :: policies[k]
  {
    forall k | k in policies ensures k in GluedVariants(key) <==> Covers(policies[k].key, key) {
      FoundIsCovered(policies, key, k);
    }
  }

  lemma FoundIsCovered(policies: map<string, Policy>, key: PolicyKey, k: string)
    requires Indexed(policies) && k in policies
    ensures k in GluedVariants(key) <==> Covers(policies[k].key, key)
  {
    var variants, glued, rule := KeyVariants(key), GluedVariants(key), policies[k].key;
    VariantsAreTheCoveringKeys(rule, key);
    if k in glued {
      var j :| 0 <= j < |glued| && glued[j] == k;
      GlueKeyInjective(variants[j], rule);
      assert rule in variants;
    }
    if rule in variants {
      var j :| 0 <= j < |variants| && variants[j] == rule;
      assert glued[j] == k;
    }
  }

  /** Removing by predicate while walking the map visits every policy once. */
  method DeleteWhere(b: Bucket, doomed: Policy -> bool) returns (r: Bucket)
    ensures r == b.(policies := Keep(b.policies, p => !doomed(p)))
  {
    var policies := b.policies;
    var todo := b.policies.Keys;
    while todo != {}
      invariant todo <= b.policies.Keys
      invariant forall k :: k in policies <==> k in b.policies && (k in todo || !doomed(b.policies[k]))
      invariant forall k :: k in policies ==> policies[k] == b.policies[k]
      decreases |todo|
    {
      var k :| k in todo;
      if doomed(policies[k]) {
        policies := policies - {k};
      }
      todo := todo - {k};
    }
    assert policies == Keep(b.policies, p => !doomed(p));
    r := b.(policies := policies);
  }

  /** The policies that `want` holds of, in the order of their indices `ks`. */
  method Select(policies: map<string, Policy>, want: Policy -> bool) returns (r: seq<Policy>, ghost ks: seq<string>)
    ensures |ks| == |r|
    ensures forall i :: 0 <= i < |r| ==> ks[i] in policies && policies[ks[i]] == r[i] && want(r[i])
    ensures forall k :: k in policies && want(policies[k]) ==> k in ks
    ensures forall i, j :: 0 <= i < j < |ks| ==> ks[i] != ks[j]
  {
    r, ks := [], [];
    var todo := policies.Keys;
    while todo != {}
      invariant todo <= policies.Keys && |ks| == |r|
      invariant forall i :: 0 <= i < |r| ==>
                  ks[i] in policies && ks[i] !in todo && policies[ks[i]] == r[i] && want(r[i])
      invariant forall k :: k in policies && k !in todo && want(policies[k]) ==> k in ks
      invariant forall i, j :: 0 <= i < j < |ks| ==> ks[i] != ks[j]
      decreases |todo|
    {
      var k :| k in todo;
      todo := todo - {k};
      if want(policies[k]) {
        r := r + [policies[k]];
        ks := ks + [k];
      }
    }
  }

  /**
   Every policy that matches the filter is listed, exactly once.  A filter matches
   feature by feature: `#` anything, and any other text only itself.
   */
  method ListPolicies(b: Bucket, filter: PolicyKey) returns (r: seq<Policy>)
    requires Indexed(b.policies)
    ensures Lists(r, Matching(b.policies, filter))
    ensures forall i, j :: 0 <= i < j < |r| ==> r[i] != r[j]
    ensures forall p: Policy :: p in r <==>
              && p in b.policies.Values
              && (filter.client == "#" || p.key.client == filter.client)
              && (filter.user == "#" || p.key.user == filter.user)
              && (filter.privilege == "#" || p.key.privilege == filter.privilege)
  {
    ghost var ks;
    r, ks := Select(b.policies, (p: Policy) => MatchesFilter(p.key, filter));
    ListedOnce(b.policies, filter, ks, r);
    forall p: Policy | p in b.policies.Values && MatchesFilter(p.key, filter)
      ensures p in r
    {
      var k :| k in b.policies && b.policies[k] == p;
      assert k in Matching(b.policies, filter);
    }
    assert forall p: Policy :: p in r ==> exists i :: 0 <= i < |r| && r[i] == p;
  }

  // ----- what an erase leaves -----

  /** An erase keeps exactly the policies one of whose features the filter names differently. */
  lemma SurvivesIff(policies: map<string, Policy>, filter: PolicyKey, k: string)
    ensures k in Surviving(policies, filter) <==>
              && k in policies
              && ((filter.client != "#" && policies[k].key.client != filter.client) ||
                  (filter.user != "#" && policies[k].key.user != filter.user) ||
                  (filter.privilege != "#" && policies[k].key.privilege != filter.privilege))
    ensures k in Surviving(policies, filter) ==> Surviving(policies, filter)[k] == policies[k]
  {
  }

  lemma EverythingIsErased(policies: map<string, Policy>)
    ensures Surviving(policies, PolicyKey("#", "#", "#")) == map[]
  {
    assert forall k :: k !in Surviving(policies, PolicyKey("#", "#", "#"));
  }

  /** A filter without `#` erases the policy stored under its own index and no other. */
  lemma OneKeyIsErased(policies: map<string, Policy>, filter: PolicyKey)
    requires Indexed(policies) && filter.client != "#" && filter.user != "#" && filter.privilege != "#"
    ensures Surviving(policies, filter) == policies - {GlueKey(filter)}
  {
    hide GlueKey;
    forall k | k in policies
      ensures policies[k].key == filter <==> k == GlueKey(filter)
    {
      if GlueKey(policies[k].key) == GlueKey(filter) { GlueKeyInjective(policies[k].key, filter); }
    }
  }

  lemma ListedOnce(policies: map<string, Policy>, filter: PolicyKey, ks: seq<string>, r: seq<Policy>)
    requires Indexed(policies) && |ks| == |r|
    requires forall i :: 0 <= i < |r| ==> ks[i] in policies && policies[ks[i]] == r[i] && MatchesFilter(r[i].key, filter)
    requires forall k :: k in policies && MatchesFilter(policies[k].key, filter) ==> k in ks
    requires forall i, j :: 0 <= i < j < |ks| ==> ks[i] != ks[j]
    ensures Lists(r, Matching(policies, filter))
    ensures forall i, j :: 0 <= i < j < |r| ==> r[i] != r[j]
  {
    var m := Matching(policies, filter);
    forall i | 0 <= i < |r| ensures GlueKey(r[i].key) == ks[i] {}
    forall k | k in m ensures m[k] in r {
      var i :| 0 <= i < |ks| && ks[i] == k;
      assert r[i] == m[k];
    }
  }

  method SubBuckets(b: Bucket) returns (r: set<string>)
    ensures r == Links(b.policies)
  {
    r := {};
    var todo := b.policies.Keys;
    while todo != {}
      invariant todo <= b.policies.Keys
      invariant r == set k | k in b.policies.Keys - todo && b.policies[k].result.policyType == BUCKET
                       :: b.policies[k].result.metadata
      decreases |todo|
    {
      var k :| k in todo;
      todo := todo - {k};
      if b.policies[k].result.policyType == BUCKET {
        r := r + {b.policies[k].result.metadata};
      }
    }
  }
}
