/**
 The search for the minimal policy over linked buckets.

 `Check` follows the code: it walks the policies of a bucket in the order the
 hash map happens to have, returns at the first DENY, descends into linked
 buckets and skips those that answer a bare NONE.  `Verdict` is what the result
 means: the least policy type over everything that applies.
 */
module PolicySearch {
  import opened Collections
  import opened PolicyTypes
  import opened PolicyKeys
  import opened PolicyBuckets
  import opened LinkGraphs

  /**
   A search: the database, the key, the buckets it may visit with a rank that
   falls along the links it follows, and the order in which each bucket's
   policies for the key are enumerated.
   */
  datatype Search = Search(
    db: Database, key: PolicyKey, recursive: bool,
    region: set<string>, rank: map<string, nat>, order: map<string, seq<Policy>>)

  /** Links that apply to the key stay in the region and go down in rank: no cycle, no dangling link. */
  ghost predicate Ranked(s: Search) {
    && s.region <= s.db.Keys && s.region <= s.rank.Keys
    && forall id, k :: id in s.region && k in Covering(s.db[id].policies, s.key) &&
                       s.db[id].policies[k].result.policyType == BUCKET ==>
         var t := s.db[id].policies[k].result.metadata;
         t in s.region && s.rank[t] < s.rank[id]
  }

  ghost predicate Ordered(s: Search) {
    && s.region <= s.order.Keys && s.region <= s.db.Keys
    && forall id :: id in s.region ==> Lists(s.order[id], Covering(s.db[id].policies, s.key))
  }

  ghost predicate Valid(s: Search) {
    && s.region <= s.db.Keys && s.region <= s.rank.Keys && s.region <= s.order.Keys
    && Ranked(s) && Ordered(s)
  }

  /** The links that apply to the key. */
  ghost function ApplyingLinks(db: Database, key: PolicyKey): Graph {
    map id | id in db :: Links(Covering(db[id].policies, key))
  }

  /** A database whose applying links exist and do not form a cycle can be searched from all of its buckets. */
  lemma AcyclicIsRanked(db: Database, key: PolicyKey, recursive: bool, order: map<string, seq<Policy>>) returns (s: Search)
    requires Acyclic(ApplyingLinks(db, key))
    requires forall id :: id in db ==> Links(Covering(db[id].policies, key)) <= db.Keys
    ensures s == Search(db, key, recursive, db.Keys, s.rank, order) && Ranked(s)
  {
    var rank := RankOf(ApplyingLinks(db, key));
    s := Search(db, key, recursive, db.Keys, rank, order);
    forall id, k | id in db && k in Covering(db[id].policies, key) && db[id].policies[k].result.policyType == BUCKET
      ensures var t := db[id].policies[k].result.metadata; t in db && rank[t] < rank[id]
    {
      var t := db[id].policies[k].result.metadata;
      assert t in Links(Covering(db[id].policies, key));
      assert t in ApplyingLinks(db, key)[id];
    }
  }

  lemma OrderedLinks(s: Search, id: string, i: nat)
    requires Valid(s) && id in s.region && i < |s.order[id]| && s.order[id][i].result.policyType == BUCKET
    ensures var t := s.order[id][i].result.metadata; t in s.region && s.rank[t] < s.rank[id]
  {
    var p := s.order[id][i];
    assert GlueKey(p.key) in Covering(s.db[id].policies, s.key);
  }

  // ----- the code -----

  datatype Progress = Returned(result: PolicyResult) | Going(best: Option<PolicyResult>)

  function Propose(best: Option<PolicyResult>, candidate: PolicyResult): Option<PolicyResult> {
    if best.None? || candidate.policyType < best.value.policyType then Some(candidate) else best
  }

  /** One round of the loop. */
  ghost function Next(s: Search, id: string, i: nat, best: Option<PolicyResult>): Progress
    requires Valid(s) && id in s.region && i < |s.order[id]|
    decreases s.rank[id], 2 * i + 1
  {
    var r := s.order[id][i].result;
    if r.policyType == DENY then Returned(r)
    else if r.policyType == BUCKET then
      if !s.recursive then Going(best)
      else
        OrderedLinks(s, id, i);
        var sub := Check(s, r.metadata);
        if sub.Is(NONE) then Going(best) else Going(Propose(best, sub))
    else Going(Propose(best, r))
  }

  /** The loop over the first `n` policies of a bucket. */
  ghost function Scan(s: Search, id: string, n: nat): Progress
    requires Valid(s) && id in s.region && n <= |s.order[id]|
    decreases s.rank[id], 2 * n
  {
    if n == 0 then Going(None)
    else
      var before := Scan(s, id, n - 1);
      if before.Returned? then before else Next(s, id, n - 1, before.best)
  }

  function Conclude(p: Progress, defaultPolicy: PolicyResult): PolicyResult {
    match p
    case Returned(r) => r
    case Going(None) => defaultPolicy
    case Going(Some(r)) => r
  }

  ghost function Check(s: Search, id: string): PolicyResult
    requires Valid(s) && id in s.region
    decreases s.rank[id], 2 * |s.order[id]| + 1
  {
    Conclude(Scan(s, id, |s.order[id]|), s.db[id].defaultPolicy)
  }

  // ----- what it means -----

  /**
   How much of an answer is looked at.  Whatever it is, it must show the type, and
   whether the answer is a bare NONE, because the search itself looks at these.
   Where answers tie, one of them is picked.
   */
  datatype View = View(show: PolicyResult -> PolicyResult, pick: (string, set<PolicyResult>) -> PolicyResult)

  ghost predicate Showing(v: View) {
    forall r :: v.show(r).policyType == r.policyType && (v.show(r).Is(NONE) <==> r.Is(NONE))
  }

  ghost predicate Picking(v: View) {
    forall id, w :: w != {} ==> v.pick(id, w) in w
  }

  /** The whole answer. */
  function Whole(r: PolicyResult): PolicyResult { r }

  /** No more than the search looks at. */
  function Plain(r: PolicyResult): PolicyResult {
    PolicyResult(r.policyType, if r.policyType == NONE && r.metadata != "" then "marked" else "")
  }

  /** A bare NONE, and one with metadata. */
  const Bare := PolicyResult(NONE, "")
  const Marked := PolicyResult(NONE, "marked")
  const Denial := PolicyResult(DENY, "")

  ghost function One(winners: set<PolicyResult>): PolicyResult {
    if winners == {} then Bare else var t :| t in winners; t
  }

  ghost function Preferring(r: PolicyResult, winners: set<PolicyResult>): PolicyResult {
    if r in winners then r else One(winners)
  }

  ghost const Full := View(Whole, (id, winners) => One(winners))
  ghost const Outline := View(Plain, (id, winners) => One(winners))

  /** Between a bare NONE and one with metadata, always the one or always the other is picked. */
  ghost const LeaningBare := View(Plain, (id, winners) => Preferring(Bare, winners))
  ghost const LeaningMarked := View(Plain, (id, winners) => Preferring(Marked, winners))

  lemma AllShow(v: View)
    requires v == Full || v == Outline || v == LeaningBare || v == LeaningMarked
    ensures Showing(v) && Picking(v)
  {
  }

  /** The policies of bucket `id` that apply and deny: the first of them is returned at once. */
  ghost function Denials(s: Search, v: View, id: string): set<PolicyResult>
    requires Ranked(s) && id in s.region
  {
    set k | k in Covering(s.db[id].policies, s.key) && s.db[id].policies[k].result.policyType == DENY ::
      v.show(s.db[id].policies[k].result)
  }

  /** What bucket `id` contributes: its own policies and the answers of linked buckets. */
  ghost function Candidates(s: Search, v: View, id: string): set<PolicyResult>
    requires Ranked(s) && id in s.region
    decreases s.rank[id], 2
  {
    set k, t | k in Covering(s.db[id].policies, s.key) && t in Contribution(s, v, id, s.db[id].policies[k].result) :: t
  }

  /** A linked bucket that answers a bare NONE contributes nothing. */
  ghost function Contribution(s: Search, v: View, id: string, r: PolicyResult): set<PolicyResult>
    requires Ranked(s) && id in s.region
    decreases s.rank[id], 1
  {
    if r.policyType != BUCKET then {v.show(r)}
    else if !s.recursive || r.metadata !in s.region || s.rank[r.metadata] >= s.rank[id] then {}
    else if Verdict(s, v, r.metadata).Is(NONE) then {}
    else {Verdict(s, v, r.metadata)}
  }

  ghost predicate IsLeast(t: PolicyResult, results: set<PolicyResult>) {
    t in results && forall u :: u in results ==> t.policyType <= u.policyType
  }

  /** Those that deny, else the least contributions, else the default policy. */
  ghost function Best(denials: set<PolicyResult>, results: set<PolicyResult>, default: PolicyResult): (winners: set<PolicyResult>)
    ensures winners != {}
  {
    if denials != {} then denials
    else if results == {} then {default}
    else
      LeastExists(results);
      var least := set t | t in results && IsLeast(t, results);
      assert least != {} by { var t :| IsLeast(t, results); assert t in least; }
      least
  }

  /** The answers bucket `id` can give. */
  ghost function Winners(s: Search, v: View, id: string): (winners: set<PolicyResult>)
    requires Ranked(s) && id in s.region
    ensures winners != {}
    decreases s.rank[id], 3
  {
    Best(Denials(s, v, id), Candidates(s, v, id), v.show(s.db[id].defaultPolicy))
  }

  ghost function Verdict(s: Search, v: View, id: string): (t: PolicyResult)
    requires Ranked(s) && id in s.region
    ensures Picking(v) ==> t in Winners(s, v, id)
    decreases s.rank[id], 4
  {
    v.pick(id, Winners(s, v, id))
  }

  lemma {:induction false} LeastExists(results: set<PolicyResult>)
    requires results != {}
    ensures exists t :: IsLeast(t, results)
    decreases |results|
  {
    var x :| x in results;
    var rest := results - {x};
    assert forall u :: u in results ==> u == x || u in rest;
    if rest == {} {
      assert IsLeast(x, results);
    } else {
      LeastExists(rest);
      var t :| IsLeast(t, rest);
      assert IsLeast(if x.policyType <= t.policyType then x else t, results);
    }
  }

  /** Two different answers tie. */
  ghost predicate Ambiguous(s: Search, v: View, id: string)
    requires Ranked(s) && id in s.region
  {
    exists t, u :: t in Winners(s, v, id) && u in Winners(s, v, id) && t != u
  }

  ghost predicate ClearBelow(s: Search, v: View, rank: nat)
    requires Ranked(s)
  {
    forall id :: id in s.region && s.rank[id] < rank ==> !Ambiguous(s, v, id)
  }

  ghost predicate AllClear(s: Search, v: View)
    requires Ranked(s)
  {
    forall id :: id in s.region ==> !Ambiguous(s, v, id)
  }

  // ----- the two agree -----

  /** What the first `n` policies of a bucket contribute. */
  ghost function Seen(s: Search, v: View, id: string, n: nat): set<PolicyResult>
    requires Valid(s) && id in s.region && n <= |s.order[id]|
  {
    if n == 0 then {} else Seen(s, v, id, n - 1) + Contribution(s, v, id, s.order[id][n - 1].result)
  }

  lemma {:induction false} SeenHas(s: Search, v: View, id: string, n: nat, i: nat)
    requires Valid(s) && id in s.region && i < n <= |s.order[id]|
    ensures Contribution(s, v, id, s.order[id][i].result) <= Seen(s, v, id, n)
    decreases n
  {
    hide Ranked, Ordered, Contribution;
    if i < n - 1 { SeenHas(s, v, id, n - 1, i); }
  }

  lemma {:induction false} SeenFrom(s: Search, v: View, id: string, n: nat, t: PolicyResult)
    requires Valid(s) && id in s.region && n <= |s.order[id]| && t in Seen(s, v, id, n)
    ensures exists i :: 0 <= i < n && t in Contribution(s, v, id, s.order[id][i].result)
    decreases n
  {
    hide Ranked, Ordered, Contribution;
    if t in Seen(s, v, id, n - 1) { SeenFrom(s, v, id, n - 1, t); }
  }

  /** The enumeration holds exactly the policies that apply. */
  lemma ListedAt(s: Search, id: string, k: string) returns (i: nat)
    requires Valid(s) && id in s.region && k in Covering(s.db[id].policies, s.key)
    ensures i < |s.order[id]| && s.order[id][i] == s.db[id].policies[k]
  {
    var ps, m := s.order[id], Covering(s.db[id].policies, s.key);
    assert Lists(ps, m);
    assert m[k] in ps;
    i :| 0 <= i < |ps| && ps[i] == m[k];
  }

  lemma AppliesAt(s: Search, id: string, i: nat) returns (k: string)
    requires Valid(s) && id in s.region && i < |s.order[id]|
    ensures k in Covering(s.db[id].policies, s.key) && s.db[id].policies[k] == s.order[id][i]
  {
    assert Lists(s.order[id], Covering(s.db[id].policies, s.key));
    k := GlueKey(s.order[id][i].key);
  }

  lemma CandidateFrom(s: Search, v: View, id: string, t: PolicyResult) returns (i: nat)
    requires Valid(s) && id in s.region && t in Candidates(s, v, id)
    ensures i < |s.order[id]| && t in Contribution(s, v, id, s.order[id][i].result)
  {
    var k :| k in Covering(s.db[id].policies, s.key) && t in Contribution(s, v, id, s.db[id].policies[k].result);
    hide Contribution;
    i := ListedAt(s, id, k);
  }

  lemma ContributesCandidate(s: Search, v: View, id: string, i: nat)
    requires Valid(s) && id in s.region && i < |s.order[id]|
    ensures Contribution(s, v, id, s.order[id][i].result) <= Candidates(s, v, id)
  {
    hide Contribution, Ordered;
    var k := AppliesAt(s, id, i);
  }

  lemma DenialFrom(s: Search, v: View, id: string, t: PolicyResult) returns (i: nat)
    requires Valid(s) && id in s.region && t in Denials(s, v, id)
    ensures i < |s.order[id]| && s.order[id][i].result.policyType == DENY && t == v.show(s.order[id][i].result)
  {
    var k :| k in Covering(s.db[id].policies, s.key) && s.db[id].policies[k].result.policyType == DENY &&
             t == v.show(s.db[id].policies[k].result);
    i := ListedAt(s, id, k);
  }

  lemma DenialAt(s: Search, v: View, id: string, i: nat)
    requires Valid(s) && id in s.region && i < |s.order[id]| && s.order[id][i].result.policyType == DENY
    ensures v.show(s.order[id][i].result) in Denials(s, v, id)
  {
    var k := AppliesAt(s, id, i);
  }

  /** Whatever the enumeration order, the whole bucket contributes its candidates. */
  lemma SeenAll(s: Search, v: View, id: string)
    requires Valid(s) && id in s.region
    ensures Seen(s, v, id, |s.order[id]|) == Candidates(s, v, id)
  {
    hide Ranked, Ordered, Contribution, Candidates;
    var n := |s.order[id]|;
    forall t | t in Seen(s, v, id, n) ensures t in Candidates(s, v, id) {
      SeenFrom(s, v, id, n, t);
      var i :| 0 <= i < n && t in Contribution(s, v, id, s.order[id][i].result);
      ContributesCandidate(s, v, id, i);
    }
    forall t | t in Candidates(s, v, id) ensures t in Seen(s, v, id, n) {
      var i := CandidateFrom(s, v, id, t);
      SeenHas(s, v, id, n, i);
    }
  }

  /** The loop returns early exactly at a policy that denies. */
  lemma {:induction false} ScanDenies(s: Search, v: View, id: string, n: nat)
    requires Valid(s) && id in s.region && n <= |s.order[id]|
    ensures Scan(s, id, n).Returned? ==> v.show(Scan(s, id, n).result) in Denials(s, v, id)
    ensures Scan(s, id, n).Going? ==> forall i :: 0 <= i < n ==> s.order[id][i].result.policyType != DENY
    decreases n
  {
    hide Ranked, Ordered, Check, Denials;
    if n > 0 {
      ScanDenies(s, v, id, n - 1);
      if Scan(s, id, n - 1).Going? {
        ScanNext(s, id, n - 1, Scan(s, id, n - 1).best);
        if s.order[id][n - 1].result.policyType == DENY { DenialAt(s, v, id, n - 1); }
      }
    }
  }

  /** The state of the loop, while it goes on, in terms of what has been contributed so far. */
  ghost predicate BestMeans(v: View, best: Option<PolicyResult>, seen: set<PolicyResult>) {
    match best
    case None => seen == {}
    case Some(r) => IsLeast(v.show(r), seen)
  }

  lemma ProposeMeans(v: View, best: Option<PolicyResult>, seen: set<PolicyResult>, r: PolicyResult)
    requires Showing(v) && BestMeans(v, best, seen)
    ensures BestMeans(v, Propose(best, r), seen + {v.show(r)})
  {
  }

  /** Below a rank, every bucket answers its verdict. */
  ghost predicate AgreesBelow(s: Search, v: View, rank: nat)
    requires Valid(s)
  {
    forall id :: id in s.region && s.rank[id] < rank ==> v.show(Check(s, id)) == Verdict(s, v, id)
  }

  lemma {:induction false} ScanIsSound(s: Search, v: View, id: string, n: nat)
    requires Valid(s) && Showing(v) && id in s.region && AgreesBelow(s, v, s.rank[id]) && n <= |s.order[id]|
    ensures Scan(s, id, n).Going? ==> BestMeans(v, Scan(s, id, n).best, Seen(s, v, id, n))
    decreases n
  {
    hide Ranked, Ordered, Check, Verdict;
    if n > 0 && Scan(s, id, n - 1).Going? {
      ScanIsSound(s, v, id, n - 1);
      var r := s.order[id][n - 1].result;
      var seen := Seen(s, v, id, n - 1);
      var best := Scan(s, id, n - 1).best;
      if r.policyType == BUCKET {
        if s.recursive {
          OrderedLinks(s, id, n - 1);
          var sub := Check(s, r.metadata);
          if sub.Is(NONE) {
            assert Seen(s, v, id, n) == seen;
          } else {
            ProposeMeans(v, best, seen, sub);
          }
        } else {
          assert Seen(s, v, id, n) == seen;
        }
      } else {
        ProposeMeans(v, best, seen, r);
      }
    }
  }

  /** Given what the linked buckets answer, the search answers with a winner. */
  lemma CheckIsAWinner(s: Search, v: View, id: string)
    requires Valid(s) && Showing(v) && id in s.region && AgreesBelow(s, v, s.rank[id])
    ensures v.show(Check(s, id)) in Winners(s, v, id)
  {
    hide Ranked, Ordered, Scan, Next, Candidates, Denials, Verdict;
    var n := |s.order[id]|;
    ScanDenies(s, v, id, n);
    if Scan(s, id, n).Going? {
      ScanIsSound(s, v, id, n);
      SeenAll(s, v, id);
      NothingDenies(s, v, id);
    }
  }

  /**
   The search computes the verdict: its answer does not depend on the order in
   which any bucket enumerates its policies.  It is a policy that applies and
   denies, or else the least over the policies that apply and the answers of
   linked buckets other than a bare NONE, or else the default policy.
   */
  lemma {:induction false} CheckIsVerdict(s: Search, v: View, id: string)
    requires Valid(s) && Showing(v) && Picking(v) && id in s.region && ClearBelow(s, v, s.rank[id]) && !Ambiguous(s, v, id)
    ensures v.show(Check(s, id)) == Verdict(s, v, id)
    decreases s.rank[id]
  {
    hide Ranked, Ordered, Check, Winners;
    forall low | low in s.region && s.rank[low] < s.rank[id]
      ensures v.show(Check(s, low)) == Verdict(s, v, low)
    {
      CheckIsVerdict(s, v, low);
    }
    CheckIsAWinner(s, v, id);
  }

  lemma ClearAgrees(s: Search, v: View, rank: nat)
    requires Valid(s) && Showing(v) && Picking(v) && ClearBelow(s, v, rank)
    ensures AgreesBelow(s, v, rank)
  {
    hide Ranked, Ordered, Check, Ambiguous, Verdict;
    forall low | low in s.region && s.rank[low] < rank
      ensures v.show(Check(s, low)) == Verdict(s, v, low)
    {
      CheckIsVerdict(s, v, low);
    }
  }

  lemma NothingDenies(s: Search, v: View, id: string)
    requires Valid(s) && id in s.region
    requires forall i :: 0 <= i < |s.order[id]| ==> s.order[id][i].result.policyType != DENY
    ensures Denials(s, v, id) == {}
  {
    hide Ordered, Denials;
    if t :| t in Denials(s, v, id) {
      var i := DenialFrom(s, v, id, t);
    }
  }

  // ----- and only then -----

  lemma {:induction false} LowestAmbiguous(s: Search, v: View, id: string) returns (low: string)
    requires Ranked(s) && id in s.region && Ambiguous(s, v, id)
    ensures low in s.region && Ambiguous(s, v, low) && ClearBelow(s, v, s.rank[low])
    decreases s.rank[id]
  {
    hide Ambiguous;
    if other :| other in s.region && s.rank[other] < s.rank[id] && Ambiguous(s, v, other) {
      low := LowestAmbiguous(s, v, other);
    } else {
      low := id;
    }
  }

  /** The meaning does not look at the enumeration orders. */
  lemma {:induction false} OrderIsNotMeaning(s: Search, v: View, o: map<string, seq<Policy>>, id: string)
    requires Ranked(s) && id in s.region
    ensures Ranked(s.(order := o)) && Candidates(s.(order := o), v, id) == Candidates(s, v, id)
    ensures Denials(s.(order := o), v, id) == Denials(s, v, id)
    ensures forall r :: Contribution(s.(order := o), v, id, r) == Contribution(s, v, id, r)
    ensures Winners(s.(order := o), v, id) == Winners(s, v, id) && Verdict(s.(order := o), v, id) == Verdict(s, v, id)
    decreases s.rank[id]
  {
    var t := s.(order := o);
    forall r: PolicyResult
      ensures Contribution(t, v, id, r) == Contribution(s, v, id, r)
    {
      if r.policyType == BUCKET && s.recursive && r.metadata in s.region && s.rank[r.metadata] < s.rank[id] {
        OrderIsNotMeaning(s, v, o, r.metadata);
      }
    }
    assert Candidates(t, v, id) == Candidates(s, v, id);
    VerdictOfWinners(s, t, v, id);
  }

  lemma VerdictOfWinners(s: Search, t: Search, v: View, id: string)
    requires Ranked(s) && Ranked(t) && id in s.region && id in t.region && t.db == s.db && t.key == s.key
    requires Candidates(t, v, id) == Candidates(s, v, id)
    ensures Denials(t, v, id) == Denials(s, v, id) && Winners(t, v, id) == Winners(s, v, id)
    ensures Verdict(t, v, id) == Verdict(s, v, id)
  {
    hide Candidates;
    assert Denials(t, v, id) == Denials(s, v, id);
  }

  function MovedToFront<T>(xs: seq<T>, i: nat): seq<T>
    requires i < |xs|
  {
    [xs[i]] + xs[..i] + xs[i + 1..]
  }

  ghost function FrontFirst(s: Search, id: string, i: nat): Search
    requires id in s.order && i < |s.order[id]|
  {
    s.(order := s.order[id := MovedToFront(s.order[id], i)])
  }

  lemma FrontFirstIsValid(s: Search, id: string, i: nat)
    requires Valid(s) && id in s.region && i < |s.order[id]|
    ensures Valid(FrontFirst(s, id, i))
    ensures multiset(MovedToFront(s.order[id], i)) == multiset(s.order[id])
  {
    MovedIsListed(s.order[id], Covering(s.db[id].policies, s.key), i);
    var t := FrontFirst(s, id, i);
    hide Covering, Lists, MovedToFront;
    assert forall other :: other in s.region && other != id ==> t.order[other] == s.order[other];
  }

  lemma MovedIsListed(ps: seq<Policy>, m: map<string, Policy>, i: nat)
    requires Lists(ps, m) && i < |ps|
    ensures Lists(MovedToFront(ps, i), m) && multiset(MovedToFront(ps, i)) == multiset(ps)
  {
    hide GlueKey;
    assert ps == ps[..i] + [ps[i]] + ps[i + 1..];
    var moved := MovedToFront(ps, i);
    assert forall p :: p in moved <==> p in multiset(ps);
    assert forall p :: p in ps ==> GlueKey(p.key) in m && m[GlueKey(p.key)] == p;
    assert forall j :: 0 <= j < |moved| ==> moved[j] in ps;
  }

  /** When nothing denies at once, a least contribution that comes first stays the answer. */
  lemma {:induction false} FirstLeastStays(s: Search, v: View, id: string, n: nat, r: PolicyResult)
    requires Valid(s) && Showing(v) && id in s.region && AgreesBelow(s, v, s.rank[id]) && 1 <= n <= |s.order[id]|
    requires Denials(s, v, id) == {} && IsLeast(v.show(r), Candidates(s, v, id))
    requires Scan(s, id, 1) == Going(Some(r))
    ensures Scan(s, id, n) == Going(Some(r))
    decreases n
  {
    hide Ranked, Ordered, Candidates, Denials, Check, Verdict;
    if n > 1 {
      FirstLeastStays(s, v, id, n - 1, r);
      ContributesCandidate(s, v, id, n - 1);
      ScanNext(s, id, n - 1, Some(r));
      var next := s.order[id][n - 1].result;
      if next.policyType == DENY { DenialAt(s, v, id, n - 1); }
      if next.policyType == BUCKET && s.recursive {
        OrderedLinks(s, id, n - 1);
      }
    }
  }

  lemma ClearBelowInAnyOrder(s: Search, v: View, o: map<string, seq<Policy>>, rank: nat)
    requires Ranked(s) && ClearBelow(s, v, rank)
    ensures Ranked(s.(order := o)) && ClearBelow(s.(order := o), v, rank)
  {
    hide Winners;
    forall low | low in s.region && s.rank[low] < rank
      ensures !Ambiguous(s.(order := o), v, low)
    {
      OrderIsNotMeaning(s, v, o, low);
    }
  }

  /** A policy whose contribution is least decides when it comes first. */
  lemma LeastFirstDecides(s: Search, v: View, id: string, w: PolicyResult)
    requires Valid(s) && Showing(v) && id in s.region && AgreesBelow(s, v, s.rank[id]) && s.order[id] != []
    requires Denials(s, v, id) == {} && IsLeast(w, Candidates(s, v, id))
    requires w in Contribution(s, v, id, s.order[id][0].result)
    ensures v.show(Check(s, id)) == w
  {
    hide Ranked, Ordered, Candidates, Denials, Verdict, Winners, Check;
    var r := s.order[id][0].result;
    ScanNext(s, id, 0, None);
    if r.policyType == DENY { DenialAt(s, v, id, 0); }
    if r.policyType == BUCKET {
      OrderedLinks(s, id, 0);
      FirstLeastStays(s, v, id, |s.order[id]|, Check(s, r.metadata));
    } else {
      FirstLeastStays(s, v, id, |s.order[id]|, r);
    }
    CheckConcludes(s, id);
  }

  lemma DenialFirstDecides(s: Search, id: string)
    requires Valid(s) && id in s.region && s.order[id] != [] && s.order[id][0].result.policyType == DENY
    ensures Check(s, id) == s.order[id][0].result
  {
    hide Ranked, Ordered, Check;
    ScanNext(s, id, 0, None);
    ScanStays(s, id, 1, |s.order[id]|);
    CheckConcludes(s, id);
  }

  /** Every winner is the answer for some permutation of the policies of its bucket. */
  lemma WinnerCanWin(s: Search, v: View, id: string, w: PolicyResult) returns (t: Search)
    requires Valid(s) && Showing(v) && Picking(v) && id in s.region && ClearBelow(s, v, s.rank[id])
    requires w in Winners(s, v, id)
    ensures id in t.order && id in s.order && t == s.(order := s.order[id := t.order[id]])
    ensures multiset(t.order[id]) == multiset(s.order[id])
    ensures Valid(t) && v.show(Check(t, id)) == w
  {
    hide Ranked, Ordered, Candidates, Denials, Contribution, Check;
    if Denials(s, v, id) != {} {
      var i := DenialFrom(s, v, id, w);
      FrontFirstIsValid(s, id, i);
      t := FrontFirst(s, id, i);
      DenialFirstDecides(t, id);
    } else if Candidates(s, v, id) == {} {
      t := s;
      assert t == s.(order := s.order[id := t.order[id]]);
      NotAmbiguousDefault(s, v, id);
      CheckIsVerdict(s, v, id);
    } else {
      var i := CandidateFrom(s, v, id, w);
      FrontFirstIsValid(s, id, i);
      t := FrontFirst(s, id, i);
      OrderIsNotMeaning(s, v, t.order, id);
      ClearBelowInAnyOrder(s, v, t.order, s.rank[id]);
      ClearAgrees(t, v, s.rank[id]);
      LeastFirstDecides(t, v, id, w);
    }
  }

  lemma NotAmbiguousDefault(s: Search, v: View, id: string)
    requires Ranked(s) && id in s.region && Denials(s, v, id) == {} && Candidates(s, v, id) == {}
    ensures !Ambiguous(s, v, id) && Winners(s, v, id) == {v.show(s.db[id].defaultPolicy)}
  {
    hide Ranked, Denials, Candidates;
  }

  /** When some bucket is ambiguous, two permutations of one bucket's policies give that bucket two different answers. */
  lemma AmbiguityMakesOrderMatter(s: Search, v: View, id: string) returns (low: string, t: Search, u: Search)
    requires Valid(s) && Showing(v) && Picking(v) && id in s.region && Ambiguous(s, v, id)
    ensures low in s.region && Valid(t) && Valid(u) && low in s.order && low in t.order && low in u.order
    ensures t == s.(order := s.order[low := t.order[low]]) && multiset(t.order[low]) == multiset(s.order[low])
    ensures u == s.(order := s.order[low := u.order[low]]) && multiset(u.order[low]) == multiset(s.order[low])
    ensures v.show(Check(t, low)) != v.show(Check(u, low))
  {
    hide Ranked, Ordered, Winners, Check;
    low := LowestAmbiguous(s, v, id);
    var x, y :| x in Winners(s, v, low) && y in Winners(s, v, low) && x != y;
    t := WinnerCanWin(s, v, low, x);
    u := WinnerCanWin(s, v, low, y);
  }

  /** No bucket's answer, as far as it is looked at, depends on the enumeration orders. */
  ghost predicate OrderIndependent(s: Search, v: View)
    requires Valid(s)
  {
    forall o, id :: id in s.region && Valid(s.(order := o)) ==> v.show(Check(s.(order := o), id)) == v.show(Check(s, id))
  }

  lemma OrderIndependentIffClear(s: Search, v: View)
    requires Valid(s) && Showing(v) && Picking(v)
    ensures OrderIndependent(s, v) <==> AllClear(s, v)
  {
    hide Ranked, Ordered, Check, Ambiguous, Winners;
    if AllClear(s, v) {
      forall o, id | id in s.region && Valid(s.(order := o))
        ensures v.show(Check(s.(order := o), id)) == v.show(Check(s, id))
      {
        ClearInAnyOrder(s, v, o);
        OrderIsNotMeaning(s, v, o, id);
        CheckIsVerdict(s, v, id);
        CheckIsVerdict(s.(order := o), v, id);
      }
    } else {
      var id :| id in s.region && Ambiguous(s, v, id);
      var low, t, u := AmbiguityMakesOrderMatter(s, v, id);
      assert t == s.(order := t.order) && u == s.(order := u.order);
    }
  }

  lemma ClearInAnyOrder(s: Search, v: View, o: map<string, seq<Policy>>)
    requires Ranked(s) && AllClear(s, v)
    ensures Ranked(s.(order := o)) && AllClear(s.(order := o), v)
  {
    hide Winners;
    forall id | id in s.region
      ensures !Ambiguous(s.(order := o), v, id)
    {
      OrderIsNotMeaning(s, v, o, id);
    }
  }

  // ----- every verdict is reached -----

  /** The verdict is what the policy at position `i` contributes, or returns at once. */
  ghost predicate Leads(s: Search, v: View, id: string, i: nat)
    requires Valid(s) && id in s.region
  {
    && i < |s.order[id]| && Verdict(s, v, id) in Contribution(s, v, id, s.order[id][i].result)
    && (Denials(s, v, id) != {} ==> s.order[id][i].result.policyType == DENY)
  }

  ghost predicate Led(s: Search, v: View, id: string)
    requires Valid(s) && id in s.region
  {
    Leads(s, v, id, 0) || (Denials(s, v, id) == {} && Candidates(s, v, id) == {})
  }

  lemma SomethingLeads(s: Search, v: View, id: string)
    requires Valid(s) && Picking(v) && id in s.region
    ensures (exists i :: Leads(s, v, id, i)) || (Denials(s, v, id) == {} && Candidates(s, v, id) == {})
  {
    var w := Verdict(s, v, id);
    assert w in Winners(s, v, id);
    hide Ranked, Ordered, Verdict, Candidates, Denials;
    if Denials(s, v, id) != {} {
      var i := DenialFrom(s, v, id, w);
      assert Leads(s, v, id, i);
    } else if Candidates(s, v, id) != {} {
      var i := CandidateFrom(s, v, id, w);
      assert Leads(s, v, id, i);
    }
  }

  lemma LedDecides(s: Search, v: View, id: string)
    requires Valid(s) && Showing(v) && Picking(v) && id in s.region && AgreesBelow(s, v, s.rank[id]) && Led(s, v, id)
    ensures v.show(Check(s, id)) == Verdict(s, v, id)
  {
    var w := Verdict(s, v, id);
    assert w in Winners(s, v, id);
    hide Ranked, Ordered, Verdict, Candidates, Denials, Check;
    if Denials(s, v, id) != {} {
      DenialFirstDecides(s, id);
    } else if Candidates(s, v, id) != {} {
      LeastFirstDecides(s, v, id, w);
    } else {
      CheckIsAWinner(s, v, id);
    }
  }

  lemma {:induction false} AllLedReach(s: Search, v: View, id: string)
    requires Valid(s) && Showing(v) && Picking(v) && id in s.region && forall j :: j in s.region ==> Led(s, v, j)
    ensures v.show(Check(s, id)) == Verdict(s, v, id)
    decreases s.rank[id]
  {
    hide Ranked, Ordered, Verdict, Check, Led;
    forall low | low in s.region && s.rank[low] < s.rank[id]
      ensures v.show(Check(s, low)) == Verdict(s, v, low)
    {
      AllLedReach(s, v, low);
    }
    LedDecides(s, v, id);
  }

  ghost function Leader(s: Search, v: View, id: string): (i: nat)
    requires Valid(s) && id in s.region && exists i :: Leads(s, v, id, i)
    ensures Leads(s, v, id, i)
  {
    var i :| Leads(s, v, id, i);
    i
  }

  /** The policies of a bucket, one that leads in front. */
  ghost function LeaderFirst(s: Search, v: View, id: string): seq<Policy>
    requires Valid(s) && id in s.region
  {
    if exists i :: Leads(s, v, id, i) then MovedToFront(s.order[id], Leader(s, v, id)) else s.order[id]
  }

  ghost function LeadersFirst(s: Search, v: View): Search
    requires Valid(s)
  {
    s.(order := map id | id in s.region :: LeaderFirst(s, v, id))
  }

  lemma LeaderFirstIsListed(s: Search, v: View, id: string)
    requires Valid(s) && id in s.region
    ensures Lists(LeaderFirst(s, v, id), Covering(s.db[id].policies, s.key))
  {
    assert Lists(s.order[id], Covering(s.db[id].policies, s.key));
    hide Ranked, Ordered, Leads, Covering, Lists, MovedToFront;
    if exists i :: Leads(s, v, id, i) {
      assert Leader(s, v, id) < |s.order[id]| by { LeaderIsListed(s, v, id); }
      MovedIsListed(s.order[id], Covering(s.db[id].policies, s.key), Leader(s, v, id));
    }
  }

  lemma LeaderIsListed(s: Search, v: View, id: string)
    requires Valid(s) && id in s.region && exists i :: Leads(s, v, id, i)
    ensures Leader(s, v, id) < |s.order[id]|
  {
    hide Ranked, Ordered, Verdict, Denials, Contribution;
  }

  lemma LeaderComesFirst(s: Search, v: View, id: string)
    requires Valid(s) && id in s.region && exists i :: Leads(s, v, id, i)
    ensures Leader(s, v, id) < |s.order[id]| && LeaderFirst(s, v, id) != []
    ensures LeaderFirst(s, v, id)[0] == s.order[id][Leader(s, v, id)]
  {
    hide Ranked, Ordered, Leads;
    LeaderIsListed(s, v, id);
  }

  /** Leading does not depend on the rest of the order. */
  lemma LeadsWherever(s: Search, t: Search, v: View, id: string, i: nat, j: nat)
    requires Valid(s) && Valid(t) && id in s.region && id in t.region && Leads(s, v, id, i)
    requires j < |t.order[id]| && t.order[id][j] == s.order[id][i]
    requires Verdict(t, v, id) == Verdict(s, v, id) && Denials(t, v, id) == Denials(s, v, id)
    requires forall r :: Contribution(t, v, id, r) == Contribution(s, v, id, r)
    ensures Leads(t, v, id, j)
  {
    hide Ranked, Ordered, Verdict, Denials, Contribution;
  }

  lemma LeadersFirstIsLed(s: Search, v: View, id: string)
    requires Valid(s) && Valid(LeadersFirst(s, v)) && Picking(v) && id in s.region
    ensures Led(LeadersFirst(s, v), v, id)
  {
    var t := LeadersFirst(s, v);
    assert t.order[id] == LeaderFirst(s, v, id);
    hide Ranked, Ordered, Leads, Verdict, Winners, Candidates, Denials, Contribution, LeaderFirst, MovedToFront, LeadersFirst;
    SomethingLeads(s, v, id);
    OrderIsNotMeaning(s, v, t.order, id);
    if exists i :: Leads(s, v, id, i) {
      LeaderComesFirst(s, v, id);
      LeadsWherever(s, t, v, id, Leader(s, v, id), 0);
    }
  }

  /** However ties are broken, some orders make every bucket answer its verdict, all at the same time. */
  lemma VerdictsAreReached(s: Search, v: View) returns (t: Search)
    requires Valid(s) && Showing(v) && Picking(v)
    ensures t == s.(order := t.order) && Valid(t)
    ensures forall id :: id in s.region ==> v.show(Check(t, id)) == Verdict(s, v, id)
  {
    hide Ordered, Verdict, Check, Led, Lists, LeaderFirst;
    t := LeadersFirst(s, v);
    forall id | id in s.region
      ensures Lists(t.order[id], Covering(t.db[id].policies, t.key))
    {
      LeaderFirstIsListed(s, v, id);
    }
    assert Ordered(t) by { OrderedIf(t); }
    forall id | id in s.region
      ensures Led(t, v, id)
    {
      LeadersFirstIsLed(s, v, id);
    }
    forall id | id in s.region
      ensures v.show(Check(t, id)) == Verdict(s, v, id)
    {
      AllLedReach(t, v, id);
      OrderIsNotMeaning(s, v, t.order, id);
    }
  }

  lemma OrderedIf(s: Search)
    requires s.region <= s.order.Keys && s.region <= s.db.Keys
    requires forall id :: id in s.region ==> Lists(s.order[id], Covering(s.db[id].policies, s.key))
    ensures Ordered(s)
  {
  }

  // ----- the whole answer, and its type -----

  /**
   The whole result of every bucket is independent of the orders if and only if,
   in every bucket, the policies that apply and deny carry the same result, or
   else the least contributions are the same.
   */
  lemma ResultsIndependentIff(s: Search)
    requires Valid(s)
    ensures OrderIndependent(s, Full) <==> forall id :: id in s.region ==> AgreedIn(s, id)
  {
    AllShow(Full);
    AllShow(Outline);
    OrderIndependentIffClear(s, Full);
    hide Ranked, Ordered, Check, OrderIndependent, AgreedIn, Ambiguous;
    forall id | id in s.region
      ensures Ambiguous(s, Full, id) <==> !AgreedIn(s, id)
    {
      WholeAmbiguity(s, id);
    }
  }

  /** All that would be returned at once is the same, or else all that is least. */
  ghost predicate AgreedIn(s: Search, id: string)
    requires Ranked(s) && id in s.region
  {
    Agreed(Denials(s, Full, id), Candidates(s, Full, id))
  }

  ghost predicate Agreed(denials: set<PolicyResult>, results: set<PolicyResult>) {
    if denials != {} then forall t, u :: t in denials && u in denials ==> t == u
    else forall t, u :: IsLeast(t, results) && IsLeast(u, results) ==> t == u
  }

  lemma WholeAmbiguity(s: Search, id: string)
    requires Ranked(s) && id in s.region
    ensures Ambiguous(s, Full, id) <==> !AgreedIn(s, id)
  {
    hide Denials, Candidates, Best, Agreed;
    assert Winners(s, Full, id) == Best(Denials(s, Full, id), Candidates(s, Full, id), s.db[id].defaultPolicy);
    WholeTie(Denials(s, Full, id), Candidates(s, Full, id), s.db[id].defaultPolicy);
  }

  lemma WholeTie(denials: set<PolicyResult>, all: set<PolicyResult>, default: PolicyResult)
    ensures (exists t, u :: t in Best(denials, all, default) && u in Best(denials, all, default) && t != u)
       <==> !Agreed(denials, all)
  {
    var winners := Best(denials, all, default);
    if denials == {} && !Agreed(denials, all) {
      var t, u :| IsLeast(t, all) && IsLeast(u, all) && t != u;
      assert t in winners && u in winners;
    }
    if t, u :| t in winners && u in winners && t != u {
      assert denials == {} ==> IsLeast(t, all) && IsLeast(u, all);
    }
  }

  /**
   The type together with which answers a linking bucket ignores is, if and only
   if no bucket contributes NONE both bare and with metadata while nothing in it
   denies.
   */
  lemma OutlinesIndependentIff(s: Search)
    requires Valid(s)
    ensures OrderIndependent(s, Outline)
       <==> forall id :: id in s.region ==>
              !(PolicyResult(DENY, "") !in Candidates(s, Outline, id) &&
                PolicyResult(NONE, "") in Candidates(s, Outline, id) && PolicyResult(NONE, "marked") in Candidates(s, Outline, id))
  {
    AllShow(Full);
    AllShow(Outline);
    OrderIndependentIffClear(s, Outline);
    hide Ordered, Check, OrderIndependent, Ranked;
    forall id | id in s.region
      ensures Ambiguous(s, Outline, id) <==>
                PolicyResult(DENY, "") !in Candidates(s, Outline, id) &&
                PolicyResult(NONE, "") in Candidates(s, Outline, id) && PolicyResult(NONE, "marked") in Candidates(s, Outline, id)
    {
      PlainAmbiguity(s, id);
    }
  }

  lemma PlainAmbiguity(s: Search, id: string)
    requires Ranked(s) && id in s.region
    ensures Ambiguous(s, Outline, id) <==>
              PolicyResult(DENY, "") !in Candidates(s, Outline, id) &&
              PolicyResult(NONE, "") in Candidates(s, Outline, id) && PolicyResult(NONE, "marked") in Candidates(s, Outline, id)
  {
    AllShow(Outline);
    PlainResults(s, Outline, id);
    PlainDenials(s, Outline, id);
    hide Ranked, Candidates, Denials, Best, Verdict;
    PlainTie(Denials(s, Outline, id), Candidates(s, Outline, id), Plain(s.db[id].defaultPolicy));
  }

  lemma PlainTie(denials: set<PolicyResult>, all: set<PolicyResult>, default: PolicyResult)
    requires denials <= all && (denials != {} ==> denials == {PolicyResult(DENY, "")})
    requires forall t :: t in all ==> IsPlain(t)
    ensures (exists t, u :: t in Best(denials, all, default) && u in Best(denials, all, default) && t != u) <==>
              PolicyResult(DENY, "") !in all && PolicyResult(NONE, "") in all && PolicyResult(NONE, "marked") in all
  {
    var bare, marked, deny := PolicyResult(NONE, ""), PolicyResult(NONE, "marked"), PolicyResult(DENY, "");
    var winners := Best(denials, all, default);
    if deny in all {
      assert forall t :: t in winners ==> t == deny;
    } else if bare in all && marked in all {
      assert forall u :: u in all ==> NONE <= u.policyType;
      assert bare in winners && marked in winners;
    } else {
      forall t, u | t in winners && u in winners
        ensures t == u
      {
        assert all != {} ==> IsLeast(t, all) && IsLeast(u, all);
      }
    }
  }

  /** In the plain view a result is determined by its type, except for NONE. */
  ghost predicate IsPlain(r: PolicyResult) { r.metadata == "" || r == PolicyResult(NONE, "marked") }

  /** Every verdict is a winner. */
  ghost predicate Settled(s: Search, v: View)
    requires Ranked(s)
  {
    forall id :: id in s.region ==> Verdict(s, v, id) in Winners(s, v, id)
  }

  lemma {:induction false} PlainResults(s: Search, v: View, id: string)
    requires Ranked(s) && v.show == Plain && Settled(s, v) && id in s.region
    ensures forall t :: t in Candidates(s, v, id) ==> IsPlain(t)
    ensures IsPlain(Verdict(s, v, id))
    decreases s.rank[id]
  {
    forall r: PolicyResult, t | t in Contribution(s, v, id, r)
      ensures IsPlain(t)
    {
      if r.policyType == BUCKET {
        PlainResults(s, v, r.metadata);
      }
    }
    assert Verdict(s, v, id) in Winners(s, v, id);
    PlainDenials(s, v, id);
  }

  lemma PlainDenials(s: Search, v: View, id: string)
    requires Ranked(s) && v.show == Plain && id in s.region
    ensures Denials(s, v, id) != {} ==> Denials(s, v, id) == {PolicyResult(DENY, "")}
    ensures Denials(s, v, id) <= Candidates(s, v, id)
  {
    hide Verdict;
    forall t | t in Denials(s, v, id)
      ensures t in Candidates(s, v, id)
    {
      var k :| k in Covering(s.db[id].policies, s.key) && s.db[id].policies[k].result.policyType == DENY &&
               t == Plain(s.db[id].policies[k].result);
      assert t in Contribution(s, v, id, s.db[id].policies[k].result);
    }
    assert forall t :: t in Denials(s, v, id) ==> t == PolicyResult(DENY, "");
  }

  // ----- one bucket: what its answer can be -----

  /**
   How three answers of a bucket are related, the first with every tie broken for
   the bare NONE, the last with every tie broken against it, and the other with
   ties broken in any way.  The last one differs from the others only where it
   is a NONE with metadata, and the first is never less of a denial.
   */
  ghost predicate Between(lo: PolicyResult, mid: PolicyResult, hi: PolicyResult) {
    && (hi != Marked ==> lo == mid == hi)
    && (mid == Denial ==> lo == Denial)
    && (mid == Bare ==> lo == Bare || lo == Denial)
    && (lo.policyType == NONE ==> mid.policyType == NONE)
    && (lo == Marked ==> mid == Marked)
  }

  /** The same of what a policy, or a whole bucket, contributes. */
  ghost predicate Nested(lo: set<PolicyResult>, mid: set<PolicyResult>, hi: set<PolicyResult>) {
    && (Marked !in hi ==> lo == mid == hi)
    && (Denial in hi ==> Denial in mid) && (Denial in mid ==> Denial in lo)
    && (Bare in lo <==> Bare in mid) && (Bare in mid <==> Bare in hi)
    && (Marked in lo ==> Marked in mid)
    && (mid == {} ==> lo <= {Denial})
    && (lo == {} ==> mid <= {Marked})
  }

  ghost predicate AllPlain(results: set<PolicyResult>) { forall t :: t in results ==> IsPlain(t) }

  /** Without a denial, a NONE among the results makes the answer a NONE. */
  lemma BestOf(results: set<PolicyResult>, default: PolicyResult, answer: PolicyResult)
    requires AllPlain(results) && answer in Best({}, results, default)
    ensures Denial in results ==> answer == Denial
    ensures Denial !in results && Marked in results ==> answer == Marked || (answer == Bare && Bare in results)
    ensures Denial !in results && Bare in results ==> answer == Bare || (answer == Marked && Marked in results)
    ensures results == {} ==> answer == default
    ensures answer in results || (results == {} && answer == default)
  {
  }

  lemma BetweenStep(denials: set<PolicyResult>, lo: set<PolicyResult>, mid: set<PolicyResult>, hi: set<PolicyResult>,
                    default: PolicyResult, answer: PolicyResult)
    requires Nested(lo, mid, hi) && (denials != {} ==> denials == {Denial})
    requires AllPlain(lo) && AllPlain(mid) && AllPlain(hi) && answer in Best(denials, mid, default)
    ensures Between(Preferring(Bare, Best(denials, lo, default)), answer, Preferring(Marked, Best(denials, hi, default)))
  {
    var l, h := Preferring(Bare, Best(denials, lo, default)), Preferring(Marked, Best(denials, hi, default));
    assert l in Best(denials, lo, default) && h in Best(denials, hi, default);
    if denials == {} {
      BestOf(lo, default, l);
      BestOf(mid, default, answer);
      BestOf(hi, default, h);
    }
  }

  lemma BetweenIsNested(lo: PolicyResult, mid: PolicyResult, hi: PolicyResult)
    requires Between(lo, mid, hi) && IsPlain(lo) && IsPlain(mid) && IsPlain(hi)
    ensures Nested(if lo.Is(NONE) then {} else {lo}, if mid.Is(NONE) then {} else {mid}, if hi.Is(NONE) then {} else {hi})
  {
  }

  /** Whatever the orders are, the answers lie between the two leanings. */
  lemma {:induction false} AnswersBetween(s: Search, v: View, id: string)
    requires Ranked(s) && v.show == Plain && Settled(s, v) && id in s.region
    ensures Between(Verdict(s, LeaningBare, id), Verdict(s, v, id), Verdict(s, LeaningMarked, id))
    decreases s.rank[id]
  {
    assert s.region <= s.db.Keys && s.region <= s.rank.Keys;
    hide Ranked, Winners, Between, Nested, IsPlain, Plain;
    LeaningsAreSettled(s);
    forall low | low in s.region && s.rank[low] < s.rank[id]
      ensures Between(Verdict(s, LeaningBare, low), Verdict(s, v, low), Verdict(s, LeaningMarked, low))
    {
      AnswersBetween(s, v, low);
    }
    CandidatesNested(s, v, id);
    BetweenAtBucket(s, v, id);
  }

  lemma LeaningsAreSettled(s: Search)
    requires Ranked(s)
    ensures Settled(s, LeaningBare) && Settled(s, LeaningMarked)
  {
    AllShow(LeaningBare);
    AllShow(LeaningMarked);
    hide Ranked, Verdict, Winners;
  }

  lemma ContributionsNested(s: Search, v: View, id: string, r: PolicyResult)
    requires Ranked(s) && v.show == Plain && id in s.region
    requires Settled(s, v) && Settled(s, LeaningBare) && Settled(s, LeaningMarked)
    requires forall low :: low in s.region && s.rank[low] < s.rank[id] ==>
               Between(Verdict(s, LeaningBare, low), Verdict(s, v, low), Verdict(s, LeaningMarked, low))
    ensures Nested(Contribution(s, LeaningBare, id, r), Contribution(s, v, id, r), Contribution(s, LeaningMarked, id, r))
  {
    assert s.region <= s.db.Keys && s.region <= s.rank.Keys;
    hide Ranked, Between, Verdict, IsPlain, Settled, Plain;
    if r.policyType == BUCKET && s.recursive && r.metadata in s.region && s.rank[r.metadata] < s.rank[id] {
      PlainResults(s, LeaningBare, r.metadata);
      PlainResults(s, v, r.metadata);
      PlainResults(s, LeaningMarked, r.metadata);
      BetweenIsNested(Verdict(s, LeaningBare, r.metadata), Verdict(s, v, r.metadata), Verdict(s, LeaningMarked, r.metadata));
    }
  }

  ghost function Union(m: map<string, set<PolicyResult>>): set<PolicyResult> { set k, t | k in m && t in m[k] :: t }

  lemma NestedUnion(lo: map<string, set<PolicyResult>>, mid: map<string, set<PolicyResult>>, hi: map<string, set<PolicyResult>>)
    requires lo.Keys == mid.Keys == hi.Keys && forall k :: k in lo ==> Nested(lo[k], mid[k], hi[k])
    ensures Nested(Union(lo), Union(mid), Union(hi))
  {
    if Marked !in Union(hi) {
      assert forall k :: k in lo ==> Marked !in hi[k];
      assert lo == mid == hi;
    }
    if Union(mid) == {} {
      assert forall k, t :: k in mid && t in mid[k] ==> t in Union(mid);
      assert forall k :: k in mid ==> mid[k] == {};
    }
    if Union(lo) == {} {
      assert forall k, t :: k in lo && t in lo[k] ==> t in Union(lo);
      assert forall k :: k in lo ==> lo[k] == {};
    }
  }

  /** What each policy that applies contributes. */
  ghost function Contributions(s: Search, v: View, id: string): map<string, set<PolicyResult>>
    requires Ranked(s) && id in s.region
  {
    map k | k in Covering(s.db[id].policies, s.key) :: Contribution(s, v, id, s.db[id].policies[k].result)
  }

  lemma CandidatesAreUnion(s: Search, v: View, id: string)
    requires Ranked(s) && id in s.region
    ensures Candidates(s, v, id) == Union(Contributions(s, v, id))
  {
    hide Contribution;
    var m := Contributions(s, v, id);
    assert forall k :: k in m ==> m[k] == Contribution(s, v, id, s.db[id].policies[k].result);
  }

  lemma CandidatesNested(s: Search, v: View, id: string)
    requires Ranked(s) && v.show == Plain && id in s.region
    requires Settled(s, v) && Settled(s, LeaningBare) && Settled(s, LeaningMarked)
    requires forall low :: low in s.region && s.rank[low] < s.rank[id] ==>
               Between(Verdict(s, LeaningBare, low), Verdict(s, v, low), Verdict(s, LeaningMarked, low))
    ensures Nested(Candidates(s, LeaningBare, id), Candidates(s, v, id), Candidates(s, LeaningMarked, id))
  {
    hide Between, Verdict, Settled, Plain, Contribution, Nested, Candidates, Union;
    CandidatesAreUnion(s, LeaningBare, id);
    CandidatesAreUnion(s, v, id);
    CandidatesAreUnion(s, LeaningMarked, id);
    var lo, mid, hi := Contributions(s, LeaningBare, id), Contributions(s, v, id), Contributions(s, LeaningMarked, id);
    forall k | k in lo
      ensures Nested(lo[k], mid[k], hi[k])
    {
      ContributionsNested(s, v, id, s.db[id].policies[k].result);
    }
    NestedUnion(lo, mid, hi);
  }

  lemma BetweenAtBucket(s: Search, v: View, id: string)
    requires Ranked(s) && v.show == Plain && Settled(s, v) && Settled(s, LeaningBare) && Settled(s, LeaningMarked)
    requires id in s.region
    requires Nested(Candidates(s, LeaningBare, id), Candidates(s, v, id), Candidates(s, LeaningMarked, id))
    ensures Between(Verdict(s, LeaningBare, id), Verdict(s, v, id), Verdict(s, LeaningMarked, id))
  {
    assert s.region <= s.db.Keys && s.region <= s.rank.Keys;
    hide Ranked, Between, Nested, Candidates, Contribution, Best, Preferring;
    PlainDenials(s, LeaningBare, id);
    PlainResults(s, LeaningBare, id);
    PlainResults(s, v, id);
    PlainResults(s, LeaningMarked, id);
    var denials := Denials(s, LeaningBare, id);
    var default := Plain(s.db[id].defaultPolicy);
    assert Denials(s, v, id) == denials && Denials(s, LeaningMarked, id) == denials;
    assert Verdict(s, v, id) in Winners(s, v, id);
    BetweenStep(denials, Candidates(s, LeaningBare, id), Candidates(s, v, id), Candidates(s, LeaningMarked, id),
                default, Verdict(s, v, id));
  }

  /** The view in which ties are broken as the orders at hand break them. */
  ghost function Following(s: Search, show: PolicyResult -> PolicyResult): View
    requires Valid(s)
  {
    View(show, (id, winners) =>
      if id in s.region && show(Check(s, id)) in winners then show(Check(s, id)) else One(winners))
  }

  lemma FollowingPicks(s: Search, show: PolicyResult -> PolicyResult)
    requires Valid(s)
    ensures Picking(Following(s, show))
  {
    hide Ranked, Ordered, Check;
    var v := Following(s, show);
    forall id, w: set<PolicyResult> | w != {}
      ensures v.pick(id, w) in w
    {
      assert One(w) in w;
    }
  }

  lemma {:induction false} FollowingReaches(s: Search, show: PolicyResult -> PolicyResult, id: string)
    requires Valid(s) && Showing(Following(s, show)) && id in s.region
    ensures Verdict(s, Following(s, show), id) == show(Check(s, id))
    decreases s.rank[id]
  {
    var v := Following(s, show);
    assert s.region <= s.rank.Keys;
    hide Ranked, Ordered, Check, Winners, Showing;
    forall low | low in s.region && s.rank[low] < s.rank[id]
      ensures v.show(Check(s, low)) == Verdict(s, v, low)
    {
      FollowingReaches(s, show, low);
    }
    CheckIsAWinner(s, v, id);
  }

  lemma FollowingIsSettled(s: Search)
    requires Valid(s)
    ensures Settled(s, Following(s, Plain)) && Following(s, Plain).show == Plain
    ensures forall id :: id in s.region ==> Verdict(s, Following(s, Plain), id) == Plain(Check(s, id))
  {
    var v := Following(s, Plain);
    assert Showing(v);
    FollowingPicks(s, Plain);
    hide Ranked, Ordered, Check, Winners, Plain;
    forall id | id in s.region
      ensures Verdict(s, v, id) == Plain(Check(s, id))
    {
      FollowingReaches(s, Plain, id);
    }
  }

  /**
   What a bucket can answer: a result is its answer for some orders if and only if
   it is its verdict for some way to break ties.  A way to break ties is one for
   all buckets, so that a bucket reached twice answers the same both times.
   */
  lemma AnswersAreVerdicts(s: Search, id: string, r: PolicyResult)
    requires Valid(s) && id in s.region
    ensures (exists o :: Valid(s.(order := o)) && Check(s.(order := o), id) == r)
       <==> (exists v: View :: v.show == Whole && Picking(v) && Verdict(s, v, id) == r)
  {
    hide Ranked, Ordered, Check, Verdict, Winners;
    if o :| Valid(s.(order := o)) && Check(s.(order := o), id) == r {
      var t := s.(order := o);
      var v := Following(t, Whole);
      assert Showing(v);
      FollowingPicks(t, Whole);
      FollowingReaches(t, Whole, id);
      OrderIsNotMeaning(s, v, o, id);
      assert v.show == Whole && Verdict(s, v, id) == r;
    }
    if v: View :| v.show == Whole && Picking(v) && Verdict(s, v, id) == r {
      assert Showing(v);
      var t := VerdictsAreReached(s, v);
      assert t == s.(order := t.order) && Check(t, id) == r;
    }
  }

  /** The answer of one bucket with the orders `o`, compared with the two leanings. */
  lemma LeaningsFrame(s: Search, o: map<string, seq<Policy>>, id: string)
    requires Ranked(s) && Valid(s.(order := o)) && id in s.region
    ensures Between(Verdict(s, LeaningBare, id), Plain(Check(s.(order := o), id)), Verdict(s, LeaningMarked, id))
  {
    var t := s.(order := o);
    hide Ranked, Ordered, Check, Verdict, Winners, Between, Plain;
    OrderIsNotMeaning(s, LeaningBare, o, id);
    OrderIsNotMeaning(s, LeaningMarked, o, id);
    FollowingIsSettled(t);
    AnswersBetween(t, Following(t, Plain), id);
  }

  /** The leanings are answers, for some orders. */
  lemma LeaningsAreReached(s: Search, id: string) returns (t: Search, u: Search)
    requires Valid(s) && id in s.region
    ensures t == s.(order := t.order) && Valid(t) && Plain(Check(t, id)) == Verdict(s, LeaningBare, id)
    ensures u == s.(order := u.order) && Valid(u) && Plain(Check(u, id)) == Verdict(s, LeaningMarked, id)
  {
    AllShow(LeaningBare);
    AllShow(LeaningMarked);
    hide Ranked, Ordered, Check, Verdict, Plain;
    t := VerdictsAreReached(s, LeaningBare);
    u := VerdictsAreReached(s, LeaningMarked);
  }

  /** The answer of one bucket has the same type for all orders. */
  ghost predicate TypeIndependent(s: Search, id: string)
    requires Valid(s) && id in s.region
  {
    forall o :: Valid(s.(order := o)) ==> Check(s.(order := o), id).policyType == Check(s, id).policyType
  }

  /** The answer of one bucket has the same type, and is a bare NONE or not, for all orders. */
  ghost predicate OutlineIndependent(s: Search, id: string)
    requires Valid(s) && id in s.region
  {
    forall o :: Valid(s.(order := o)) ==> Plain(Check(s.(order := o), id)) == Plain(Check(s, id))
  }

  /**
   The type of a check's answer from one bucket is independent of all orders if
   and only if the two ways to break all ties agree on the type for that bucket.
   No other combination of broken ties has to be considered, whatever buckets are
   reached more than once.
   */
  lemma TypeFromBucketIff(s: Search, id: string)
    requires Valid(s) && id in s.region
    ensures TypeIndependent(s, id) <==>
              Verdict(s, LeaningBare, id).policyType == Verdict(s, LeaningMarked, id).policyType
  {
    hide Ranked, Ordered, Check, Verdict;
    var lo, hi := Verdict(s, LeaningBare, id), Verdict(s, LeaningMarked, id);
    if TypeIndependent(s, id) {
      var t, u := LeaningsAreReached(s, id);
      assert Check(s.(order := t.order), id).policyType == Check(s.(order := u.order), id).policyType;
    }
    if lo.policyType == hi.policyType {
      forall o | Valid(s.(order := o))
        ensures Check(s.(order := o), id).policyType == lo.policyType
      {
        LeaningsFrame(s, o, id);
      }
      assert s.(order := s.order) == s;
    }
  }

  /** The same for the type together with bareness. */
  lemma OutlineFromBucketIff(s: Search, id: string)
    requires Valid(s) && id in s.region
    ensures OutlineIndependent(s, id) <==> Verdict(s, LeaningBare, id) == Verdict(s, LeaningMarked, id)
  {
    hide Ranked, Ordered, Check, Verdict, Plain;
    var lo, hi := Verdict(s, LeaningBare, id), Verdict(s, LeaningMarked, id);
    if OutlineIndependent(s, id) {
      var t, u := LeaningsAreReached(s, id);
      assert Plain(Check(s.(order := t.order), id)) == Plain(Check(s.(order := u.order), id));
    }
    if lo == hi {
      forall o | Valid(s.(order := o))
        ensures Plain(Check(s.(order := o), id)) == lo
      {
        LeaningsFrame(s, o, id);
      }
      assert s.(order := s.order) == s;
    }
  }

  /** The types of all buckets together. */
  lemma TypesIndependentIff(s: Search)
    requires Valid(s)
    ensures (forall id :: id in s.region ==> TypeIndependent(s, id)) <==>
            (forall id :: id in s.region ==>
               Verdict(s, LeaningBare, id).policyType == Verdict(s, LeaningMarked, id).policyType)
  {
    hide Ranked, Ordered, Verdict, TypeIndependent;
    forall id | id in s.region
      ensures TypeIndependent(s, id) <==>
                Verdict(s, LeaningBare, id).policyType == Verdict(s, LeaningMarked, id).policyType
    {
      TypeFromBucketIff(s, id);
    }
  }

  /** No policy that applies to the key is a bare NONE. */
  ghost predicate NoBareNone(s: Search) {
    s.region <= s.db.Keys &&
    forall id, k :: id in s.region && k in Covering(s.db[id].policies, s.key) ==> !s.db[id].policies[k].result.Is(NONE)
  }

  /** Without stored bare NONE policies the types do not depend on the orders. */
  lemma NoBareNoneIsClear(s: Search)
    requires Ranked(s) && NoBareNone(s)
    ensures AllClear(s, Outline)
  {
    forall id | id in s.region
      ensures !Ambiguous(s, Outline, id)
    {
      PlainAmbiguity(s, id);
      hide Verdict;
      assert PolicyResult(NONE, "") !in Candidates(s, Outline, id);
    }
  }

  // ----- DENY always wins -----

  /** A policy that applies denies, here or behind links that apply. */
  ghost predicate Denied(s: Search, id: string, path: seq<string>)
    requires Ranked(s)
    decreases |path|
  {
    && id in s.region
    && if path == [] then
         exists k :: k in Covering(s.db[id].policies, s.key) && s.db[id].policies[k].result.policyType == DENY
       else
         && s.recursive
         && path[0] in Links(Covering(s.db[id].policies, s.key))
         && Denied(s, path[0], path[1..])
  }

  lemma {:induction false} ScanFindsDeny(s: Search, id: string, n: nat, i: nat)
    requires Valid(s) && id in s.region && i < n <= |s.order[id]|
    requires var r := s.order[id][i].result;
             r.policyType == DENY ||
             (r.policyType == BUCKET && s.recursive && r.metadata in s.region && s.rank[r.metadata] < s.rank[id] &&
              Check(s, r.metadata).policyType == DENY)
    ensures var p := Scan(s, id, n);
            match p
            case Returned(r) => r.policyType == DENY
            case Going(best) => best.Some? && best.value.policyType == DENY
    decreases n
  {
    hide Ranked, Ordered;
    if i < n - 1 {
      ScanFindsDeny(s, id, n - 1, i);
    }
    if Scan(s, id, n - 1).Returned? { ScanReturnsDeny(s, id, n - 1); }
  }

  lemma {:induction false} ScanReturnsDeny(s: Search, id: string, n: nat)
    requires Valid(s) && id in s.region && n <= |s.order[id]| && Scan(s, id, n).Returned?
    ensures Scan(s, id, n).result.policyType == DENY
    decreases n
  {
    hide Ranked, Ordered;
    if n > 0 && Scan(s, id, n - 1).Returned? { ScanReturnsDeny(s, id, n - 1); }
  }

  /**
   Any chain of links that apply, ending at a policy that applies and denies,
   forces DENY, whatever else the buckets hold, stored NONE policies included.
   */
  lemma {:induction false} DenyChainDenies(s: Search, id: string, path: seq<string>)
    requires Valid(s) && Denied(s, id, path)
    ensures Check(s, id).policyType == DENY
    decreases |path|
  {
    hide Ranked, Scan, Next, GlueKey;
    var ps, m := s.order[id], Covering(s.db[id].policies, s.key);
    assert Lists(ps, m);
    if path == [] {
      var k :| k in m && s.db[id].policies[k].result.policyType == DENY;
      assert m[k] in ps;
      var i :| 0 <= i < |ps| && ps[i] == m[k];
      ScanFindsDeny(s, id, |ps|, i);
    } else {
      var k :| k in m && m[k].result.policyType == BUCKET && m[k].result.metadata == path[0];
      assert m[k] in ps;
      var i :| 0 <= i < |ps| && ps[i] == m[k];
      OrderedLinks(s, id, i);
      DenyChainDenies(s, path[0], path[1..]);
      ScanFindsDeny(s, id, |ps|, i);
    }
  }

  // ----- without recursion -----

  /** The answer so far is the least of the policies seen that are not links. */
  ghost predicate LeastHere(ps: seq<Policy>, best: Option<PolicyResult>) {
    match best
    case None => forall i :: 0 <= i < |ps| ==> ps[i].result.policyType == BUCKET
    case Some(r) =>
      && r.policyType != BUCKET && (exists i :: 0 <= i < |ps| && ps[i].result == r)
      && forall i :: 0 <= i < |ps| && ps[i].result.policyType != BUCKET ==> r.policyType <= ps[i].result.policyType
  }

  lemma {:induction false} ScanHere(s: Search, id: string, n: nat)
    requires Valid(s) && id in s.region && n <= |s.order[id]| && !s.recursive
    ensures var p := Scan(s, id, n);
            LeastHere(s.order[id][..n], if p.Returned? then Some(p.result) else p.best)
    decreases n
  {
    hide Ranked, Ordered, Check;
    if n > 0 {
      ScanHere(s, id, n - 1);
      var before, ps := Scan(s, id, n - 1), s.order[id][..n];
      assert s.order[id][..n - 1] == ps[..n - 1] && ps[n - 1] == s.order[id][n - 1];
      if before.Returned? {
        ScanReturnsDeny(s, id, n - 1);
        var i :| 0 <= i < n - 1 && ps[..n - 1][i].result == before.result;
        assert ps[i].result == before.result;
      } else if before.best.Some? {
        var i :| 0 <= i < n - 1 && ps[..n - 1][i].result == before.best.value;
        assert ps[i].result == before.best.value;
      }
    }
  }

  /**
   A check that is not recursive follows no link: its answer is the least of the
   policies of the bucket that apply and are not links, or the default policy if
   there are none.
   */
  lemma NonRecursiveStaysHere(s: Search, id: string)
    requires Valid(s) && id in s.region && !s.recursive
    ensures LeastHere(s.order[id], Some(Check(s, id))) ||
            (LeastHere(s.order[id], None) && Check(s, id) == s.db[id].defaultPolicy)
  {
    hide Ranked, Ordered, LeastHere;
    ScanHere(s, id, |s.order[id]|);
    assert s.order[id][..|s.order[id]|] == s.order[id];
  }

  // ----- an ambiguous bucket changes the type of the final answer -----

  /**
   With a stored bare NONE beside a NONE that carries metadata, the answer does
   depend on the enumeration order: a bucket that links to the two answers its
   own default in one order, and NONE in the other.
   */
  lemma BareNoneMakesOrderMatter() returns (s: Search, t: Search)
    ensures Valid(s) && Valid(t) && s == t.(order := s.order) && DefaultBucket in s.region
    ensures Check(s, DefaultBucket).policyType == ALLOW && Check(t, DefaultBucket).policyType == NONE
  {
    var key, wild := PolicyKey("c", "u", "p"), PolicyKey("*", "u", "p");
    var bare, marked := Policy(key, PolicyResult(NONE, "")), Policy(wild, PolicyResult(NONE, "x"));
    var link := Policy(key, PolicyResult(BUCKET, "a"));
    s := LinkedPair(key, link, bare, marked, [bare, marked]);
    t := LinkedPair(key, link, bare, marked, [marked, bare]);
    FirstOfTwo(s, "a", bare, marked);
    FirstOfTwo(t, "a", marked, bare);
    ScanNext(s, "", 0, None);
    ScanNext(t, "", 0, None);
  }

  /** A bucket with a link to a bucket of two policies, enumerated in the given order. */
  lemma LinkedPair(key: PolicyKey, link: Policy, p: Policy, q: Policy, order: seq<Policy>) returns (s: Search)
    requires link == Policy(key, PolicyResult(BUCKET, "a")) && p.key != q.key
    requires Covers(p.key, key) && Covers(q.key, key)
    requires p.result.policyType == NONE && q.result.policyType == NONE
    requires order == [p, q] || order == [q, p]
    ensures Valid(s) && s.region == {"", "a"} && s.order[""] == [link] && s.order["a"] == order
    ensures s == LinkedSearch(key, map[GlueKey(key) := link], map[GlueKey(p.key) := p, GlueKey(q.key) := q], link, order)
  {
    var outer, inner := map[GlueKey(key) := link], map[GlueKey(p.key) := p, GlueKey(q.key) := q];
    s := LinkedSearch(key, outer, inner, link, order);
    PairIsListed(key, p, q, order);
    LinkIsListed(key, link);
    LinkedSearchIsValid(key, outer, inner, link, order);
  }

  function LinkedSearch(key: PolicyKey, outer: map<string, Policy>, inner: map<string, Policy>,
                        link: Policy, order: seq<Policy>): Search
  {
    var allow := PolicyResult(ALLOW, "");
    Search(map["" := Bucket("", allow, outer), "a" := Bucket("a", allow, inner)],
           key, true, {"", "a"}, map["" := 1, "a" := 0], map["" := [link], "a" := order])
  }

  lemma LinkedSearchIsValid(key: PolicyKey, outer: map<string, Policy>, inner: map<string, Policy>,
                            link: Policy, order: seq<Policy>)
    requires forall k :: k in outer ==> outer[k].result.metadata == "a"
    requires forall k :: k in inner ==> inner[k].result.policyType == NONE
    requires Lists([link], Covering(outer, key)) && Lists(order, Covering(inner, key))
    ensures Valid(LinkedSearch(key, outer, inner, link, order))
  {
  }

  lemma PairIsListed(key: PolicyKey, p: Policy, q: Policy, order: seq<Policy>)
    requires p.key != q.key && Covers(p.key, key) && Covers(q.key, key)
    requires order == [p, q] || order == [q, p]
    ensures Lists(order, Covering(map[GlueKey(p.key) := p, GlueKey(q.key) := q], key))
  {
    var g, h := GlueKey(p.key), GlueKey(q.key);
    if g == h { GlueKeyInjective(p.key, q.key); }
    var inner := map[g := p, h := q];
    assert Covering(inner, key) == inner;
    assert p in order && q in order by { assert order[0] == p || order[1] == p; assert order[0] == q || order[1] == q; }
  }

  lemma LinkIsListed(key: PolicyKey, link: Policy)
    requires link.key == key
    ensures Lists([link], Covering(map[GlueKey(key) := link], key))
  {
    var outer := map[GlueKey(key) := link];
    assert Covering(outer, key) == outer;
    assert link == [link][0];
  }

  lemma FirstOfTwo(s: Search, id: string, p: Policy, q: Policy)
    requires Valid(s) && id in s.region && s.order[id] == [p, q]
    requires p.result.policyType == q.result.policyType != DENY && p.result.policyType != BUCKET
    ensures Check(s, id) == p.result
  {
    ScanNext(s, id, 0, None);
    ScanNext(s, id, 1, Some(p.result));
  }

  /** Two policies of one type that both apply: the metadata of the answer is that of the one that comes first. */
  lemma TiedPoliciesMakeOrderMatter() returns (s: Search, t: Search)
    ensures Valid(s) && Valid(t) && s == t.(order := s.order) && DefaultBucket in s.region
    ensures Check(s, DefaultBucket) == PolicyResult(5, "a") && Check(t, DefaultBucket) == PolicyResult(5, "b")
  {
    var key, wild := PolicyKey("c", "u", "p"), PolicyKey("*", "u", "p");
    var p, q := Policy(key, PolicyResult(5, "a")), Policy(wild, PolicyResult(5, "b"));
    PairIsListed(key, p, q, [p, q]);
    PairIsListed(key, p, q, [q, p]);
    var policies := map[GlueKey(p.key) := p, GlueKey(q.key) := q];
    var db := map["" := Bucket("", PolicyResult(ALLOW, ""), policies)];
    s := Search(db, key, true, {""}, map["" := 0], map["" := [p, q]]);
    t := s.(order := map["" := [q, p]]);
    FirstOfTwo(s, "", p, q);
    FirstOfTwo(t, "", q, p);
  }

  // ----- the search as it is carried out -----

  /** A bucket of the database, cut down to the policies for the key. */
  method SearchBucket(db: Database, id: string, key: PolicyKey) returns (found: Option<Bucket>)
    requires id in db ==> Indexed(db[id].policies)
    ensures found.Some? <==> id in db
    ensures id in db ==> found.value.defaultPolicy == db[id].defaultPolicy &&
                         found.value.policies == Covering(db[id].policies, key)
  {
    if id !in db {
      return None;
    }
    var b := Filtered(db[id], key);
    found := Some(b);
  }

  lemma ScanNext(s: Search, id: string, i: nat, best: Option<PolicyResult>)
    requires Valid(s) && id in s.region && i < |s.order[id]| && Scan(s, id, i) == Going(best)
    ensures Scan(s, id, i + 1) == Next(s, id, i, best)
  {
  }

  lemma CheckConcludes(s: Search, id: string)
    requires Valid(s) && id in s.region
    ensures Check(s, id) == Conclude(Scan(s, id, |s.order[id]|), s.db[id].defaultPolicy)
  {
  }

  /** Looks up a linked bucket and searches it. */
  method Descend(s: Search, id: string, i: nat) returns (sub: PolicyResult)
    requires Valid(s) && id in s.region && forall j :: j in s.region ==> Indexed(s.db[j].policies)
    requires i < |s.order[id]| && s.order[id][i].result.policyType == BUCKET
    ensures var t := s.order[id][i].result.metadata; t in s.region && sub == Check(s, t)
    decreases s.rank[id], 0
  {
    OrderedLinks(s, id, i);
    var t := s.order[id][i].result.metadata;
    var found := SearchBucket(s.db, t, s.key);
    sub := MinimalPolicy(s, t, found.value);
  }

  /**
   The recursive method.  The policies of each bucket come in the order `s`
   gives for it, which may be any order.
   */
  method MinimalPolicy(s: Search, id: string, bucket: Bucket) returns (minimal: PolicyResult)
    requires Valid(s) && id in s.region && forall j :: j in s.region ==> Indexed(s.db[j].policies)
    requires bucket.defaultPolicy == s.db[id].defaultPolicy && bucket.policies == Covering(s.db[id].policies, s.key)
    ensures minimal == Check(s, id)
    decreases s.rank[id], 1
  {
    hide Ranked, Ordered, Covering, Check;
    CheckConcludes(s, id);
    var hasMinimal := false;
    minimal := bucket.defaultPolicy;
    var policies := s.order[id];
    var i := 0;
    while i < |policies|
      invariant 0 <= i <= |policies|
      invariant Scan(s, id, i) == Going(if hasMinimal then Some(minimal) else None)
      invariant !hasMinimal ==> minimal == s.db[id].defaultPolicy
    {
      ScanNext(s, id, i, if hasMinimal then Some(minimal) else None);
      var result := policies[i].result;
      if result.policyType == DENY {
        ScanStays(s, id, i + 1, |policies|);
        return result;
      }
      i := i + 1;
      if result.policyType == BUCKET {
        if !s.recursive {
          continue;
        }
        result := Descend(s, id, i - 1);
        if result.Is(NONE) {
          continue;
        }
      }
      if !hasMinimal || result.policyType < minimal.policyType {
        minimal := result;
      }
      hasMinimal := true;
    }
  }

  lemma {:induction false} ScanStays(s: Search, id: string, m: nat, n: nat)
    requires Valid(s) && id in s.region && m <= n <= |s.order[id]| && Scan(s, id, m).Returned?
    ensures Scan(s, id, n) == Scan(s, id, m)
    decreases n
  {
    hide Ranked, Ordered, Next;
    if m < n {
      ScanStays(s, id, m, n - 1);
    }
  }

  /** A check of the key, from the given bucket; the only failure is a start bucket that does not exist. */
  method CheckPolicy(s: Search, id: string) returns (r: Option<PolicyResult>)
    requires Valid(s) && forall i :: i in s.region ==> Indexed(s.db[i].policies)
    requires id in s.db <==> id in s.region
    ensures r.Some? <==> id in s.db
    ensures r.Some? ==> r.value == Check(s, id)
    ensures r.Some? && AllClear(s, Full) ==> r.value == Verdict(s, Full, id)
    ensures r.Some? && AllClear(s, Outline) ==> Plain(r.value) == Verdict(s, Outline, id)
    ensures r.Some? && Verdict(s, LeaningBare, id).policyType == Verdict(s, LeaningMarked, id).policyType ==>
              r.value.policyType == Verdict(s, LeaningBare, id).policyType
  {
    var found := SearchBucket(s.db, id, s.key);
    if found.None? {
      return None;
    }
    AllShow(Full);
    AllShow(Outline);
    if AllClear(s, Full) { CheckIsVerdict(s, Full, id); }
    if AllClear(s, Outline) { CheckIsVerdict(s, Outline, id); }
    assert s.(order := s.order) == s;
    LeaningsFrame(s, s.order, id);
    var minimal := MinimalPolicy(s, id, found.value);
    r := Some(minimal);
  }
}
