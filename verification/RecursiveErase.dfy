/**
 The recursive erase: a work list of bucket ids that grows with the links of
 each bucket it takes, while the policies that match the filter, links among
 them, are deleted on the way.  There is no record of visited buckets.
 */
module RecursiveErase {
  import opened PolicyTypes
  import opened PolicyKeys
  import opened PolicyBuckets
  import opened LinkGraphs

  // ----- what it is for -----

  /** A chain of links in the database as it was before the erase. */
  ghost predicate LinkPath(db: Database, path: seq<string>) {
    && path != []
    && forall i :: 0 <= i < |path| - 1 ==> path[i] in db && path[i + 1] in Links(db[path[i]].policies)
  }

  ghost predicate Reachable(db: Database, start: string, id: string) {
    exists path :: LinkPath(db, path) && path[0] == start && path[|path| - 1] == id
  }

  function Erased(b: Bucket, filter: PolicyKey): Bucket {
    b.(policies := Surviving(b.policies, filter))
  }

  /** `db` with the buckets in `visited` erased, and the others as they were. */
  function EraseIn(db: Database, visited: set<string>, filter: PolicyKey): Database {
    map id | id in db :: if id in visited then Erased(db[id], filter) else db[id]
  }

  /** The links that the erase leaves in a bucket. */
  function SurvivingLinks(db: Database, filter: PolicyKey, id: string): set<string>
    requires id in db
  {
    Links(Surviving(db[id].policies, filter))
  }

  lemma ReachableStart(db: Database, start: string)
    ensures Reachable(db, start, start)
  {
    assert LinkPath(db, [start]);
  }

  lemma ReachableNext(db: Database, start: string, id: string, next: string)
    requires Reachable(db, start, id) && id in db && next in Links(db[id].policies)
    ensures Reachable(db, start, next)
  {
    var path :| LinkPath(db, path) && path[0] == start && path[|path| - 1] == id;
    assert LinkPath(db, path + [next]);
  }

  /** A set that contains the start and is closed under links contains everything reachable. */
  lemma {:induction false} ClosedHasReachable(db: Database, start: string, s: set<string>, path: seq<string>)
    requires start in s && LinkPath(db, path) && path[0] == start
    requires forall id :: id in s && id in db ==> Links(db[id].policies) <= s
    ensures path[|path| - 1] in s
    decreases |path|
  {
    if |path| > 1 {
      var shorter := path[..|path| - 1];
      assert LinkPath(db, shorter);
      ClosedHasReachable(db, start, s, shorter);
      var last := path[|path| - 2];
      assert last == shorter[|shorter| - 1];
      assert path[|path| - 2 + 1] in Links(db[last].policies);
    }
  }

  // ----- the loop -----

  /** The links found in a bucket when it is taken: all of them the first time, survivors later. */
  function LinksWhenTaken(db: Database, filter: PolicyKey, visited: set<string>, id: string): set<string>
    requires id in db
  {
    Links(EraseIn(db, visited, filter)[id].policies)
  }

  /** What holds before every round. */
  ghost predicate Walking(db: Database, start: string, work: set<string>, visited: set<string>) {
    && start in work + visited
    && visited <= db.Keys
    && (forall id :: id in work + visited ==> Reachable(db, start, id))
    && (forall id :: id in visited ==> Links(db[id].policies) <= work + visited)
  }

  lemma WalkingInit(db: Database, start: string)
    ensures Walking(db, start, {start}, {})
  {
    ReachableStart(db, start);
  }

  lemma WalkingStep(db: Database, start: string, filter: PolicyKey, work: set<string>, visited: set<string>, id: string)
    requires Walking(db, start, work, visited) && id in work && id in db
    ensures Walking(db, start, work - {id} + LinksWhenTaken(db, filter, visited, id), visited + {id})
  {
    var links := LinksWhenTaken(db, filter, visited, id);
    var work' := work - {id} + links;
    LinksShrink(db[id].policies, filter);
    forall x | x in work' + (visited + {id}) ensures Reachable(db, start, x) {
      if x in links { ReachableNext(db, start, id, x); }
    }
    if id !in visited { assert links == Links(db[id].policies); }
  }

  lemma LinksShrink(policies: map<string, Policy>, filter: PolicyKey)
    ensures Links(Surviving(policies, filter)) <= Links(policies)
  {
  }

  /** When the work list is empty, exactly the reachable buckets have been visited. */
  lemma WalkingDone(db: Database, start: string, visited: set<string>)
    requires Walking(db, start, {}, visited)
    ensures forall id :: id in visited <==> Reachable(db, start, id)
  {
    forall id | Reachable(db, start, id) ensures id in visited {
      var path :| LinkPath(db, path) && path[0] == start && path[|path| - 1] == id;
      ClosedHasReachable(db, start, visited, path);
    }
  }

  // ----- why it ends -----

  /** The surviving links within `region` go down in rank. */
  ghost predicate SurvivorsRanked(db: Database, filter: PolicyKey, region: set<string>, rank: map<string, nat>) {
    && region <= db.Keys && region <= rank.Keys
    && forall id, t :: id in region && t in region && t in SurvivingLinks(db, filter, id) ==> rank[t] < rank[id]
  }

  /** More than the weights of all surviving links together. */
  ghost function Weight(db: Database, filter: PolicyKey, region: set<string>, rank: map<string, nat>, id: string): nat
    requires SurvivorsRanked(db, filter, region, rank)
    decreases if id in region then rank[id] + 1 else 0, 1
  {
    if id !in region then 1 else 1 + Weights(db, filter, region, rank, SurvivingLinks(db, filter, id), rank[id])
  }

  ghost function Weights(db: Database, filter: PolicyKey, region: set<string>, rank: map<string, nat>,
                         ids: set<string>, bound: nat): nat
    requires SurvivorsRanked(db, filter, region, rank)
    requires forall id :: id in ids && id in region ==> rank[id] < bound
    decreases bound, 2, ids
  {
    if ids == {} then 0
    else
      var id :| id in ids;
      Weight(db, filter, region, rank, id) + Weights(db, filter, region, rank, ids - {id}, bound)
  }

  lemma {:induction false} WeightsPick(db: Database, filter: PolicyKey, region: set<string>, rank: map<string, nat>,
                                       ids: set<string>, bound: nat, x: string)
    requires SurvivorsRanked(db, filter, region, rank) && x in ids
    requires forall id :: id in ids && id in region ==> rank[id] < bound
    ensures Weights(db, filter, region, rank, ids, bound) ==
            Weight(db, filter, region, rank, x) + Weights(db, filter, region, rank, ids - {x}, bound)
    decreases |ids|
  {
    var y :| y in ids && Weights(db, filter, region, rank, ids, bound) ==
                         Weight(db, filter, region, rank, y) + Weights(db, filter, region, rank, ids - {y}, bound);
    if y != x {
      WeightsPick(db, filter, region, rank, ids - {y}, bound, x);
      WeightsPick(db, filter, region, rank, ids - {x}, bound, y);
      assert ids - {y} - {x} == ids - {x} - {y};
    }
  }

  lemma {:induction false} WeightsBound(db: Database, filter: PolicyKey, region: set<string>, rank: map<string, nat>,
                                        ids: set<string>, bound: nat, bound': nat)
    requires SurvivorsRanked(db, filter, region, rank)
    requires forall id :: id in ids && id in region ==> rank[id] < bound && rank[id] < bound'
    ensures Weights(db, filter, region, rank, ids, bound) == Weights(db, filter, region, rank, ids, bound')
    decreases |ids|
  {
    if ids != {} {
      var x :| x in ids;
      WeightsPick(db, filter, region, rank, ids, bound, x);
      WeightsPick(db, filter, region, rank, ids, bound', x);
      WeightsBound(db, filter, region, rank, ids - {x}, bound, bound');
    }
  }

  lemma {:induction false} WeightsUnion(db: Database, filter: PolicyKey, region: set<string>, rank: map<string, nat>,
                                        a: set<string>, b: set<string>, bound: nat)
    requires SurvivorsRanked(db, filter, region, rank)
    requires forall id :: id in a + b && id in region ==> rank[id] < bound
    ensures Weights(db, filter, region, rank, a + b, bound) <=
            Weights(db, filter, region, rank, a, bound) + Weights(db, filter, region, rank, b, bound)
    decreases |b|
  {
    if b == {} {
      assert a + b == a;
    } else {
      var x :| x in b;
      WeightsPick(db, filter, region, rank, b, bound, x);
      WeightsUnion(db, filter, region, rank, a, b - {x}, bound);
      if x in a {
        assert a + b == a + (b - {x});
      } else {
        WeightsPick(db, filter, region, rank, a + b, bound, x);
        assert a + b - {x} == a + (b - {x});
      }
    }
  }

  /** Replacing a bucket on the work list by its surviving links makes the list lighter. */
  lemma TakingMakesLighter(db: Database, filter: PolicyKey, region: set<string>, rank: map<string, nat>,
                           work: set<string>, id: string, bound: nat)
    requires SurvivorsRanked(db, filter, region, rank) && id in work && id in region
    requires forall x :: x in region ==> rank[x] < bound
    ensures Weights(db, filter, region, rank, work - {id} + SurvivingLinks(db, filter, id), bound) <
            Weights(db, filter, region, rank, work, bound)
  {
    var links := SurvivingLinks(db, filter, id);
    WeightsPick(db, filter, region, rank, work, bound, id);
    WeightsBound(db, filter, region, rank, links, rank[id], bound);
    WeightsUnion(db, filter, region, rank, work - {id}, links, bound);
  }

  // ----- it ends only if the surviving links have no cycle -----

  ghost function Taken(taken: seq<string>): set<string> { set x | x in taken }

  /** A run of the loop, given by the buckets it takes, in order: the work list after it. */
  ghost function WorkAfter(db: Database, start: string, filter: PolicyKey, taken: seq<string>): set<string>
    requires forall i :: 0 <= i < |taken| ==> taken[i] in db
    decreases |taken|
  {
    if taken == [] then {start}
    else
      var n := |taken| - 1;
      WorkAfter(db, start, filter, taken[..n]) - {taken[n]} +
      LinksWhenTaken(db, filter, Taken(taken[..n]), taken[n])
  }

  /** Each bucket is on the work list when it is taken. */
  ghost predicate IsRun(db: Database, start: string, filter: PolicyKey, taken: seq<string>)
    requires forall i :: 0 <= i < |taken| ==> taken[i] in db
  {
    forall i :: 0 <= i < |taken| ==> taken[i] in WorkAfter(db, start, filter, taken[..i])
  }

  /** A bucket put on the work list stays there until it is taken. */
  lemma {:induction false} StaysUntilTaken(db: Database, start: string, filter: PolicyKey, taken: seq<string>, i: nat, t: string)
    requires (forall j :: 0 <= j < |taken| ==> taken[j] in db) && i <= |taken|
    requires t in WorkAfter(db, start, filter, taken[..i]) && t !in taken[i..]
    ensures t in WorkAfter(db, start, filter, taken)
    decreases |taken| - i
  {
    if i == |taken| {
      assert taken[..i] == taken;
    } else {
      assert taken[i] in taken[i..];
      assert taken[..i + 1][..i] == taken[..i];
      assert forall x :: x in taken[i + 1..] ==> x in taken[i..];
      StaysUntilTaken(db, start, filter, taken, i + 1, t);
    }
  }

  ghost function LastTaken(taken: seq<string>, x: string): (i: nat)
    requires x in taken
    ensures i < |taken| && taken[i] == x && x !in taken[i + 1..]
    decreases |taken|
  {
    var n := |taken| - 1;
    if taken[n] == x then n
    else
      assert x in taken[..n];
      var i := LastTaken(taken[..n], x);
      assert taken[i + 1..] == taken[..n][i + 1..] + [taken[n]];
      i
  }

  /** A surviving link of a bucket is taken after the bucket was taken for the last time. */
  lemma TakenLater(db: Database, start: string, filter: PolicyKey, taken: seq<string>, id: string, t: string)
    requires forall i :: 0 <= i < |taken| ==> taken[i] in db
    requires WorkAfter(db, start, filter, taken) == {}
    requires id in taken && t in SurvivingLinks(db, filter, id)
    ensures t in taken && LastTaken(taken, t) > LastTaken(taken, id)
  {
    var i := LastTaken(taken, id);
    LinkIsAdded(db, start, filter, taken, i, t);
    hide WorkAfter, LastTaken, SurvivingLinks;
    if t !in taken[i + 1..] { StaysUntilTaken(db, start, filter, taken, i + 1, t); }
    var j :| 0 <= j < |taken[i + 1..]| && taken[i + 1..][j] == t;
    assert taken[i + 1 + j] == t;
    var last := LastTaken(taken, t);
    forall k | last < k < |taken| ensures taken[k] != t { assert taken[last + 1..][k - last - 1] == taken[k]; }
  }

  /** Taking a bucket puts its surviving links on the work list. */
  lemma LinkIsAdded(db: Database, start: string, filter: PolicyKey, taken: seq<string>, i: nat, t: string)
    requires (forall j :: 0 <= j < |taken| ==> taken[j] in db) && i < |taken|
    requires t in SurvivingLinks(db, filter, taken[i])
    ensures t in WorkAfter(db, start, filter, taken[..i + 1])
  {
    hide Surviving, MatchesFilter;
    assert taken[..i + 1][..i] == taken[..i];
    LinksShrink(db[taken[i]].policies, filter);
  }

  lemma {:induction false} RunIsAWalk(db: Database, start: string, filter: PolicyKey, taken: seq<string>)
    requires (forall i :: 0 <= i < |taken| ==> taken[i] in db) && IsRun(db, start, filter, taken)
    ensures Walking(db, start, WorkAfter(db, start, filter, taken), Taken(taken))
    decreases |taken|
  {
    if taken == [] {
      WalkingInit(db, start);
      assert Taken(taken) == {};
    } else {
      var n := |taken| - 1;
      var work, visited := WorkAfter(db, start, filter, taken[..n]), Taken(taken[..n]);
      RunPrefix(db, start, filter, taken);
      RunIsAWalk(db, start, filter, taken[..n]);
      assert taken[n] in work;
      WalkingStep(db, start, filter, work, visited, taken[n]);
      TakenSnoc(taken);
    }
  }

  lemma TakenSnoc(taken: seq<string>)
    requires taken != []
    ensures Taken(taken) == Taken(taken[..|taken| - 1]) + {taken[|taken| - 1]}
  {
    assert taken == taken[..|taken| - 1] + [taken[|taken| - 1]];
  }

  lemma RunPrefix(db: Database, start: string, filter: PolicyKey, taken: seq<string>)
    requires (forall i :: 0 <= i < |taken| ==> taken[i] in db) && IsRun(db, start, filter, taken) && taken != []
    ensures IsRun(db, start, filter, taken[..|taken| - 1])
  {
    var shorter := taken[..|taken| - 1];
    forall i | 0 <= i < |shorter| ensures shorter[i] in WorkAfter(db, start, filter, shorter[..i]) {
      assert shorter[..i] == taken[..i];
    }
  }

  lemma RunLonger(db: Database, start: string, filter: PolicyKey, taken: seq<string>, x: string)
    requires (forall i :: 0 <= i < |taken| ==> taken[i] in db) && IsRun(db, start, filter, taken)
    requires x in db && x in WorkAfter(db, start, filter, taken)
    ensures forall i :: 0 <= i < |taken + [x]| ==> (taken + [x])[i] in db
    ensures IsRun(db, start, filter, taken + [x]) && Taken(taken + [x]) == Taken(taken) + {x}
    ensures WorkAfter(db, start, filter, taken + [x]) ==
            WorkAfter(db, start, filter, taken) - {x} + LinksWhenTaken(db, filter, Taken(taken), x)
  {
    hide LinksWhenTaken;
    var longer := taken + [x];
    assert longer[..|taken|] == taken;
    TakenSnoc(longer);
    forall i | 0 <= i < |longer|
      ensures longer[i] in WorkAfter(db, start, filter, longer[..i])
    {
      assert longer[..i] == taken[..i];
      assert taken[..|taken|] == taken;
    }
  }

  /** The links that survive the erase, among the buckets of a region. */
  ghost function SurvivorGraph(db: Database, filter: PolicyKey, region: set<string>): Graph
    requires region <= db.Keys
  {
    map id | id in region :: SurvivingLinks(db, filter, id)
  }

  lemma SurvivorRank(db: Database, filter: PolicyKey, region: set<string>) returns (rank: map<string, nat>)
    requires region <= db.Keys && Acyclic(SurvivorGraph(db, filter, region))
    ensures SurvivorsRanked(db, filter, region, rank)
  {
    rank := RankOf(SurvivorGraph(db, filter, region));
  }

  /**
   A run of the erase that has finished shows that the links it leaves do not form
   a cycle among the reachable buckets: the order in which buckets were last taken
   ranks them.
   */
  lemma FinishedRunIsAcyclic(db: Database, start: string, filter: PolicyKey, taken: seq<string>)
    requires forall i :: 0 <= i < |taken| ==> taken[i] in db
    requires IsRun(db, start, filter, taken) && WorkAfter(db, start, filter, taken) == {}
    ensures forall id :: id in Taken(taken) <==> Reachable(db, start, id)
    ensures Taken(taken) <= db.Keys && Acyclic(SurvivorGraph(db, filter, Taken(taken)))
  {
    RunIsAWalk(db, start, filter, taken);
    var region := Taken(taken);
    WalkingDone(db, start, region);
    var rank := map x | x in region :: |taken| - LastTaken(taken, x);
    forall id, t | id in region && t in region && t in SurvivingLinks(db, filter, id) ensures rank[t] < rank[id] {
      TakenLater(db, start, filter, taken, id, t);
    }
    hide IsRun, WorkAfter, Reachable, Acyclic, Walking;
    assert RankedBy(SurvivorGraph(db, filter, region), rank);
    AcyclicIffRanked(SurvivorGraph(db, filter, region));
  }
}
