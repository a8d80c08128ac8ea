/** Links between buckets: having no cycle is the same as having ranks that fall along the links. */
module LinkGraphs {

  /** The successors of each node; those outside the graph do not matter. */
  type Graph = map<string, set<string>>

  ghost predicate IsPath(g: Graph, path: seq<string>) {
    && path != []
    && (forall i :: 0 <= i < |path| ==> path[i] in g)
    && forall i :: 0 <= i < |path| - 1 ==> path[i + 1] in g[path[i]]
  }

  ghost predicate Acyclic(g: Graph) {
    forall path :: IsPath(g, path) && |path| > 1 ==> path[0] != path[|path| - 1]
  }

  ghost predicate RankedBy(g: Graph, rank: map<string, nat>) {
    && g.Keys <= rank.Keys
    && forall a, b :: a in g && b in g && b in g[a] ==> rank[b] < rank[a]
  }

  lemma {:induction false} RanksFallAlong(g: Graph, rank: map<string, nat>, path: seq<string>)
    requires RankedBy(g, rank) && IsPath(g, path) && |path| > 1
    ensures rank[path[|path| - 1]] < rank[path[0]]
    decreases |path|
  {
    assert path[1] in g[path[0]];
    if |path| > 2 {
      RanksFallAlong(g, rank, path[1..]);
    }
  }

  /** Follows links until a node that has none; no node can come twice. */
  lemma {:induction false} FindSink(g: Graph, path: seq<string>) returns (sink: string)
    requires Acyclic(g) && IsPath(g, path)
    requires forall i, j :: 0 <= i < j < |path| ==> path[i] != path[j]
    ensures sink in g && g[sink] !! g.Keys
    decreases |g| - |path|
  {
    var last := path[|path| - 1];
    if next :| next in g[last] && next in g {
      var longer := path + [next];
      assert IsPath(g, longer);
      forall i | 0 <= i < |path|
        ensures path[i] != next
      {
        var loop := longer[i..];
        assert IsPath(g, loop) && loop[0] == path[i] && loop[|loop| - 1] == next;
      }
      DistinctFit(longer, g.Keys);
      sink := FindSink(g, longer);
    } else {
      sink := last;
    }
  }

  lemma {:induction false} DistinctFit(path: seq<string>, nodes: set<string>)
    requires forall i :: 0 <= i < |path| ==> path[i] in nodes
    requires forall i, j :: 0 <= i < j < |path| ==> path[i] != path[j]
    ensures |path| <= |nodes|
    decreases |path|
  {
    if path != [] {
      DistinctFit(path[1..], nodes - {path[0]});
    }
  }

  lemma {:induction false} RankOf(g: Graph) returns (rank: map<string, nat>)
    requires Acyclic(g)
    ensures RankedBy(g, rank)
    decreases |g|
  {
    if start :| start in g {
      assert IsPath(g, [start]);
      var sink := FindSink(g, [start]);
      var rest := g - {sink};
      assert |rest| < |g| by {
        assert rest.Keys == g.Keys - {sink};
      }
      forall path | IsPath(rest, path) && |path| > 1
        ensures path[0] != path[|path| - 1]
      {
        assert IsPath(g, path);
      }
      var lower := RankOf(rest);
      rank := map a | a in g :: if a == sink then 0 else lower[a] + 1;
    } else {
      rank := map[];
    }
  }

  lemma AcyclicIffRanked(g: Graph)
    ensures Acyclic(g) <==> exists rank :: RankedBy(g, rank)
  {
    if Acyclic(g) {
      var rank := RankOf(g);
    }
    if rank :| RankedBy(g, rank) {
      forall path | IsPath(g, path) && |path| > 1
        ensures path[0] != path[|path| - 1]
      {
        RanksFallAlong(g, rank, path);
      }
    }
  }
}
