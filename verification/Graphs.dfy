/** Directed graphs of processors: paths, reachability, and cycles. */
module Graphs {
  /** A processor's or a queue's id. */
  datatype Id = Id(name: string)

  type Graph = map<Id, seq<Id>>

  function Kids(g: Graph, p: Id): seq<Id> {
    if p in g then g[p] else []
  }

  ghost predicate Closed(g: Graph) {
    forall p, c :: p in g && c in g[p] ==> c in g
  }

  ghost predicate IsPath(g: Graph, path: seq<Id>) {
    && |path| > 0
    && (forall i :: 0 <= i < |path| ==> path[i] in g)
    && (forall i :: 0 <= i < |path| - 1 ==> path[i + 1] in g[path[i]])
  }

  ghost predicate Leads(g: Graph, path: seq<Id>, a: Id, b: Id) {
    IsPath(g, path) && path[0] == a && path[|path| - 1] == b
  }

  ghost predicate Reaches(g: Graph, a: Id, b: Id) {
    exists path :: Leads(g, path, a, b)
  }

  /** No path returns to where it started. */
  ghost predicate Acyclic(g: Graph) {
    forall path :: IsPath(g, path) && |path| >= 2 ==> path[0] != path[|path| - 1]
  }

  /** A number for every processor that falls along every edge. */
  ghost predicate Ranked(g: Graph, rank: map<Id, nat>) {
    && Closed(g) && rank.Keys == g.Keys
    && forall p, c :: p in g && c in g[p] ==> rank[c] < rank[p]
  }

  lemma EdgeFalls(g: Graph, rank: map<Id, nat>, p: Id, c: Id)
    requires Ranked(g, rank) && p in g && c in g[p]
    ensures c in g && rank[c] < rank[p]
  {
  }

  lemma PathGrows(g: Graph, path: seq<Id>, c: Id)
    requires IsPath(g, path) && c in g && c in g[path[|path| - 1]]
    ensures IsPath(g, path + [c])
  {
  }

  lemma ReachesSelf(g: Graph, p: Id)
    requires p in g
    ensures Reaches(g, p, p)
  {
    assert Leads(g, [p], p, p);
  }

  lemma ReachesOn(g: Graph, a: Id, p: Id, c: Id)
    requires Closed(g) && Reaches(g, a, p) && p in g && c in g[p]
    ensures Reaches(g, a, c)
  {
    var path :| Leads(g, path, a, p);
    assert Leads(g, path + [c], a, c);
  }

  /** What can be reached is the start itself or lies behind one of its children. */
  lemma ReachesSplit(g: Graph, p: Id, b: Id)
    requires Reaches(g, p, b)
    ensures p in g && b in g
    ensures b == p || exists c :: c in g[p] && Reaches(g, c, b)
  {
    var path :| Leads(g, path, p, b);
    if |path| > 1 {
      var rest := path[1..];
      assert Leads(g, rest, path[1], b);
      assert path[1] in g[p] && Reaches(g, path[1], b);
    }
  }

  lemma {:induction false} RankFallsAlong(g: Graph, rank: map<Id, nat>, path: seq<Id>)
    requires Ranked(g, rank) && IsPath(g, path) && |path| >= 2
    ensures rank[path[|path| - 1]] < rank[path[0]]
    decreases |path|
  {
    if |path| > 2 {
      RankFallsAlong(g, rank, path[1..]);
    }
  }

  // ---------- a graph without cycles can be ranked ----------

  lemma {:induction false} NoRepeatsFits(path: seq<Id>, nodes: set<Id>)
    requires forall i :: 0 <= i < |path| ==> path[i] in nodes
    requires forall i, j :: 0 <= i < j < |path| ==> path[i] != path[j]
    ensures |path| <= |nodes|
    decreases |path|
  {
    if |path| > 0 {
      NoRepeatsFits(path[1..], nodes - {path[0]});
    }
  }

  lemma LongPathRepeats(path: seq<Id>, nodes: set<Id>) returns (i: nat, j: nat)
    requires (forall k :: 0 <= k < |path| ==> path[k] in nodes) && |path| > |nodes|
    ensures i < j < |path| && path[i] == path[j]
  {
    if forall i, j :: 0 <= i < j < |path| ==> path[i] != path[j] {
      NoRepeatsFits(path, nodes);
    }
    i, j :| 0 <= i < j < |path| && path[i] == path[j];
  }

  ghost predicate ContinuesIn(g: Graph, nodes: set<Id>, p: Id)
    requires p in g
  {
    exists c :: c in g[p] && c in nodes
  }

  ghost predicate PathWithin(g: Graph, nodes: set<Id>, path: seq<Id>) {
    IsPath(g, path) && forall i :: 0 <= i < |path| ==> path[i] in nodes
  }

  lemma {:induction false} WalkWithin(g: Graph, nodes: set<Id>, n: nat) returns (path: seq<Id>)
    requires nodes <= g.Keys && nodes != {}
    requires forall p :: p in nodes ==> ContinuesIn(g, nodes, p)
    ensures |path| == n + 1 && PathWithin(g, nodes, path)
  {
    if n == 0 {
      var p :| p in nodes;
      path := [p];
    } else {
      var most := WalkWithin(g, nodes, n - 1);
      var last := most[n - 1];
      assert ContinuesIn(g, nodes, last);
      var c :| c in g[last] && c in nodes;
      path := most + [c];
    }
  }

  lemma LoopOfRepeat(g: Graph, path: seq<Id>, i: nat, j: nat)
    requires IsPath(g, path) && i < j < |path| && path[i] == path[j]
    ensures !Acyclic(g)
  {
    var loop := path[i..j + 1];
    assert IsPath(g, loop) && loop[0] == loop[|loop| - 1];
  }

  /** Among any processors one has no child among them. */
  lemma HasSink(g: Graph, nodes: set<Id>) returns (p: Id)
    requires Acyclic(g) && nodes <= g.Keys && nodes != {}
    ensures p in nodes && !ContinuesIn(g, nodes, p)
  {
    if forall p :: p in nodes ==> ContinuesIn(g, nodes, p) {
      var path := WalkWithin(g, nodes, |nodes|);
      var i, j := LongPathRepeats(path, nodes);
      LoopOfRepeat(g, path, i, j);
    }
    p :| p in nodes && !ContinuesIn(g, nodes, p);
  }

  lemma {:induction false} RankRest(g: Graph, nodes: set<Id>, done: map<Id, nat>) returns (rank: map<Id, nat>)
    requires Acyclic(g) && Closed(g) && nodes <= g.Keys && done.Keys == g.Keys - nodes
    requires forall p :: p in done ==> done[p] < |done|
    requires forall p, c :: p in done && c in g[p] ==> c in done && done[c] < done[p]
    ensures Ranked(g, rank)
    decreases |nodes|
  {
    if nodes == {} {
      rank := done;
    } else {
      var p := HasSink(g, nodes);
      assert forall c :: c in g[p] ==> c !in nodes;
      var done' := done[p := |done|];
      assert done'.Keys == g.Keys - (nodes - {p});
      assert |done'| == |done| + 1;
      rank := RankRest(g, nodes - {p}, done');
    }
  }

  /** A graph can be ranked exactly when it has no cycle. */
  lemma RankedIffAcyclic(g: Graph)
    requires Closed(g)
    ensures Acyclic(g) <==> exists rank :: Ranked(g, rank)
  {
    if Acyclic(g) {
      var rank := RankRest(g, g.Keys, map[]);
    }
    if exists rank :: Ranked(g, rank) {
      var rank :| Ranked(g, rank);
      forall path | IsPath(g, path) && |path| >= 2
        ensures path[0] != path[|path| - 1]
      {
        RankFallsAlong(g, rank, path);
      }
    }
  }
}
