/**
 `drain_list`: the walk over the queues of a pipe that moves a processor to the
 end of the list every time it is met.
 */
module DrainLists {
  import opened Graphs
  import opened Results

  datatype QueueDef = QueueDef(id: Id, fromP: Id, toP: Id, size: nat, host: Option<string>)

  // ---------- children ----------

  /** The processors behind a processor's queues: their `to_p` ends. */
  function Children(queues: seq<QueueDef>, p: Id): seq<Id> {
    if |queues| == 0 then []
    else (if queues[0].fromP == p then [queues[0].toP] else []) + Children(queues[1..], p)
  }

  /** They come in the order of the queues. */
  lemma {:induction false} ChildrenAppend(a: seq<QueueDef>, b: seq<QueueDef>, p: Id)
    ensures Children(a + b, p) == Children(a, p) + Children(b, p)
  {
    if |a| == 0 {
      assert a + b == b;
    } else {
      ChildrenAppend(a[1..], b, p);
      assert (a + b)[1..] == a[1..] + b;
    }
  }

  /** The same comprehension as the code has it: it reads `from_p` again. */
  function ChildrenAsCoded(queues: seq<QueueDef>, p: Id): seq<Id> {
    if |queues| == 0 then []
    else (if queues[0].fromP == p then [queues[0].fromP] else []) + ChildrenAsCoded(queues[1..], p)
  }

  lemma {:induction false} ChildrenAre(queues: seq<QueueDef>, p: Id, c: Id)
    ensures c in Children(queues, p) <==> exists i :: 0 <= i < |queues| && queues[i].fromP == p && queues[i].toP == c
  {
    if |queues| > 0 {
      ChildrenAre(queues[1..], p, c);
      if c in Children(queues[1..], p) {
        var i :| 0 <= i < |queues| - 1 && queues[1..][i].fromP == p && queues[1..][i].toP == c;
        assert queues[i + 1].fromP == p && queues[i + 1].toP == c;
      }
      forall i | 0 < i < |queues| && queues[i].fromP == p && queues[i].toP == c
        ensures c in Children(queues[1..], p)
      {
        assert queues[1..][i - 1].fromP == p && queues[1..][i - 1].toP == c;
      }
    }
  }

  /** The graph that the queues of a pipe span over its processors. */
  function GraphOf(processors: set<Id>, queues: seq<QueueDef>): Graph {
    map p | p in processors :: Children(queues, p)
  }

  function GraphAsCoded(processors: set<Id>, queues: seq<QueueDef>): Graph {
    map p | p in processors :: ChildrenAsCoded(queues, p)
  }

  // ---------- the walk ----------

  function Without(d: seq<Id>, x: Id): seq<Id> {
    if |d| == 0 then [] else if d[0] == x then d[1..] else [d[0]] + Without(d[1..], x)
  }

  /** Meeting one child. */
  function Meet(root: Id, d: seq<Id>, child: Id): seq<Id> {
    var d' := if child in d then Without(d, child) else d;
    if child != root then d' + [child] else d'
  }

  function MeetAll(root: Id, d: seq<Id>, children: seq<Id>): seq<Id>
    decreases |children|
  {
    if |children| == 0 then d else MeetAll(root, Meet(root, d, children[0]), children[1..])
  }

  /** The loop after `n` turns, or where it stopped: the work queue and the list. */
  function Walk(g: Graph, root: Id, n: nat): (seq<Id>, seq<Id>)
    decreases n
  {
    if n == 0 then ([root], []) else
    var (work, d) := Walk(g, root, n - 1);
    if |work| == 0 then (work, d) else (work[1..] + Kids(g, work[0]), MeetAll(root, d, Kids(g, work[0])))
  }

  ghost predicate Returns(g: Graph, root: Id, result: seq<Id>) {
    exists n: nat :: Walk(g, root, n) == ([], result)
  }

  // ---------- the code as it is ----------

  predicate Only(s: seq<Id>, x: Id) {
    forall i :: 0 <= i < |s| ==> s[i] == x
  }

  lemma {:induction false} AsCodedIsOnly(queues: seq<QueueDef>, p: Id)
    ensures Only(ChildrenAsCoded(queues, p), p) && |ChildrenAsCoded(queues, p)| == |Children(queues, p)|
  {
    if |queues| > 0 {
      AsCodedIsOnly(queues[1..], p);
    }
  }

  lemma {:induction false} MeetRootKeepsEmpty(root: Id, children: seq<Id>)
    requires Only(children, root)
    ensures MeetAll(root, [], children) == []
  {
    if |children| > 0 {
      MeetRootKeepsEmpty(root, children[1..]);
    }
  }

  lemma {:induction false} AsCodedWalk(processors: set<Id>, queues: seq<QueueDef>, root: Id, n: nat)
    requires root in processors && Children(queues, root) != []
    ensures var (work, d) := Walk(GraphAsCoded(processors, queues), root, n); |work| > 0 && Only(work, root) && d == []
  {
    if n > 0 {
      AsCodedWalk(processors, queues, root, n - 1);
      AsCodedIsOnly(queues, root);
      MeetRootKeepsEmpty(root, ChildrenAsCoded(queues, root));
    }
  }

  /** As coded, `drain_list` returns if and only if the root has no outgoing queue,
      and then it returns an empty list; otherwise it re-queues the root for ever. */
  lemma AsCodedReturnsIff(processors: set<Id>, queues: seq<QueueDef>, root: Id)
    requires root in processors
    ensures (exists r :: Returns(GraphAsCoded(processors, queues), root, r)) <==> Children(queues, root) == []
    ensures Children(queues, root) == [] ==> Returns(GraphAsCoded(processors, queues), root, [])
  {
    var g := GraphAsCoded(processors, queues);
    AsCodedIsOnly(queues, root);
    if Children(queues, root) == [] {
      assert Kids(g, root) == [];
      assert Walk(g, root, 0) == ([root], []);
      assert [root][1..] + Kids(g, root) == [];
      assert Walk(g, root, 1) == ([], []);
      assert Returns(g, root, []);
    } else {
      forall r | Returns(g, root, r)
        ensures false
      {
        var n: nat :| Walk(g, root, n) == ([], r);
        AsCodedWalk(processors, queues, root, n);
      }
    }
  }

  /** The smallest pipe there is, one processor behind the root, is one on which it never returns. */
  lemma OneQueueNeverReturns(r: seq<Id>)
    ensures var pipe, a := Id("pipe"), Id("a");
            !Returns(GraphAsCoded({pipe, a}, [QueueDef(Id("pipe->a"), pipe, a, 4096, None)]), pipe, r)
  {
    var pipe, a := Id("pipe"), Id("a");
    var queues := [QueueDef(Id("pipe->a"), pipe, a, 4096, None)];
    assert Children(queues, pipe) == [a] + Children(queues[1..], pipe);
    AsCodedReturnsIff({pipe, a}, queues, pipe);
  }

  // ---------- with children read as the `to_p` ends ----------

  predicate NoRepeats(d: seq<Id>) {
    forall i, j :: 0 <= i < j < |d| ==> d[i] != d[j]
  }

  ghost predicate Before(d: seq<Id>, a: Id, b: Id) {
    exists i, j :: 0 <= i < j < |d| && d[i] == a && d[j] == b
  }

  /** Every processor behind the root once, each before its children. */
  ghost predicate DrainOrder(g: Graph, root: Id, d: seq<Id>) {
    && NoRepeats(d)
    && (forall p :: p in d <==> p != root && Reaches(g, root, p))
    && (forall p, c :: p in d && c in Kids(g, p) ==> Before(d, p, c))
  }

  function Cut(d: seq<Id>, k: nat): seq<Id>
    requires k < |d|
  {
    d[..k] + d[k + 1..]
  }

  /** Where an element of `d` stands once the one at `k` is out, and where it stood before. */
  lemma CutIndex(d: seq<Id>, k: nat, i: nat)
    requires k < |d| && i < |d|
    ensures |Cut(d, k)| == |d| - 1
    ensures i < k ==> Cut(d, k)[i] == d[i]
    ensures i > k ==> Cut(d, k)[i - 1] == d[i]
  {
  }

  lemma CutHas(d: seq<Id>, k: nat, y: Id)
    requires NoRepeats(d) && k < |d|
    ensures y in Cut(d, k) <==> y in d && y != d[k]
  {
    if y in d && y != d[k] {
      var i :| 0 <= i < |d| && d[i] == y;
      CutIndex(d, k, i);
    }
    if y in Cut(d, k) {
      var i :| 0 <= i < |d| - 1 && Cut(d, k)[i] == y;
      assert y == d[if i < k then i else i + 1];
    }
  }

  lemma CutNoRepeats(d: seq<Id>, k: nat)
    requires NoRepeats(d) && k < |d|
    ensures NoRepeats(Cut(d, k))
  {
    forall i, j | 0 <= i < j < |d| - 1
      ensures Cut(d, k)[i] != Cut(d, k)[j]
    {
      assert Cut(d, k)[i] == d[if i < k then i else i + 1] && Cut(d, k)[j] == d[if j < k then j else j + 1];
    }
  }

  lemma CutKeepsOrder(d: seq<Id>, k: nat, i: nat, j: nat)
    requires k < |d| && i < j < |d| && i != k && j != k
    ensures Before(Cut(d, k), d[i], d[j])
  {
    CutIndex(d, k, i);
    CutIndex(d, k, j);
    var i', j' := if i < k then i else i - 1, if j < k then j else j - 1;
    assert Cut(d, k)[i'] == d[i] && Cut(d, k)[j'] == d[j];
  }

  lemma CutBehindFirst(d: seq<Id>, k: nat)
    requires 0 < k < |d|
    ensures [d[0]] + Cut(d[1..], k - 1) == Cut(d, k)
  {
    assert d[1..][k..] == d[k + 1..];
    assert d[..k] == [d[0]] + d[1..][..k - 1];
  }

  lemma {:induction false} WithoutAt(d: seq<Id>, x: Id, k: nat)
    requires k < |d| && d[k] == x && forall i :: 0 <= i < k ==> d[i] != x
    ensures Without(d, x) == Cut(d, k)
  {
    if k > 0 {
      WithoutAt(d[1..], x, k - 1);
      CutBehindFirst(d, k);
    }
  }

  /** Taking out one element: the rest keep their places relative to each other. */
  lemma WithoutDrops(d: seq<Id>, x: Id, r: seq<Id>)
    requires NoRepeats(d) && r == Without(d, x)
    ensures NoRepeats(r)
    ensures forall y :: y in r <==> y in d && y != x
    ensures forall a, b :: Before(d, a, b) && a != x && b != x ==> Before(r, a, b)
  {
    if x in d {
      var k :| 0 <= k < |d| && d[k] == x;
      WithoutAt(d, x, k);
      CutNoRepeats(d, k);
      forall y ensures y in r <==> y in d && y != x { CutHas(d, k, y); }
      forall a, b | Before(d, a, b) && a != x && b != x
        ensures Before(r, a, b)
      {
        var i, j :| 0 <= i < j < |d| && d[i] == a && d[j] == b;
        CutKeepsOrder(d, k, i, j);
      }
    } else {
      WithoutNone(d, x);
    }
  }

  lemma {:induction false} WithoutNone(d: seq<Id>, x: Id)
    requires x !in d
    ensures Without(d, x) == d
  {
    if |d| > 0 {
      WithoutNone(d[1..], x);
    }
  }

  lemma AppendMoves(w: seq<Id>, c: Id)
    ensures forall a :: a in w ==> Before(w + [c], a, c)
    ensures forall a, b :: Before(w, a, b) ==> Before(w + [c], a, b)
  {
    var r := w + [c];
    assert r[|w|] == c;
    forall a | a in w
      ensures Before(r, a, c)
    {
      var i :| 0 <= i < |w| && w[i] == a;
      assert r[i] == a;
    }
    forall a, b | Before(w, a, b)
      ensures Before(r, a, b)
    {
      var i, j :| 0 <= i < j < |w| && w[i] == a && w[j] == b;
      assert r[i] == a && r[j] == b;
    }
  }

  lemma BeforeIsListed(d: seq<Id>, a: Id, b: Id)
    requires Before(d, a, b)
    ensures a in d && b in d
  {
  }

  /** The child is last; nothing else loses a successor it had. */
  lemma MeetMoves(root: Id, d: seq<Id>, c: Id)
    requires NoRepeats(d) && c != root
    ensures NoRepeats(Meet(root, d, c))
    ensures forall y :: y in Meet(root, d, c) <==> y in d || y == c
    ensures forall a :: a in d && a != c ==> Before(Meet(root, d, c), a, c)
    ensures forall a, b :: Before(d, a, b) && a != c ==> Before(Meet(root, d, c), a, b)
  {
    var w := Without(d, c);
    WithoutDrops(d, c, w);
    if c !in d { WithoutNone(d, c); }
    AppendMoves(w, c);
    assert Meet(root, d, c) == w + [c];
    forall a, b | Before(d, a, b) && a != c
      ensures Before(w + [c], a, b)
    {
      BeforeIsListed(d, a, b);
      if b != c { assert Before(w, a, b); }
    }
  }

  lemma {:induction false} MeetAllMoves(root: Id, d: seq<Id>, cs: seq<Id>)
    requires NoRepeats(d) && root !in cs
    ensures var r := MeetAll(root, d, cs);
            && NoRepeats(r)
            && (forall y :: y in r <==> y in d || y in cs)
            && (forall a, c :: a in d && a !in cs && c in cs ==> Before(r, a, c))
            && (forall a, b :: Before(d, a, b) && a !in cs ==> Before(r, a, b))
    decreases |cs|
  {
    if |cs| > 0 {
      var d1 := Meet(root, d, cs[0]);
      MeetMoves(root, d, cs[0]);
      MeetAllMoves(root, d1, cs[1..]);
      assert forall y :: y in cs <==> y == cs[0] || y in cs[1..];
    }
  }

  /** Every edge out of a listed processor is either served or still in the work queue. */
  ghost predicate WalkInv(g: Graph, root: Id, work: seq<Id>, d: seq<Id>) {
    && NoRepeats(d) && root !in d
    && (forall x :: x in work ==> x == root || x in d)
    && (forall x :: x in d ==> Reaches(g, root, x))
    && (forall c :: c in Kids(g, root) ==> root in work || c in d)
    && (forall u, c :: u in d && c in Kids(g, u) ==> u in work || Before(d, u, c))
  }

  lemma NotBehindItself(g: Graph, rank: map<Id, nat>, root: Id, u: Id)
    requires Ranked(g, rank) && Reaches(g, root, u)
    ensures u in g && root in g
    ensures root !in Kids(g, u) && u !in Kids(g, u)
  {
    ReachesSplit(g, root, u);
    var path :| Leads(g, path, root, u);
    if |path| >= 2 {
      RankFallsAlong(g, rank, path);
    }
  }

  lemma TurnKeepsInv(g: Graph, rank: map<Id, nat>, root: Id, work: seq<Id>, d: seq<Id>)
    requires Ranked(g, rank) && root in g && |work| > 0 && WalkInv(g, root, work, d)
    ensures WalkInv(g, root, work[1..] + Kids(g, work[0]), MeetAll(root, d, Kids(g, work[0])))
  {
    var u, kids := work[0], Kids(g, work[0]);
    var work', d' := work[1..] + kids, MeetAll(root, d, kids);
    ReachesSelf(g, root);
    NotBehindItself(g, rank, root, u);
    MeetAllMoves(root, d, kids);
    assert forall x :: x in work' <==> x in work[1..] || x in kids;
    assert forall x :: x in work <==> x == u || x in work[1..];
    forall x | x in d'
      ensures Reaches(g, root, x)
    {
      if x in kids {
        ReachesOn(g, root, u, x);
      }
    }
    forall p, c | p in d' && c in Kids(g, p)
      ensures p in work' || Before(d', p, c)
    {
      if p != u && p !in kids && p !in work {
        assert Before(d, p, c);
      }
    }
  }

  lemma {:induction false} ReachableIsListed(g: Graph, root: Id, d: seq<Id>, p: Id, b: Id)
    requires WalkInv(g, root, [], d) && (p == root || p in d) && Reaches(g, p, b)
    ensures b == root || b in d
  {
    var path :| Leads(g, path, p, b);
    PathIsListed(g, root, d, path);
  }

  lemma {:induction false} PathIsListed(g: Graph, root: Id, d: seq<Id>, path: seq<Id>)
    requires WalkInv(g, root, [], d) && IsPath(g, path) && (path[0] == root || path[0] in d)
    ensures path[|path| - 1] == root || path[|path| - 1] in d
    decreases |path|
  {
    if |path| > 1 {
      assert path[1] in Kids(g, path[0]);
      if path[0] in d {
        assert Before(d, path[0], path[1]);
      }
      PathIsListed(g, root, d, path[1..]);
    }
  }

  lemma FinishedWalk(g: Graph, rank: map<Id, nat>, root: Id, d: seq<Id>)
    requires Ranked(g, rank) && root in g && WalkInv(g, root, [], d)
    ensures DrainOrder(g, root, d)
  {
    forall p | p != root && Reaches(g, root, p)
      ensures p in d
    {
      ReachableIsListed(g, root, d, root, p);
    }
  }

  // ---------- termination ----------

  /** The number of paths that start at a processor. */
  ghost function Paths(g: Graph, rank: map<Id, nat>, p: Id): nat
    requires Ranked(g, rank) && p in g
    decreases rank[p], 0
  {
    1 + PathsBehind(g, rank, p, g[p])
  }

  ghost function PathsBehind(g: Graph, rank: map<Id, nat>, p: Id, kids: seq<Id>): nat
    requires Ranked(g, rank) && p in g && forall c :: c in kids ==> c in g && rank[c] < rank[p]
    decreases rank[p], 0, |kids|
  {
    if |kids| == 0 then 0 else Paths(g, rank, kids[0]) + PathsBehind(g, rank, p, kids[1..])
  }

  /** What is left to walk: the paths that start at the processors in the work queue. */
  ghost function Weight(g: Graph, rank: map<Id, nat>, work: seq<Id>): nat
    requires Ranked(g, rank) && forall x :: x in work ==> x in g
    decreases |work|
  {
    if |work| == 0 then 0 else Paths(g, rank, work[0]) + Weight(g, rank, work[1..])
  }

  lemma {:induction false} WeightAppends(g: Graph, rank: map<Id, nat>, a: seq<Id>, p: Id, kids: seq<Id>)
    requires Ranked(g, rank) && p in g && (forall x :: x in a ==> x in g)
    requires forall c :: c in kids ==> c in g && rank[c] < rank[p]
    ensures forall x :: x in a + kids ==> x in g
    ensures Weight(g, rank, a + kids) == Weight(g, rank, a) + PathsBehind(g, rank, p, kids)
    decreases |a| + |kids|
  {
    if |a| > 0 {
      assert (a + kids)[1..] == a[1..] + kids;
      WeightAppends(g, rank, a[1..], p, kids);
    } else if |kids| > 0 {
      assert a + kids == kids;
      assert [] + kids[1..] == kids[1..];
      WeightAppends(g, rank, [], p, kids[1..]);
    }
  }

  lemma TakeFirst(s: seq<Id>, i: nat)
    requires i < |s|
    ensures s[i..] == [s[i]] + s[i + 1..] && s[i..][0] == s[i] && s[i..][1..] == s[i + 1..]
  {
  }

  /** The loop over the children of one processor. */
  method MeetChildren(root: Id, children: seq<Id>, drained: seq<Id>, q: seq<Id>)
    returns (drained': seq<Id>, q': seq<Id>)
    ensures drained' == MeetAll(root, drained, children) && q' == q + children
  {
    drained', q' := drained, q;
    for i := 0 to |children|
      invariant q' + children[i..] == q + children
      invariant MeetAll(root, drained', children[i..]) == MeetAll(root, drained, children)
    {
      var child := children[i];
      TakeFirst(children, i);
      if child in drained' {
        drained' := Without(drained', child);
      }
      if child != root {
        drained' := drained' + [child];
      }
      q' := q' + [child];
    }
  }

  /** `drain_list`, with children read as the `to_p` ends: on every pipe without a
      cycle it returns, and lists every processor behind the root once, each before
      its children. */
  method DrainList(processors: set<Id>, queues: seq<QueueDef>, root: Id) returns (drained: seq<Id>)
    requires root in processors && Closed(GraphOf(processors, queues)) && Acyclic(GraphOf(processors, queues))
    ensures DrainOrder(GraphOf(processors, queues), root, drained)
    ensures Returns(GraphOf(processors, queues), root, drained)
  {
    ghost var g := GraphOf(processors, queues);
    RankedIffAcyclic(g);
    ghost var rank :| Ranked(g, rank);
    ghost var n := 0;
    var q := [root];
    drained := [];
    while q != []
      invariant forall x :: x in q ==> x in g
      invariant WalkInv(g, root, q, drained)
      invariant Walk(g, root, n) == (q, drained)
      decreases Weight(g, rank, q)
    {
      var next := q[0];
      TurnKeepsInv(g, rank, root, q, drained);
      WeightAppends(g, rank, q[1..], next, Kids(g, next));
      drained, q := MeetChildren(root, Children(queues, next), drained, q[1..]);
      n := n + 1;
    }
    FinishedWalk(g, rank, root, drained);
  }
}
