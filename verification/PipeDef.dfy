/** `pipe_def`: the processors reachable from a pipe, and a queue for every edge between them. */
module PipeDefs {
  import opened Graphs
  import opened Results
  import opened DrainLists
  import Dicts

  /** A declared processor: its input buffer, its host, and what was added to it. */
  datatype Processor = Processor(inputBufferSize: nat, host: Option<string>, children: seq<Id>)

  type Declared = map<Id, Processor>

  datatype ProcessorDef = ProcessorDef(id: Id, inputBufferSize: nat, host: Option<string>)

  function GraphOfDeclared(ps: Declared): Graph {
    map p | p in ps :: ps[p].children
  }

  function DefOf(ps: Declared, p: Id): ProcessorDef
    requires p in ps
  {
    ProcessorDef(p, ps[p].inputBufferSize, ps[p].host)
  }

  /** `f"{processor.id}->{child.id}"` */
  function QueueName(p: string, c: string): string {
    p + "->" + c
  }

  function QueueId(p: Id, c: Id): Id {
    Id(QueueName(p.name, c.name))
  }

  /** The queue to a child has the child's buffer size, and the child's host if that is not empty. */
  function QueueOf(ps: Declared, p: Id, c: Id): QueueDef
    requires c in ps
  {
    QueueDef(QueueId(p, c), p, c, ps[c].inputBufferSize,
             if ps[c].host.Some? && ps[c].host.value != "" then ps[c].host else None)
  }

  function ProcessorKey(d: ProcessorDef): Id { d.id }

  function QueueKey(q: QueueDef): Id { q.id }

  // ---------- queue ids ----------

  predicate HasArrow(p: string) {
    exists i :: 0 <= i < |p| - 1 && p[i] == '-' && p[i + 1] == '>'
  }

  /** Ids without an arrow in them give every edge its own queue id. */
  lemma QueueIdsDiffer(p: Id, c: Id, p': Id, c': Id)
    requires !HasArrow(p.name) && !HasArrow(p'.name) && QueueId(p, c) == QueueId(p', c')
    ensures p == p' && c == c'
  {
    var n, n' := QueueName(p.name, c.name), QueueName(p'.name, c'.name);
    if |p.name| < |p'.name| {
      ShorterHasArrow(p.name, c.name, p'.name, c'.name);
    } else if |p'.name| < |p.name| {
      ShorterHasArrow(p'.name, c'.name, p.name, c.name);
    }
    assert p.name == n[..|p.name|] == n'[..|p'.name|] == p'.name;
    assert c.name == n[|p.name| + 2..] == n'[|p'.name| + 2..] == c'.name;
  }

  lemma ShorterHasArrow(p: string, c: string, p': string, c': string)
    requires |p| < |p'| && QueueName(p, c) == QueueName(p', c')
    ensures HasArrow(p')
  {
    var n, n' := QueueName(p, c), QueueName(p', c');
    assert n[|p|] == '-' && n[|p| + 1] == '>';
    assert n'[|p'|] == '-';
    assert n'[|p|] == p'[|p|] && n'[|p| + 1] == p'[|p| + 1];
  }

  /** With an arrow in an id two edges can share one: a->b to c, and a to b->c. */
  lemma QueueIdsCanCollide()
    ensures QueueId(Id("a->b"), Id("c")) == QueueId(Id("a"), Id("b->c"))
    ensures Id("a->b") != Id("a")
  {
    assert "a->b" + "->" + "c" == "a->b->c" == "a" + "->" + "b->c";
    assert |"a->b"| != |"a"|;
  }

  // ---------- map_proc ----------

  /** Children are declared, and `rank` falls along every edge. */
  ghost predicate Falls(ps: Declared, rank: map<Id, nat>) {
    && rank.Keys == ps.Keys
    && forall p, i :: p in ps && 0 <= i < |ps[p].children| ==>
         ps[p].children[i] in ps && rank[ps[p].children[i]] < rank[p]
  }

  lemma RankedFalls(ps: Declared, rank: map<Id, nat>)
    requires Ranked(GraphOfDeclared(ps), rank)
    ensures Falls(ps, rank)
  {
    forall p, i | p in ps && 0 <= i < |ps[p].children|
      ensures ps[p].children[i] in ps && rank[ps[p].children[i]] < rank[p]
    {
      var g := GraphOfDeclared(ps);
      assert g[p][i] == ps[p].children[i];
      EdgeFalls(g, rank, p, ps[p].children[i]);
    }
  }

  datatype Defs = Defs(processors: seq<ProcessorDef>, queues: seq<QueueDef>)

  function WithProcessor(ps: Declared, p: Id, d: Defs): Defs
    requires p in ps
  {
    d.(processors := Dicts.Store(ProcessorKey, d.processors, DefOf(ps, p)))
  }

  function WithQueue(ps: Declared, p: Id, c: Id, d: Defs): Defs
    requires c in ps
  {
    d.(queues := Dicts.Store(QueueKey, d.queues, QueueOf(ps, p, c)))
  }

  /** What `map_proc` makes of the two dictionaries. */
  ghost function Mapped(ps: Declared, rank: map<Id, nat>, p: Id, d: Defs): Defs
    requires Falls(ps, rank) && p in ps
    decreases rank[p], 1
  {
    MappedFrom(ps, rank, p, 0, WithProcessor(ps, p, d))
  }

  /** The loop over the children of `p`, from the `i`-th on. */
  ghost function MappedFrom(ps: Declared, rank: map<Id, nat>, p: Id, i: nat, d: Defs): Defs
    requires Falls(ps, rank) && p in ps && i <= |ps[p].children|
    decreases rank[p], 0, |ps[p].children| - i
  {
    if i == |ps[p].children| then d else
    var c := ps[p].children[i];
    MappedFrom(ps, rank, p, i + 1, Mapped(ps, rank, c, WithQueue(ps, p, c, d)))
  }

  // ---------- what the dictionaries hold ----------

  ghost predicate IsEdge(ps: Declared, root: Id, p: Id, c: Id) {
    Reaches(GraphOfDeclared(ps), root, p) && p in ps && c in ps[p].children && c in ps
  }

  /** Edges that can be reached from the root have different queue ids. */
  ghost predicate DistinctQueueIds(ps: Declared, root: Id) {
    forall p, c, p', c' :: IsEdge(ps, root, p, c) && IsEdge(ps, root, p', c') && QueueId(p, c) == QueueId(p', c') ==>
      p == p' && c == c'
  }

  /** The dictionaries hold processors and queues behind the root, and nothing else. */
  ghost predicate Sound(ps: Declared, root: Id, d: Defs) {
    && Dicts.Distinct(ProcessorKey, d.processors) && Dicts.Distinct(QueueKey, d.queues)
    && (forall x :: x in d.processors ==> x.id in ps && x == DefOf(ps, x.id) && Reaches(GraphOfDeclared(ps), root, x.id))
    && (forall q :: q in d.queues ==> IsEdge(ps, root, q.fromP, q.toP) && q == QueueOf(ps, q.fromP, q.toP))
  }

  /** No processor is lost from one to the other, nor any queue unless ids collide. */
  ghost predicate Grows(ps: Declared, root: Id, d: Defs, d': Defs) {
    && (forall x :: x in d.processors ==> x in d'.processors)
    && (DistinctQueueIds(ps, root) ==> forall q :: q in d.queues ==> q in d'.queues)
  }

  /** Everything behind `p` is in the dictionaries. */
  ghost predicate Covers(ps: Declared, root: Id, p: Id, d: Defs) {
    && (forall r :: Reaches(GraphOfDeclared(ps), p, r) && r in ps ==> DefOf(ps, r) in d.processors)
    && (DistinctQueueIds(ps, root) ==> forall r, c :: IsEdge(ps, p, r, c) ==> QueueOf(ps, r, c) in d.queues)
  }

  lemma StoreProcessor(ps: Declared, root: Id, d: Defs, p: Id)
    requires Sound(ps, root, d) && p in ps && Reaches(GraphOfDeclared(ps), root, p)
    ensures Sound(ps, root, WithProcessor(ps, p, d)) && Grows(ps, root, d, WithProcessor(ps, p, d))
    ensures DefOf(ps, p) in WithProcessor(ps, p, d).processors
  {
    Dicts.StoreDistinct(ProcessorKey, d.processors, DefOf(ps, p));
  }

  lemma StoreQueue(ps: Declared, root: Id, d: Defs, p: Id, c: Id)
    requires Sound(ps, root, d) && IsEdge(ps, root, p, c)
    ensures Sound(ps, root, WithQueue(ps, p, c, d)) && Grows(ps, root, d, WithQueue(ps, p, c, d))
    ensures QueueOf(ps, p, c) in WithQueue(ps, p, c, d).queues
  {
    Dicts.StoreDistinct(QueueKey, d.queues, QueueOf(ps, p, c));
  }

  lemma GrowsCovers(ps: Declared, root: Id, p: Id, d: Defs, d': Defs)
    requires Covers(ps, root, p, d) && Grows(ps, root, d, d')
    ensures Covers(ps, root, p, d')
  {
  }

  lemma {:induction false} MappedHolds(ps: Declared, rank: map<Id, nat>, root: Id, p: Id, d: Defs)
    requires Falls(ps, rank) && p in ps && Reaches(GraphOfDeclared(ps), root, p) && Sound(ps, root, d)
    ensures Sound(ps, root, Mapped(ps, rank, p, d)) && Grows(ps, root, d, Mapped(ps, rank, p, d))
    ensures Covers(ps, root, p, Mapped(ps, rank, p, d))
    decreases rank[p], 1
  {
    StoreProcessor(ps, root, d, p);
    var d1 := WithProcessor(ps, p, d);
    MappedFromHolds(ps, rank, root, p, 0, d1);
    ChildrenCover(ps, root, p, Mapped(ps, rank, p, d));
  }

  /** The children from the `i`-th on, and the queues to them. */
  ghost predicate CoversChildren(ps: Declared, root: Id, p: Id, i: nat, d: Defs)
    requires p in ps
  {
    forall k :: i <= k < |ps[p].children| ==>
      && ps[p].children[k] in ps
      && Covers(ps, root, ps[p].children[k], d)
      && (DistinctQueueIds(ps, root) ==> QueueOf(ps, p, ps[p].children[k]) in d.queues)
  }

  lemma {:induction false} MappedFromHolds(ps: Declared, rank: map<Id, nat>, root: Id, p: Id, i: nat, d: Defs)
    requires Falls(ps, rank) && p in ps && Reaches(GraphOfDeclared(ps), root, p) && Sound(ps, root, d)
    requires i <= |ps[p].children|
    ensures var d' := MappedFrom(ps, rank, p, i, d);
            Sound(ps, root, d') && Grows(ps, root, d, d') && CoversChildren(ps, root, p, i, d')
    decreases rank[p], 0, |ps[p].children| - i
  {
    if i < |ps[p].children| {
      var c := ps[p].children[i];
      ChildIsEdge(ps, rank, root, p, i);
      StoreQueue(ps, root, d, p, c);
      var d1 := WithQueue(ps, p, c, d);
      MappedHolds(ps, rank, root, c, d1);
      var d2 := Mapped(ps, rank, c, d1);
      MappedFromHolds(ps, rank, root, p, i + 1, d2);
      OneMoreChild(ps, root, p, i, d, d1, d2, MappedFrom(ps, rank, p, i + 1, d2));
    }
  }

  lemma ChildIsEdge(ps: Declared, rank: map<Id, nat>, root: Id, p: Id, i: nat)
    requires Falls(ps, rank) && p in ps && Reaches(GraphOfDeclared(ps), root, p) && i < |ps[p].children|
    ensures IsEdge(ps, root, p, ps[p].children[i])
    ensures Reaches(GraphOfDeclared(ps), root, ps[p].children[i])
  {
    RankedCloses(ps, rank);
    assert ps[p].children[i] in GraphOfDeclared(ps)[p];
    ReachesOn(GraphOfDeclared(ps), root, p, ps[p].children[i]);
  }

  /** The queue to the `i`-th child stored, what lies behind it mapped, the rest of the children mapped. */
  lemma OneMoreChild(ps: Declared, root: Id, p: Id, i: nat, d: Defs, d1: Defs, d2: Defs, d3: Defs)
    requires p in ps && i < |ps[p].children| && ps[p].children[i] in ps
    requires Grows(ps, root, d, d1) && Grows(ps, root, d1, d2) && Grows(ps, root, d2, d3)
    requires QueueOf(ps, p, ps[p].children[i]) in d1.queues
    requires Covers(ps, root, ps[p].children[i], d2) && CoversChildren(ps, root, p, i + 1, d3)
    ensures Grows(ps, root, d, d3) && CoversChildren(ps, root, p, i, d3)
  {
    GrowsCovers(ps, root, ps[p].children[i], d2, d3);
  }

  lemma RankedCloses(ps: Declared, rank: map<Id, nat>)
    requires Falls(ps, rank)
    ensures Ranked(GraphOfDeclared(ps), rank)
  {
    var g := GraphOfDeclared(ps);
    forall p, c | p in g && c in g[p]
      ensures c in g && rank[c] < rank[p]
    {
      var i :| 0 <= i < |ps[p].children| && ps[p].children[i] == c;
    }
  }

  lemma ChildrenCover(ps: Declared, root: Id, p: Id, d: Defs)
    requires p in ps && DefOf(ps, p) in d.processors && CoversChildren(ps, root, p, 0, d)
    ensures Covers(ps, root, p, d)
  {
    var g := GraphOfDeclared(ps);
    forall r | Reaches(g, p, r) && r in ps && r != p
      ensures exists k :: 0 <= k < |ps[p].children| && Reaches(g, ps[p].children[k], r)
    {
      ReachesSplit(g, p, r);
      var c :| c in g[p] && Reaches(g, c, r);
      var k :| 0 <= k < |ps[p].children| && ps[p].children[k] == c;
    }
    forall r, c | DistinctQueueIds(ps, root) && IsEdge(ps, p, r, c)
      ensures QueueOf(ps, r, c) in d.queues
    {
      if r == p {
        var k :| 0 <= k < |ps[p].children| && ps[p].children[k] == c;
      } else {
        var k :| 0 <= k < |ps[p].children| && Reaches(g, ps[p].children[k], r);
        assert IsEdge(ps, ps[p].children[k], r, c);
      }
    }
  }

  /** Exactly the processors behind the root; queues only for edges between them, and
      a queue for every such edge exactly when no two of them share a queue id. */
  ghost predicate IsPipeOf(ps: Declared, root: Id, d: Defs) {
    && Sound(ps, root, d)
    && (forall p :: p in ps && Reaches(GraphOfDeclared(ps), root, p) ==> DefOf(ps, p) in d.processors)
    && ((forall p, c :: IsEdge(ps, root, p, c) ==> QueueOf(ps, p, c) in d.queues) <==> DistinctQueueIds(ps, root))
  }

  lemma OneQueuePerId(queues: seq<QueueDef>, q: QueueDef, q': QueueDef)
    requires Dicts.Distinct(QueueKey, queues) && q in queues && q' in queues && q.id == q'.id
    ensures q == q'
  {
    var i :| 0 <= i < |queues| && queues[i] == q;
    var j :| 0 <= j < |queues| && queues[j] == q';
    assert QueueKey(queues[i]) == QueueKey(queues[j]);
  }

  lemma AllQueuesMeansDistinct(ps: Declared, root: Id, queues: seq<QueueDef>)
    requires Dicts.Distinct(QueueKey, queues)
    requires forall p, c :: IsEdge(ps, root, p, c) ==> QueueOf(ps, p, c) in queues
    ensures DistinctQueueIds(ps, root)
  {
    forall p, c, p', c' | IsEdge(ps, root, p, c) && IsEdge(ps, root, p', c') && QueueId(p, c) == QueueId(p', c')
      ensures p == p' && c == c'
    {
      OneQueuePerId(queues, QueueOf(ps, p, c), QueueOf(ps, p', c'));
    }
  }

  lemma MappedIsPipe(ps: Declared, rank: map<Id, nat>, root: Id)
    requires Falls(ps, rank) && root in ps
    ensures IsPipeOf(ps, root, Mapped(ps, rank, root, Defs([], [])))
  {
    ReachesSelf(GraphOfDeclared(ps), root);
    MappedHolds(ps, rank, root, root, Defs([], []));
    var d := Mapped(ps, rank, root, Defs([], []));
    if forall p, c :: IsEdge(ps, root, p, c) ==> QueueOf(ps, p, c) in d.queues {
      AllQueuesMeansDistinct(ps, root, d.queues);
    }
  }

  /** What lies behind the root and is not the root has a queue leading to it. */
  lemma HasQueue(ps: Declared, root: Id, d: Defs, x: Id)
    requires IsPipeOf(ps, root, d) && DistinctQueueIds(ps, root)
    requires x != root && Reaches(GraphOfDeclared(ps), root, x)
    ensures exists q :: q in d.queues && q.toP == x
  {
    var g := GraphOfDeclared(ps);
    var path :| Leads(g, path, root, x);
    var p := path[|path| - 2];
    assert Leads(g, path[..|path| - 1], root, p);
    assert IsEdge(ps, root, p, x);
    assert QueueOf(ps, p, x).toP == x;
  }

  lemma QueueEnds(ps: Declared, root: Id, d: Defs, q: QueueDef)
    requires Closed(GraphOfDeclared(ps)) && Acyclic(GraphOfDeclared(ps)) && IsPipeOf(ps, root, d) && q in d.queues
    ensures q.fromP in ps && DefOf(ps, q.fromP) in d.processors
    ensures q.toP in ps && DefOf(ps, q.toP) in d.processors && q.toP != root
  {
    var g := GraphOfDeclared(ps);
    RankedIffAcyclic(g);
    var rank :| Ranked(g, rank);
    ReachesOn(g, root, q.fromP, q.toP);
    NotBehindItself(g, rank, root, q.fromP);
  }

  /** Every queue runs between listed processors and none leads to the root; when no
      two edges share a queue id, one leads to every other listed processor. */
  lemma RootIsTheOnlyEntry(ps: Declared, root: Id, d: Defs)
    requires Closed(GraphOfDeclared(ps)) && Acyclic(GraphOfDeclared(ps)) && root in ps && IsPipeOf(ps, root, d)
    ensures forall q :: q in d.queues ==>
      && q.fromP in ps && DefOf(ps, q.fromP) in d.processors
      && q.toP in ps && DefOf(ps, q.toP) in d.processors && q.toP != root
    ensures DistinctQueueIds(ps, root) ==>
      forall x :: x in d.processors && x.id != root ==> exists q :: q in d.queues && q.toP == x.id
  {
    forall q | q in d.queues
      ensures q.fromP in ps && DefOf(ps, q.fromP) in d.processors
      ensures q.toP in ps && DefOf(ps, q.toP) in d.processors && q.toP != root
    {
      QueueEnds(ps, root, d, q);
    }
    forall x | DistinctQueueIds(ps, root) && x in d.processors && x.id != root
      ensures exists q :: q in d.queues && q.toP == x.id
    {
      HasQueue(ps, root, d, x.id);
    }
  }

  // ---------- what processors and queues carry ----------

  /** A listed processor has its own buffer size and host; a queue is named by its ends
      and has the buffer size of the processor it leads to, and that one's host unless it is empty. */
  ghost predicate CarriesSettings(ps: Declared, processors: seq<ProcessorDef>, queues: seq<QueueDef>) {
    && (forall x :: x in processors ==>
          x.id in ps && x.inputBufferSize == ps[x.id].inputBufferSize && x.host == ps[x.id].host)
    && (forall q :: q in queues ==>
          && q.fromP in ps && q.toP in ps
          && q.id.name == q.fromP.name + "->" + q.toP.name
          && q.size == ps[q.toP].inputBufferSize
          && (q.host.Some? <==> ps[q.toP].host.Some? && ps[q.toP].host.value != "")
          && (q.host.Some? ==> q.host == ps[q.toP].host))
  }

  lemma SoundCarriesSettings(ps: Declared, root: Id, d: Defs)
    requires Sound(ps, root, d)
    ensures CarriesSettings(ps, d.processors, d.queues)
  {
  }

  // ---------- the order they come in ----------

  /** Nothing of `r` is mapped yet, or everything: its queues in the order of its children. */
  predicate Whole(ps: Declared, queues: seq<QueueDef>, r: Id)
    requires r in ps
  {
    Children(queues, r) == [] || Children(queues, r) == ps[r].children
  }

  /** A queue is there already exactly if its edge was mapped, and then storing it changes nothing. */
  lemma StoredAgain(ps: Declared, root: Id, d: Defs, p: Id, c: Id)
    requires Sound(ps, root, d) && DistinctQueueIds(ps, root) && IsEdge(ps, root, p, c)
    ensures c in Children(d.queues, p) <==> Dicts.HasKey(QueueKey, d.queues, QueueId(p, c))
    ensures c in Children(d.queues, p) ==> WithQueue(ps, p, c, d) == d
  {
    var q := QueueOf(ps, p, c);
    ChildrenAre(d.queues, p, c);
    if c in Children(d.queues, p) {
      var i :| 0 <= i < |d.queues| && d.queues[i].fromP == p && d.queues[i].toP == c;
      assert d.queues[i] in d.queues;
      assert QueueKey(d.queues[i]) == q.id;
    }
    if Dicts.HasKey(QueueKey, d.queues, q.id) {
      Dicts.StoreKnown(QueueKey, d.queues, q);
      var i :| 0 <= i < |d.queues| && QueueKey(d.queues[i]) == q.id
               && Dicts.Store(QueueKey, d.queues, q) == d.queues[i := q];
      assert d.queues[i] in d.queues;
      assert d.queues[i] == q;
    }
  }

  /** Storing the queue of an edge appends it, or finds it there. */
  lemma StoredEdge(ps: Declared, root: Id, d: Defs, p: Id, c: Id, r: Id)
    requires Sound(ps, root, d) && DistinctQueueIds(ps, root) && IsEdge(ps, root, p, c)
    ensures var queues := WithQueue(ps, p, c, d).queues;
            Children(queues, r)
              == if r == p && c !in Children(d.queues, p) then Children(d.queues, p) + [c] else Children(d.queues, r)
  {
    var q := QueueOf(ps, p, c);
    StoredAgain(ps, root, d, p, c);
    if c !in Children(d.queues, p) {
      Dicts.StoreNew(QueueKey, d.queues, q);
      ChildrenAppend(d.queues, [q], r);
      assert Children([q], r) == if r == p then [c] else [];
    }
  }

  /** Mapping `p` does not touch the queues of processors above it. */
  lemma {:induction false} MappedLeaves(ps: Declared, rank: map<Id, nat>, root: Id, p: Id, d: Defs, r: Id)
    requires Falls(ps, rank) && p in ps && Reaches(GraphOfDeclared(ps), root, p) && Sound(ps, root, d)
    requires DistinctQueueIds(ps, root) && r in ps && rank[r] > rank[p]
    ensures Children(Mapped(ps, rank, p, d).queues, r) == Children(d.queues, r)
    decreases rank[p], 1
  {
    StoreProcessor(ps, root, d, p);
    MappedFromLeaves(ps, rank, root, p, 0, WithProcessor(ps, p, d), r);
  }

  lemma {:induction false} MappedFromLeaves(ps: Declared, rank: map<Id, nat>, root: Id, p: Id, i: nat, d: Defs, r: Id)
    requires Falls(ps, rank) && p in ps && Reaches(GraphOfDeclared(ps), root, p) && Sound(ps, root, d)
    requires DistinctQueueIds(ps, root) && r in ps && rank[r] > rank[p] && i <= |ps[p].children|
    ensures Children(MappedFrom(ps, rank, p, i, d).queues, r) == Children(d.queues, r)
    decreases rank[p], 0, |ps[p].children| - i
  {
    if i < |ps[p].children| {
      var c := ps[p].children[i];
      var d1 := WithQueue(ps, p, c, d);
      ChildIsEdge(ps, rank, root, p, i);
      StoreQueue(ps, root, d, p, c);
      StoredEdge(ps, root, d, p, c, r);
      MappedLeaves(ps, rank, root, c, d1, r);
      MappedHolds(ps, rank, root, c, d1);
      MappedFromLeaves(ps, rank, root, p, i + 1, Mapped(ps, rank, c, d1), r);
    }
  }

  /** In the loop over the children of `p` its own queues are the first `i` of them, or all are there already. */
  predicate OwnSoFar(ps: Declared, p: Id, i: nat, queues: seq<QueueDef>)
    requires p in ps && i <= |ps[p].children|
  {
    Children(queues, p) == ps[p].children || Children(queues, p) == ps[p].children[..i]
  }

  lemma {:induction false} OwnInOrder(ps: Declared, rank: map<Id, nat>, root: Id, p: Id, i: nat, d: Defs)
    requires Falls(ps, rank) && p in ps && Reaches(GraphOfDeclared(ps), root, p) && Sound(ps, root, d)
    requires DistinctQueueIds(ps, root) && NoRepeats(ps[p].children) && i <= |ps[p].children|
    requires OwnSoFar(ps, p, i, d.queues)
    ensures OwnSoFar(ps, p, |ps[p].children|, MappedFrom(ps, rank, p, i, d).queues)
    decreases |ps[p].children| - i
  {
    if i < |ps[p].children| {
      TurnStaysSound(ps, rank, root, p, i, d);
      OwnTurn(ps, rank, root, p, i, d);
      OwnInOrder(ps, rank, root, p, i + 1, AfterTurn(ps, rank, p, i, d));
    }
  }

  /** The dictionaries after one turn of the loop. */
  ghost function AfterTurn(ps: Declared, rank: map<Id, nat>, p: Id, i: nat, d: Defs): Defs
    requires Falls(ps, rank) && p in ps && i < |ps[p].children|
  {
    Mapped(ps, rank, ps[p].children[i], WithQueue(ps, p, ps[p].children[i], d))
  }

  lemma TurnStaysSound(ps: Declared, rank: map<Id, nat>, root: Id, p: Id, i: nat, d: Defs)
    requires Falls(ps, rank) && p in ps && Reaches(GraphOfDeclared(ps), root, p) && Sound(ps, root, d)
    requires i < |ps[p].children|
    ensures Sound(ps, root, AfterTurn(ps, rank, p, i, d))
  {
    var c := ps[p].children[i];
    ChildIsEdge(ps, rank, root, p, i);
    StoreQueue(ps, root, d, p, c);
    MappedHolds(ps, rank, root, c, WithQueue(ps, p, c, d));
  }

  lemma OwnTurn(ps: Declared, rank: map<Id, nat>, root: Id, p: Id, i: nat, d: Defs)
    requires Falls(ps, rank) && p in ps && Reaches(GraphOfDeclared(ps), root, p) && Sound(ps, root, d)
    requires DistinctQueueIds(ps, root) && NoRepeats(ps[p].children) && i < |ps[p].children|
    requires OwnSoFar(ps, p, i, d.queues)
    ensures OwnSoFar(ps, p, i + 1, AfterTurn(ps, rank, p, i, d).queues)
  {
    var c := ps[p].children[i];
    ChildIsEdge(ps, rank, root, p, i);
    StoreQueue(ps, root, d, p, c);
    OwnStored(ps, root, p, i, d);
    MappedLeaves(ps, rank, root, c, WithQueue(ps, p, c, d), p);
  }

  lemma OwnStored(ps: Declared, root: Id, p: Id, i: nat, d: Defs)
    requires p in ps && i < |ps[p].children| && IsEdge(ps, root, p, ps[p].children[i]) && Sound(ps, root, d)
    requires DistinctQueueIds(ps, root) && NoRepeats(ps[p].children) && OwnSoFar(ps, p, i, d.queues)
    ensures OwnSoFar(ps, p, i + 1, WithQueue(ps, p, ps[p].children[i], d).queues)
  {
    StoredEdge(ps, root, d, p, ps[p].children[i], p);
    NextChild(ps[p].children, Children(d.queues, p), i);
  }

  lemma {:induction false} MappedInOrder(ps: Declared, rank: map<Id, nat>, root: Id, p: Id, d: Defs, r: Id)
    requires Falls(ps, rank) && p in ps && Reaches(GraphOfDeclared(ps), root, p) && Sound(ps, root, d)
    requires DistinctQueueIds(ps, root) && r in ps && NoRepeats(ps[r].children) && Whole(ps, d.queues, r)
    ensures Whole(ps, Mapped(ps, rank, p, d).queues, r)
    decreases rank[p], 1
  {
    StoreProcessor(ps, root, d, p);
    if r == p {
      assert ps[p].children[..0] == [];
      OwnInOrder(ps, rank, root, p, 0, WithProcessor(ps, p, d));
      assert ps[p].children[..|ps[p].children|] == ps[p].children;
    } else {
      MappedFromInOrder(ps, rank, root, p, 0, WithProcessor(ps, p, d), r);
    }
  }

  lemma {:induction false} MappedFromInOrder(ps: Declared, rank: map<Id, nat>, root: Id, p: Id, i: nat, d: Defs, r: Id)
    requires Falls(ps, rank) && p in ps && Reaches(GraphOfDeclared(ps), root, p) && Sound(ps, root, d)
    requires DistinctQueueIds(ps, root) && r in ps && NoRepeats(ps[r].children) && i <= |ps[p].children|
    requires r != p && Whole(ps, d.queues, r)
    ensures Whole(ps, MappedFrom(ps, rank, p, i, d).queues, r)
    decreases rank[p], 0, |ps[p].children| - i
  {
    if i < |ps[p].children| {
      var c := ps[p].children[i];
      var d1 := WithQueue(ps, p, c, d);
      ChildIsEdge(ps, rank, root, p, i);
      StoreQueue(ps, root, d, p, c);
      StoredEdge(ps, root, d, p, c, r);
      MappedHolds(ps, rank, root, c, d1);
      MappedInOrder(ps, rank, root, c, d1, r);
      MappedFromInOrder(ps, rank, root, p, i + 1, Mapped(ps, rank, c, d1), r);
    }
  }

  lemma NextChild(children: seq<Id>, mapped: seq<Id>, i: nat)
    requires NoRepeats(children) && i < |children| && (mapped == children || mapped == children[..i])
    ensures mapped == children ==> children[i] in mapped
    ensures children[i] !in mapped ==> mapped + [children[i]] == children[..i + 1]
    ensures children[i] in mapped ==> mapped == children
  {
  }

  /** The queues of a processor come in the order of its children. */
  lemma QueuesInOrder(ps: Declared, rank: map<Id, nat>, root: Id, r: Id)
    requires Falls(ps, rank) && root in ps && DistinctQueueIds(ps, root)
    requires r in ps && Reaches(GraphOfDeclared(ps), root, r) && NoRepeats(ps[r].children)
    ensures Children(Mapped(ps, rank, root, Defs([], [])).queues, r) == ps[r].children
  {
    var d := Mapped(ps, rank, root, Defs([], []));
    ReachesSelf(GraphOfDeclared(ps), root);
    MappedInOrder(ps, rank, root, root, Defs([], []), r);
    MappedIsPipe(ps, rank, root);
    if |ps[r].children| > 0 {
      var c := ps[r].children[0];
      RankedCloses(ps, rank);
      assert c in GraphOfDeclared(ps)[r];
      assert IsEdge(ps, root, r, c);
      assert QueueOf(ps, r, c) in d.queues;
      var i :| 0 <= i < |d.queues| && d.queues[i] == QueueOf(ps, r, c);
      ChildrenAre(d.queues, r, c);
    }
  }

  /** The queues of every processor behind the root come in the order of its children. */
  ghost predicate InOrder(ps: Declared, root: Id, queues: seq<QueueDef>) {
    forall r :: r in ps && Reaches(GraphOfDeclared(ps), root, r) && NoRepeats(ps[r].children) ==>
      Children(queues, r) == ps[r].children
  }

  lemma AllInOrder(ps: Declared, rank: map<Id, nat>, root: Id)
    requires Falls(ps, rank) && root in ps
    ensures DistinctQueueIds(ps, root) ==> InOrder(ps, root, Mapped(ps, rank, root, Defs([], [])).queues)
  {
    forall r | DistinctQueueIds(ps, root) && r in ps && Reaches(GraphOfDeclared(ps), root, r) && NoRepeats(ps[r].children)
      ensures Children(Mapped(ps, rank, root, Defs([], [])).queues, r) == ps[r].children
    {
      QueuesInOrder(ps, rank, root, r);
    }
  }

  function Listed(processors: seq<ProcessorDef>): (r: seq<Id>)
    ensures |r| == |processors| && forall i :: 0 <= i < |r| ==> r[i] == processors[i].id
  {
    seq(|processors|, i requires 0 <= i < |processors| => processors[i].id)
  }

  /** A processor keeps its place once it is listed; a new one goes to the end. */
  lemma StoredIsListed(ps: Declared, p: Id, d: Defs)
    requires p in ps
    ensures Listed(d.processors) <= Listed(WithProcessor(ps, p, d).processors)
    ensures |d.processors| == 0 ==> Listed(WithProcessor(ps, p, d).processors) == [p]
  {
    var x := DefOf(ps, p);
    if Dicts.HasKey(ProcessorKey, d.processors, p) {
      Dicts.StoreKnown(ProcessorKey, d.processors, x);
      var i :| 0 <= i < |d.processors| && ProcessorKey(d.processors[i]) == p
               && Dicts.Store(ProcessorKey, d.processors, x) == d.processors[i := x];
    } else {
      Dicts.StoreNew(ProcessorKey, d.processors, x);
    }
  }

  lemma {:induction false} MappedKeepsPlaces(ps: Declared, rank: map<Id, nat>, p: Id, d: Defs)
    requires Falls(ps, rank) && p in ps
    ensures Listed(WithProcessor(ps, p, d).processors) <= Listed(Mapped(ps, rank, p, d).processors)
    ensures Listed(d.processors) <= Listed(Mapped(ps, rank, p, d).processors)
    decreases rank[p], 1
  {
    StoredIsListed(ps, p, d);
    MappedFromKeepsPlaces(ps, rank, p, 0, WithProcessor(ps, p, d));
  }

  lemma {:induction false} MappedFromKeepsPlaces(ps: Declared, rank: map<Id, nat>, p: Id, i: nat, d: Defs)
    requires Falls(ps, rank) && p in ps && i <= |ps[p].children|
    ensures Listed(d.processors) <= Listed(MappedFrom(ps, rank, p, i, d).processors)
    decreases rank[p], 0, |ps[p].children| - i
  {
    if i < |ps[p].children| {
      var c := ps[p].children[i];
      var d1 := WithQueue(ps, p, c, d);
      MappedKeepsPlaces(ps, rank, c, d1);
      MappedFromKeepsPlaces(ps, rank, p, i + 1, Mapped(ps, rank, c, d1));
    }
  }

  /** The root is listed first. */
  lemma RootIsFirst(ps: Declared, rank: map<Id, nat>, root: Id)
    requires Falls(ps, rank) && root in ps
    ensures var processors := Mapped(ps, rank, root, Defs([], [])).processors;
            |processors| > 0 && processors[0].id == root
  {
    StoredIsListed(ps, root, Defs([], []));
    MappedKeepsPlaces(ps, rank, root, Defs([], []));
    assert Listed(WithProcessor(ps, root, Defs([], [])).processors)[0] == root;
  }

  // ---------- a pipe that loses a queue ----------

  const PIPE := Id("a pipe")
  const A := Id("a")
  const A_B := Id("a->b")
  const B_C := Id("b->c")
  const C := Id("c")

  /** The pipe leads to a->b and on to c, and to a and on to b->c: two edges, one queue id. */
  const COLLIDING: Declared := map[
    PIPE := Processor(4096, None, [A_B, A]),
    A_B := Processor(4096, None, [C]),
    A := Processor(4096, None, [B_C]),
    C := Processor(4096, None, []),
    B_C := Processor(4096, None, [])]

  lemma NamesDiffer()
    ensures PIPE !in {A, A_B, B_C, C} && A_B !in {A, B_C, C} && B_C !in {A, C} && A != C
  {
    assert |"a pipe"| == 6 && |"a->b"| == |"b->c"| == 4 && |"a"| == |"c"| == 1;
    assert "a->b"[0] != "b->c"[0] && "a"[0] != "c"[0];
  }

  lemma CollidingIsAcyclic()
    ensures Closed(GraphOfDeclared(COLLIDING)) && Acyclic(GraphOfDeclared(COLLIDING))
  {
    NamesDiffer();
    var rank: map<Id, nat> := map[PIPE := 2, A_B := 1, A := 1, C := 0, B_C := 0];
    assert Ranked(GraphOfDeclared(COLLIDING), rank);
    RankedIffAcyclic(GraphOfDeclared(COLLIDING));
  }

  lemma CollidingEdges()
    ensures IsEdge(COLLIDING, PIPE, A_B, C) && IsEdge(COLLIDING, PIPE, A, B_C)
  {
    var g := GraphOfDeclared(COLLIDING);
    NamesDiffer();
    CollidingIsAcyclic();
    ReachesSelf(g, PIPE);
    assert g[PIPE] == [A_B, A];
    assert g[PIPE][0] == A_B && g[PIPE][1] == A;
    ReachesOn(g, PIPE, PIPE, A_B);
    ReachesOn(g, PIPE, PIPE, A);
  }

  /** Whatever `pipe_def` makes of this declaration, which has no cycle, one of the two queues is missing. */
  lemma OneQueueIsLost(d: Defs)
    requires IsPipeOf(COLLIDING, PIPE, d)
    ensures Closed(GraphOfDeclared(COLLIDING)) && Acyclic(GraphOfDeclared(COLLIDING))
    ensures IsEdge(COLLIDING, PIPE, A_B, C) && IsEdge(COLLIDING, PIPE, A, B_C)
    ensures !(QueueOf(COLLIDING, A_B, C) in d.queues && QueueOf(COLLIDING, A, B_C) in d.queues)
  {
    CollidingIsAcyclic();
    CollidingEdges();
    QueueIdsCanCollide();
    var q, q' := QueueOf(COLLIDING, A_B, C), QueueOf(COLLIDING, A, B_C);
    if q in d.queues && q' in d.queues {
      OneQueuePerId(d.queues, q, q');
    }
  }

  // ---------- the object ----------

  class PipeDef {
    var processors: seq<ProcessorDef>
    var queues: seq<QueueDef>

    /** `pipe_def` of the processor `root`. */
    constructor (ps: Declared, root: Id)
      requires Closed(GraphOfDeclared(ps)) && Acyclic(GraphOfDeclared(ps)) && root in ps
      ensures IsPipeOf(ps, root, Defs(processors, queues))
      ensures CarriesSettings(ps, processors, queues)
      ensures |processors| > 0 && processors[0].id == root
      ensures DistinctQueueIds(ps, root) ==> InOrder(ps, root, queues)
    {
      processors, queues := [], [];
      new;
      RankedIffAcyclic(GraphOfDeclared(ps));
      ghost var rank :| Ranked(GraphOfDeclared(ps), rank);
      RankedFalls(ps, rank);
      MapProc(ps, root, rank);
      MappedIsPipe(ps, rank, root);
      SoundCarriesSettings(ps, root, Defs(processors, queues));
      RootIsFirst(ps, rank, root);
      AllInOrder(ps, rank, root);
    }

    /** `map_proc`, called again for every child. */
    method MapProc(ps: Declared, p: Id, ghost rank: map<Id, nat>)
      requires Falls(ps, rank) && p in ps
      modifies this
      ensures Defs(processors, queues) == Mapped(ps, rank, p, Defs(old(processors), old(queues)))
      decreases rank[p]
    {
      ghost var result := Mapped(ps, rank, p, Defs(processors, queues));
      processors := Dicts.Store(ProcessorKey, processors, DefOf(ps, p));
      for i := 0 to |ps[p].children|
        invariant MappedFrom(ps, rank, p, i, Defs(processors, queues)) == result
      {
        var child := ps[p].children[i];
        queues := Dicts.Store(QueueKey, queues, QueueOf(ps, p, child));
        MapProc(ps, child, rank);
      }
    }
  }

  // ---------- draining what was declared ----------

  function Ids(processors: seq<ProcessorDef>): set<Id> {
    set x | x in processors :: x.id
  }

  /** The queues span the declared edges, so a drain order of the pipe is one of the declaration. */
  lemma SameReach(ps: Declared, root: Id, d: Defs, p: Id)
    requires Closed(GraphOfDeclared(ps)) && root in ps && IsPipeOf(ps, root, d) && DistinctQueueIds(ps, root)
    requires Reaches(GraphOfDeclared(ps), root, p)
    ensures p in Ids(d.processors)
    ensures forall c :: c in Kids(GraphOf(Ids(d.processors), d.queues), p) <==> c in Kids(GraphOfDeclared(ps), p)
  {
    var g, h := GraphOfDeclared(ps), GraphOf(Ids(d.processors), d.queues);
    ReachesSplit(g, root, p);
    assert DefOf(ps, p) in d.processors;
    forall c
      ensures c in Kids(h, p) <==> c in Kids(g, p)
    {
      ChildrenAre(d.queues, p, c);
      if c in Kids(g, p) {
        assert c in g[p] && c in g;
        assert IsEdge(ps, root, p, c);
        var i :| 0 <= i < |d.queues| && d.queues[i] == QueueOf(ps, p, c);
        assert d.queues[i].fromP == p && d.queues[i].toP == c;
      }
      if c in Kids(h, p) {
        var i :| 0 <= i < |d.queues| && d.queues[i].fromP == p && d.queues[i].toP == c;
        assert d.queues[i] in d.queues;
      }
    }
  }

  lemma StepInBoth(ps: Declared, root: Id, d: Defs, path: seq<Id>, c: Id)
    requires Closed(GraphOfDeclared(ps)) && root in ps && IsPipeOf(ps, root, d) && DistinctQueueIds(ps, root)
    requires IsPath(GraphOf(Ids(d.processors), d.queues), path) && IsPath(GraphOfDeclared(ps), path)
    requires path[0] == root
    requires c in Kids(GraphOfDeclared(ps), path[|path| - 1])
          || c in Kids(GraphOf(Ids(d.processors), d.queues), path[|path| - 1])
    ensures IsPath(GraphOf(Ids(d.processors), d.queues), path + [c]) && IsPath(GraphOfDeclared(ps), path + [c])
  {
    var g, h, p := GraphOfDeclared(ps), GraphOf(Ids(d.processors), d.queues), path[|path| - 1];
    assert Leads(g, path, root, p);
    SameReach(ps, root, d, p);
    ReachesOn(g, root, p, c);
    SameReach(ps, root, d, c);
    PathGrows(g, path, c);
    PathGrows(h, path, c);
  }

  lemma {:induction false} PathInBoth(ps: Declared, root: Id, d: Defs, path: seq<Id>, n: nat)
    requires Closed(GraphOfDeclared(ps)) && root in ps && IsPipeOf(ps, root, d) && DistinctQueueIds(ps, root)
    requires 0 < n <= |path| && path[0] == root
    requires IsPath(GraphOf(Ids(d.processors), d.queues), path) || IsPath(GraphOfDeclared(ps), path)
    ensures IsPath(GraphOf(Ids(d.processors), d.queues), path[..n]) && IsPath(GraphOfDeclared(ps), path[..n])
    decreases n
  {
    var g, h := GraphOfDeclared(ps), GraphOf(Ids(d.processors), d.queues);
    if n == 1 {
      ReachesSelf(g, root);
      SameReach(ps, root, d, root);
    } else {
      PathInBoth(ps, root, d, path, n - 1);
      assert path[..n] == path[..n - 1] + [path[n - 1]];
      assert path[n - 1] in Kids(g, path[n - 2]) || path[n - 1] in Kids(h, path[n - 2]);
      StepInBoth(ps, root, d, path[..n - 1], path[n - 1]);
    }
  }

  /** From declaration to drain list: draining the pipe that `pipe_def` makes lists
      every processor declared behind the root once, each before its children. */
  lemma DrainsTheDeclaration(ps: Declared, root: Id, d: Defs, drained: seq<Id>)
    requires Closed(GraphOfDeclared(ps)) && root in ps && IsPipeOf(ps, root, d) && DistinctQueueIds(ps, root)
    requires DrainOrder(GraphOf(Ids(d.processors), d.queues), root, drained)
    ensures DrainOrder(GraphOfDeclared(ps), root, drained)
  {
    var g, h := GraphOfDeclared(ps), GraphOf(Ids(d.processors), d.queues);
    forall p
      ensures Reaches(g, root, p) <==> Reaches(h, root, p)
    {
      if Reaches(g, root, p) {
        var path :| Leads(g, path, root, p);
        PathInBoth(ps, root, d, path, |path|);
        assert path[..|path|] == path;
        assert Leads(h, path, root, p);
      }
      if Reaches(h, root, p) {
        var path :| Leads(h, path, root, p);
        PathInBoth(ps, root, d, path, |path|);
        assert path[..|path|] == path;
        assert Leads(g, path, root, p);
      }
    }
    forall p, c | p in drained && c in Kids(g, p)
      ensures Before(drained, p, c)
    {
      SameReach(ps, root, d, p);
    }
  }

  /** Every edge of the pipe is one of the declaration, between listed processors. */
  lemma EdgeOfPipe(ps: Declared, root: Id, d: Defs, p: Id, c: Id)
    requires Closed(GraphOfDeclared(ps)) && IsPipeOf(ps, root, d) && c in Children(d.queues, p)
    ensures p in ps && c in ps[p].children && c in Ids(d.processors)
  {
    ChildrenAre(d.queues, p, c);
    var i :| 0 <= i < |d.queues| && d.queues[i].fromP == p && d.queues[i].toP == c;
    assert d.queues[i] in d.queues;
    ReachesOn(GraphOfDeclared(ps), root, p, c);
    assert DefOf(ps, c) in d.processors;
  }

  /** Queues that run between the given processors along declared edges. */
  ghost predicate QueuesWithin(ps: Declared, ids: set<Id>, queues: seq<QueueDef>) {
    && ids <= ps.Keys
    && forall p, c :: p in ids && c in Children(queues, p) ==> c in ids && c in ps[p].children
  }

  lemma PipeIsWithin(ps: Declared, root: Id, d: Defs)
    requires Closed(GraphOfDeclared(ps)) && IsPipeOf(ps, root, d)
    ensures QueuesWithin(ps, Ids(d.processors), d.queues)
  {
    forall p, c | p in Ids(d.processors) && c in Children(d.queues, p)
      ensures c in Ids(d.processors) && p in ps && c in ps[p].children
    {
      EdgeOfPipe(ps, root, d, p, c);
    }
  }

  lemma QueueIsWithin(ps: Declared, ids: set<Id>, queues: seq<QueueDef>, p: Id, c: Id)
    requires QueuesWithin(ps, ids, queues) && p in ids && c in Children(queues, p)
    ensures c in ids && p in ps && c in GraphOfDeclared(ps)[p]
  {
  }

  lemma RankWithin(ps: Declared, ids: set<Id>, queues: seq<QueueDef>, rank: map<Id, nat>) returns (rank': map<Id, nat>)
    requires Ranked(GraphOfDeclared(ps), rank) && QueuesWithin(ps, ids, queues)
    ensures Ranked(GraphOf(ids, queues), rank')
  {
    rank' := map p | p in ids :: rank[p];
    forall p, c | p in ids && c in Children(queues, p)
      ensures c in ids && rank'[c] < rank'[p]
    {
      QueueIsWithin(ps, ids, queues, p, c);
      EdgeFalls(GraphOfDeclared(ps), rank, p, c);
    }
  }

  /** A pipe made from a declaration without cycles can be drained. */
  lemma PipeCanBeDrained(ps: Declared, root: Id, d: Defs)
    requires Closed(GraphOfDeclared(ps)) && Acyclic(GraphOfDeclared(ps)) && root in ps && IsPipeOf(ps, root, d)
    ensures root in Ids(d.processors)
    ensures Closed(GraphOf(Ids(d.processors), d.queues)) && Acyclic(GraphOf(Ids(d.processors), d.queues))
  {
    ReachesSelf(GraphOfDeclared(ps), root);
    assert DefOf(ps, root) in d.processors;
    RankedIffAcyclic(GraphOfDeclared(ps));
    var rank :| Ranked(GraphOfDeclared(ps), rank);
    PipeIsWithin(ps, root, d);
    var rank' := RankWithin(ps, Ids(d.processors), d.queues, rank);
    RankedIffAcyclic(GraphOf(Ids(d.processors), d.queues));
  }
}
