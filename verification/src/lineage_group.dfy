/** The lineage view's grouping step: starting from the nodes next to the root, a
    depth-first walk along the lineage edges gives every ancestor (or descendant) a
    generation, the number of edges walked to reach it on the first visit. */
module LineageGroup {
  import opened Common

  /** The fields of a research node the lineage view uses; the rest ride along. */
  datatype ResearchNode = ResearchNode(id: int, title: string, status: string)

  datatype LineageEdge = LineageEdge(id: int, fromId: int, toId: int, labelText: string, relationshipType: string)

  /** `LineageNode`: a research node with its place relative to the root. */
  datatype LineageNode = LineageNode(node: ResearchNode, depth: nat, generation: int, isRoot: bool, pathFromRoot: seq<int>)

  datatype LineageData = LineageData(root: ResearchNode, ancestors: seq<ResearchNode>, descendants: seq<ResearchNode>, edges: seq<LineageEdge>)

  /** Ancestors are found by walking edges backwards, descendants by walking them forwards. */
  datatype Direction = Ancestors | Descendants

  type Buckets = map<int, seq<ResearchNode>>

  /** The end of an edge the walk comes from. */
  function Prev(dir: Direction, e: LineageEdge): int
  {
    if dir == Ancestors then e.toId else e.fromId
  }

  /** The end of an edge the walk goes to. */
  function Next(dir: Direction, e: LineageEdge): int
  {
    if dir == Ancestors then e.fromId else e.toId
  }

  /** Every id the walk can be sent to. */
  function Targets(edges: seq<LineageEdge>, dir: Direction): set<int>
  {
    set e | e in edges :: Next(dir, e)
  }

  /** `nodes.find(n => n.id === id)`: the first node with that id. */
  function Find(nodes: seq<ResearchNode>, id: int): (r: Option<ResearchNode>)
    ensures r.None? <==> forall i | 0 <= i < |nodes| :: nodes[i].id != id
    ensures r.Some? ==> r.value in nodes && r.value.id == id
  {
    if nodes == [] then None
    else if nodes[0].id == id then Some(nodes[0])
    else Find(nodes[1..], id)
  }

  function Bucket(b: Buckets, g: int): seq<ResearchNode>
  {
    if g in b then b[g] else []
  }

  lemma DiffShrinks(t: set<int>, v: set<int>, w: set<int>)
    requires v <= w
    ensures |t - w| <= |t - v|
  {
    assert t - v == (t - w) + ((t - v) - (t - w));
  }

  lemma DiffDrops(t: set<int>, v: set<int>, id: int)
    requires id in t && id !in v
    ensures |t - (v + {id})| < |t - v|
  {
    assert t - v == (t - (v + {id})) + {id};
  }

  // ---------------------------------------------------------------- the walk

  /** `assignGeneration(id, g)` with the visited set `v` and the generation table `b` it
      mutates: an id already visited is skipped; otherwise it is marked visited, and when
      it names a listed node that node is appended to generation `g` and the walk goes on
      to every neighbour, one generation further. */
  function Assign(nodes: seq<ResearchNode>, edges: seq<LineageEdge>, dir: Direction,
                  id: int, g: int, v: set<int>, b: Buckets): (r: (set<int>, Buckets))
    requires id in Targets(edges, dir)
    ensures v <= r.0
    decreases |Targets(edges, dir) - v|, 0
  {
    if id in v then (v, b)
    else
      var v1 := v + {id};
      DiffDrops(Targets(edges, dir), v, id);
      match Find(nodes, id)
      case None => (v1, b)
      case Some(n) => AssignFrom(nodes, edges, dir, id, g, 0, v1, Push(b, g, n))
  }

  /** The `forEach` over the edges leaving `id`, from edge `i` on. */
  function AssignFrom(nodes: seq<ResearchNode>, edges: seq<LineageEdge>, dir: Direction,
                      id: int, g: int, i: nat, v: set<int>, b: Buckets): (r: (set<int>, Buckets))
    requires i <= |edges|
    ensures v <= r.0
    decreases |Targets(edges, dir) - v|, |edges| - i + 1
  {
    if i == |edges| then (v, b)
    else if Prev(dir, edges[i]) == id then
      var r1 := Assign(nodes, edges, dir, Next(dir, edges[i]), g + 1, v, b);
      DiffShrinks(Targets(edges, dir), v, r1.0);
      AssignFrom(nodes, edges, dir, id, g, i + 1, r1.0, r1.1)
    else AssignFrom(nodes, edges, dir, id, g, i + 1, v, b)
  }

  /** The walks started from the root's neighbours, from edge `i` on, at generation 1. */
  function RootFrom(nodes: seq<ResearchNode>, edges: seq<LineageEdge>, dir: Direction,
                    root: int, i: nat, v: set<int>, b: Buckets): (r: (set<int>, Buckets))
    requires i <= |edges|
    ensures v <= r.0
    decreases |edges| - i
  {
    if i == |edges| then (v, b)
    else if Prev(dir, edges[i]) == root then
      var r1 := Assign(nodes, edges, dir, Next(dir, edges[i]), 1, v, b);
      RootFrom(nodes, edges, dir, root, i + 1, r1.0, r1.1)
    else RootFrom(nodes, edges, dir, root, i + 1, v, b)
  }

  /** `groupNodesByGeneration`: the generation table of the whole walk. */
  function Group(nodes: seq<ResearchNode>, edges: seq<LineageEdge>, root: int, dir: Direction): Buckets
  {
    RootFrom(nodes, edges, dir, root, 0, {}, map[]).1
  }

  // ---------------------------------------------------------------- the walk, as the view runs it

  method AssignGeneration(nodes: seq<ResearchNode>, edges: seq<LineageEdge>, dir: Direction,
                          id: int, g: int, visited: set<int>, byGeneration: Buckets)
    returns (visited': set<int>, byGeneration': Buckets)
    requires id in Targets(edges, dir)
    ensures (visited', byGeneration') == Assign(nodes, edges, dir, id, g, visited, byGeneration)
    decreases |Targets(edges, dir) - visited|, 0
  {
    if id in visited {
      return visited, byGeneration;
    }
    visited' := visited + {id};
    DiffDrops(Targets(edges, dir), visited, id);
    var found := Find(nodes, id);
    if found.None? {
      return visited', byGeneration;
    }
    var bucket := if g in byGeneration then byGeneration[g] else [];
    byGeneration' := byGeneration[g := bucket + [found.value]];
    ghost var v1, b1 := visited', byGeneration';
    var i := 0;
    while i < |edges|
      invariant i <= |edges|
      invariant v1 <= visited'
      invariant AssignFrom(nodes, edges, dir, id, g, i, visited', byGeneration') == AssignFrom(nodes, edges, dir, id, g, 0, v1, b1)
    {
      if Prev(dir, edges[i]) == id {
        DiffShrinks(Targets(edges, dir), v1, visited');
        visited', byGeneration' := AssignGeneration(nodes, edges, dir, Next(dir, edges[i]), g + 1, visited', byGeneration');
      }
      i := i + 1;
    }
  }

  method GroupNodesByGeneration(nodes: seq<ResearchNode>, edges: seq<LineageEdge>, root: int, dir: Direction)
    returns (byGeneration: Buckets)
    ensures byGeneration == Group(nodes, edges, root, dir)
  {
    var visited: set<int> := {};
    byGeneration := map[];
    var i := 0;
    while i < |edges|
      invariant i <= |edges|
      invariant RootFrom(nodes, edges, dir, root, i, visited, byGeneration) == RootFrom(nodes, edges, dir, root, 0, {}, map[])
    {
      if Prev(dir, edges[i]) == root {
        visited, byGeneration := AssignGeneration(nodes, edges, dir, Next(dir, edges[i]), 1, visited, byGeneration);
      }
      i := i + 1;
    }
  }

  // ---------------------------------------------------------------- what the walk keeps true

  ghost predicate Linked(edges: seq<LineageEdge>, dir: Direction, u: int, x: int)
  {
    exists e | e in edges :: Prev(dir, e) == u && Next(dir, e) == x
  }

  /** Generations are 1, 2, ..., |b| (a set of |b| keys among 1..|b| has no gaps), and no
      generation is empty. */
  ghost predicate Shape(b: Buckets)
  {
    forall g | g in b :: 1 <= g <= |b| && b[g] != []
  }

  /** Every placed node was visited and is the node `find` returns for its id. */
  ghost predicate Listed(nodes: seq<ResearchNode>, v: set<int>, b: Buckets)
  {
    forall g, n | g in b && n in b[g] :: n.id in v && Find(nodes, n.id) == Some(n)
  }

  /** `x` hangs off the root (generation 1) or off a node of the generation before. */
  ghost predicate HasParent(edges: seq<LineageEdge>, dir: Direction, root: int, b: Buckets, g: int, x: int)
  {
    (g == 1 && Linked(edges, dir, root, x)) ||
    (g > 1 && g - 1 in b && exists m | m in b[g - 1] :: Linked(edges, dir, m.id, x))
  }

  ghost predicate Parented(edges: seq<LineageEdge>, dir: Direction, root: int, b: Buckets)
  {
    forall g, n {:trigger HasParent(edges, dir, root, b, g, n.id)} | g in b && n in b[g] :: HasParent(edges, dir, root, b, g, n.id)
  }

  /** No id is placed twice. */
  ghost predicate Unique(b: Buckets)
  {
    forall g1, i, g2, j | g1 in b && g2 in b && 0 <= i < |b[g1]| && 0 <= j < |b[g2]| && b[g1][i].id == b[g2][j].id ::
      g1 == g2 && i == j
  }

  /** Every visited id that names a listed node has been placed. */
  ghost predicate Complete(nodes: seq<ResearchNode>, v: set<int>, b: Buckets)
  {
    forall x | x in v && Find(nodes, x).Some? :: exists g | g in b :: Find(nodes, x).value in b[g]
  }

  ghost predicate Inv(nodes: seq<ResearchNode>, edges: seq<LineageEdge>, dir: Direction, root: int, v: set<int>, b: Buckets)
  {
    Shape(b) && Listed(nodes, v, b) && Parented(edges, dir, root, b) && Unique(b) && Complete(nodes, v, b)
  }

  /** Generations are only ever added to, at their ends. */
  ghost predicate Grows(b: Buckets, b2: Buckets)
  {
    forall g | g in b :: g in b2 && b[g] <= b2[g]
  }

  /** A visited id whose neighbours have all been visited (or that names no listed node,
      so the walk stops there). */
  ghost predicate ClosedAt(nodes: seq<ResearchNode>, edges: seq<LineageEdge>, dir: Direction, x: int, v: set<int>)
  {
    Find(nodes, x).None? || forall e | e in edges && Prev(dir, e) == x :: Next(dir, e) in v
  }

  ghost predicate NewClosed(nodes: seq<ResearchNode>, edges: seq<LineageEdge>, dir: Direction, v: set<int>, w: set<int>)
  {
    forall x | x in w - v :: ClosedAt(nodes, edges, dir, x, w)
  }

  lemma ParentGrows(edges: seq<LineageEdge>, dir: Direction, root: int, b: Buckets, b2: Buckets, g: int, x: int)
    requires HasParent(edges, dir, root, b, g, x) && Grows(b, b2)
    ensures HasParent(edges, dir, root, b2, g, x)
  {
    if g > 1 {
      var m :| m in b[g - 1] && Linked(edges, dir, m.id, x);
      assert m in b2[g - 1];
    }
  }

  lemma GrowsTrans(b: Buckets, b2: Buckets, b3: Buckets)
    requires Grows(b, b2) && Grows(b2, b3)
    ensures Grows(b, b3)
  {
    forall g | g in b ensures g in b3 && b[g] <= b3[g] {
      assert b[g] <= b2[g] <= b3[g];
    }
  }

  lemma ClosedGrows(nodes: seq<ResearchNode>, edges: seq<LineageEdge>, dir: Direction, v: set<int>, w: set<int>, w2: set<int>)
    requires NewClosed(nodes, edges, dir, v, w) && w <= w2
    ensures forall x | x in w - v :: ClosedAt(nodes, edges, dir, x, w2)
  {
    forall x | x in w - v ensures ClosedAt(nodes, edges, dir, x, w2) {
      assert ClosedAt(nodes, edges, dir, x, w);
    }
  }

  function Push(b: Buckets, g: int, n: ResearchNode): (b2: Buckets)
    ensures Grows(b, b2) && g in b2 && n in b2[g]
  {
    b[g := Bucket(b, g) + [n]]
  }

  lemma PushShape(b: Buckets, g: int, n: ResearchNode)
    requires Shape(b) && g >= 1 && (g == 1 || g - 1 in b)
    ensures Shape(Push(b, g, n))
  {
    var b2: Buckets := Push(b, g, n);
    if g !in b {
      assert b2.Keys == b.Keys + {g};
    } else {
      assert b2.Keys == b.Keys;
    }
    forall h | h in b2 ensures 1 <= h <= |b2| && b2[h] != [] {
      if h != g {
        assert b2[h] == b[h];
      }
    }
  }

  lemma PushListed(nodes: seq<ResearchNode>, v: set<int>, b: Buckets, g: int, n: ResearchNode)
    requires Listed(nodes, v, b) && Find(nodes, n.id) == Some(n)
    ensures Listed(nodes, v + {n.id}, Push(b, g, n))
  {
    var b2: Buckets := Push(b, g, n);
    forall h: int, m: ResearchNode | h in b2 && m in b2[h] ensures m.id in v + {n.id} && Find(nodes, m.id) == Some(m) {
      if m != n {
        assert m in b[h];
      }
    }
  }

  lemma PushParented(edges: seq<LineageEdge>, dir: Direction, root: int, b: Buckets, g: int, n: ResearchNode)
    requires Parented(edges, dir, root, b) && HasParent(edges, dir, root, b, g, n.id)
    ensures Parented(edges, dir, root, Push(b, g, n))
  {
    var b2: Buckets := Push(b, g, n);
    forall h: int, m: ResearchNode | h in b2 && m in b2[h] ensures HasParent(edges, dir, root, b2, h, m.id) {
      if h == g && m == n {
        ParentGrows(edges, dir, root, b, b2, g, n.id);
      } else {
        assert m in b[h];
        ParentGrows(edges, dir, root, b, b2, h, m.id);
      }
    }
  }

  lemma PushUnique(nodes: seq<ResearchNode>, v: set<int>, b: Buckets, g: int, n: ResearchNode)
    requires Unique(b) && Listed(nodes, v, b) && n.id !in v
    ensures Unique(Push(b, g, n))
  {
    var b2: Buckets := Push(b, g, n);
    var k := |Bucket(b, g)|;
    forall g1: int, i: int, g2: int, j: int | g1 in b2 && g2 in b2 && 0 <= i < |b2[g1]| && 0 <= j < |b2[g2]| && b2[g1][i].id == b2[g2][j].id
      ensures g1 == g2 && i == j
    {
      if !(g1 == g && i == k) { assert b2[g1][i] == b[g1][i]; assert b[g1][i] in b[g1]; }
      if !(g2 == g && j == k) { assert b2[g2][j] == b[g2][j]; assert b[g2][j] in b[g2]; }
    }
  }

  lemma PushComplete(nodes: seq<ResearchNode>, v: set<int>, b: Buckets, g: int, n: ResearchNode)
    requires Complete(nodes, v, b) && Find(nodes, n.id) == Some(n)
    ensures Complete(nodes, v + {n.id}, Push(b, g, n))
  {
    var b2: Buckets := Push(b, g, n);
    forall x | x in v + {n.id} && Find(nodes, x).Some? ensures exists h | h in b2 :: Find(nodes, x).value in b2[h] {
      if x == n.id {
        assert n in b2[g];
      } else {
        var h :| h in b && Find(nodes, x).value in b[h];
        assert Find(nodes, x).value in b2[h];
      }
    }
  }

  /** Appending a newly visited listed node to generation `g` keeps the invariant. */
  lemma PushKeeps(nodes: seq<ResearchNode>, edges: seq<LineageEdge>, dir: Direction, root: int,
                  v: set<int>, b: Buckets, g: int, n: ResearchNode)
    requires Inv(nodes, edges, dir, root, v, b)
    requires n.id !in v && Find(nodes, n.id) == Some(n) && g >= 1
    requires HasParent(edges, dir, root, b, g, n.id)
    ensures Inv(nodes, edges, dir, root, v + {n.id}, Push(b, g, n))
  {
    PushShape(b, g, n);
    PushListed(nodes, v, b, g, n);
    PushParented(edges, dir, root, b, g, n);
    PushUnique(nodes, v, b, g, n);
    PushComplete(nodes, v, b, g, n);
  }

  /** An id all of whose edges lead into `w` is closed in `w`. */
  lemma ClosedFromEdges(nodes: seq<ResearchNode>, edges: seq<LineageEdge>, dir: Direction, id: int, w: set<int>)
    requires forall k | 0 <= k < |edges| && Prev(dir, edges[k]) == id :: Next(dir, edges[k]) in w
    ensures ClosedAt(nodes, edges, dir, id, w)
  {
    forall e | e in edges && Prev(dir, e) == id ensures Next(dir, e) in w {
      var k :| 0 <= k < |edges| && edges[k] == e;
    }
  }

  lemma ClosedAdd(nodes: seq<ResearchNode>, edges: seq<LineageEdge>, dir: Direction, v: set<int>, id: int, w: set<int>)
    requires NewClosed(nodes, edges, dir, v + {id}, w) && ClosedAt(nodes, edges, dir, id, w)
    ensures NewClosed(nodes, edges, dir, v, w)
  {
    forall x | x in w - v ensures ClosedAt(nodes, edges, dir, x, w) {
      if x != id {
        assert x in w - (v + {id});
      }
    }
  }

  lemma ClosedChain(nodes: seq<ResearchNode>, edges: seq<LineageEdge>, dir: Direction, v: set<int>, w: set<int>, w2: set<int>)
    requires NewClosed(nodes, edges, dir, v, w) && NewClosed(nodes, edges, dir, w, w2) && w <= w2
    ensures NewClosed(nodes, edges, dir, v, w2)
  {
    ClosedGrows(nodes, edges, dir, v, w, w2);
  }

  /** Visiting an id that names no listed node keeps the invariant. */
  lemma UnlistedKeeps(nodes: seq<ResearchNode>, edges: seq<LineageEdge>, dir: Direction, root: int,
                      v: set<int>, b: Buckets, id: int)
    requires Inv(nodes, edges, dir, root, v, b) && Find(nodes, id).None?
    ensures Inv(nodes, edges, dir, root, v + {id}, b) && Grows(b, b)
  {
    assert Listed(nodes, v + {id}, b);
    assert Complete(nodes, v + {id}, b);
  }

  /** A walk from a visited-or-new id keeps the invariant and only extends generations. */
  lemma {:induction false} AssignKeeps(nodes: seq<ResearchNode>, edges: seq<LineageEdge>, dir: Direction, root: int,
                    id: int, g: int, v: set<int>, b: Buckets)
    requires id in Targets(edges, dir) && g >= 1
    requires Inv(nodes, edges, dir, root, v, b) && HasParent(edges, dir, root, b, g, id)
    ensures var r := Assign(nodes, edges, dir, id, g, v, b);
      Inv(nodes, edges, dir, root, r.0, r.1) && Grows(b, r.1)
    decreases |Targets(edges, dir) - v|, 0
  {
    if id in v {
      assert Assign(nodes, edges, dir, id, g, v, b) == (v, b);
      assert Grows(b, b);
    } else {
      var v1 := v + {id};
      DiffDrops(Targets(edges, dir), v, id);
      match Find(nodes, id)
      case None =>
        assert Assign(nodes, edges, dir, id, g, v, b) == (v1, b);
        UnlistedKeeps(nodes, edges, dir, root, v, b, id);
      case Some(n) =>
        var b1 := Push(b, g, n);
        assert Assign(nodes, edges, dir, id, g, v, b) == AssignFrom(nodes, edges, dir, id, g, 0, v1, b1);
        PushKeeps(nodes, edges, dir, root, v, b, g, n);
        AssignFromKeeps(nodes, edges, dir, root, id, g, 0, v1, b1, n);
        GrowsTrans(b, b1, AssignFrom(nodes, edges, dir, id, g, 0, v1, b1).1);
    }
  }

  lemma {:induction false} AssignFromKeeps(nodes: seq<ResearchNode>, edges: seq<LineageEdge>, dir: Direction, root: int,
                        id: int, g: int, i: nat, v: set<int>, b: Buckets, n: ResearchNode)
    requires i <= |edges| && g >= 1
    requires Inv(nodes, edges, dir, root, v, b) && g in b && n in b[g] && n.id == id
    ensures var r := AssignFrom(nodes, edges, dir, id, g, i, v, b);
      Inv(nodes, edges, dir, root, r.0, r.1) && Grows(b, r.1)
    decreases |Targets(edges, dir) - v|, |edges| - i + 1
  {
    if i < |edges| {
      var r := AssignFrom(nodes, edges, dir, id, g, i, v, b);
      if Prev(dir, edges[i]) == id {
        var x := Next(dir, edges[i]);
        ChildHasParent(edges, dir, root, b, g, n, i);
        AssignKeeps(nodes, edges, dir, root, x, g + 1, v, b);
        var r1 := Assign(nodes, edges, dir, x, g + 1, v, b);
        assert r == AssignFrom(nodes, edges, dir, id, g, i + 1, r1.0, r1.1);
        DiffShrinks(Targets(edges, dir), v, r1.0);
        assert g in r1.1 && n in r1.1[g];
        AssignFromKeeps(nodes, edges, dir, root, id, g, i + 1, r1.0, r1.1, n);
        GrowsTrans(b, r1.1, r.1);
      } else {
        assert r == AssignFrom(nodes, edges, dir, id, g, i + 1, v, b);
        AssignFromKeeps(nodes, edges, dir, root, id, g, i + 1, v, b, n);
      }
    }
  }

  /** The far end of an edge leaving a node of generation `g` has a parent one generation up. */
  lemma ChildHasParent(edges: seq<LineageEdge>, dir: Direction, root: int, b: Buckets, g: int, n: ResearchNode, i: nat)
    requires g >= 1 && g in b && n in b[g] && i < |edges| && Prev(dir, edges[i]) == n.id
    ensures HasParent(edges, dir, root, b, g + 1, Next(dir, edges[i]))
  {
    assert edges[i] in edges;
    assert Linked(edges, dir, n.id, Next(dir, edges[i]));
  }

  /** A walk visits its id and leaves every id it newly visits closed. */
  lemma {:induction false} AssignCloses(nodes: seq<ResearchNode>, edges: seq<LineageEdge>, dir: Direction,
                                        id: int, g: int, v: set<int>, b: Buckets)
    requires id in Targets(edges, dir)
    ensures var r := Assign(nodes, edges, dir, id, g, v, b);
      id in r.0 && NewClosed(nodes, edges, dir, v, r.0)
    decreases |Targets(edges, dir) - v|, 0
  {
    if id !in v {
      var v1 := v + {id};
      DiffDrops(Targets(edges, dir), v, id);
      match Find(nodes, id)
      case None =>
        assert Assign(nodes, edges, dir, id, g, v, b) == (v1, b);
        assert ClosedAt(nodes, edges, dir, id, v1);
      case Some(n) =>
        var b1 := Push(b, g, n);
        assert Assign(nodes, edges, dir, id, g, v, b) == AssignFrom(nodes, edges, dir, id, g, 0, v1, b1);
        AssignFromCloses(nodes, edges, dir, id, g, 0, v1, b1);
        var r := AssignFrom(nodes, edges, dir, id, g, 0, v1, b1);
        ClosedFromEdges(nodes, edges, dir, id, r.0);
        ClosedAdd(nodes, edges, dir, v, id, r.0);
    }
  }

  lemma {:induction false} AssignFromCloses(nodes: seq<ResearchNode>, edges: seq<LineageEdge>, dir: Direction,
                                            id: int, g: int, i: nat, v: set<int>, b: Buckets)
    requires i <= |edges|
    ensures var r := AssignFrom(nodes, edges, dir, id, g, i, v, b);
      NewClosed(nodes, edges, dir, v, r.0) &&
      forall k | i <= k < |edges| && Prev(dir, edges[k]) == id :: Next(dir, edges[k]) in r.0
    decreases |Targets(edges, dir) - v|, |edges| - i + 1
  {
    if i < |edges| {
      var r := AssignFrom(nodes, edges, dir, id, g, i, v, b);
      if Prev(dir, edges[i]) == id {
        var x := Next(dir, edges[i]);
        AssignCloses(nodes, edges, dir, x, g + 1, v, b);
        var r1 := Assign(nodes, edges, dir, x, g + 1, v, b);
        assert r == AssignFrom(nodes, edges, dir, id, g, i + 1, r1.0, r1.1);
        DiffShrinks(Targets(edges, dir), v, r1.0);
        AssignFromCloses(nodes, edges, dir, id, g, i + 1, r1.0, r1.1);
        ClosedChain(nodes, edges, dir, v, r1.0, r.0);
      } else {
        assert r == AssignFrom(nodes, edges, dir, id, g, i + 1, v, b);
        AssignFromCloses(nodes, edges, dir, id, g, i + 1, v, b);
      }
    }
  }

  lemma {:induction false} RootFromKeeps(nodes: seq<ResearchNode>, edges: seq<LineageEdge>, dir: Direction, root: int,
                      i: nat, v: set<int>, b: Buckets)
    requires i <= |edges|
    requires Inv(nodes, edges, dir, root, v, b)
    ensures var r := RootFrom(nodes, edges, dir, root, i, v, b);
      Inv(nodes, edges, dir, root, r.0, r.1)
    decreases |edges| - i
  {
    if i < |edges| {
      var r := RootFrom(nodes, edges, dir, root, i, v, b);
      if Prev(dir, edges[i]) == root {
        var x := Next(dir, edges[i]);
        assert edges[i] in edges;
        assert HasParent(edges, dir, root, b, 1, x);
        AssignKeeps(nodes, edges, dir, root, x, 1, v, b);
        var r1 := Assign(nodes, edges, dir, x, 1, v, b);
        assert r == RootFrom(nodes, edges, dir, root, i + 1, r1.0, r1.1);
        RootFromKeeps(nodes, edges, dir, root, i + 1, r1.0, r1.1);
      } else {
        assert r == RootFrom(nodes, edges, dir, root, i + 1, v, b);
        RootFromKeeps(nodes, edges, dir, root, i + 1, v, b);
      }
    }
  }

  lemma {:induction false} RootFromCloses(nodes: seq<ResearchNode>, edges: seq<LineageEdge>, dir: Direction, root: int,
                                          i: nat, v: set<int>, b: Buckets)
    requires i <= |edges|
    ensures var r := RootFrom(nodes, edges, dir, root, i, v, b);
      NewClosed(nodes, edges, dir, v, r.0) &&
      forall k | i <= k < |edges| && Prev(dir, edges[k]) == root :: Next(dir, edges[k]) in r.0
    decreases |edges| - i
  {
    if i < |edges| {
      var r := RootFrom(nodes, edges, dir, root, i, v, b);
      if Prev(dir, edges[i]) == root {
        var x := Next(dir, edges[i]);
        AssignCloses(nodes, edges, dir, x, 1, v, b);
        var r1 := Assign(nodes, edges, dir, x, 1, v, b);
        assert r == RootFrom(nodes, edges, dir, root, i + 1, r1.0, r1.1);
        RootFromCloses(nodes, edges, dir, root, i + 1, r1.0, r1.1);
        ClosedChain(nodes, edges, dir, v, r1.0, r.0);
      } else {
        assert r == RootFrom(nodes, edges, dir, root, i + 1, v, b);
        RootFromCloses(nodes, edges, dir, root, i + 1, v, b);
      }
    }
  }

  // ---------------------------------------------------------------- the grouping, stated on paths

  /** `p` is a walk from the root along lineage edges whose intermediate ids all name
      listed nodes: the walks the grouping can take. */
  ghost predicate Chain(nodes: seq<ResearchNode>, edges: seq<LineageEdge>, dir: Direction, root: int, p: seq<int>)
    decreases |p|
  {
    |p| >= 2 && Linked(edges, dir, p[|p| - 2], p[|p| - 1]) &&
    if |p| == 2 then p[0] == root
    else Find(nodes, p[|p| - 2]).Some? && Chain(nodes, edges, dir, root, p[..|p| - 1])
  }

  /** The shape of the table: generations 1, 2, ... without gaps, none empty, no id twice,
      and each placed node is the listed node `find` returns for its id. */
  lemma GroupShape(nodes: seq<ResearchNode>, edges: seq<LineageEdge>, root: int, dir: Direction)
    ensures var b := Group(nodes, edges, root, dir);
      Shape(b) && Unique(b) && forall g, n | g in b && n in b[g] :: Find(nodes, n.id) == Some(n)
  {
    RootFromKeeps(nodes, edges, dir, root, 0, {}, map[]);
  }

  /** Soundness: a node placed at generation `g` is reached from the root by a walk of
      exactly `g` edges through listed nodes. */
  lemma GroupSound(nodes: seq<ResearchNode>, edges: seq<LineageEdge>, root: int, dir: Direction, g: int, n: ResearchNode)
    requires var b := Group(nodes, edges, root, dir); g in b && n in b[g]
    ensures exists p :: Chain(nodes, edges, dir, root, p) && |p| == g + 1 && p[g] == n.id
  {
    var b := Group(nodes, edges, root, dir);
    RootFromKeeps(nodes, edges, dir, root, 0, {}, map[]);
    var p := PlacedChain(nodes, edges, dir, root, b, g, n);
  }

  lemma {:induction false} PlacedChain(nodes: seq<ResearchNode>, edges: seq<LineageEdge>, dir: Direction, root: int,
                                       b: Buckets, g: int, n: ResearchNode) returns (p: seq<int>)
    requires Shape(b) && Parented(edges, dir, root, b)
    requires forall h, m | h in b && m in b[h] :: Find(nodes, m.id) == Some(m)
    requires g in b && n in b[g]
    ensures Chain(nodes, edges, dir, root, p) && |p| == g + 1 && p[g] == n.id
    decreases g
  {
    assert HasParent(edges, dir, root, b, g, n.id);
    if g == 1 {
      p := [root, n.id];
    } else {
      var m :| m in b[g - 1] && Linked(edges, dir, m.id, n.id);
      var q := PlacedChain(nodes, edges, dir, root, b, g - 1, m);
      p := q + [n.id];
      assert p[..g] == q;
      assert p[g - 1] == m.id;
      assert Find(nodes, m.id) == Some(m);
    }
  }

  /** Completeness: every listed node at the end of a walk from the root is placed. */
  lemma GroupComplete(nodes: seq<ResearchNode>, edges: seq<LineageEdge>, root: int, dir: Direction, p: seq<int>)
    requires Chain(nodes, edges, dir, root, p) && Find(nodes, p[|p| - 1]).Some?
    ensures var b := Group(nodes, edges, root, dir);
      exists g | g in b :: Find(nodes, p[|p| - 1]).value in b[g]
  {
    RootFromKeeps(nodes, edges, dir, root, 0, {}, map[]);
    RootFromCloses(nodes, edges, dir, root, 0, {}, map[]);
    var r := RootFrom(nodes, edges, dir, root, 0, {}, map[]);
    ChainVisited(nodes, edges, dir, root, r.0, p);
  }

  lemma {:induction false} ChainVisited(nodes: seq<ResearchNode>, edges: seq<LineageEdge>, dir: Direction, root: int,
                                        v: set<int>, p: seq<int>)
    requires forall k | 0 <= k < |edges| && Prev(dir, edges[k]) == root :: Next(dir, edges[k]) in v
    requires forall x | x in v :: ClosedAt(nodes, edges, dir, x, v)
    requires Chain(nodes, edges, dir, root, p)
    ensures p[|p| - 1] in v
    decreases |p|
  {
    var last := |p| - 1;
    assert Linked(edges, dir, p[last - 1], p[last]);
    var e :| e in edges && Prev(dir, e) == p[last - 1] && Next(dir, e) == p[last];
    if last == 1 {
      var k :| 0 <= k < |edges| && edges[k] == e;
    } else {
      var q := p[..last];
      ChainVisited(nodes, edges, dir, root, v, q);
      assert q[|q| - 1] == p[last - 1];
      assert ClosedAt(nodes, edges, dir, p[last - 1], v);
    }
  }

  // ---------------------------------------------------------------- processLineageData

  function Abs(x: int): nat
  {
    if x < 0 then -x else x
  }

  /** The generations 1..n present in `b`, ascending. */
  function KeysUpTo(b: Buckets, n: nat): (r: seq<int>)
    ensures forall k :: k in r <==> k in b && 1 <= k <= n
    ensures forall i, j | 0 <= i < j < |r| :: r[i] < r[j]
    ensures forall i | 0 <= i < |r| :: 1 <= r[i] <= n
  {
    if n == 0 then [] else KeysUpTo(b, n - 1) + (if n in b then [n] else [])
  }

  /** The order in which `Object.entries` lists a generation table: its integer keys,
      ascending. Every generation lies in 1..|b| (`GroupShape`), so these are all of them. */
  function GenerationKeys(b: Buckets): (r: seq<int>)
    ensures forall k | k in r :: k in b
    ensures forall i, j | 0 <= i < j < |r| :: r[i] < r[j]
    ensures (forall k | k in b :: 1 <= k <= |b|) ==> forall k :: k in r <==> k in b
  {
    KeysUpTo(b, |b|)
  }

  function RootEntry(root: ResearchNode): LineageNode
  {
    LineageNode(root, 0, 0, true, [root.id])
  }

  /** The entry for a node of generation `gen`: depth |gen|, not the root, its path the
      root followed by itself. */
  function MarkOf(n: ResearchNode, gen: int, rootId: int): LineageNode
  {
    LineageNode(n, Abs(gen), gen, false, [rootId, n.id])
  }

  function Marked(bucket: seq<ResearchNode>, gen: int, rootId: int): (r: seq<LineageNode>)
    ensures |r| == |bucket|
    ensures forall i | 0 <= i < |r| :: r[i] == MarkOf(bucket[i], gen, rootId)
  {
    seq(|bucket|, i requires 0 <= i < |bucket| => MarkOf(bucket[i], gen, rootId))
  }

  /** The entries of the generations `keys`, in that order, each with its generation
      multiplied by `sign` (-1 for ancestors, 1 for descendants). */
  function Entries(b: Buckets, keys: seq<int>, sign: int, rootId: int): seq<LineageNode>
  {
    if keys == [] then []
    else
      var last := keys[|keys| - 1];
      Entries(b, keys[..|keys| - 1], sign, rootId) + Marked(Bucket(b, last), sign * last, rootId)
  }

  /** `processLineageData`: the root, then the ancestors generation by generation, then
      the descendants generation by generation. */
  function LineageOf(data: LineageData): seq<LineageNode>
  {
    var anc := Group(data.ancestors, data.edges, data.root.id, Ancestors);
    var desc := Group(data.descendants, data.edges, data.root.id, Descendants);
    [RootEntry(data.root)] + Entries(anc, GenerationKeys(anc), -1, data.root.id)
      + Entries(desc, GenerationKeys(desc), 1, data.root.id)
  }

  /** `processAncestors` / `processDescendants`: push one generation's entries. */
  method PushGeneration(out: seq<LineageNode>, nodes: seq<ResearchNode>, gen: int, rootId: int)
    returns (out': seq<LineageNode>)
    ensures out' == out + Marked(nodes, gen, rootId)
  {
    out' := out;
    for i := 0 to |nodes|
      invariant out' == out + Marked(nodes[..i], gen, rootId)
    {
      assert Marked(nodes[..i + 1], gen, rootId) == Marked(nodes[..i], gen, rootId) + [MarkOf(nodes[i], gen, rootId)];
      out' := out' + [MarkOf(nodes[i], gen, rootId)];
    }
    assert nodes[..|nodes|] == nodes;
  }

  lemma EntriesSnoc(b: Buckets, keys: seq<int>, i: nat, sign: int, rootId: int)
    requires i < |keys|
    ensures Entries(b, keys[..i + 1], sign, rootId) == Entries(b, keys[..i], sign, rootId) + Marked(Bucket(b, keys[i]), sign * keys[i], rootId)
  {
    assert keys[..i + 1][..i] == keys[..i];
  }

  /** The `forEach` over `Object.entries` of one generation table. */
  method PushGenerations(out: seq<LineageNode>, b: Buckets, sign: int, rootId: int)
    returns (out': seq<LineageNode>)
    ensures out' == out + Entries(b, GenerationKeys(b), sign, rootId)
  {
    out' := PushEntries(out, b, GenerationKeys(b), sign, rootId);
  }

  /** The generations `keys` of the table, one after the other. */
  method PushEntries(out: seq<LineageNode>, b: Buckets, keys: seq<int>, sign: int, rootId: int)
    returns (out': seq<LineageNode>)
    requires forall k | k in keys :: k in b
    ensures out' == out + Entries(b, keys, sign, rootId)
  {
    out' := out;
    for i := 0 to |keys|
      invariant out' == out + Entries(b, keys[..i], sign, rootId)
    {
      assert keys[i] in keys && Bucket(b, keys[i]) == b[keys[i]];
      EntriesSnoc(b, keys, i, sign, rootId);
      out' := PushGeneration(out', b[keys[i]], sign * keys[i], rootId);
    }
    assert keys[..|keys|] == keys;
  }

  method ProcessLineageData(data: LineageData) returns (lineage: seq<LineageNode>)
    ensures lineage == LineageOf(data)
  {
    lineage := [RootEntry(data.root)];
    var anc := GroupNodesByGeneration(data.ancestors, data.edges, data.root.id, Ancestors);
    var desc := GroupNodesByGeneration(data.descendants, data.edges, data.root.id, Descendants);
    lineage := PushGenerations(lineage, anc, -1, data.root.id);
    lineage := PushGenerations(lineage, desc, 1, data.root.id);
  }

  lemma {:induction false} EntriesMembers(b: Buckets, keys: seq<int>, sign: int, rootId: int, x: LineageNode)
    requires forall k | k in keys :: k in b
    ensures x in Entries(b, keys, sign, rootId) <==> exists k, n | k in keys && n in b[k] :: x == MarkOf(n, sign * k, rootId)
  {
    if keys != [] {
      var init := keys[..|keys| - 1];
      var last := keys[|keys| - 1];
      assert Bucket(b, last) == b[last];
      EntriesMembers(b, init, sign, rootId, x);
      if x in Marked(b[last], sign * last, rootId) {
        var i :| 0 <= i < |b[last]| && Marked(b[last], sign * last, rootId)[i] == x;
        assert b[last][i] in b[last];
      }
      if exists k, n | k in keys && n in b[k] :: x == MarkOf(n, sign * k, rootId) {
        var k, n :| k in keys && n in b[k] && x == MarkOf(n, sign * k, rootId);
        if k == last {
          var i :| 0 <= i < |b[last]| && b[last][i] == n;
          assert Marked(b[last], sign * last, rootId)[i] == x;
        } else {
          assert k in init;
        }
      }
    }
  }

  lemma GroupKeys(nodes: seq<ResearchNode>, edges: seq<LineageEdge>, root: int, dir: Direction)
    ensures var b := Group(nodes, edges, root, dir); forall k | k in b :: 1 <= k <= |b|
  {
    GroupShape(nodes, edges, root, dir);
  }

  lemma SignTwice(sign: int, k: int)
    requires sign == 1 || sign == -1
    ensures sign * (sign * k) == k
  {
    if sign == -1 {
      assert -1 * (-1 * k) == k;
    }
  }

  lemma SideMembers(b: Buckets, sign: int, rootId: int, x: LineageNode)
    requires sign == 1 || sign == -1
    requires forall k | k in b :: 1 <= k <= |b|
    ensures x in Entries(b, GenerationKeys(b), sign, rootId) <==>
      x == MarkOf(x.node, x.generation, rootId) && sign * x.generation in b && x.node in b[sign * x.generation]
  {
    var keys := GenerationKeys(b);
    EntriesMembers(b, keys, sign, rootId, x);
    if x in Entries(b, keys, sign, rootId) {
      var k, n :| k in keys && n in b[k] && x == MarkOf(n, sign * k, rootId);
      SignTwice(sign, k);
    }
    if x == MarkOf(x.node, x.generation, rootId) && sign * x.generation in b && x.node in b[sign * x.generation] {
      var k := sign * x.generation;
      SignTwice(sign, x.generation);
      assert k in keys && x.node in b[k] && x == MarkOf(x.node, sign * k, rootId);
    }
  }

  lemma AncestorMembers(anc: Buckets, rootId: int, x: LineageNode)
    requires forall k | k in anc :: 1 <= k <= |anc|
    ensures x in Entries(anc, GenerationKeys(anc), -1, rootId) <==>
      x == MarkOf(x.node, x.generation, rootId) && x.generation < 0 && -x.generation in anc && x.node in anc[-x.generation]
  {
    SideMembers(anc, -1, rootId, x);
    var g := x.generation;
    assert -1 * g == -g;
    if -g in anc {
      assert 1 <= -g;
    }
  }

  lemma DescendantMembers(desc: Buckets, rootId: int, x: LineageNode)
    requires forall k | k in desc :: 1 <= k <= |desc|
    ensures x in Entries(desc, GenerationKeys(desc), 1, rootId) <==>
      x == MarkOf(x.node, x.generation, rootId) && x.generation > 0 && x.generation in desc && x.node in desc[x.generation]
  {
    SideMembers(desc, 1, rootId, x);
    assert 1 * x.generation == x.generation;
  }

  lemma TailMembers(first: LineageNode, ea: seq<LineageNode>, ed: seq<LineageNode>, x: LineageNode)
    ensures x in ([first] + ea + ed)[1..] <==> x in ea || x in ed
  {
    assert ([first] + ea + ed)[1..] == ea + ed;
  }

  lemma TablesMembers(root: ResearchNode, anc: Buckets, desc: Buckets, x: LineageNode)
    requires forall k | k in anc :: 1 <= k <= |anc|
    requires forall k | k in desc :: 1 <= k <= |desc|
    ensures var r := [RootEntry(root)] + Entries(anc, GenerationKeys(anc), -1, root.id) + Entries(desc, GenerationKeys(desc), 1, root.id);
      x in r[1..] <==>
        x == MarkOf(x.node, x.generation, root.id) &&
        ((x.generation < 0 && -x.generation in anc && x.node in anc[-x.generation]) ||
         (x.generation > 0 && x.generation in desc && x.node in desc[x.generation]))
  {
    var ea := Entries(anc, GenerationKeys(anc), -1, root.id);
    var ed := Entries(desc, GenerationKeys(desc), 1, root.id);
    TailMembers(RootEntry(root), ea, ed, x);
    AncestorMembers(anc, root.id, x);
    DescendantMembers(desc, root.id, x);
  }

  /** The lineage list has the root first, and every other entry is a placed ancestor with
      a negative generation or a placed descendant with a positive one, its depth the
      generation's magnitude; every placed node appears. */
  lemma LineageMembers(data: LineageData, x: LineageNode)
    ensures LineageOf(data)[0] == RootEntry(data.root)
    ensures var anc := Group(data.ancestors, data.edges, data.root.id, Ancestors);
      var desc := Group(data.descendants, data.edges, data.root.id, Descendants);
      x in LineageOf(data)[1..] <==>
        x == MarkOf(x.node, x.generation, data.root.id) &&
        ((x.generation < 0 && -x.generation in anc && x.node in anc[-x.generation]) ||
         (x.generation > 0 && x.generation in desc && x.node in desc[x.generation]))
  {
    GroupKeys(data.ancestors, data.edges, data.root.id, Ancestors);
    GroupKeys(data.descendants, data.edges, data.root.id, Descendants);
    TablesMembers(data.root, Group(data.ancestors, data.edges, data.root.id, Ancestors),
                  Group(data.descendants, data.edges, data.root.id, Descendants), x);
  }

  /** Exactly one entry is the root: the first, at generation and depth 0. */
  lemma OneRoot(data: LineageData)
    ensures var r := LineageOf(data);
      r[0].isRoot && r[0].generation == 0 && r[0].depth == 0 && r[0].node == data.root &&
      forall i | 1 <= i < |r| :: !r[i].isRoot && r[i].generation != 0 && r[i].depth == Abs(r[i].generation)
  {
    var r := LineageOf(data);
    LineageMembers(data, r[0]);
    forall i | 1 <= i < |r| ensures !r[i].isRoot && r[i].generation != 0 && r[i].depth == Abs(r[i].generation) {
      assert r[i] in r[1..];
      LineageMembers(data, r[i]);
    }
  }
}
