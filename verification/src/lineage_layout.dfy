/** The lineage view's layout: lineage nodes are grouped by generation, generations are
    laid out one after another along the main axis, and the nodes of a generation are
    spread symmetrically across it. */
module LineageLayout {
  import opened Common
  import opened Strings
  import Helpers
  import opened LineageGroup

  datatype LayoutDirection = TB | BT | LR | RL

  datatype LayoutConfig = LayoutConfig(nodeWidth: real, nodeHeight: real, horizontalSpacing: real,
                                       verticalSpacing: real, direction: LayoutDirection)

  const DefaultConfig := LayoutConfig(280.0, 120.0, 150.0, 100.0, TB)

  datatype Pos = Pos(x: real, y: real)

  /** A flow-chart node of type "custom", `width` by `height`. */
  datatype FlowNode = FlowNode(id: string, position: Pos, data: LineageNode, width: real, height: real)

  /** A "smoothstep" flow-chart edge. */
  datatype FlowEdge = FlowEdge(id: string, source: string, target: string, edgeLabel: string)

  datatype Bounds = Bounds(minX: real, maxX: real, minY: real, maxY: real, width: real, height: real)

  /** `bounds` is `None` where the view's `Math.min()` of no positions gives infinite bounds. */
  datatype Layout = Layout(nodes: seq<FlowNode>, edges: seq<FlowEdge>, bounds: Option<Bounds>)

  predicate Vertical(config: LayoutConfig) { config.direction == TB || config.direction == BT }
  predicate Reversed(config: LayoutConfig) { config.direction == BT || config.direction == RL }

  // ---------------------------------------------------------------- generations

  predicate StrictlySorted(xs: seq<int>)
  {
    forall i, j | 0 <= i < j < |xs| :: xs[i] < xs[j]
  }

  /** `g` inserted into an ascending list of distinct values. */
  function Insert(xs: seq<int>, g: int): (r: seq<int>)
    requires StrictlySorted(xs)
    ensures StrictlySorted(r)
    ensures forall k :: k in r <==> k in xs || k == g
  {
    if xs == [] then [g]
    else if g == xs[0] then xs
    else if g < xs[0] then [g] + xs
    else
      var rest := Insert(xs[1..], g);
      assert forall k | k in xs[1..] :: xs[0] < k;
      assert forall k | k in rest :: xs[0] < k;
      assert xs == [xs[0]] + xs[1..];
      ConsSorted(xs[0], rest);
      [xs[0]] + rest
  }

  lemma ConsSorted(x: int, rest: seq<int>)
    requires StrictlySorted(rest) && forall k | k in rest :: x < k
    ensures StrictlySorted([x] + rest)
  {
    var r := [x] + rest;
    forall i, j | 0 <= i < j < |r| ensures r[i] < r[j] {
      assert r[j] == rest[j - 1];
      if i == 0 {
        assert rest[j - 1] in rest;
      } else {
        assert r[i] == rest[i - 1];
      }
    }
  }

  /** Some node of `ns` is of generation `g`. */
  predicate HasGeneration(ns: seq<LineageNode>, g: int)
  {
    exists i | 0 <= i < |ns| :: ns[i].generation == g
  }

  lemma HasGenerationSnoc(ns: seq<LineageNode>, g: int)
    requires ns != []
    ensures HasGeneration(ns, g) <==> HasGeneration(ns[..|ns| - 1], g) || ns[|ns| - 1].generation == g
  {
    var init := ns[..|ns| - 1];
    if HasGeneration(init, g) {
      var i :| 0 <= i < |init| && init[i].generation == g;
      assert ns[i] == init[i];
    }
    if HasGeneration(ns, g) {
      var i :| 0 <= i < |ns| && ns[i].generation == g;
      if i < |init| {
        assert init[i] == ns[i];
      }
    }
  }

  /** `Object.keys(nodesByGeneration).map(Number).sort((a, b) => a - b)`: the distinct
      generations, ascending. */
  function Generations(ns: seq<LineageNode>): (r: seq<int>)
    ensures StrictlySorted(r)
    ensures forall g :: g in r <==> HasGeneration(ns, g)
  {
    if ns == [] then []
    else
      var r := Insert(Generations(ns[..|ns| - 1]), ns[|ns| - 1].generation);
      assert forall g :: HasGeneration(ns, g) <==> HasGeneration(ns[..|ns| - 1], g) || ns[|ns| - 1].generation == g by {
        forall g ensures HasGeneration(ns, g) <==> HasGeneration(ns[..|ns| - 1], g) || ns[|ns| - 1].generation == g {
          HasGenerationSnoc(ns, g);
        }
      }
      r
  }

  /** `nodesByGeneration[g]`: the nodes of generation `g`, in list order. */
  function OfGeneration(ns: seq<LineageNode>, g: int): (r: seq<LineageNode>)
    ensures (r == []) <==> !HasGeneration(ns, g)
  {
    if ns == [] then []
    else
      var init := ns[..|ns| - 1];
      var last := ns[|ns| - 1];
      HasGenerationSnoc(ns, g);
      OfGeneration(init, g) + (if last.generation == g then [last] else [])
  }

  // ---------------------------------------------------------------- positions

  /** The coordinate of generation number `genIndex` of `genCount` along the main axis. */
  function GenPos(config: LayoutConfig, genIndex: nat, genCount: nat): real
    requires genIndex < genCount
  {
    var step := if Vertical(config) then config.nodeHeight + config.verticalSpacing
                else config.nodeWidth + config.horizontalSpacing;
    var index := if Reversed(config) then genCount - genIndex - 1 else genIndex;
    index as real * step
  }

  /** The cross-axis offset of node number `nodeIndex` of a generation of `size` nodes. */
  function Offset(config: LayoutConfig, nodeIndex: nat, size: nat): real
  {
    var step := config.nodeWidth + config.horizontalSpacing;
    var totalWidth := (size as real - 1.0) * step;
    -totalWidth / 2.0 + nodeIndex as real * step
  }

  function Place(config: LayoutConfig, genIndex: nat, genCount: nat, nodeIndex: nat, size: nat): Pos
    requires genIndex < genCount
  {
    var along := GenPos(config, genIndex, genCount);
    var across := Offset(config, nodeIndex, size);
    if Vertical(config) then Pos(across, along) else Pos(along, across)
  }

  function FlowNodeOf(n: LineageNode, position: Pos, config: LayoutConfig): FlowNode
  {
    FlowNode(IntToString(n.node.id), position, n, config.nodeWidth, config.nodeHeight)
  }

  /** The first `j` flow nodes of a generation's group. */
  function GroupNodes(group: seq<LineageNode>, j: nat, genIndex: nat, genCount: nat, config: LayoutConfig): (r: seq<FlowNode>)
    requires j <= |group| && genIndex < genCount
    ensures |r| == j
    ensures forall k | 0 <= k < j :: r[k] == FlowNodeOf(group[k], Place(config, genIndex, genCount, k, |group|), config)
  {
    seq(j, k requires 0 <= k < j => FlowNodeOf(group[k], Place(config, genIndex, genCount, k, |group|), config))
  }

  /** The flow nodes of the first `k` generations. */
  function NodesUpTo(ns: seq<LineageNode>, config: LayoutConfig, k: nat): seq<FlowNode>
    requires k <= |Generations(ns)|
  {
    if k == 0 then []
    else
      var gens := Generations(ns);
      var group := OfGeneration(ns, gens[k - 1]);
      NodesUpTo(ns, config, k - 1) + GroupNodes(group, |group|, k - 1, |gens|, config)
  }

  function LayoutNodes(ns: seq<LineageNode>, config: LayoutConfig): seq<FlowNode>
  {
    NodesUpTo(ns, config, |Generations(ns)|)
  }

  function IdOf(f: FlowNode): int
  {
    f.data.node.id
  }

  /** `positions`: each node's id mapped to its position; a later node with the same id
      overwrites an earlier one. */
  function PositionsOf(fs: seq<FlowNode>): (m: map<int, Pos>)
    ensures m.Keys == set i | 0 <= i < |fs| :: IdOf(fs[i])
  {
    if fs == [] then map[]
    else
      var init := fs[..|fs| - 1];
      var m := PositionsOf(init)[IdOf(fs[|fs| - 1]) := fs[|fs| - 1].position];
      assert forall i | 0 <= i < |init| :: init[i] == fs[i];
      m
  }

  // ---------------------------------------------------------------- edges

  /** One lineage edge as a flow edge: labelled with its label, else its relationship type. */
  function FlowEdgeOf(e: LineageEdge): FlowEdge
  {
    FlowEdge("lineage-edge-" + IntToString(e.id), IntToString(e.fromId), IntToString(e.toId),
             if e.labelText != "" then e.labelText else e.relationshipType)
  }

  function FlowEdges(es: seq<LineageEdge>): (r: seq<FlowEdge>)
    ensures |r| == |es|
    ensures forall i | 0 <= i < |es| :: r[i] == FlowEdgeOf(es[i])
  {
    seq(|es|, i requires 0 <= i < |es| => FlowEdgeOf(es[i]))
  }

  /** The edge label falls back to the relationship type only when the label is empty, and
      the ids name the edge and its ends. */
  lemma EdgeLabels(es: seq<LineageEdge>, i: nat)
    requires i < |es|
    ensures var f := FlowEdges(es)[i];
      (es[i].labelText != "" ==> f.edgeLabel == es[i].labelText) &&
      (es[i].labelText == "" ==> f.edgeLabel == es[i].relationshipType) &&
      f.id == "lineage-edge-" + IntToString(es[i].id) &&
      f.source == IntToString(es[i].fromId) && f.target == IntToString(es[i].toId)
  {
  }

  // ---------------------------------------------------------------- bounds

  function MinOf(xs: seq<real>): (m: real)
    requires xs != []
    ensures m in xs && forall i | 0 <= i < |xs| :: m <= xs[i]
  {
    if |xs| == 1 then xs[0]
    else
      var init := xs[..|xs| - 1];
      var m := MinOf(init);
      assert forall i | 0 <= i < |init| :: init[i] == xs[i];
      if xs[|xs| - 1] < m then xs[|xs| - 1] else m
  }

  function MaxOf(xs: seq<real>): (m: real)
    requires xs != []
    ensures m in xs && forall i | 0 <= i < |xs| :: xs[i] <= m
  {
    if |xs| == 1 then xs[0]
    else
      var init := xs[..|xs| - 1];
      var m := MaxOf(init);
      assert forall i | 0 <= i < |init| :: init[i] == xs[i];
      if xs[|xs| - 1] > m then xs[|xs| - 1] else m
  }

  /** `Object.values(positions)`, listed through the nodes that wrote them. */
  function FinalPositions(fs: seq<FlowNode>): (r: seq<Pos>)
    ensures |r| == |fs|
  {
    var m := PositionsOf(fs);
    seq(|fs|, i requires 0 <= i < |fs| => m[IdOf(fs[i])])
  }

  function Xs(ps: seq<Pos>): seq<real> { seq(|ps|, i requires 0 <= i < |ps| => ps[i].x) }
  function Ys(ps: seq<Pos>): seq<real> { seq(|ps|, i requires 0 <= i < |ps| => ps[i].y) }

  /** The bounds: the extreme positions padded by half a node. */
  function BoundsOf(fs: seq<FlowNode>, config: LayoutConfig): Option<Bounds>
  {
    if fs == [] then None
    else
      var ps := FinalPositions(fs);
      var minX := MinOf(Xs(ps)) - config.nodeWidth / 2.0;
      var maxX := MaxOf(Xs(ps)) + config.nodeWidth / 2.0;
      var minY := MinOf(Ys(ps)) - config.nodeHeight / 2.0;
      var maxY := MaxOf(Ys(ps)) + config.nodeHeight / 2.0;
      Some(Bounds(minX, maxX, minY, maxY, maxX - minX, maxY - minY))
  }

  /** Every stored position lies inside the bounds at least half a node from each edge,
      some position touches each padded side, and the size is the span. */
  lemma BoundsCover(fs: seq<FlowNode>, config: LayoutConfig)
    requires fs != []
    ensures var b := BoundsOf(fs, config).value; var m := PositionsOf(fs);
      b.width == b.maxX - b.minX && b.height == b.maxY - b.minY &&
      (forall id | id in m :: b.minX + config.nodeWidth / 2.0 <= m[id].x <= b.maxX - config.nodeWidth / 2.0) &&
      (forall id | id in m :: b.minY + config.nodeHeight / 2.0 <= m[id].y <= b.maxY - config.nodeHeight / 2.0) &&
      (exists id | id in m :: m[id].x == b.minX + config.nodeWidth / 2.0) &&
      (exists id | id in m :: m[id].y == b.maxY - config.nodeHeight / 2.0)
  {
    var m := PositionsOf(fs);
    var ps := FinalPositions(fs);
    var xs, ys := Xs(ps), Ys(ps);
    forall id | id in m
      ensures MinOf(xs) <= m[id].x <= MaxOf(xs) && MinOf(ys) <= m[id].y <= MaxOf(ys)
    {
      var i :| 0 <= i < |fs| && IdOf(fs[i]) == id;
      assert xs[i] == m[id].x && ys[i] == m[id].y;
    }
    var i :| 0 <= i < |xs| && xs[i] == MinOf(xs);
    assert IdOf(fs[i]) in m && m[IdOf(fs[i])].x == MinOf(xs);
    var j :| 0 <= j < |ys| && ys[j] == MaxOf(ys);
    assert IdOf(fs[j]) in m && m[IdOf(fs[j])].y == MaxOf(ys);
  }

  // ---------------------------------------------------------------- the layout

  /** `calculateLineageLayout`, specified. */
  function LayoutOf(ns: seq<LineageNode>, es: seq<LineageEdge>, config: LayoutConfig): Layout
  {
    var fs := LayoutNodes(ns, config);
    Layout(fs, FlowEdges(es), BoundsOf(fs, config))
  }

  lemma NodesUpToSnoc(ns: seq<LineageNode>, config: LayoutConfig, k: nat)
    requires k < |Generations(ns)|
    ensures var gens := Generations(ns); var group := OfGeneration(ns, gens[k]);
      NodesUpTo(ns, config, k + 1) == NodesUpTo(ns, config, k) + GroupNodes(group, |group|, k, |gens|, config)
  {
  }

  lemma OfGenerationSnoc(ns: seq<LineageNode>, n: LineageNode, g: int)
    ensures OfGeneration(ns + [n], g) == OfGeneration(ns, g) + (if n.generation == g then [n] else [])
  {
    assert (ns + [n])[..|ns|] == ns;
  }

  lemma GroupNodesSnoc(group: seq<LineageNode>, j: nat, genIndex: nat, genCount: nat, config: LayoutConfig)
    requires j < |group| && genIndex < genCount
    ensures GroupNodes(group, j + 1, genIndex, genCount, config)
         == GroupNodes(group, j, genIndex, genCount, config) + [FlowNodeOf(group[j], Place(config, genIndex, genCount, j, |group|), config)]
  {
  }

  lemma PositionsSnoc(fs: seq<FlowNode>, f: FlowNode)
    ensures PositionsOf(fs + [f]) == PositionsOf(fs)[IdOf(f) := f.position]
  {
    assert (fs + [f])[..|fs|] == fs;
  }

  /** The `forEach` that fills `nodesByGeneration`. */
  method GroupByGeneration(lineageNodes: seq<LineageNode>) returns (byGeneration: map<int, seq<LineageNode>>)
    ensures forall g :: g in byGeneration <==> HasGeneration(lineageNodes, g)
    ensures forall g | g in byGeneration :: byGeneration[g] == OfGeneration(lineageNodes, g)
  {
    byGeneration := map[];
    for i := 0 to |lineageNodes|
      invariant Grouped(byGeneration, lineageNodes[..i])
    {
      byGeneration := AddToGeneration(byGeneration, lineageNodes[..i], lineageNodes[i]);
      PrefixSnoc(lineageNodes, i);
    }
    PrefixWhole(lineageNodes);
    GroupedMeans(byGeneration, lineageNodes);
  }

  lemma GroupedMeans(m: map<int, seq<LineageNode>>, ns: seq<LineageNode>)
    requires Grouped(m, ns)
    ensures forall g :: g in m <==> HasGeneration(ns, g)
    ensures forall g | g in m :: m[g] == OfGeneration(ns, g)
  {
    forall g ensures g in m <==> HasGeneration(ns, g) {
      assert g in m <==> OfGeneration(ns, g) != [];
    }
  }

  /** `m` holds exactly the non-empty groups of `ns`. */
  ghost predicate Grouped(m: map<int, seq<LineageNode>>, ns: seq<LineageNode>)
  {
    (forall g | g in m :: m[g] == OfGeneration(ns, g)) &&
    (forall g :: g in m <==> OfGeneration(ns, g) != [])
  }

  /** One pass of the `forEach`: the node is appended to its generation's group, which is
      created when missing. */
  method AddToGeneration(m: map<int, seq<LineageNode>>, ghost ns: seq<LineageNode>, n: LineageNode)
    returns (m': map<int, seq<LineageNode>>)
    requires Grouped(m, ns)
    ensures Grouped(m', ns + [n])
  {
    var bucket := if n.generation in m then m[n.generation] else [];
    m' := m[n.generation := bucket + [n]];
    forall g ensures OfGeneration(ns + [n], g) == OfGeneration(ns, g) + (if n.generation == g then [n] else []) {
      OfGenerationSnoc(ns, n, g);
    }
  }

  /** Places the nodes of generation number `genIndex`, appending them to `nodes` and
      recording their positions. */
  method PlaceGeneration(nodes: seq<FlowNode>, positions: map<int, Pos>, inGeneration: seq<LineageNode>,
                         genIndex: nat, genCount: nat, config: LayoutConfig)
    returns (nodes': seq<FlowNode>, positions': map<int, Pos>)
    requires genIndex < genCount && positions == PositionsOf(nodes)
    ensures nodes' == nodes + GroupNodes(inGeneration, |inGeneration|, genIndex, genCount, config)
    ensures positions' == PositionsOf(nodes')
  {
    nodes', positions' := nodes, positions;
    for nodeIndex := 0 to |inGeneration|
      invariant nodes' == nodes + GroupNodes(inGeneration, nodeIndex, genIndex, genCount, config)
      invariant positions' == PositionsOf(nodes')
    {
      var position := Place(config, genIndex, genCount, nodeIndex, |inGeneration|);
      var flowNode := FlowNodeOf(inGeneration[nodeIndex], position, config);
      PositionsSnoc(nodes', flowNode);
      GroupNodesSnoc(inGeneration, nodeIndex, genIndex, genCount, config);
      positions' := positions'[inGeneration[nodeIndex].node.id := position];
      nodes' := nodes' + [flowNode];
    }
  }

  method CalculateLineageLayout(lineageNodes: seq<LineageNode>, lineageEdges: seq<LineageEdge>, config: LayoutConfig)
    returns (layout: Layout)
    ensures layout == LayoutOf(lineageNodes, lineageEdges, config)
  {
    var byGeneration := GroupByGeneration(lineageNodes);
    var generations := Generations(lineageNodes);
    var nodes: seq<FlowNode> := [];
    var positions: map<int, Pos> := map[];
    for genIndex := 0 to |generations|
      invariant nodes == NodesUpTo(lineageNodes, config, genIndex)
      invariant positions == PositionsOf(nodes)
    {
      nodes, positions := PlaceGeneration(nodes, positions, byGeneration[generations[genIndex]], genIndex, |generations|, config);
      NodesUpToSnoc(lineageNodes, config, genIndex);
    }
    layout := Layout(nodes, FlowEdges(lineageEdges), BoundsOf(nodes, config));
  }

  // ---------------------------------------------------------------- what the layout promises

  /** Within a generation, neighbours are one node width plus the spacing apart and the
      offsets are symmetric about 0. */
  lemma OffsetsSpacedAndSymmetric(config: LayoutConfig, j: nat, size: nat)
    requires j < size
    ensures j + 1 < size ==> Offset(config, j + 1, size) - Offset(config, j, size) == config.nodeWidth + config.horizontalSpacing
    ensures Offset(config, j, size) + Offset(config, size - 1 - j, size) == 0.0
  {
    var step := config.nodeWidth + config.horizontalSpacing;
    assert (j + 1) as real * step == j as real * step + step;
    assert (size - 1 - j) as real * step == (size as real - 1.0) * step - j as real * step;
  }

  /** Reversing the direction (BT for TB, RL for LR) mirrors the order of the generations. */
  lemma ReversedMirrors(config: LayoutConfig, genIndex: nat, genCount: nat)
    requires genIndex < genCount && (config.direction == TB || config.direction == LR)
    ensures var flipped := config.(direction := if config.direction == TB then BT else RL);
      GenPos(flipped, genIndex, genCount) == GenPos(config, genCount - 1 - genIndex, genCount)
  {
  }

  /** Top to bottom, generation `genIndex` sits `genIndex` node heights plus spacings down. */
  lemma TopToBottom(config: LayoutConfig, genIndex: nat, genCount: nat, nodeIndex: nat, size: nat)
    requires genIndex < genCount && config.direction == TB
    ensures Place(config, genIndex, genCount, nodeIndex, size).y == genIndex as real * (config.nodeHeight + config.verticalSpacing)
    ensures Place(config, genIndex, genCount, nodeIndex, size).x == Offset(config, nodeIndex, size)
  {
  }

  lemma {:induction false} GroupsCount(ns: seq<LineageNode>, gens: seq<int>, x: LineageNode)
    requires forall i, j | 0 <= i < j < |gens| :: gens[i] != gens[j]
    ensures multiset(Concat(ns, gens))[x] == if x.generation in gens then multiset(ns)[x] else 0
  {
    if gens != [] {
      var init := gens[..|gens| - 1];
      GroupsCount(ns, init, x);
      GenerationCount(ns, gens[|gens| - 1], x);
      assert x.generation in gens <==> x.generation in init || x.generation == gens[|gens| - 1];
    }
  }

  /** The groups of the generations `gens`, one after another. */
  function Concat(ns: seq<LineageNode>, gens: seq<int>): seq<LineageNode>
  {
    if gens == [] then [] else Concat(ns, gens[..|gens| - 1]) + OfGeneration(ns, gens[|gens| - 1])
  }

  lemma {:induction false} GenerationCount(ns: seq<LineageNode>, g: int, x: LineageNode)
    ensures multiset(OfGeneration(ns, g))[x] == if x.generation == g then multiset(ns)[x] else 0
  {
    if ns != [] {
      var init := ns[..|ns| - 1];
      GenerationCount(init, g, x);
      assert ns == init + [ns[|ns| - 1]];
    }
  }

  function Datas(fs: seq<FlowNode>): seq<LineageNode>
  {
    seq(|fs|, i requires 0 <= i < |fs| => fs[i].data)
  }

  lemma DatasAppend(a: seq<FlowNode>, b: seq<FlowNode>)
    ensures Datas(a + b) == Datas(a) + Datas(b)
  {
  }

  /** The placed nodes of a group carry the group's lineage nodes, in order. */
  lemma PlacedDatas(group: seq<LineageNode>, genIndex: nat, genCount: nat, config: LayoutConfig)
    requires genIndex < genCount
    ensures Datas(GroupNodes(group, |group|, genIndex, genCount, config)) == group
  {
    var placed := GroupNodes(group, |group|, genIndex, genCount, config);
    assert forall i | 0 <= i < |group| :: Datas(placed)[i] == placed[i].data == group[i];
  }

  lemma ConcatStep(ns: seq<LineageNode>, gens: seq<int>, k: nat)
    requires 0 < k <= |gens|
    ensures Concat(ns, gens[..k]) == Concat(ns, gens[..k - 1]) + OfGeneration(ns, gens[k - 1])
  {
    assert gens[..k][..k - 1] == gens[..k - 1];
  }

  lemma {:induction false} NodesAreGroups(ns: seq<LineageNode>, config: LayoutConfig, k: nat)
    requires k <= |Generations(ns)|
    ensures Datas(NodesUpTo(ns, config, k)) == Concat(ns, Generations(ns)[..k])
  {
    if k > 0 {
      NodesAreGroups(ns, config, k - 1);
      var gens := Generations(ns);
      var group := OfGeneration(ns, gens[k - 1]);
      var placed := GroupNodes(group, |group|, k - 1, |gens|, config);
      var before := NodesUpTo(ns, config, k - 1);
      assert NodesUpTo(ns, config, k) == before + placed;
      PlacedDatas(group, k - 1, |gens|, config);
      ConcatStep(ns, gens, k);
      DatasOfAppended(before, placed, Concat(ns, gens[..k - 1]), group);
    }
  }

  lemma DatasOfAppended(a: seq<FlowNode>, b: seq<FlowNode>, da: seq<LineageNode>, db: seq<LineageNode>)
    requires Datas(a) == da && Datas(b) == db
    ensures Datas(a + b) == da + db
  {
    DatasAppend(a, b);
  }

  /** One flow node per lineage node: the layout's nodes are the lineage nodes regrouped by
      generation, each exactly as often as in the input. */
  lemma OneFlowNodePerLineageNode(ns: seq<LineageNode>, config: LayoutConfig)
    ensures multiset(Datas(LayoutNodes(ns, config))) == multiset(ns)
  {
    var gens := Generations(ns);
    NodesAreGroups(ns, config, |gens|);
    assert gens[..|gens|] == gens;
    forall x ensures multiset(Concat(ns, gens))[x] == multiset(ns)[x] {
      GroupsCount(ns, gens, x);
      if x in multiset(ns) {
        var i :| 0 <= i < |ns| && ns[i] == x;
      }
    }
  }

  // ---------------------------------------------------------------- node data

  datatype NodeStyle = NodeStyle(data: LineageNode, backgroundColor: string, borderColor: string,
                                 borderWidth: nat, showGeneration: bool, showDepth: bool)

  /** `createLineageNodeData`: the root is drawn blue with a thick border, every other node
      with the status colour of its status. */
  function CreateLineageNodeData(n: LineageNode): (r: NodeStyle)
    ensures r.data == n && r.showGeneration && r.showDepth
    ensures n.isRoot ==> r.backgroundColor == "#dbeafe" && r.borderColor == "#2563eb" && r.borderWidth == 3
    ensures !n.isRoot ==> r.backgroundColor == "#f9fafb" && r.borderWidth == 2
    ensures !n.isRoot && n.node.status in {"completed", "postponed", "planned"} ==> r.borderColor == Helpers.Gray
  {
    NodeStyle(n, if n.isRoot then "#dbeafe" else "#f9fafb",
              if n.isRoot then "#2563eb" else Helpers.StatusColor(n.node.status),
              if n.isRoot then 3 else 2, true, true)
  }
}
