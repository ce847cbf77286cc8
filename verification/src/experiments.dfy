/** The experiment-graph endpoints (backend/app/api/endpoints/experiments.py): read-only views
    of the graph, the subgraph walk behind cascade deletion, and the operations that change the
    experiment and relationship tables, held here by a `GraphStore`. */
module Experiments {
  import opened Common
  import opened Json
  import opened GraphModel

  // ---------------------------------------------------------------- previews and views

  /** `text[:100] if text else None`: an empty or missing description has no preview. */
  function Preview(d: Option<string>): (r: Option<string>)
    ensures r.None? <==> d.None? || d.value == ""
    ensures r.Some? ==> d.Some? && |r.value| <= 100 && |r.value| <= |d.value| && r.value == d.value[..|r.value|]
    ensures r.Some? ==> |r.value| == 100 || r.value == d.value
  {
    if d.None? || d.value == "" then None
    else if |d.value| <= 100 then d
    else Some(d.value[..100])
  }

  /** The node type a row declares: `extra_data["node_type"]` when `extra_data` is a non-empty
      object holding that key, else `"experiment"`. */
  function NodeType(x: Experiment): (r: Json)
    ensures x.extraData.Some? && x.extraData.value != [] && HasKey(x.extraData.value, "node_type")
            ==> ("node_type", r) in x.extraData.value
    ensures x.extraData.None? || x.extraData.value == [] || !HasKey(x.extraData.value, "node_type")
            ==> r == JStr("experiment")
  {
    if x.extraData.Some? && x.extraData.value != [] then Get(x.extraData.value, "node_type").GetOr(JStr("experiment"))
    else JStr("experiment")
  }

  datatype OverviewNode = OverviewNode(id: int, title: string, status: ExperimentStatus, nodeType: string, description: Option<string>)
  datatype OverviewEdge = OverviewEdge(id: int, fromId: int, toId: int, relType: string, edgeLabel: Option<string>)

  /** The graph overview: one entry per experiment and one per relationship, in table order;
      every node is typed `"experiment"` and carries only a description preview. */
  function Overview(nodes: seq<Experiment>, edges: seq<Relationship>): (r: (seq<OverviewNode>, seq<OverviewEdge>))
    ensures |r.0| == |nodes| && |r.1| == |edges|
    ensures forall i :: 0 <= i < |nodes| ==>
              r.0[i].id == nodes[i].id && r.0[i].title == nodes[i].title && r.0[i].status == nodes[i].status
              && r.0[i].nodeType == "experiment" && r.0[i].description == Preview(nodes[i].description)
    ensures forall i :: 0 <= i < |edges| ==>
              r.1[i].id == edges[i].id && r.1[i].fromId == edges[i].fromId && r.1[i].toId == edges[i].toId
              && r.1[i].relType == edges[i].relType && r.1[i].edgeLabel == edges[i].edgeLabel
  {
    (seq(|nodes|, i requires 0 <= i < |nodes| =>
       OverviewNode(nodes[i].id, nodes[i].title, nodes[i].status, "experiment", Preview(nodes[i].description))),
     seq(|edges|, i requires 0 <= i < |edges| =>
       OverviewEdge(edges[i].id, edges[i].fromId, edges[i].toId, edges[i].relType, edges[i].edgeLabel)))
  }

  // ---------------------------------------------------------------- node info

  /** `edges[j]` joins `id` to `far` in the given direction. */
  predicate LinkAt(edges: seq<Relationship>, j: int, id: int, far: int, incoming: bool)
  {
    0 <= j < |edges| && Touches(edges[j], id, incoming) && FarEnd(edges[j], incoming) == far
  }

  /** Some relationship joins `id` to `far` in the given direction. */
  predicate IsLink(edges: seq<Relationship>, id: int, far: int, incoming: bool)
  {
    exists j | 0 <= j < |edges| :: LinkAt(edges, j, id, far, incoming)
  }

  /** The type of the first relationship (in table order) joining `id` to `far`. */
  function FirstRelType(edges: seq<Relationship>, id: int, far: int, incoming: bool): (r: Option<string>)
    ensures r.Some? <==> IsLink(edges, id, far, incoming)
    ensures r.Some? ==> exists j :: LinkAt(edges, j, id, far, incoming) && edges[j].relType == r.value
                                   && forall k | 0 <= k < j :: !LinkAt(edges, k, id, far, incoming)
  {
    if edges == [] then None
    else if LinkAt(edges, 0, id, far, incoming) then Some(edges[0].relType)
    else
      var rest := FirstRelType(edges[1..], id, far, incoming);
      assert forall j | 0 < j < |edges| :: LinkAt(edges, j, id, far, incoming) == LinkAt(edges[1..], j - 1, id, far, incoming);
      assert IsLink(edges, id, far, incoming) ==> IsLink(edges[1..], id, far, incoming) by {
        if IsLink(edges, id, far, incoming) {
          var j :| 0 <= j < |edges| && LinkAt(edges, j, id, far, incoming);
          assert edges[1..][j - 1] == edges[j];
          assert LinkAt(edges[1..], j - 1, id, far, incoming);
        }
      }
      assert rest.Some? ==> exists j :: LinkAt(edges, j, id, far, incoming) && edges[j].relType == rest.value
                                        && forall k | 0 <= k < j :: !LinkAt(edges, k, id, far, incoming) by {
        if rest.Some? {
          var j :| 0 <= j < |edges[1..]| && LinkAt(edges[1..], j, id, far, incoming) && edges[1..][j].relType == rest.value
                   && forall k | 0 <= k < j :: !LinkAt(edges[1..], k, id, far, incoming);
          assert edges[1..][j] == edges[j + 1];
          assert LinkAt(edges, j + 1, id, far, incoming);
        }
      }
      rest
  }

  /** A parent or child as the node-info view lists it. */
  datatype Entry = Entry(id: int, title: string, description: Option<string>, relationship: string)

  function EntryOf(n: Experiment, relationship: string): Entry
  {
    Entry(n.id, n.title, Preview(n.description), relationship)
  }

  /** The experiments (in table order) joined to `id` in the given direction, each listed once
      with a description preview and the type of its first joining relationship. */
  function LinkedRows(nodes: seq<Experiment>, edges: seq<Relationship>, id: int, incoming: bool): (r: seq<Entry>)
    ensures |r| <= |nodes|
    ensures forall e | e in r :: FirstRelType(edges, id, e.id, incoming) == Some(e.relationship)
    ensures forall n | n in nodes :: IsLink(edges, id, n.id, incoming) ==> exists e | e in r :: e.id == n.id
  {
    if nodes == [] then []
    else
      var rest := LinkedRows(nodes[1..], edges, id, incoming);
      var p := nodes[0];
      var rel := FirstRelType(edges, id, p.id, incoming);
      var r := if rel.Some? then [EntryOf(p, rel.value)] + rest else rest;
      assert forall n | n in nodes :: IsLink(edges, id, n.id, incoming) ==> exists e | e in r :: e.id == n.id by {
        forall n | n in nodes && IsLink(edges, id, n.id, incoming)
          ensures exists e | e in r :: e.id == n.id
        {
          if n != p {
            assert n in nodes[1..];
            var e :| e in rest && e.id == n.id;
            assert e in r;
          } else {
            assert EntryOf(p, rel.value) in r;
          }
        }
      }
      r
  }

  /** Each listed entry is the preview of a stored experiment. */
  lemma {:induction false} LinkedRowsFromNodes(nodes: seq<Experiment>, edges: seq<Relationship>, id: int, incoming: bool)
    ensures forall e | e in LinkedRows(nodes, edges, id, incoming) ::
              exists i | 0 <= i < |nodes| :: EntryOf(nodes[i], e.relationship) == e
  {
    if nodes != [] {
      LinkedRowsFromNodes(nodes[1..], edges, id, incoming);
      var rest := LinkedRows(nodes[1..], edges, id, incoming);
      var rel := FirstRelType(edges, id, nodes[0].id, incoming);
      assert LinkedRows(nodes, edges, id, incoming) == if rel.Some? then [EntryOf(nodes[0], rel.value)] + rest else rest;
      forall e | e in LinkedRows(nodes, edges, id, incoming)
        ensures exists i | 0 <= i < |nodes| :: EntryOf(nodes[i], e.relationship) == e
      {
        if e in rest {
          var i :| 0 <= i < |nodes[1..]| && EntryOf(nodes[1..][i], e.relationship) == e;
          assert nodes[i + 1] == nodes[1..][i];
        } else {
          assert EntryOf(nodes[0], e.relationship) == e;
        }
      }
    }
  }

  datatype NodeView = NodeView(id: int, title: string, description: Option<string>, status: ExperimentStatus, nodeType: Json)
  datatype NodeInfoView = NodeInfoView(node: NodeView, parents: seq<Entry>, children: seq<Entry>)

  /** The handler of `GET /nodes/{id}`: the node with its parents and children, each list
      only when asked for; 404 when there is no such node. This is the answer the handler
      builds; `GetNodeInfoAsWritten` adds the response-model check the route declares. */
  function GetNodeInfo(nodes: seq<Experiment>, edges: seq<Relationship>, id: int, withParents: bool, withChildren: bool)
    : (r: Result<NodeInfoView, HttpError>)
    ensures r.Err? <==> !HasExperiment(nodes, id)
    ensures r.Err? ==> r.error.code == 404
    ensures r.Ok? ==> var n := FindExperiment(nodes, id).value;
                      r.value.node == NodeView(id, n.title, n.description, n.status, NodeType(n))
    ensures r.Ok? && !withParents ==> r.value.parents == []
    ensures r.Ok? && !withChildren ==> r.value.children == []
    ensures r.Ok? && withParents ==> r.value.parents == LinkedRows(nodes, edges, id, true)
    ensures r.Ok? && withChildren ==> r.value.children == LinkedRows(nodes, edges, id, false)
  {
    match FindExperiment(nodes, id)
    case None => Err(HttpError(404, "Node not found"))
    case Some(x) =>
      Ok(NodeInfoView(
        NodeView(x.id, x.title, x.description, x.status, NodeType(x)),
        if withParents then LinkedRows(nodes, edges, id, true) else [],
        if withChildren then LinkedRows(nodes, edges, id, false) else []))
  }

  /** The keys of the `node` object the handler builds. */
  const NodeViewKeys: set<string> := {"id", "title", "description", "status", "type"}

  /** The keys the route's response model requires of `node`, an `Experiment` schema whose
      other fields all have defaults. */
  const ExperimentSchemaRequired: set<string> := {"id", "created_at", "updated_at"}

  /** `GET /nodes/{id}` as written: FastAPI checks the handler's answer against the declared
      `response_model`, and a missing required field becomes a 500. */
  function GetNodeInfoAsWritten(nodes: seq<Experiment>, edges: seq<Relationship>, id: int, withParents: bool, withChildren: bool)
    : (r: Result<NodeInfoView, HttpError>)
    ensures r.Ok? ==> r == GetNodeInfo(nodes, edges, id, withParents, withChildren)
    ensures r.Err? <==> !HasExperiment(nodes, id) || !(ExperimentSchemaRequired <= NodeViewKeys)
    ensures !HasExperiment(nodes, id) ==> r.Err? && r.error.code == 404
  {
    match GetNodeInfo(nodes, edges, id, withParents, withChildren)
    case Err(e) => Err(e)
    case Ok(v) =>
      if ExperimentSchemaRequired <= NodeViewKeys then Ok(v) else Err(HttpError(500, "Internal Server Error"))
  }

  /** As written, every existing node answers 500: the handler's `node` has no `created_at`
      or `updated_at`. */
  lemma NodeInfoAlways500(nodes: seq<Experiment>, edges: seq<Relationship>, id: int, withParents: bool, withChildren: bool)
    requires HasExperiment(nodes, id)
    ensures GetNodeInfoAsWritten(nodes, edges, id, withParents, withChildren) == Err(HttpError(500, "Internal Server Error"))
  {
    assert "created_at" in ExperimentSchemaRequired && "created_at" !in NodeViewKeys;
  }

  /** A parent listed by the node-info view is the source of a relationship into the node, and
      every stored experiment with a relationship into the node is listed. */
  lemma ParentsAreExactlySources(nodes: seq<Experiment>, edges: seq<Relationship>, id: int, p: Experiment)
    requires HasExperiment(nodes, id) && p in nodes
    ensures var r := GetNodeInfo(nodes, edges, id, true, false);
            r.Ok? && ((exists e | e in r.value.parents :: e.id == p.id)
                      <==> exists e | e in edges :: e.toId == id && e.fromId == p.id)
  {
    var ps := GetNodeInfo(nodes, edges, id, true, false).value.parents;
    if exists e | e in edges :: e.toId == id && e.fromId == p.id {
      var e :| e in edges && e.toId == id && e.fromId == p.id;
      var j :| 0 <= j < |edges| && edges[j] == e;
      assert LinkAt(edges, j, id, p.id, true);
    }
    if exists e | e in ps :: e.id == p.id {
      var e :| e in ps && e.id == p.id;
      assert IsLink(edges, id, p.id, true);
      var j :| 0 <= j < |edges| && LinkAt(edges, j, id, p.id, true);
      assert edges[j] in edges;
    }
  }

  // ---------------------------------------------------------------- routing

  /** A path segment of a route: a literal, or a `{name}` parameter, which matches any
      non-empty segment. */
  datatype Pattern = Literal(text: string) | Param

  predicate PatternMatches(p: Pattern, segment: string)
  {
    if p.Param? then segment != [] && '/' !in segment else p.text == segment
  }

  /** The router: the first route, in registration order, whose pattern matches. */
  function FirstRoute<R>(routes: seq<(Pattern, R)>, segment: string): (r: Option<R>)
    ensures r.None? <==> forall i | 0 <= i < |routes| :: !PatternMatches(routes[i].0, segment)
    ensures r.Some? ==> exists i | 0 <= i < |routes| :: PatternMatches(routes[i].0, segment) && r.value == routes[i].1
                                                       && forall j | 0 <= j < i :: !PatternMatches(routes[j].0, segment)
  {
    if routes == [] then None
    else if PatternMatches(routes[0].0, segment) then Some(routes[0].1)
    else
      var r := FirstRoute(routes[1..], segment);
      assert forall i | 1 <= i < |routes| :: routes[i] == routes[1..][i - 1];
      r
  }

  datatype EdgeDeleteHandler = DeleteById | DeleteByNodes

  /** The DELETE routes under `/edges/` in registration order: `/edges/{edge_id}` first,
      then `/edges/by-nodes`. */
  const EdgeDeleteRoutes: seq<(Pattern, EdgeDeleteHandler)> := [(Param, DeleteById), (Literal("by-nodes"), DeleteByNodes)]

  /** The literal route registered before the parameter route, so that each handler can be reached. */
  const EdgeDeleteRoutesIntended: seq<(Pattern, EdgeDeleteHandler)> := [(Literal("by-nodes"), DeleteByNodes), (Param, DeleteById)]

  /** Validation of `edge_id: int`: an optional sign, then decimal digits. */
  predicate IsIntText(s: string)
  {
    var d := if s != [] && (s[0] == '-' || s[0] == '+') then s[1..] else s;
    d != [] && forall i | 0 <= i < |d| :: '0' <= d[i] <= '9'
  }

  /** Where a DELETE of `/edges/<segment>` goes: the handler of the first matching route, 422
      when that route's `edge_id` is not an integer, 404 when no route matches. */
  function DispatchEdgeDelete(routes: seq<(Pattern, EdgeDeleteHandler)>, segment: string): (r: Result<EdgeDeleteHandler, HttpError>)
    ensures r.Ok? ==> FirstRoute(routes, segment) == Some(r.value)
    ensures r.Err? && r.error.code == 422 <==> FirstRoute(routes, segment) == Some(DeleteById) && !IsIntText(segment)
    ensures r.Err? && r.error.code == 404 <==> FirstRoute(routes, segment).None?
  {
    var route := FirstRoute(routes, segment);
    if route.None? then Err(HttpError(404, "Not Found"))
    else if route.value == DeleteById && !IsIntText(segment) then Err(HttpError(422, "edge_id is not an integer"))
    else Ok(route.value)
  }

  /** Every character of an integer text is a sign or a digit. */
  lemma IntTextChar(s: string, i: int)
    requires IsIntText(s) && 0 <= i < |s|
    ensures s[i] == '-' || s[i] == '+' || '0' <= s[i] <= '9'
  {
    if s[0] == '-' || s[0] == '+' {
      if i > 0 {
        assert s[i] == s[1..][i - 1];
      }
    }
  }

  /** As registered, `DELETE /edges/by-nodes` reaches the by-id route and fails validation
      with 422, and no segment reaches the by-nodes handler. */
  lemma ByNodesIsShadowed()
    ensures DispatchEdgeDelete(EdgeDeleteRoutes, "by-nodes") == Err(HttpError(422, "edge_id is not an integer"))
    ensures forall segment :: DispatchEdgeDelete(EdgeDeleteRoutes, segment) != Ok(DeleteByNodes)
  {
    if IsIntText("by-nodes") {
      IntTextChar("by-nodes", 0);
    }
    forall segment ensures DispatchEdgeDelete(EdgeDeleteRoutes, segment) != Ok(DeleteByNodes) {
      if PatternMatches(Literal("by-nodes"), segment) {
        assert PatternMatches(Param, segment);
      }
    }
  }

  /** With the literal route first, "by-nodes" reaches its handler and an integer id still
      reaches the by-id handler. */
  lemma IntendedRouting(segment: string)
    ensures segment == "by-nodes" ==> DispatchEdgeDelete(EdgeDeleteRoutesIntended, segment) == Ok(DeleteByNodes)
    ensures IsIntText(segment) ==> DispatchEdgeDelete(EdgeDeleteRoutesIntended, segment) == Ok(DeleteById)
  {
    if IsIntText(segment) {
      IntTextChar(segment, 0);
      forall i | 0 <= i < |segment| ensures segment[i] != '/' {
        IntTextChar(segment, i);
      }
      assert segment[0] != "by-nodes"[0];
      var routes := EdgeDeleteRoutesIntended;
      assert !PatternMatches(routes[0].0, segment) && PatternMatches(routes[1..][0].0, segment);
      assert FirstRoute(routes[1..], segment) == Some(DeleteById);
    }
  }

  // ---------------------------------------------------------------- edges by endpoints

  /** The edge filter: both endpoints, and the label only when one is given and non-empty. */
  predicate EdgeMatches(e: Relationship, fromId: int, toId: int, edgeLabel: Option<string>)
  {
    e.fromId == fromId && e.toId == toId && (edgeLabel.None? || edgeLabel.value == "" || e.edgeLabel == edgeLabel)
  }

  /** `edges[i]` is the first edge in table order that matches. */
  predicate FirstMatchAt(edges: seq<Relationship>, i: int, fromId: int, toId: int, edgeLabel: Option<string>)
  {
    0 <= i < |edges| && EdgeMatches(edges[i], fromId, toId, edgeLabel)
    && forall j | 0 <= j < i :: !EdgeMatches(edges[j], fromId, toId, edgeLabel)
  }

  /** `find_edge_by_nodes`: the first matching edge in table order. */
  function FindEdgeByNodes(edges: seq<Relationship>, fromId: int, toId: int, edgeLabel: Option<string>)
    : (r: Option<Relationship>)
    ensures r.None? <==> forall e | e in edges :: !EdgeMatches(e, fromId, toId, edgeLabel)
    ensures r.Some? ==> exists i :: FirstMatchAt(edges, i, fromId, toId, edgeLabel) && edges[i] == r.value
  {
    if edges == [] then None
    else if EdgeMatches(edges[0], fromId, toId, edgeLabel) then Some(edges[0])
    else
      var rest := FindEdgeByNodes(edges[1..], fromId, toId, edgeLabel);
      assert forall e | e in edges :: e == edges[0] || e in edges[1..];
      assert rest.Some? ==> exists i :: FirstMatchAt(edges, i, fromId, toId, edgeLabel) && edges[i] == rest.value by {
        if rest.Some? {
          var i :| 0 <= i < |edges[1..]| && FirstMatchAt(edges[1..], i, fromId, toId, edgeLabel) && edges[1..][i] == rest.value;
          assert forall j | 0 < j <= i + 1 :: edges[j] == edges[1..][j - 1];
          assert FirstMatchAt(edges, i + 1, fromId, toId, edgeLabel);
        }
      }
      rest
  }

  /** Without a label (or with an empty one) the label of the stored edges plays no part. */
  lemma {:induction false} EmptyLabelIgnored(edges: seq<Relationship>, fromId: int, toId: int)
    ensures FindEdgeByNodes(edges, fromId, toId, Some("")) == FindEdgeByNodes(edges, fromId, toId, None)
  {
    if edges != [] {
      EmptyLabelIgnored(edges[1..], fromId, toId);
    }
  }

  // ---------------------------------------------------------------- the subgraph walk

  /** The targets of the relationships leaving `v`. */
  function Children(edges: seq<Relationship>, v: int): set<int>
  {
    set e | e in edges && e.fromId == v :: e.toId
  }

  /** Every relationship leaving a member of `s` ends in `s`. */
  predicate Closed(edges: seq<Relationship>, s: set<int>)
  {
    forall e | e in edges :: e.fromId in s ==> e.toId in s
  }

  /** `s` is the set of nodes reachable from `start`: the least set holding `start` and closed
      under the relationships. */
  ghost predicate IsSubgraph(edges: seq<Relationship>, start: int, s: set<int>)
  {
    start in s && Closed(edges, s) && forall t | start in t && Closed(edges, t) :: s <= t
  }

  /** The subgraph of a node is unique. */
  lemma SubgraphUnique(edges: seq<Relationship>, start: int, s: set<int>, t: set<int>)
    requires IsSubgraph(edges, start, s) && IsSubgraph(edges, start, t)
    ensures s == t
  {
    assert s <= t && t <= s;
  }

  /** `collect_subgraph_nodes`: the worklist walk from `start` along outgoing relationships. It
      ends on every graph, cycles included, since each step either visits a new node among
      the finitely many the relationships name or shrinks the worklist. */
  method CollectSubgraph(edges: seq<Relationship>, start: int) returns (visited: set<int>)
    ensures start in visited
    ensures Closed(edges, visited)
    ensures forall t | start in t && Closed(edges, t) :: visited <= t
  {
    var toVisit := {start};
    visited := {};
    ghost var named := {start} + set e | e in edges :: e.toId;
    while toVisit != {}
      invariant visited + toVisit <= named
      invariant start in visited + toVisit
      invariant forall v | v in visited :: Children(edges, v) <= visited + toVisit
      invariant forall t | start in t && Closed(edges, t) :: visited + toVisit <= t
      decreases |named - visited|, |toVisit|
    {
      var current :| current in toVisit;
      toVisit := toVisit - {current};
      if current in visited {
        continue;
      }
      assert named - (visited + {current}) < named - visited;
      visited := visited + {current};
      toVisit := toVisit + Children(edges, current);
    }
    forall e | e in edges && e.fromId in visited
      ensures e.toId in visited
    {
      assert e.toId in Children(edges, e.fromId);
    }
  }

  // ---------------------------------------------------------------- table filters

  /** The experiments whose id is outside `gone`, in table order. */
  function NodesOutside(nodes: seq<Experiment>, gone: set<int>): (r: seq<Experiment>)
    ensures forall n :: n in r <==> n in nodes && n.id !in gone
    ensures UniqueIds(nodes) ==> UniqueIds(r)
  {
    if nodes == [] then []
    else
      var rest := NodesOutside(nodes[1..], gone);
      assert forall n | n in nodes :: n == nodes[0] || n in nodes[1..];
      if nodes[0].id in gone then rest
      else
        assert UniqueIds(nodes) ==> UniqueIds([nodes[0]] + rest) by {
          if UniqueIds(nodes) {
            UniqueIdsTail(nodes);
            UniqueIdsCons(nodes[0], rest);
          }
        }
        [nodes[0]] + rest
  }

  /** The relationships with neither end in `gone`, in table order. */
  function EdgesOutside(edges: seq<Relationship>, gone: set<int>): (r: seq<Relationship>)
    ensures forall e :: e in r <==> e in edges && e.fromId !in gone && e.toId !in gone
    ensures UniqueEdgeIds(edges) ==> UniqueEdgeIds(r)
  {
    if edges == [] then []
    else
      var rest := EdgesOutside(edges[1..], gone);
      assert forall e | e in edges :: e == edges[0] || e in edges[1..];
      if edges[0].fromId in gone || edges[0].toId in gone then rest
      else
        assert UniqueEdgeIds(edges) ==> UniqueEdgeIds([edges[0]] + rest) by {
          if UniqueEdgeIds(edges) {
            UniqueEdgeIdsTail(edges);
            UniqueEdgeIdsCons(edges[0], rest);
          }
        }
        [edges[0]] + rest
  }

  /** The relationships whose id is not `id`, in table order. */
  function EdgesWithoutId(edges: seq<Relationship>, id: int): (r: seq<Relationship>)
    ensures forall e :: e in r <==> e in edges && e.id != id
    ensures |r| <= |edges|
    ensures UniqueEdgeIds(edges) ==> UniqueEdgeIds(r)
  {
    if edges == [] then []
    else
      var rest := EdgesWithoutId(edges[1..], id);
      assert forall e | e in edges :: e == edges[0] || e in edges[1..];
      if edges[0].id == id then rest
      else
        assert UniqueEdgeIds(edges) ==> UniqueEdgeIds([edges[0]] + rest) by {
          if UniqueEdgeIds(edges) {
            UniqueEdgeIdsTail(edges);
            UniqueEdgeIdsCons(edges[0], rest);
          }
        }
        [edges[0]] + rest
  }

  /** With no relationship of that id, every relationship is kept. */
  lemma {:induction false} WithoutAbsentId(edges: seq<Relationship>, id: int)
    requires forall e | e in edges :: e.id != id
    ensures EdgesWithoutId(edges, id) == edges
  {
    if edges != [] {
      assert edges[0] in edges;
      WithoutAbsentId(edges[1..], id);
      assert edges == [edges[0]] + edges[1..];
    }
  }

  /** With a relationship of that id, at least one relationship goes. */
  lemma {:induction false} WithoutPresentId(edges: seq<Relationship>, id: int)
    requires exists e | e in edges :: e.id == id
    ensures |EdgesWithoutId(edges, id)| < |edges|
  {
    if edges[0].id != id {
      var e :| e in edges && e.id == id;
      assert e in edges[1..];
      WithoutPresentId(edges[1..], id);
    }
  }

  /** Some relationship leaves `id`. */
  /** Dropping a set of nodes and the relationships touching them keeps the ids unique and
      below the next relationship id. */
  lemma OutsideKeepsValid(nodes: seq<Experiment>, edges: seq<Relationship>, gone: set<int>, nextEdgeId: int)
    requires UniqueIds(nodes) && UniqueEdgeIds(edges) && forall e | e in edges :: e.id < nextEdgeId
    ensures UniqueIds(NodesOutside(nodes, gone)) && UniqueEdgeIds(EdgesOutside(edges, gone))
    ensures forall e | e in EdgesOutside(edges, gone) :: e.id < nextEdgeId
  {
  }

  predicate HasChildren(edges: seq<Relationship>, id: int)
  {
    exists e | e in edges :: e.fromId == id
  }

  // ---------------------------------------------------------------- node updates

  /** The fields a PATCH request set explicitly. A nullable column takes `Some(None)` to be
      cleared. */
  datatype NodePatch = NodePatch(
    title: Option<string>,
    description: Option<Option<string>>,
    motivation: Option<string>,
    expectations: Option<string>,
    status: Option<ExperimentStatus>,
    hypothesis: Option<Option<string>>,
    result: Option<Option<string>>,
    extraData: Option<Option<JsonObject>>)

  /** The new `extra_data`: the update is merged into the stored object when both are
      non-empty, otherwise it replaces it. */
  function MergeExtra(stored: Option<JsonObject>, update: Option<JsonObject>): (r: Option<JsonObject>)
    ensures stored.Some? && stored.value != [] && update.Some? && update.value != [] ==>
              r.Some? && forall k :: Get(r.value, k) == (if HasKey(update.value, k) then LastGet(update.value, k) else Get(stored.value, k))
    ensures stored.None? || stored.value == [] || update.None? || update.value == [] ==> r == update
  {
    if stored.Some? && stored.value != [] && update.Some? && update.value != [] then
      var merged := Update(stored.value, update.value);
      assert forall k :: Get(merged, k) == (if HasKey(update.value, k) then LastGet(update.value, k) else Get(stored.value, k)) by {
        forall k ensures Get(merged, k) == (if HasKey(update.value, k) then LastGet(update.value, k) else Get(stored.value, k)) {
          UpdateGet(stored.value, update.value, k);
        }
      }
      Some(merged)
    else update
  }

  /** The row after the patch: each explicitly set field takes its new value, every other field
      and the id keep theirs. */
  function Patched(x: Experiment, p: NodePatch): (r: Experiment)
    ensures r.id == x.id
    ensures r.title == p.title.GetOr(x.title) && r.motivation == p.motivation.GetOr(x.motivation)
    ensures r.expectations == p.expectations.GetOr(x.expectations) && r.status == p.status.GetOr(x.status)
    ensures r.description == p.description.GetOr(x.description) && r.hypothesis == p.hypothesis.GetOr(x.hypothesis)
    ensures r.result == p.result.GetOr(x.result)
    ensures r.extraData == (if p.extraData.Some? then MergeExtra(x.extraData, p.extraData.value) else x.extraData)
  {
    x.(title := p.title.GetOr(x.title),
       description := p.description.GetOr(x.description),
       motivation := p.motivation.GetOr(x.motivation),
       expectations := p.expectations.GetOr(x.expectations),
       status := p.status.GetOr(x.status),
       hypothesis := p.hypothesis.GetOr(x.hypothesis),
       result := p.result.GetOr(x.result),
       extraData := if p.extraData.Some? then MergeExtra(x.extraData, p.extraData.value) else x.extraData)
  }

  /** An empty patch changes nothing. */
  lemma EmptyPatchIsIdentity(x: Experiment)
    ensures Patched(x, NodePatch(None, None, None, None, None, None, None, None)) == x
  {
  }

  // ---------------------------------------------------------------- the store

  /** The experiment and relationship tables. Relationship ids come from an auto-increment
      counter. */
  class GraphStore {
    var nodes: seq<Experiment>
    var edges: seq<Relationship>
    var nextEdgeId: int

    /** Primary keys are unique and every relationship id is below the counter. */
    ghost predicate Valid()
      reads this
    {
      UniqueIds(nodes) && UniqueEdgeIds(edges) && forall e | e in edges :: e.id < nextEdgeId
    }

    constructor (nodes0: seq<Experiment>)
      requires UniqueIds(nodes0)
      ensures Valid() && nodes == nodes0 && edges == []
    {
      nodes := nodes0;
      edges := [];
      nextEdgeId := 1;
    }

    /** `PATCH /nodes/{id}`: 404 when the node is missing; otherwise only that row changes,
        to the patched row, which is returned. */
    method UpdateNode(id: int, patch: NodePatch) returns (r: Result<Experiment, HttpError>)
      requires Valid()
      modifies this
      ensures Valid() && edges == old(edges) && nextEdgeId == old(nextEdgeId)
      ensures r.Err? <==> !HasExperiment(old(nodes), id)
      ensures r.Err? ==> r.error == HttpError(404, "Node not found") && nodes == old(nodes)
      ensures r.Ok? ==> r.value.id == id && r.value in nodes
      ensures |nodes| == |old(nodes)|
      ensures forall i | 0 <= i < |nodes| ::
                nodes[i] == if old(nodes)[i].id == id then Patched(old(nodes)[i], patch) else old(nodes)[i]
    {
      var i := 0;
      while i < |nodes| && nodes[i].id != id
        invariant 0 <= i <= |nodes|
        invariant forall k | 0 <= k < i :: nodes[k].id != id
      {
        i := i + 1;
      }
      if i == |nodes| {
        return Err(HttpError(404, "Node not found"));
      }
      var row := Patched(nodes[i], patch);
      nodes := nodes[i := row];
      assert nodes[i] == row;
      r := Ok(row);
    }

    /** `DELETE /nodes/{id}`. 404 when the node is missing and 400 when it has children but
        the delete is not forced, both leaving the tables unchanged. A forced delete removes
        the node's whole subgraph and every relationship touching it; a plain one removes the
        node and its relationships. Nothing else is touched. */
    method DeleteNode(id: int, force: bool) returns (r: Result<(), HttpError>)
      requires Valid()
      modifies this
      ensures Valid() && nextEdgeId == old(nextEdgeId)
      ensures r.Ok? <==> HasExperiment(old(nodes), id) && (force || !HasChildren(old(edges), id))
      ensures !HasExperiment(old(nodes), id) ==> r == Err(HttpError(404, "Node not found"))
      ensures HasExperiment(old(nodes), id) && HasChildren(old(edges), id) && !force ==> r.Err? && r.error.code == 400
      ensures r.Err? ==> nodes == old(nodes) && edges == old(edges)
      ensures r.Ok? && force ==> exists sub :: IsSubgraph(old(edges), id, sub)
                                  && nodes == NodesOutside(old(nodes), sub) && edges == EdgesOutside(old(edges), sub)
      ensures r.Ok? && !force ==> nodes == NodesOutside(old(nodes), {id}) && edges == EdgesOutside(old(edges), {id})
    {
      if FindExperiment(nodes, id).None? {
        return Err(HttpError(404, "Node not found"));
      }
      if HasChildren(edges, id) && !force {
        return Err(HttpError(400, "Node has children. Set force_delete=True to delete node and its subgraph"));
      }
      var gone := {id};
      if force {
        gone := CollectSubgraph(edges, id);
        assert IsSubgraph(edges, id, gone);
      }
      OutsideKeepsValid(nodes, edges, gone, nextEdgeId);
      nodes := NodesOutside(nodes, gone);
      edges := EdgesOutside(edges, gone);
      r := Ok(());
    }

    /** `POST /edges`: 404 unless both endpoints exist; otherwise one relationship with a
        fresh id is appended. Duplicates and cycles are not checked. */
    method CreateEdge(fromId: int, toId: int, relType: string, edgeLabel: Option<string>, extraData: Option<JsonObject>)
      returns (r: Result<Relationship, HttpError>)
      requires Valid()
      modifies this
      ensures Valid() && nodes == old(nodes)
      ensures r.Err? <==> !(HasExperiment(nodes, fromId) && HasExperiment(nodes, toId))
      ensures r.Err? ==> r.error == HttpError(404, "One or both nodes not found") && edges == old(edges)
      ensures r.Ok? ==> edges == old(edges) + [r.value]
                        && r.value == Relationship(r.value.id, fromId, toId, relType, edgeLabel, extraData)
                        && forall e | e in old(edges) :: e.id != r.value.id
    {
      if FindExperiment(nodes, fromId).None? || FindExperiment(nodes, toId).None? {
        return Err(HttpError(404, "One or both nodes not found"));
      }
      var edge := Relationship(nextEdgeId, fromId, toId, relType, edgeLabel, extraData);
      edges := edges + [edge];
      nextEdgeId := nextEdgeId + 1;
      r := Ok(edge);
    }

    /** `DELETE /edges/{id}`: removes the relationship with that id, or answers 404 when
        there is none. */
    method DeleteEdgeById(id: int) returns (r: Result<(), HttpError>)
      requires Valid()
      modifies this
      ensures Valid() && nodes == old(nodes) && nextEdgeId == old(nextEdgeId)
      ensures r.Err? <==> forall e | e in old(edges) :: e.id != id
      ensures r.Err? ==> r.error == HttpError(404, "Edge not found")
      ensures edges == EdgesWithoutId(old(edges), id)
    {
      var kept := EdgesWithoutId(edges, id);
      if forall e | e in edges :: e.id != id {
        WithoutAbsentId(edges, id);
      } else {
        WithoutPresentId(edges, id);
      }
      if |kept| == |edges| {
        return Err(HttpError(404, "Edge not found"));
      }
      edges := kept;
      r := Ok(());
    }

    /** The handler of `DELETE /edges/by-nodes`: removes the first relationship matching the
        endpoints (and the label, when one is given), or answers 404. As registered, the
        route never reaches it (`ByNodesIsShadowed`). */
    method DeleteEdgeByNodes(fromId: int, toId: int, edgeLabel: Option<string>) returns (r: Result<(), HttpError>)
      requires Valid()
      modifies this
      ensures Valid() && nodes == old(nodes) && nextEdgeId == old(nextEdgeId)
      ensures r.Err? <==> FindEdgeByNodes(old(edges), fromId, toId, edgeLabel).None?
      ensures r.Ok? ==> edges == EdgesWithoutId(old(edges), FindEdgeByNodes(old(edges), fromId, toId, edgeLabel).value.id)
      ensures r.Err? ==> edges == old(edges)
    {
      var found := FindEdgeByNodes(edges, fromId, toId, edgeLabel);
      if found.None? {
        return Err(HttpError(404, "Edge not found"));
      }
      r := DeleteEdgeById(found.value.id);
    }
  }
}
