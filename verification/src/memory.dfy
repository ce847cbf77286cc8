/** Research-context assembly for a node (backend/services/memory.py): node info from the
    public node endpoint, or from the database when that call fails, condensed into the
    context the proposer and the scorer read. */
module Memory {
  import opened Common
  import opened GraphModel

  /** The fields of the node itself that the context reads; `None` is a missing or null key. */
  datatype NodeFields = NodeFields(
    title: string,
    description: Option<string>,
    motivation: Option<string>,
    expectations: Option<string>,
    hypothesis: Option<string>)

  /** A parent or child entry. */
  datatype Linked = Linked(id: int, title: Option<string>, description: Option<string>, relationship: Option<string>)

  datatype NodeInfo = NodeInfo(node: NodeFields, parents: seq<Linked>, children: seq<Linked>)

  /** The context handed to the proposer and the relevance heuristic. */
  datatype ResearchContext = ResearchContext(
    problem: string,
    description: Option<string>,
    motivation: Option<string>,
    expectations: Option<string>,
    hypothesis: Option<string>,
    parents: seq<string>,
    children: seq<string>,
    methodsAliases: seq<string>,
    datasetsMetrics: seq<string>)

  // ---------------------------------------------------------------- database path

  /** One entry per relationship touching `id` (in table order) whose far end still exists. */
  function LinkedDb(nodes: seq<Experiment>, rels: seq<Relationship>, id: int, incoming: bool): (r: seq<Linked>)
    ensures |r| <= |rels|
    ensures forall e :: e in r ==> exists i :: (0 <= i < |rels| && Touches(rels[i], id, incoming)
                                                && e.id == FarEnd(rels[i], incoming) && e.relationship == Some(rels[i].relType)
                                                && HasExperiment(nodes, e.id) && e.title == Some(FindExperiment(nodes, e.id).value.title))
  {
    if rels == [] then []
    else
      var front := LinkedDb(nodes, rels[..|rels| - 1], id, incoming);
      var rel := rels[|rels| - 1];
      var far := FindExperiment(nodes, FarEnd(rel, incoming));
      assert forall i :: 0 <= i < |rels| - 1 ==> rels[..|rels| - 1][i] == rels[i];
      if Touches(rel, id, incoming) && far.Some? then
        front + [Linked(far.value.id, Some(far.value.title), far.value.description, Some(rel.relType))]
      else front
  }

  /** The relationships touching `id` whose far end exists. */
  function CountLinkable(nodes: seq<Experiment>, rels: seq<Relationship>, id: int, incoming: bool): nat
  {
    if rels == [] then 0
    else
      var rel := rels[|rels| - 1];
      CountLinkable(nodes, rels[..|rels| - 1], id, incoming)
        + (if Touches(rel, id, incoming) && HasExperiment(nodes, FarEnd(rel, incoming)) then 1 else 0)
  }

  /** Each relationship touching the node whose far end exists contributes exactly one entry;
      a relationship whose far end was deleted contributes none. */
  lemma {:induction false} LinkedDbCount(nodes: seq<Experiment>, rels: seq<Relationship>, id: int, incoming: bool)
    ensures |LinkedDb(nodes, rels, id, incoming)| == CountLinkable(nodes, rels, id, incoming)
  {
    if rels != [] {
      LinkedDbCount(nodes, rels[..|rels| - 1], id, incoming);
    }
  }

  function FieldsOf(e: Experiment): NodeFields
  {
    NodeFields(e.title, e.description, Some(e.motivation), Some(e.expectations), e.hypothesis)
  }

  /** The database view of a node: `None` when the node does not exist. */
  function NodeInfoFromDb(nodes: seq<Experiment>, rels: seq<Relationship>, id: int, withParents: bool, withChildren: bool): Option<NodeInfo>
  {
    var node := FindExperiment(nodes, id);
    if node.None? then None
    else Some(NodeInfo(
      FieldsOf(node.value),
      if withParents then LinkedDb(nodes, rels, id, true) else [],
      if withChildren then LinkedDb(nodes, rels, id, false) else []))
  }

  /** `_get_node_info_db`: scans the relationship table once per direction. */
  method NodeInfoDb(nodes: seq<Experiment>, rels: seq<Relationship>, id: int, withParents: bool, withChildren: bool)
    returns (r: Option<NodeInfo>)
    ensures r == NodeInfoFromDb(nodes, rels, id, withParents, withChildren)
    ensures r.None? <==> !HasExperiment(nodes, id)
  {
    var node := FindExperiment(nodes, id);
    if node.None? {
      return None;
    }
    var parents: seq<Linked> := [];
    var children: seq<Linked> := [];
    if withParents {
      parents := CollectLinked(nodes, rels, id, true);
    }
    if withChildren {
      children := CollectLinked(nodes, rels, id, false);
    }
    r := Some(NodeInfo(FieldsOf(node.value), parents, children));
  }

  method CollectLinked(nodes: seq<Experiment>, rels: seq<Relationship>, id: int, incoming: bool) returns (out: seq<Linked>)
    ensures out == LinkedDb(nodes, rels, id, incoming)
  {
    out := [];
    var i := 0;
    while i < |rels|
      invariant 0 <= i <= |rels|
      invariant out == LinkedDb(nodes, rels[..i], id, incoming)
    {
      var rel := rels[i];
      var far := FindExperiment(nodes, FarEnd(rel, incoming));
      assert rels[..i + 1][..i] == rels[..i];
      if Touches(rel, id, incoming) && far.Some? {
        out := out + [Linked(far.value.id, Some(far.value.title), far.value.description, Some(rel.relType))];
      }
      i := i + 1;
    }
    assert rels[..i] == rels;
  }

  // ---------------------------------------------------------------- context

  /** A one-line brief: the title, followed by the relationship in parentheses when there is one. */
  function BriefLine(e: Linked): string
  {
    var t := e.title.GetOr("");
    var rel := e.relationship.GetOr("");
    if rel == "" then t else t + " (" + rel + ")"
  }

  /** `_brief`: one brief per entry, in order. */
  method Brief(items: seq<Linked>) returns (out: seq<string>)
    ensures |out| == |items|
    ensures forall i :: 0 <= i < |items| ==> out[i] == BriefLine(items[i])
  {
    out := [];
    var i := 0;
    while i < |items|
      invariant 0 <= i <= |items|
      invariant |out| == i
      invariant forall j :: 0 <= j < i ==> out[j] == BriefLine(items[j])
    {
      out := out + [BriefLine(items[i])];
      i := i + 1;
    }
  }

  /** What `get_node_context` promises of a context built from `info`: the problem is the
      node's title, the four text fields are the node's, there is one brief per parent and
      per child, in order, and the alias and dataset lists are empty. */
  predicate Condenses(info: NodeInfo, c: ResearchContext)
  {
    && c.problem == info.node.title
    && c.description == info.node.description
    && c.motivation == info.node.motivation
    && c.expectations == info.node.expectations
    && c.hypothesis == info.node.hypothesis
    && |c.parents| == |info.parents|
    && (forall i :: 0 <= i < |info.parents| ==> c.parents[i] == BriefLine(info.parents[i]))
    && |c.children| == |info.children|
    && (forall i :: 0 <= i < |info.children| ==> c.children[i] == BriefLine(info.children[i]))
    && c.methodsAliases == [] && c.datasetsMetrics == []
  }

  function ContextOf(info: NodeInfo): (r: ResearchContext)
    ensures Condenses(info, r)
  {
    var n := info.node;
    ResearchContext(
      n.title, n.description, n.motivation, n.expectations, n.hypothesis,
      seq(|info.parents|, i requires 0 <= i < |info.parents| => BriefLine(info.parents[i])),
      seq(|info.children|, i requires 0 <= i < |info.children| => BriefLine(info.children[i])),
      [], [])
  }

  /** The context of a node, from the endpoint's answer when there is one, else from the database. */
  function NodeContext(api: Option<NodeInfo>, nodes: seq<Experiment>, rels: seq<Relationship>, id: int): (r: Option<ResearchContext>)
    ensures api.Some? ==> r.Some?
    ensures api.None? ==> (r.None? <==> !HasExperiment(nodes, id))
    ensures r.Some? ==> r.value.methodsAliases == [] && r.value.datasetsMetrics == []
    ensures api.Some? ==> Condenses(api.value, r.value)
    ensures api.None? && r.Some? ==> Condenses(NodeInfoFromDb(nodes, rels, id, true, true).value, r.value)
    ensures api.None? && r.Some? ==>
      var e := FindExperiment(nodes, id).value;
      && r.value.problem == e.title && r.value.description == e.description
      && r.value.motivation == Some(e.motivation) && r.value.expectations == Some(e.expectations)
      && r.value.hypothesis == e.hypothesis
      && |r.value.parents| == CountLinkable(nodes, rels, id, true)
      && |r.value.children| == CountLinkable(nodes, rels, id, false)
  {
    var info := if api.Some? then api else NodeInfoFromDb(nodes, rels, id, true, true);
    LinkedDbCount(nodes, rels, id, true);
    LinkedDbCount(nodes, rels, id, false);
    if info.None? then None else Some(ContextOf(info.value))
  }

  /** `get_node_context`: the endpoint is preferred; the database is read only when the endpoint
      call fails (`api == None`), and then a missing node is an error (`None`). */
  method GetNodeContext(api: Option<NodeInfo>, nodes: seq<Experiment>, rels: seq<Relationship>, id: int)
    returns (r: Option<ResearchContext>)
    ensures r == NodeContext(api, nodes, rels, id)
    ensures r.Some? ==> |r.value.parents| == |(if api.Some? then api.value else NodeInfoFromDb(nodes, rels, id, true, true).value).parents|
  {
    var info := api;
    if info.None? {
      info := NodeInfoDb(nodes, rels, id, true, true);
      if info.None? {
        return None;
      }
    }
    var parents := Brief(info.value.parents);
    var children := Brief(info.value.children);
    var n := info.value.node;
    assert parents == ContextOf(info.value).parents;
    assert children == ContextOf(info.value).children;
    r := Some(ResearchContext(n.title, n.description, n.motivation, n.expectations, n.hypothesis, parents, children, [], []));
  }
}
