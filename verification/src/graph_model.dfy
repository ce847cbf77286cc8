/** The research graph's tables (backend/app/models/experiment.py): experiments and the
    directed relationships between them. A table is a sequence of rows in storage order. */
module GraphModel {
  import opened Common
  import opened Json

  datatype ExperimentStatus = Planned | InProgress | Completed

  /** The stored enumeration value. */
  function StatusValue(s: ExperimentStatus): string
  {
    match s
    case Planned => "planned"
    case InProgress => "in_progress"
    case Completed => "completed"
  }

  /** A JSON object, as the `extra_data` columns hold it. */
  type JsonObject = seq<(string, Json)>

  datatype Experiment = Experiment(
    id: int,
    title: string,
    description: Option<string>,
    motivation: string,
    expectations: string,
    status: ExperimentStatus,
    hypothesis: Option<string>,
    result: Option<string>,
    extraData: Option<JsonObject>)

  datatype Relationship = Relationship(
    id: int,
    fromId: int,
    toId: int,
    relType: string,
    edgeLabel: Option<string>,
    extraData: Option<JsonObject>)

  /** `db.get(Experiment, id)`: the row with that primary key, if any. */
  function FindExperiment(nodes: seq<Experiment>, id: int): (r: Option<Experiment>)
    ensures r.Some? <==> exists i :: 0 <= i < |nodes| && nodes[i].id == id
    ensures r.Some? ==> r.value in nodes && r.value.id == id
  {
    if nodes == [] then None
    else if nodes[0].id == id then Some(nodes[0])
    else
      var rest := FindExperiment(nodes[1..], id);
      assert forall i :: 0 < i < |nodes| ==> nodes[i] == nodes[1..][i - 1];
      rest
  }

  predicate HasExperiment(nodes: seq<Experiment>, id: int)
  {
    exists i :: 0 <= i < |nodes| && nodes[i].id == id
  }

  /** Primary keys are unique. */
  predicate UniqueIds(nodes: seq<Experiment>)
  {
    forall i, j :: 0 <= i < j < |nodes| ==> nodes[i].id != nodes[j].id
  }

  predicate UniqueEdgeIds(edges: seq<Relationship>)
  {
    forall i, j :: 0 <= i < j < |edges| ==> edges[i].id != edges[j].id
  }

  lemma UniqueIdsCons(x: Experiment, rest: seq<Experiment>)
    requires UniqueIds(rest) && forall n | n in rest :: n.id != x.id
    ensures UniqueIds([x] + rest)
  {
    var s := [x] + rest;
    forall i, j | 0 <= i < j < |s|
      ensures s[i].id != s[j].id
    {
      assert s[j] == rest[j - 1];
      if i > 0 {
        assert s[i] == rest[i - 1];
      } else {
        assert rest[j - 1] in rest;
      }
    }
  }

  lemma UniqueIdsTail(nodes: seq<Experiment>)
    requires UniqueIds(nodes) && nodes != []
    ensures UniqueIds(nodes[1..]) && forall n | n in nodes[1..] :: n.id != nodes[0].id
  {
    forall n | n in nodes[1..]
      ensures n.id != nodes[0].id
    {
      var i :| 0 <= i < |nodes[1..]| && nodes[1..][i] == n;
      assert nodes[i + 1] == n;
    }
  }

  lemma UniqueEdgeIdsCons(x: Relationship, rest: seq<Relationship>)
    requires UniqueEdgeIds(rest) && forall e | e in rest :: e.id != x.id
    ensures UniqueEdgeIds([x] + rest)
  {
    var s := [x] + rest;
    forall i, j | 0 <= i < j < |s|
      ensures s[i].id != s[j].id
    {
      assert s[j] == rest[j - 1];
      if i > 0 {
        assert s[i] == rest[i - 1];
      } else {
        assert rest[j - 1] in rest;
      }
    }
  }

  lemma UniqueEdgeIdsTail(edges: seq<Relationship>)
    requires UniqueEdgeIds(edges) && edges != []
    ensures UniqueEdgeIds(edges[1..]) && forall e | e in edges[1..] :: e.id != edges[0].id
  {
    forall e | e in edges[1..]
      ensures e.id != edges[0].id
    {
      var i :| 0 <= i < |edges[1..]| && edges[1..][i] == e;
      assert edges[i + 1] == e;
    }
  }

  /** Whether `rel` ends at `id` (incoming) or starts at it (outgoing): parents of a node
      are found along incoming edges, children along outgoing ones. */
  predicate Touches(rel: Relationship, id: int, incoming: bool)
  {
    if incoming then rel.toId == id else rel.fromId == id
  }

  /** The other end of `rel`: its source for an incoming edge, its target otherwise. */
  function FarEnd(rel: Relationship, incoming: bool): int
  {
    if incoming then rel.fromId else rel.toId
  }
}
