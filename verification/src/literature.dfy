/** The literature endpoints (backend/app/api/endpoints/literature.py): links attached to
    experiment nodes, kept in the literature table (backend/app/models/literature.py). */
module Literature {
  import opened Common
  import opened GraphModel

  datatype LiteratureRow = LiteratureRow(id: int, link: string, experimentId: int)

  /** The links of the rows attached to `nodeId`, in table order. */
  function LinksOf(rows: seq<LiteratureRow>, nodeId: int): (r: seq<string>)
    ensures |r| <= |rows|
    ensures forall l :: l in r <==> exists row | row in rows :: row.experimentId == nodeId && row.link == l
  {
    if rows == [] then []
    else
      var rest := LinksOf(rows[1..], nodeId);
      assert forall row | row in rows :: row == rows[0] || row in rows[1..];
      if rows[0].experimentId == nodeId then [rows[0].link] + rest else rest
  }

  /** The rows attached to `nodeId` with link `link`. */
  predicate Matches(row: LiteratureRow, nodeId: int, link: string)
  {
    row.experimentId == nodeId && row.link == link
  }

  /** The rows other than those attached to `nodeId` with link `link`, in table order. */
  function RowsWithout(rows: seq<LiteratureRow>, nodeId: int, link: string): (r: seq<LiteratureRow>)
    ensures forall row :: row in r <==> row in rows && !Matches(row, nodeId, link)
    ensures (forall row | row in rows :: !Matches(row, nodeId, link)) ==> r == rows
    ensures (exists row | row in rows :: Matches(row, nodeId, link)) ==> |r| < |rows|
  {
    if rows == [] then []
    else
      var rest := RowsWithout(rows[1..], nodeId, link);
      assert forall row | row in rows :: row == rows[0] || row in rows[1..];
      assert rows == [rows[0]] + rows[1..];
      if Matches(rows[0], nodeId, link) then rest else [rows[0]] + rest
  }

  /** A link added to a node is listed for it afterwards, and the other nodes' lists are as
      before. */
  lemma AddedLinkListed(rows: seq<LiteratureRow>, row: LiteratureRow, other: int)
    ensures row.link in LinksOf(rows + [row], row.experimentId)
    ensures other != row.experimentId ==> LinksOf(rows + [row], other) == LinksOf(rows, other)
  {
    assert row in rows + [row];
    if other != row.experimentId {
      AppendOther(rows, row, other);
    }
  }

  lemma {:induction false} AppendOther(rows: seq<LiteratureRow>, row: LiteratureRow, other: int)
    requires other != row.experimentId
    ensures LinksOf(rows + [row], other) == LinksOf(rows, other)
  {
    if rows == [] {
      assert LinksOf([row], other) == LinksOf([], other);
    } else {
      AppendOther(rows[1..], row, other);
      assert (rows + [row])[1..] == rows[1..] + [row];
    }
  }

  /** Appending a row extends the link list of its node by its link and leaves the other
      lists as they were. */
  lemma {:induction false} LinksOfAppend(rows: seq<LiteratureRow>, row: LiteratureRow, nodeId: int)
    ensures LinksOf(rows + [row], nodeId) == LinksOf(rows, nodeId) + (if row.experimentId == nodeId then [row.link] else [])
  {
    if rows == [] {
      assert [row][1..] == [];
    } else {
      LinksOfAppend(rows[1..], row, nodeId);
      assert (rows + [row])[1..] == rows[1..] + [row];
    }
  }

  /** A node without rows has no links. */
  lemma {:induction false} NoRowsNoLinks(rows: seq<LiteratureRow>, nodeId: int)
    requires forall i | 0 <= i < |rows| :: rows[i].experimentId != nodeId
    ensures LinksOf(rows, nodeId) == []
  {
    if rows != [] {
      NoRowsNoLinks(rows[1..], nodeId);
    }
  }

  /** The literature table; row ids come from an auto-increment counter. */
  class LiteratureTable {
    var rows: seq<LiteratureRow>
    var nextId: int

    constructor ()
      ensures rows == []
    {
      rows := [];
      nextId := 1;
    }

    /** `GET /nodes/{id}/literature`. */
    function Get(nodeId: int): (r: seq<string>)
      reads this
      ensures forall l :: l in r <==> exists row | row in rows :: row.experimentId == nodeId && row.link == l
    {
      LinksOf(rows, nodeId)
    }

    /** `POST /nodes/{id}/literature`: 404 (table unchanged) when `nodes` has no such node,
        else exactly one row is appended, even when the same link is already attached. */
    method Add(nodes: seq<Experiment>, nodeId: int, link: string) returns (r: Result<(), HttpError>)
      modifies this
      ensures r.Err? <==> !HasExperiment(nodes, nodeId)
      ensures r.Err? ==> r.error.code == 404 && rows == old(rows)
      ensures r.Ok? ==> exists id :: rows == old(rows) + [LiteratureRow(id, link, nodeId)]
    {
      if FindExperiment(nodes, nodeId).None? {
        return Err(HttpError(404, "Node not found"));
      }
      rows := rows + [LiteratureRow(nextId, link, nodeId)];
      nextId := nextId + 1;
      r := Ok(());
    }

    /** `DELETE /nodes/{id}/literature/{link}`: removes every row attaching `link` to the
        node, or answers 404 when there is none. */
    method Delete(nodeId: int, link: string) returns (r: Result<(), HttpError>)
      modifies this
      ensures r.Err? <==> forall row | row in old(rows) :: !Matches(row, nodeId, link)
      ensures r.Err? ==> r.error.code == 404
      ensures rows == RowsWithout(old(rows), nodeId, link)
    {
      var kept := RowsWithout(rows, nodeId, link);
      if |kept| == |rows| {
        return Err(HttpError(404, "Literature reference not found"));
      }
      rows := kept;
      r := Ok(());
    }
  }
}
