/** The research context of one node (backend/services/slides_context.py): the JSON object
    handed to the slide-planning prompt, assembled from the node row, its `extra_data`, its
    literature rows and, when the keyword model can be imported, keyword rows. `None` stands
    for an exception. */
module SlidesContext {
  import opened Common
  import opened Json
  import opened GraphModel
  import opened Literature

  /** `_safe_json`: an object is kept, a string is parsed (`parse` is `json.loads`, `None`
      its error) with `{}` on failure, and any other value becomes `{}`. */
  function SafeJson(value: Json, parse: string -> Option<Json>): (r: Json)
    ensures value.JObj? ==> r == value
    ensures value.JStr? && parse(value.s).Some? ==> r == parse(value.s).value
    ensures value.JStr? && parse(value.s).None? ==> r == JObj([])
    ensures !value.JObj? && !value.JStr? ==> r == JObj([])
  {
    match value
    case JObj(_) => value
    case JStr(s) => parse(s).GetOr(JObj([]))
    case _ => JObj([])
  }

  /** The `extra_data` column as a JSON value; a NULL column is `None`. */
  function StoredExtra(x: Experiment): Json
  {
    if x.extraData.Some? then JObj(x.extraData.value) else JNull
  }

  /** The keys of an object, in order: `list(d.keys())`. */
  function Keys(m: seq<(string, Json)>): (r: seq<Json>)
    ensures |r| == |m| && forall i | 0 <= i < |m| :: r[i] == JStr(m[i].0)
  {
    seq(|m|, i requires 0 <= i < |m| => JStr(m[i].0))
  }

  predicate IsListAt(d: seq<(string, Json)>, key: string)
  {
    Get(d, key).Some? && Get(d, key).value.JArr?
  }

  predicate IsObjectAt(d: seq<(string, Json)>, key: string)
  {
    Get(d, key).Some? && Get(d, key).value.JObj?
  }

  /** The methods or pipeline of a node: `extra.methods` when it is a list; otherwise, when
      `extra.models` is an object, its `pipeline` if truthy, else the list of its keys;
      otherwise the empty list. */
  function MethodsList(extra: seq<(string, Json)>): (r: Json)
    ensures IsListAt(extra, "methods") ==> r == Get(extra, "methods").value
    ensures !IsListAt(extra, "methods") && IsObjectAt(extra, "models") ==>
      var models := Get(extra, "models").value.fields;
      (Get(models, "pipeline").Some? && Truthy(Get(models, "pipeline").value) ==> r == Get(models, "pipeline").value) &&
      (Get(models, "pipeline").None? || !Truthy(Get(models, "pipeline").value) ==> r == JArr(Keys(models)))
    ensures !IsListAt(extra, "methods") && !IsObjectAt(extra, "models") ==> r == JArr([])
  {
    var methods := Get(extra, "methods");
    var models := Get(extra, "models");
    if methods.Some? && methods.value.JArr? then methods.value
    else if models.Some? && models.value.JObj? then
      OrElse(Get(models.value.fields, "pipeline"), JArr(Keys(models.value.fields)))
    else JArr([])
  }

  /** Where keywords come from: the keyword model cannot be imported (the context then has
      none), or a query whose rows are keywords with an optional `weight` attribute, and
      which may fail (`None`). */
  datatype KeywordSource = NoKeywordModel | KeywordQuery(rows: Option<seq<(string, Option<real>)>>)

  /** One keyword entry; a row without a `weight` attribute weighs 1.0. */
  function KeywordEntry(k: (string, Option<real>)): Json
  {
    JObj([("keyword", JStr(k.0)), ("weight", JNum(k.1.GetOr(1.0)))])
  }

  /** The keyword entries of a source: none without the model or when the query fails,
      otherwise one per row in order. */
  function KeywordsOf(src: KeywordSource): (r: seq<Json>)
    ensures src.NoKeywordModel? || (src.KeywordQuery? && src.rows.None?) ==> r == []
    ensures src.KeywordQuery? && src.rows.Some? ==>
      |r| == |src.rows.value| && forall i | 0 <= i < |r| :: r[i] == KeywordEntry(src.rows.value[i])
  {
    match src
    case NoKeywordModel => []
    case KeywordQuery(None) => []
    case KeywordQuery(Some(rows)) => seq(|rows|, i requires 0 <= i < |rows| => KeywordEntry(rows[i]))
  }

  /** The literature entry of a row with link `link`: the link is both its id (the row has
      no OpenAlex id) and its url; title, venue, year and relation type are unknown. */
  function LinkEntry(link: string): Json
  {
    JObj([("id", JStr(link)), ("title", JNull), ("venue", JNull), ("year", JNull), ("rel_type", JNull), ("url", JStr(link))])
  }

  /** One literature entry per row of the node, in table order. */
  function LiteratureEntries(rows: seq<LiteratureRow>, nodeId: int): (r: seq<Json>)
    ensures |r| == |LinksOf(rows, nodeId)|
    ensures forall i | 0 <= i < |r| :: r[i] == LinkEntry(LinksOf(rows, nodeId)[i])
  {
    var links := LinksOf(rows, nodeId);
    seq(|links|, i requires 0 <= i < |links| => LinkEntry(links[i]))
  }

  /** The context object, key by key. */
  function ContextFields(x: Experiment, extra: seq<(string, Json)>, keywords: seq<Json>, literature: seq<Json>): seq<(string, Json)>
  {
    [("PROJECT_TITLE", JStr(x.title)),
     ("PI_MISSION", Get(extra, "pi_mission").GetOr(JStr(""))),
     ("FOCUS_NODE_TITLE", JStr(x.title)),
     ("PROBLEM", if x.description.GetOr("") != "" then JStr(x.description.value) else Get(extra, "problem").GetOr(JStr(""))),
     ("HYPOTHESIS", JStr(x.hypothesis.GetOr(""))),
     ("METHODS_LIST", MethodsList(extra)),
     ("DATASETS_LIST", Get(extra, "datasets").GetOr(JArr([]))),
     ("METRICS_DICT", Get(extra, "metrics").GetOr(JObj([]))),
     ("EXPECTATIONS", JStr(x.expectations)),
     ("PLAN_STEPS_LIST", Get(extra, "planned_steps").GetOr(JArr([]))),
     ("RESULTS_SUMMARY", JStr(x.result.GetOr(""))),
     ("RISKS_LIST", Get(extra, "risks").GetOr(JArr([]))),
     ("KEYWORDS_WITH_WEIGHTS", JArr(keywords)),
     ("LITERATURE_LIST", JArr(literature))]
  }

  /** The context of a node: `None` when the node does not exist (ValueError) or when its
      `extra_data` does not read as an object (the first `.get` on it raises). */
  function ContextOf(nodes: seq<Experiment>, lits: seq<LiteratureRow>, nodeId: int,
                     parse: string -> Option<Json>, kw: KeywordSource): (r: Option<Json>)
    ensures r.Some? <==>
      HasExperiment(nodes, nodeId) && SafeJson(StoredExtra(FindExperiment(nodes, nodeId).value), parse).JObj?
    ensures r.Some? ==>
      r.value.JObj? &&
      r.value.fields == ContextFields(FindExperiment(nodes, nodeId).value,
                                      SafeJson(StoredExtra(FindExperiment(nodes, nodeId).value), parse).fields,
                                      KeywordsOf(kw), LiteratureEntries(lits, nodeId))
  {
    match FindExperiment(nodes, nodeId)
    case None => None
    case Some(x) =>
      var extra := SafeJson(StoredExtra(x), parse);
      if extra.JObj? then Some(JObj(ContextFields(x, extra.fields, KeywordsOf(kw), LiteratureEntries(lits, nodeId))))
      else None
  }

  /** Both titles of the context are the node's title. */
  lemma ContextTitles(x: Experiment, extra: seq<(string, Json)>, keywords: seq<Json>, literature: seq<Json>)
    ensures Get(ContextFields(x, extra, keywords, literature), "PROJECT_TITLE") == Some(JStr(x.title))
    ensures Get(ContextFields(x, extra, keywords, literature), "FOCUS_NODE_TITLE") == Some(JStr(x.title))
  {
    var f := ContextFields(x, extra, keywords, literature);
    GetAt(f, 0, "PROJECT_TITLE");
    GetAt(f, 2, "FOCUS_NODE_TITLE");
  }

  /** The problem of the context is the node's description when it is non-empty, else
      `extra.problem`, else "". */
  lemma ContextProblem(x: Experiment, extra: seq<(string, Json)>, keywords: seq<Json>, literature: seq<Json>)
    ensures x.description.Some? && x.description.value != "" ==>
      Get(ContextFields(x, extra, keywords, literature), "PROBLEM") == Some(JStr(x.description.value))
    ensures x.description.None? || x.description.value == "" ==>
      Get(ContextFields(x, extra, keywords, literature), "PROBLEM") == Some(Get(extra, "problem").GetOr(JStr("")))
  {
    GetAt(ContextFields(x, extra, keywords, literature), 3, "PROBLEM");
  }

  /** An absent hypothesis reads as "". */
  lemma ContextHypothesis(x: Experiment, extra: seq<(string, Json)>, keywords: seq<Json>, literature: seq<Json>)
    ensures Get(ContextFields(x, extra, keywords, literature), "HYPOTHESIS") == Some(JStr(x.hypothesis.GetOr("")))
  {
    GetAt(ContextFields(x, extra, keywords, literature), 4, "HYPOTHESIS");
  }

  /** An absent result reads as "". */
  lemma ContextResults(x: Experiment, extra: seq<(string, Json)>, keywords: seq<Json>, literature: seq<Json>)
    ensures Get(ContextFields(x, extra, keywords, literature), "RESULTS_SUMMARY") == Some(JStr(x.result.GetOr("")))
  {
    GetAt(ContextFields(x, extra, keywords, literature), 10, "RESULTS_SUMMARY");
  }

  /** `build_context_json`: looks the node up, collects the node's literature rows one
      by one, then the keyword rows, and assembles the context. */
  method BuildContextJson(nodes: seq<Experiment>, lits: seq<LiteratureRow>, nodeId: int,
                          parse: string -> Option<Json>, kw: KeywordSource) returns (r: Option<Json>)
    ensures r == ContextOf(nodes, lits, nodeId, parse, kw)
  {
    var node := FindExperiment(nodes, nodeId);
    if node.None? {
      return None;
    }
    var literature: seq<Json> := [];
    for i := 0 to |lits|
      invariant literature == LiteratureEntries(lits[..i], nodeId)
    {
      LinksOfAppend(lits[..i], lits[i], nodeId);
      assert lits[..i + 1] == lits[..i] + [lits[i]];
      if lits[i].experimentId == nodeId {
        literature := literature + [LinkEntry(lits[i].link)];
      }
    }
    assert lits[..|lits|] == lits;
    var keywords: seq<Json> := [];
    if kw.KeywordQuery? && kw.rows.Some? {
      var rows := kw.rows.value;
      for i := 0 to |rows|
        invariant |keywords| == i && forall k | 0 <= k < i :: keywords[k] == KeywordEntry(rows[k])
      {
        keywords := keywords + [KeywordEntry(rows[i])];
      }
    }
    assert keywords == KeywordsOf(kw);
    var extra := SafeJson(StoredExtra(node.value), parse);
    if !extra.JObj? {
      return None;
    }
    return Some(JObj(ContextFields(node.value, extra.fields, keywords, literature)));
  }

  /** The context as the code is written: the literature loop reads `openalex_id`, `title`,
      `venue`, `year` and `rel_type` from each row, attributes the literature table does
      not have, so a node with any literature row raises. */
  function ContextAsWritten(nodes: seq<Experiment>, lits: seq<LiteratureRow>, nodeId: int,
                            parse: string -> Option<Json>, kw: KeywordSource): (r: Option<Json>)
    ensures r.Some? ==> r == ContextOf(nodes, lits, nodeId, parse, kw) && LinksOf(lits, nodeId) == []
  {
    if !HasExperiment(nodes, nodeId) then None
    else if exists i | 0 <= i < |lits| :: lits[i].experimentId == nodeId then None
    else
      assert LinksOf(lits, nodeId) == [] by {
        NoRowsNoLinks(lits, nodeId);
      }
      ContextOf(nodes, lits, nodeId, parse, kw)
  }

  /** The discrepancy: for a node that has a literature row, the context as written
      fails, while the intended context lists that row's link. */
  lemma LiteratureRowBreaksContext(nodes: seq<Experiment>, lits: seq<LiteratureRow>, nodeId: int,
                                   parse: string -> Option<Json>, kw: KeywordSource, j: nat)
    requires ContextOf(nodes, lits, nodeId, parse, kw).Some?
    requires j < |lits| && lits[j].experimentId == nodeId
    ensures ContextAsWritten(nodes, lits, nodeId, parse, kw).None?
    ensures LinkEntry(lits[j].link) in LiteratureEntries(lits, nodeId)
  {
    assert lits[j] in lits;
    var links := LinksOf(lits, nodeId);
    assert lits[j].link in links;
    var k :| 0 <= k < |links| && links[k] == lits[j].link;
    assert LiteratureEntries(lits, nodeId)[k] == LinkEntry(lits[j].link);
  }
}
