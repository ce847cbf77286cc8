/** The suggestion pipeline (backend/services/orchestrator.py): node context, candidate
    proposals, resolution and validity in the index, scoring, and one paper card. */
module Orchestrator {
  import opened Common
  import opened Strings
  import opened OpenAlex
  import Memory
  import LlmGemini
  import Scorer
  import GraphModel

  /** The external services one suggestion consults, as their answers. */
  datatype Services = Services(
    nodeInfoApi: Option<Memory.NodeInfo>,  // the node endpoint's answer; None when the call fails
    apiKey: bool,                          // whether a model API key is configured
    candidateReply: LlmGemini.LlmReply,    // the model's candidate proposals
    index: Index,                          // the bibliographic index
    summaryReply: Option<string>)          // the model's one-line summary; None when the call fails

  datatype SuggestError = NodeNotFound | BaseUnresolvable | NoCandidate | SummaryFailed

  /** A candidate that survived resolution, exclusion, validity (and, from a base, the
      temporal rule), with its score. */
  datatype Scored = Scored(work: Work, why: Option<string>, vrf: Validity, score: real, candRelationship: Option<string>)

  datatype BaseInfo = BaseInfo(id: string, title: Option<string>, doi: Option<string>)

  /** The returned paper card. `confidence` is the unrounded score. */
  datatype Card = Card(
    id: string,
    title: Option<string>,
    year: Option<int>,
    venue: Option<string>,
    doi: Option<string>,
    url: Option<string>,
    relationship: string,
    confidence: real,
    verified: Validity,
    summary: string,
    whyRelevant: Option<string>,
    base: Option<BaseInfo>)

  const CandidateCount: nat := 12

  /** `int(year or 0)`: an unknown year reads as 0. */
  function YearOrZero(y: Option<int>): int
  {
    if y.Some? then y.value else 0
  }

  /** The temporal rule against a base paper: only when both years are known, a "prior"
      candidate must be strictly older and a "builds_on" candidate not older. */
  predicate TemporalOk(candRel: Option<string>, baseYear: Option<int>, candYear: Option<int>)
  {
    var b, c := YearOrZero(baseYear), YearOrZero(candYear);
    b == 0 || c == 0 || ((candRel == Some("prior") ==> c < b) && (candRel == Some("builds_on") ==> c >= b))
  }

  /** One pass of the candidate loop: `None` when the candidate is skipped. */
  function Assess(c: LlmGemini.Candidate, ctx: Memory.ResearchContext, excl: set<string>, index: Index, base: Option<Work>): Option<Scored>
  {
    var work := Resolve(index, c.doi, c.title);
    if work.None? || work.value.id in excl then None
    else
      var vrf := VerifyValidity(work);
      if !vrf.ok then None
      else if base.Some? && !TemporalOk(c.relationship, base.value.year, work.value.year) then None
      else
        var w := work.value;
        Some(Scored(w, c.why, vrf, Scorer.Mix(LlmGemini.RelevanceScore(ctx, w.title), vrf.strength, w.year, w.isOa), c.relationship))
  }

  /** The surviving candidates, in proposal order. Every survivor was resolved, is not
      excluded, verified with strength 1.0, obeys the temporal rule against the base, and
      carries the mixed score of its own relevance, year and access. */
  function Survivors(cands: seq<LlmGemini.Candidate>, ctx: Memory.ResearchContext, excl: set<string>, index: Index, base: Option<Work>)
    : (r: seq<Scored>)
    ensures |r| <= |cands|
    ensures forall s :: s in r ==> (s.work.id !in excl && s.work.id != "" && s.vrf.ok && s.vrf.strength == 1.0
                                    && 0.0 <= s.score < 1.0
                                    && s.score == Scorer.Mix(LlmGemini.RelevanceScore(ctx, s.work.title), 1.0, s.work.year, s.work.isOa))
    ensures forall s :: s in r ==> exists c :: c in cands && Assess(c, ctx, excl, index, base) == Some(s)
    ensures base.Some? ==> forall s :: s in r ==> TemporalOk(s.candRelationship, base.value.year, s.work.year)
    ensures forall c :: c in cands && Assess(c, ctx, excl, index, base).Some? ==> Assess(c, ctx, excl, index, base).value in r
  {
    if cands == [] then []
    else
      var front := Survivors(cands[..|cands| - 1], ctx, excl, index, base);
      var c := cands[|cands| - 1];
      assert forall x :: x in cands <==> x in cands[..|cands| - 1] || x == c;
      var a := Assess(c, ctx, excl, index, base);
      if a.Some? then front + [a.value] else front
  }

  /** What one proposal contributes to the survivors. */
  function Survivor(c: LlmGemini.Candidate, ctx: Memory.ResearchContext, excl: set<string>, index: Index, base: Option<Work>)
    : (r: seq<Scored>)
    ensures |r| <= 1 && (r != [] <==> Assess(c, ctx, excl, index, base).Some?)
    ensures r != [] ==> r[0] == Assess(c, ctx, excl, index, base).value
  {
    var a := Assess(c, ctx, excl, index, base);
    if a.Some? then [a.value] else []
  }

  lemma SurvivorsSnoc(cands: seq<LlmGemini.Candidate>, ctx: Memory.ResearchContext, excl: set<string>, index: Index, base: Option<Work>)
    requires cands != []
    ensures Survivors(cands, ctx, excl, index, base)
         == Survivors(cands[..|cands| - 1], ctx, excl, index, base) + Survivor(cands[|cands| - 1], ctx, excl, index, base)
  {
  }

  /** Survivors keep proposal order: the survivors of two runs of proposals are those of
      the first run followed by those of the second. */
  lemma {:induction false} SurvivorsAppend(a: seq<LlmGemini.Candidate>, b: seq<LlmGemini.Candidate>, ctx: Memory.ResearchContext,
                                           excl: set<string>, index: Index, base: Option<Work>)
    ensures Survivors(a + b, ctx, excl, index, base) == Survivors(a, ctx, excl, index, base) + Survivors(b, ctx, excl, index, base)
    decreases |b|
  {
    if b == [] {
      assert a + b == a;
    } else {
      var b' := b[..|b| - 1];
      assert (a + b)[..|a + b| - 1] == a + b' && (a + b)[|a + b| - 1] == b[|b| - 1];
      SurvivorsSnoc(a + b, ctx, excl, index, base);
      SurvivorsSnoc(b, ctx, excl, index, base);
      SurvivorsAppend(a, b', ctx, excl, index, base);
      var t := Survivor(b[|b| - 1], ctx, excl, index, base);
      Regroup(Survivors(a, ctx, excl, index, base), Survivors(b', ctx, excl, index, base), t);
    }
  }

  lemma Regroup(x: seq<Scored>, y: seq<Scored>, t: seq<Scored>)
    ensures (x + y) + t == x + (y + t)
  {
  }

  /** A single proposal survives exactly when it assesses to a score. */
  lemma SurvivorsOfOne(c: LlmGemini.Candidate, ctx: Memory.ResearchContext, excl: set<string>, index: Index, base: Option<Work>)
    ensures Survivors([c], ctx, excl, index, base) == Survivor(c, ctx, excl, index, base)
  {
    assert [c][..0] == [];
  }

  /** The candidate loop of both suggestion flows. */
  method VerifyCandidates(cands: seq<LlmGemini.Candidate>, ctx: Memory.ResearchContext, excl: set<string>, index: Index, base: Option<Work>)
    returns (verified: seq<Scored>)
    ensures verified == Survivors(cands, ctx, excl, index, base)
  {
    verified := [];
    var i := 0;
    while i < |cands|
      invariant 0 <= i <= |cands|
      invariant verified == Survivors(cands[..i], ctx, excl, index, base)
    {
      assert cands[..i + 1][..i] == cands[..i];
      var c := cands[i];
      var work := Resolve(index, c.doi, c.title);
      if work.Some? && work.value.id !in excl {
        var vrf := VerifyValidity(work);
        if vrf.ok && (base.None? || TemporalOk(c.relationship, base.value.year, work.value.year)) {
          var w := work.value;
          var relScore := LlmGemini.RelevanceScore(ctx, w.title);
          var score := Scorer.Mix(relScore, vrf.strength, w.year, w.isOa);
          verified := verified + [Scored(w, c.why, vrf, score, c.relationship)];
        }
      }
      i := i + 1;
    }
    assert cands[..i] == cands;
  }

  /** `max(verified, key=score)`: the index of the first survivor with the highest score. */
  function FirstMax(sv: seq<Scored>): (i: nat)
    requires sv != []
    ensures i < |sv|
    ensures forall j :: 0 <= j < |sv| ==> sv[j].score <= sv[i].score
    ensures forall j :: 0 <= j < i ==> sv[j].score < sv[i].score
  {
    if |sv| == 1 then 0
    else
      var front := sv[..|sv| - 1];
      var i := FirstMax(front);
      assert forall j :: 0 <= j < |front| ==> front[j] == sv[j];
      if sv[|sv| - 1].score > sv[i].score then |sv| - 1 else i
  }

  function CardOf(best: Scored, summary: string, base: Option<BaseInfo>): Card
  {
    var w := best.work;
    Card(w.id, w.title, w.year, w.venue, w.doi, w.url,
      if best.candRelationship.GetOr("") == "" then "related" else best.candRelationship.value,
      best.score, best.vrf, summary, best.why, base)
  }

  function BaseInfoOf(w: Work): BaseInfo
  {
    BaseInfo(w.id, w.title, w.doi)
  }

  /** The end of both flows: no survivor is an error; otherwise the first best survivor,
      summarised, becomes the card. */
  function Pick(sv: seq<Scored>, apiKey: bool, summaryReply: Option<string>, base: Option<BaseInfo>): (r: Result<Card, SuggestError>)
    ensures r == Err(NoCandidate) <==> sv == []
    ensures r.Ok? ==> exists i :: 0 <= i < |sv| && r.value.id == sv[i].work.id && r.value.confidence == sv[i].score
                                  && r.value.verified == sv[i].vrf
                                  && (forall j :: 0 <= j < |sv| ==> sv[j].score <= sv[i].score)
                                  && (forall j :: 0 <= j < i ==> sv[j].score < sv[i].score)
    ensures r.Ok? ==> r.value.relationship != "" && r.value.base == base
    ensures r.Ok? ==> r.value == CardOf(sv[FirstMax(sv)], r.value.summary, base)
  {
    if sv == [] then Err(NoCandidate)
    else
      var i := FirstMax(sv);
      var best := sv[i];
      var summary := LlmGemini.SummarizeOneLiner(apiKey, Some(best.work.abstractText), summaryReply);
      if summary.None? then Err(SummaryFailed) else Ok(CardOf(best, summary.value, base))
  }

  // ---------------------------------------------------------------- suggest_one

  /** What `suggest_one` returns. */
  function SuggestOneSpec(s: Services, nodes: seq<GraphModel.Experiment>, rels: seq<GraphModel.Relationship>,
                          nodeId: int, relationship: string, excl: set<string>): Result<Card, SuggestError>
  {
    var ctx := Memory.NodeContext(s.nodeInfoApi, nodes, rels, nodeId);
    if ctx.None? then Err(NodeNotFound)
    else
      var cands := LlmGemini.Proposals(s.apiKey, s.candidateReply, CandidateCount, LlmGemini.ContextFallback(ctx.value.problem, relationship));
      Pick(Survivors(cands, ctx.value, excl, s.index, None), s.apiKey, s.summaryReply, None)
  }

  /** `suggest_one`: context, proposals, the candidate loop, and the best card. */
  method SuggestOne(s: Services, nodes: seq<GraphModel.Experiment>, rels: seq<GraphModel.Relationship>,
                    nodeId: int, relationship: string, excl: set<string>)
    returns (r: Result<Card, SuggestError>)
    ensures r == SuggestOneSpec(s, nodes, rels, nodeId, relationship, excl)
    ensures r == Err(NodeNotFound) <==> s.nodeInfoApi.None? && !GraphModel.HasExperiment(nodes, nodeId)
  {
    var ctx := Memory.GetNodeContext(s.nodeInfoApi, nodes, rels, nodeId);
    if ctx.None? {
      return Err(NodeNotFound);
    }
    var cands := LlmGemini.GenerateCandidates(s.apiKey, s.candidateReply, ctx.value, relationship, CandidateCount);
    var verified := VerifyCandidates(cands, ctx.value, excl, s.index, None);
    r := Pick(verified, s.apiKey, s.summaryReply, None);
  }

  /** The card of a successful suggestion is an index work that is not excluded, verified
      with strength 1.0, and scored at least as high as every other surviving candidate. */
  lemma SuggestOneCard(s: Services, nodes: seq<GraphModel.Experiment>, rels: seq<GraphModel.Relationship>,
                       nodeId: int, relationship: string, excl: set<string>)
    requires SuggestOneSpec(s, nodes, rels, nodeId, relationship, excl).Ok?
    ensures var card := SuggestOneSpec(s, nodes, rels, nodeId, relationship, excl).value;
      card.id !in excl && card.verified.ok && card.verified.strength == 1.0 && 0.0 <= card.confidence < 1.0
      && card.base.None?
    ensures var ctx := Memory.NodeContext(s.nodeInfoApi, nodes, rels, nodeId).value;
      var cands := LlmGemini.Proposals(s.apiKey, s.candidateReply, CandidateCount, LlmGemini.ContextFallback(ctx.problem, relationship));
      forall t :: t in Survivors(cands, ctx, excl, s.index, None) ==> t.score <= SuggestOneSpec(s, nodes, rels, nodeId, relationship, excl).value.confidence
  {
    var ctx := Memory.NodeContext(s.nodeInfoApi, nodes, rels, nodeId).value;
    var cands := LlmGemini.Proposals(s.apiKey, s.candidateReply, CandidateCount, LlmGemini.ContextFallback(ctx.problem, relationship));
    var sv := Survivors(cands, ctx, excl, s.index, None);
    var card := Pick(sv, s.apiKey, s.summaryReply, None).value;
    var i :| 0 <= i < |sv| && card.id == sv[i].work.id && card.confidence == sv[i].score && card.verified == sv[i].vrf;
    assert sv[i] in sv;
  }

  // ---------------------------------------------------------------- from a base paper

  /** The text after the last occurrence of `sep` in `s` (Python `s.split(sep)[-1]`). */
  function AfterLast(s: string, sep: string): (r: string)
    requires sep != []
    ensures EndsWith(s, r)
    decreases |s|
  {
    if |s| < |sep| then s
    else if s[|s| - |sep|..] == sep then ""
    else
      var r := AfterLast(s[..|s| - 1], sep) + [s[|s| - 1]];
      assert s[..|s| - 1] + [s[|s| - 1]] == s;
      r
  }

  /** The separator does not occur in what follows its last occurrence. */
  lemma {:induction false} AfterLastHasNoSep(s: string, sep: string)
    requires sep != []
    ensures !Contains(AfterLast(s, sep), sep)
    decreases |s|
  {
    var r := AfterLast(s, sep);
    if |s| < |sep| {
      assert |r| < |sep|;
    } else if s[|s| - |sep|..] != sep {
      var front := AfterLast(s[..|s| - 1], sep);
      AfterLastSnoc(s, sep);
      AfterLastHasNoSep(s[..|s| - 1], sep);
      forall i | 0 <= i <= |r| ensures !OccursAt(r, sep, i) {
        if i + |sep| > |r| {
        } else if i + |sep| == |r| {
          assert r[i..i + |sep|] == s[|s| - |sep|..];
        } else {
          assert r[i..i + |sep|] == front[i..i + |sep|];
          assert !OccursAt(front, sep, i);
        }
      }
    }
  }

  /** When `s` contains the separator, the result starts right after an occurrence of it. */
  lemma AfterLastFollowsSep(s: string, sep: string)
    requires sep != [] && Contains(s, sep)
    ensures OccursAt(s, sep, |s| - |AfterLast(s, sep)| - |sep|)
  {
    AfterLastWholeOrFollows(s, sep);
    if AfterLast(s, sep) == s {
      AfterLastHasNoSep(s, sep);
      assert false;
    }
  }

  /** Either no separator ends anywhere in `s`, and the whole of `s` is returned, or the
      result starts right after an occurrence. */
  lemma {:induction false} AfterLastWholeOrFollows(s: string, sep: string)
    requires sep != []
    ensures AfterLast(s, sep) == s || OccursAt(s, sep, |s| - |AfterLast(s, sep)| - |sep|)
    decreases |s|
  {
    if |s| < |sep| {
    } else if s[|s| - |sep|..] != sep {
      AfterLastWholeOrFollows(s[..|s| - 1], sep);
      AfterLastSnoc(s, sep);
      WholeOrFollowsSnoc(s, sep, AfterLast(s[..|s| - 1], sep), AfterLast(s, sep));
    } else {
      SepAtEnd(s, sep);
    }
  }

  /** When `s` ends with the separator, nothing follows it. */
  lemma SepAtEnd(s: string, sep: string)
    requires sep != [] && |s| >= |sep| && s[|s| - |sep|..] == sep
    ensures OccursAt(s, sep, |s| - |AfterLast(s, sep)| - |sep|)
  {
    assert AfterLast(s, sep) == "";
    assert s[|s| - |sep|..|s|] == s[|s| - |sep|..];
  }

  /** One more character at the end of both the text and its tail keeps "the whole text,
      or right after an occurrence". */
  lemma WholeOrFollowsSnoc(s: string, sep: string, t': string, t: string)
    requires s != [] && t == t' + [s[|s| - 1]]
    requires t' == s[..|s| - 1] || OccursAt(s[..|s| - 1], sep, |s| - 1 - |t'| - |sep|)
    ensures t == s || OccursAt(s, sep, |s| - |t| - |sep|)
  {
    if t' == s[..|s| - 1] {
      assert s[..|s| - 1] + [s[|s| - 1]] == s;
    } else {
      OccursInLonger(s, sep, |s| - 1 - |t'| - |sep|);
    }
  }

  /** An occurrence in the front is one in the whole. */
  lemma OccursInLonger(s: string, sep: string, i: int)
    requires s != [] && OccursAt(s[..|s| - 1], sep, i)
    ensures OccursAt(s, sep, i)
  {
    assert s[..|s| - 1][i..i + |sep|] == s[i..i + |sep|];
  }

  lemma AfterLastSnoc(s: string, sep: string)
    requires sep != [] && |s| >= |sep| && s[|s| - |sep|..] != sep
    ensures AfterLast(s, sep) == AfterLast(s[..|s| - 1], sep) + [s[|s| - 1]]
  {
  }

  /** `_parse_doi_from_link`: the stripped text after the last "doi.org/", or `None` when
      the link is empty or names no DOI resolver. */
  function ParseDoiFromLink(link: Option<string>): (r: Option<string>)
    ensures r.Some? <==> link.Some? && Contains(link.value, "doi.org/")
    ensures r.Some? ==> r.value == PyStrip(AfterLast(link.value, "doi.org/"))
  {
    if link.None? || link.value == "" then None
    else if Contains(link.value, "doi.org/") then Some(PyStrip(AfterLast(link.value, "doi.org/")))
    else None
  }

  /** A resolver link gives back the DOI it was built from. */
  lemma DoiLinkRoundTrip(doi: string)
    requires !Contains(doi, "doi.org/")
    ensures ParseDoiFromLink(Some("https://doi.org/" + doi)) == Some(PyStrip(doi))
  {
    var sep := "doi.org/";
    var s := "https://doi.org/" + doi;
    assert OccursAt(s, sep, 8);
    var r := AfterLast(s, sep);
    AfterLastHasNoSep(s, sep);
    AfterLastFollowsSep(s, sep);
    var at := |s| - |r| - |sep|;
    OnlyOccurrence(doi, at);
    assert r == doi;
  }

  /** In a resolver link "https://doi.org/" + doi, whose DOI does not repeat the marker, the
      marker occurs only at index 8. */
  lemma OnlyOccurrence(doi: string, at: int)
    requires !Contains(doi, "doi.org/")
    requires OccursAt("https://doi.org/" + doi, "doi.org/", at)
    ensures at == 8
  {
    var prefix := "https://doi.org/";
    var s := prefix + doi;
    assert s[at] == 'd';
    if at >= 16 {
      assert s[at..at + 8] == doi[at - 16..at - 8];
      assert OccursAt(doi, "doi.org/", at - 16);
    } else {
      assert s[at] == prefix[at];
    }
  }

  /** The base paper: by index id first (a failed lookup is ignored), else by the DOI
      parsed from the link with the link itself as the search text. */
  function ResolveBase(index: Index, baseOpenalexId: Option<string>, baseLink: Option<string>): (r: Option<Work>)
    ensures baseOpenalexId.GetOr("") != "" && GetWork(index, baseOpenalexId.value).Some? ==> r == GetWork(index, baseOpenalexId.value)
    ensures r.Some? && (baseOpenalexId.GetOr("") == "" || GetWork(index, baseOpenalexId.value).None?) ==>
      baseLink.GetOr("") != "" && r == Resolve(index, ParseDoiFromLink(baseLink), baseLink)
    ensures (baseOpenalexId.GetOr("") == "" || GetWork(index, baseOpenalexId.value).None?) && baseLink.GetOr("") != "" ==>
      r == Resolve(index, ParseDoiFromLink(baseLink), baseLink)
    ensures baseOpenalexId.GetOr("") == "" && baseLink.GetOr("") == "" ==> r.None?
  {
    var byId := if baseOpenalexId.GetOr("") != "" then GetWork(index, baseOpenalexId.value) else None;
    if byId.Some? then byId
    else if baseLink.GetOr("") != "" then Resolve(index, ParseDoiFromLink(baseLink), baseLink)
    else None
  }

  /** What `suggest_one_from_literature` returns. */
  function SuggestFromLiteratureSpec(s: Services, nodes: seq<GraphModel.Experiment>, rels: seq<GraphModel.Relationship>,
                                     nodeId: int, baseLink: Option<string>, baseOpenalexId: Option<string>,
                                     relationship: string, excl: set<string>): Result<Card, SuggestError>
  {
    var ctx := Memory.NodeContext(s.nodeInfoApi, nodes, rels, nodeId);
    if ctx.None? then Err(NodeNotFound)
    else
      var base := ResolveBase(s.index, baseOpenalexId, baseLink);
      if base.None? then Err(BaseUnresolvable)
      else
        var cands := LlmGemini.Proposals(s.apiKey, s.candidateReply, CandidateCount, LlmGemini.BaseFallback(base.value.title, relationship));
        Pick(Survivors(cands, ctx.value, excl, s.index, base), s.apiKey, s.summaryReply, Some(BaseInfoOf(base.value)))
  }

  /** `suggest_one_from_literature`: as `suggest_one`, proposals conditioned on a resolved
      base paper and survivors held to the temporal rule against it. */
  method SuggestFromLiterature(s: Services, nodes: seq<GraphModel.Experiment>, rels: seq<GraphModel.Relationship>,
                               nodeId: int, baseLink: Option<string>, baseOpenalexId: Option<string>,
                               relationship: string, excl: set<string>)
    returns (r: Result<Card, SuggestError>)
    ensures r == SuggestFromLiteratureSpec(s, nodes, rels, nodeId, baseLink, baseOpenalexId, relationship, excl)
  {
    var ctx := Memory.GetNodeContext(s.nodeInfoApi, nodes, rels, nodeId);
    if ctx.None? {
      return Err(NodeNotFound);
    }
    var base := ResolveBase(s.index, baseOpenalexId, baseLink);
    if base.None? {
      return Err(BaseUnresolvable);
    }
    var cands := LlmGemini.GenerateCandidatesFromBase(s.apiKey, s.candidateReply, base.value.title, relationship, CandidateCount);
    var verified := VerifyCandidates(cands, ctx.value, excl, s.index, base);
    r := Pick(verified, s.apiKey, s.summaryReply, Some(BaseInfoOf(base.value)));
  }

  /** A card suggested from a base paper with relationship "prior" is strictly older than the
      base, and one with "builds_on" is not older, whenever both years are known. */
  lemma FromLiteratureRespectsTime(s: Services, nodes: seq<GraphModel.Experiment>, rels: seq<GraphModel.Relationship>,
                                   nodeId: int, baseLink: Option<string>, baseOpenalexId: Option<string>,
                                   relationship: string, excl: set<string>)
    requires SuggestFromLiteratureSpec(s, nodes, rels, nodeId, baseLink, baseOpenalexId, relationship, excl).Ok?
    ensures var card := SuggestFromLiteratureSpec(s, nodes, rels, nodeId, baseLink, baseOpenalexId, relationship, excl).value;
      var base := ResolveBase(s.index, baseOpenalexId, baseLink).value;
      card.id !in excl && card.verified.ok && card.base == Some(BaseInfoOf(base))
      && (YearOrZero(card.year) != 0 && YearOrZero(base.year) != 0 ==>
            (card.relationship == "prior" ==> YearOrZero(card.year) < YearOrZero(base.year))
            && (card.relationship == "builds_on" ==> YearOrZero(card.year) >= YearOrZero(base.year)))
  {
    var sv := LiteratureSurvivors(s, nodes, rels, nodeId, baseLink, baseOpenalexId, relationship, excl);
    PickRespectsTime(sv, s.apiKey, s.summaryReply, ResolveBase(s.index, baseOpenalexId, baseLink).value, excl);
  }

  /** A successful suggestion from the literature is the pick among survivors that respect
      the temporal rule against the resolved base. */
  lemma LiteratureSurvivors(s: Services, nodes: seq<GraphModel.Experiment>, rels: seq<GraphModel.Relationship>,
                            nodeId: int, baseLink: Option<string>, baseOpenalexId: Option<string>,
                            relationship: string, excl: set<string>)
    returns (sv: seq<Scored>)
    requires SuggestFromLiteratureSpec(s, nodes, rels, nodeId, baseLink, baseOpenalexId, relationship, excl).Ok?
    ensures ResolveBase(s.index, baseOpenalexId, baseLink).Some?
    ensures var base := ResolveBase(s.index, baseOpenalexId, baseLink).value;
      SuggestFromLiteratureSpec(s, nodes, rels, nodeId, baseLink, baseOpenalexId, relationship, excl)
        == Pick(sv, s.apiKey, s.summaryReply, Some(BaseInfoOf(base))) &&
      forall x :: x in sv ==> x.work.id !in excl && x.vrf.ok && TemporalOk(x.candRelationship, base.year, x.work.year)
  {
    var ctx := Memory.NodeContext(s.nodeInfoApi, nodes, rels, nodeId).value;
    var base := ResolveBase(s.index, baseOpenalexId, baseLink).value;
    var cands := LlmGemini.Proposals(s.apiKey, s.candidateReply, CandidateCount, LlmGemini.BaseFallback(base.title, relationship));
    sv := Survivors(cands, ctx, excl, s.index, Some(base));
    SurvivorsRespectTime(cands, ctx, excl, s.index, base);
  }

  lemma SurvivorsRespectTime(cands: seq<LlmGemini.Candidate>, ctx: Memory.ResearchContext, excl: set<string>, index: Index, base: Work)
    ensures forall x :: x in Survivors(cands, ctx, excl, index, Some(base)) ==>
      x.work.id !in excl && x.vrf.ok && TemporalOk(x.candRelationship, base.year, x.work.year)
  {
  }

  lemma PickRespectsTime(sv: seq<Scored>, apiKey: bool, summaryReply: Option<string>, base: Work, excl: set<string>)
    requires forall x :: x in sv ==> x.work.id !in excl && x.vrf.ok && TemporalOk(x.candRelationship, base.year, x.work.year)
    requires Pick(sv, apiKey, summaryReply, Some(BaseInfoOf(base))).Ok?
    ensures var card := Pick(sv, apiKey, summaryReply, Some(BaseInfoOf(base))).value;
      card.id !in excl && card.verified.ok && card.base == Some(BaseInfoOf(base))
      && (YearOrZero(card.year) != 0 && YearOrZero(base.year) != 0 ==>
            (card.relationship == "prior" ==> YearOrZero(card.year) < YearOrZero(base.year))
            && (card.relationship == "builds_on" ==> YearOrZero(card.year) >= YearOrZero(base.year)))
  {
    var i := FirstMax(sv);
    var x := sv[i];
    assert x in sv;
    var card := Pick(sv, apiKey, summaryReply, Some(BaseInfoOf(base))).value;
    assert card == CardOf(x, card.summary, Some(BaseInfoOf(base)));
    assert TemporalOk(x.candRelationship, base.year, x.work.year);
    if card.relationship == "prior" || card.relationship == "builds_on" {
      assert x.candRelationship == Some(card.relationship);
    }
  }
}
