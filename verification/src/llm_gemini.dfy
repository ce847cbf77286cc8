/** The language-model proposer (backend/services/llm_gemini.py): candidate papers,
    stance, one-line summaries and the keyword relevance heuristic. The model's replies
    are oracle parameters; `apiKey` says whether an API key is configured. */
module LlmGemini {
  import opened Common
  import opened Strings
  import Memory

  /** A key of a JSON paper object: absent, null, or a string. */
  datatype Field = Absent | Null | Text(s: string)

  datatype RawPaper = RawPaper(title: Field, doi: Field, relationship: Field, why: Field)

  /** The model's answer: `NoReply` covers every exception (API error, unparsable or
      non-object JSON); `Papers` is the `papers` list (empty when the key is missing). */
  datatype LlmReply = NoReply | Papers(papers: seq<RawPaper>)

  /** A candidate paper; `None` is a JSON null. */
  datatype Candidate = Candidate(title: Option<string>, doi: Option<string>, relationship: Option<string>, why: Option<string>)

  function Value(f: Field): Option<string>
  {
    if f.Text? then Some(f.s) else None
  }

  /** A paper is kept when it has both a `title` and a `relationship` key (whatever their values). */
  predicate Keeps(p: RawPaper)
  {
    p.title != Absent && p.relationship != Absent
  }

  function ToCandidate(p: RawPaper): Candidate
  {
    Candidate(Value(p.title), Value(p.doi), Value(p.relationship), if p.why == Absent then Some("") else Value(p.why))
  }

  /** The kept papers, converted, in reply order. */
  function ValidCandidates(papers: seq<RawPaper>): (r: seq<Candidate>)
    ensures |r| <= |papers|
    ensures forall c :: c in r ==> exists p :: p in papers && Keeps(p) && c == ToCandidate(p)
    ensures forall p :: p in papers && Keeps(p) ==> ToCandidate(p) in r
  {
    if papers == [] then []
    else
      var front := ValidCandidates(papers[..|papers| - 1]);
      var p := papers[|papers| - 1];
      assert forall q :: q in papers <==> q in papers[..|papers| - 1] || q == p;
      if Keeps(p) then front + [ToCandidate(p)] else front
  }

  /** The loop over `papers` that keeps the well-formed ones. */
  method FilterPapers(papers: seq<RawPaper>) returns (out: seq<Candidate>)
    ensures out == ValidCandidates(papers)
  {
    out := [];
    var i := 0;
    while i < |papers|
      invariant 0 <= i <= |papers|
      invariant out == ValidCandidates(papers[..i])
    {
      assert papers[..i + 1][..i] == papers[..i];
      if Keeps(papers[i]) {
        out := out + [ToCandidate(papers[i])];
      }
      i := i + 1;
    }
    assert papers[..i] == papers;
  }

  /** `relationship or "similar"`. */
  function RequestedOr(relationship: string): string
  {
    if relationship == "" then "similar" else relationship
  }

  /** The fallback proposal made from the node context. */
  function ContextFallback(problem: string, relationship: string): Candidate
  {
    Candidate(Some(problem + " \U{2014} survey and baselines"), None, Some(RequestedOr(relationship)),
      Some("Likely relevant based on node context."))
  }

  /** Python's rendering of an optional title inside an f-string. */
  function PyStr(s: Option<string>): string
  {
    if s.Some? then s.value else "None"
  }

  /** The fallback proposal made from the base paper. */
  function BaseFallback(baseTitle: Option<string>, relationship: string): Candidate
  {
    Candidate(Some("Works related to " + PyStr(baseTitle)), None, Some(RequestedOr(relationship)),
      Some("Related to the base paper and node."))
  }

  /** What the proposer returns: the single fallback without a key, on any failure or when no
      paper is well formed; otherwise the first `k` well-formed papers. */
  function Proposals(apiKey: bool, reply: LlmReply, k: nat, fallback: Candidate): (r: seq<Candidate>)
    ensures k > 0 ==> |r| >= 1
    ensures |r| <= (if k == 0 then 1 else k)
    ensures forall c :: c in r ==> c == fallback || (apiKey && reply.Papers? && exists p :: p in reply.papers && Keeps(p) && c == ToCandidate(p))
    ensures r == [fallback] <== (!apiKey || reply.NoReply? || forall p :: p in reply.papers ==> !Keeps(p))
    ensures apiKey && reply.Papers? && (exists p :: p in reply.papers && Keeps(p)) ==>
      var v := ValidCandidates(reply.papers);
      r == v[..if k < |v| then k else |v|]
  {
    if !apiKey || reply.NoReply? then [fallback]
    else
      var v := ValidCandidates(reply.papers);
      if v == [] then [fallback]
      else
        assert v[0] in v;
        var n := if k < |v| then k else |v|;
        assert forall c :: c in v[..n] ==> c in v;
        v[..n]
  }

  /** `generate_candidates`. */
  method GenerateCandidates(apiKey: bool, reply: LlmReply, ctx: Memory.ResearchContext, relationship: string, k: nat)
    returns (cands: seq<Candidate>)
    ensures cands == Proposals(apiKey, reply, k, ContextFallback(ctx.problem, relationship))
  {
    cands := Propose(apiKey, reply, k, ContextFallback(ctx.problem, relationship));
  }

  /** `generate_candidates_from_base`. */
  method GenerateCandidatesFromBase(apiKey: bool, reply: LlmReply, baseTitle: Option<string>, relationship: string, k: nat)
    returns (cands: seq<Candidate>)
    ensures cands == Proposals(apiKey, reply, k, BaseFallback(baseTitle, relationship))
  {
    cands := Propose(apiKey, reply, k, BaseFallback(baseTitle, relationship));
  }

  method Propose(apiKey: bool, reply: LlmReply, k: nat, fallback: Candidate) returns (cands: seq<Candidate>)
    ensures cands == Proposals(apiKey, reply, k, fallback)
  {
    if !apiKey || reply.NoReply? {
      return [fallback];
    }
    var out := FilterPapers(reply.papers);
    if out == [] {
      return [fallback];
    }
    cands := if k < |out| then out[..k] else out;
  }

  // ---------------------------------------------------------------- stance

  datatype Stance = Support | Neutral | Contradict

  /** `stance`: neutral without a key; otherwise decided by the normalised answer, where
      "contrad" wins over "support". `None` is the exception of a failed model call. */
  function StanceOf(apiKey: bool, answer: Option<string>): (r: Option<Stance>)
    ensures !apiKey ==> r == Some(Neutral)
    ensures apiKey ==> (r.None? <==> answer.None?)
    ensures apiKey && answer.Some? ==>
      (r == Some(Contradict) <==> Contains(Lower(PyStrip(answer.value)), "contrad"))
    ensures apiKey && answer.Some? ==>
      (r == Some(Support) <==> !Contains(Lower(PyStrip(answer.value)), "contrad") && Contains(Lower(PyStrip(answer.value)), "support"))
  {
    if !apiKey then Some(Neutral)
    else if answer.None? then None
    else
      var ans := Lower(PyStrip(answer.value));
      if Contains(ans, "contrad") then Some(Contradict)
      else if Contains(ans, "support") then Some(Support)
      else Some(Neutral)
  }

  // ---------------------------------------------------------------- one-line summary

  const DefaultSummary: string := "Related work and summary"

  function Take(s: string, n: nat): (r: string)
    ensures |r| == (if |s| < n then |s| else n) && r == s[..|r|]
  {
    if |s| <= n then s else s[..n]
  }

  /** The no-key fallback as written: the stripped abstract cut to 34 characters, with "…"
      appended when the unstripped abstract is longer than 35. */
  function SummaryFallback(abs: Option<string>): (r: string)
    ensures |r| <= 35
  {
    var a := abs.GetOr("");
    var text := if a == "" then DefaultSummary else a;
    Take(PyStrip(text), 34) + (if |a| > 35 then "\U{2026}" else "")
  }

  /** Two inputs on which the written fallback misreports truncation: a 35-character
      abstract loses its last character without "…", and a padded 40-character abstract
      that is kept whole still gets "…". */
  lemma SummaryFallbackMisreports()
    ensures var a := seq(35, _ => 'a');
      SummaryFallback(Some(a)) == a[..34]
    ensures var a := seq(10, _ => ' ') + seq(30, _ => 'a');
      SummaryFallback(Some(a)) == seq(30, _ => 'a') + "\U{2026}"
  {
    var a := seq(35, _ => 'a');
    assert !IsPySpace(a[0]) && !IsPySpace(a[34]);
    assert PyStrip(a) == a;
    var b := seq(10, _ => ' ') + seq(30, _ => 'a');
    var c := seq(30, _ => 'a');
    StripPadded(10, c);
  }

  lemma StripPadded(n: nat, c: string)
    requires c != [] && !IsPySpace(c[0]) && !IsPySpace(c[|c| - 1])
    ensures PyStrip(seq(n, _ => ' ') + c) == c
  {
    var s := seq(n, _ => ' ') + c;
    StripLeftPadded(n, c);
    assert StripRight(c) == c;
  }

  lemma {:induction false} StripLeftPadded(n: nat, c: string)
    requires c != [] && !IsPySpace(c[0])
    ensures StripLeft(seq(n, _ => ' ') + c) == c
  {
    if n > 0 {
      var s := seq(n, _ => ' ') + c;
      assert s[1..] == seq(n - 1, _ => ' ') + c;
      StripLeftPadded(n - 1, c);
    } else {
      assert seq(n, _ => ' ') + c == c;
    }
  }

  /** The fallback as intended: "…" exactly when the stripped text was cut. */
  function SummaryFallbackIntended(abs: Option<string>): (r: string)
    ensures var t := PyStrip(if abs.GetOr("") == "" then DefaultSummary else abs.value);
      (|t| <= 34 ==> r == t) && (|t| > 34 ==> r == t[..34] + "\U{2026}")
    ensures |r| <= 35
  {
    var a := abs.GetOr("");
    var t := PyStrip(if a == "" then DefaultSummary else a);
    Take(t, 34) + (if |t| > 34 then "\U{2026}" else "")
  }

  /** `summarize_one_liner_cn`: the local fallback without a key, else the model's stripped
      text or the default; `None` is the exception of a failed model call. */
  function SummarizeOneLiner(apiKey: bool, abs: Option<string>, reply: Option<string>): (r: Option<string>)
    ensures !apiKey ==> r == Some(SummaryFallbackIntended(abs))
    ensures apiKey ==> (r.None? <==> reply.None?)
    ensures apiKey && r.Some? ==> r.value != ""
  {
    if !apiKey then Some(SummaryFallbackIntended(abs))
    else if reply.None? then None
    else
      var t := PyStrip(reply.value);
      Some(if t == "" then DefaultSummary else t)
  }

  // ---------------------------------------------------------------- relevance

  /** Python `str.split()`: the maximal runs of non-whitespace characters. */
  function PySplit(s: string): (r: seq<string>)
    ensures forall w :: w in r ==> w != [] && forall c :: c in w ==> !IsPySpace(c)
    decreases |s|
  {
    if s == [] then []
    else if IsPySpace(s[0]) then PySplit(s[1..])
    else
      var n := RunLength(s);
      [s[..n]] + PySplit(s[n..])
  }

  /** Length of the leading run of non-whitespace characters. */
  function RunLength(s: string): (n: nat)
    requires s != [] && !IsPySpace(s[0])
    ensures 1 <= n <= |s|
    ensures forall c :: c in s[..n] ==> !IsPySpace(c)
    ensures n == |s| || IsPySpace(s[n])
  {
    if |s| == 1 || IsPySpace(s[1]) then 1
    else
      var m := RunLength(s[1..]);
      assert forall c :: c in s[..m + 1] ==> c == s[0] || c in s[1..][..m];
      m + 1
  }

  /** The distinct words of at least three characters in the lower-cased keyword bag
      (aliases, datasets and problem), with "/" and "-" read as spaces. */
  function Keywords(ctx: Memory.ResearchContext): (r: set<string>)
    ensures forall w :: w in r ==> |w| >= 3
  {
    var bag := Lower(Join(" ", ctx.methodsAliases + ctx.datasetsMetrics + [ctx.problem]));
    var words := PySplit(ReplaceChar(ReplaceChar(bag, '/', ' '), '-', ' '));
    set w | w in words && |w| >= 3
  }

  /** The number of keywords found in the lower-cased title. */
  function Hits(ctx: Memory.ResearchContext, title: Option<string>): nat
  {
    var t := Lower(title.GetOr(""));
    |set k | k in Keywords(ctx) && Contains(t, k)|
  }

  function ScoreOfHits(hits: nat): (r: real)
  {
    var raw := 0.2 + 0.15 * hits as real;
    var capped := if raw < 1.0 then raw else 1.0;
    if capped > 0.1 then capped else 0.1
  }

  /** `relevance_score`: 0.2 plus 0.15 per keyword found in the title, capped at 1.0. */
  function RelevanceScore(ctx: Memory.ResearchContext, title: Option<string>): (r: real)
    ensures 0.2 <= r <= 1.0
    ensures Hits(ctx, title) == 0 ==> r == 0.2
    ensures Hits(ctx, title) >= 6 ==> r == 1.0
  {
    ScoreOfHits(Hits(ctx, title))
  }

  /** More keyword hits never lower the score, and below the cap each hit adds 0.15. */
  lemma ScoreOfHitsMonotone(h1: nat, h2: nat)
    requires h1 <= h2
    ensures ScoreOfHits(h1) <= ScoreOfHits(h2)
    ensures h2 < 6 ==> ScoreOfHits(h2) - ScoreOfHits(h1) == 0.15 * (h2 - h1) as real
  {
  }

  /** A keyword of the bag that occurs in the title lifts the score to at least 0.35. */
  lemma KeywordInTitleScores(ctx: Memory.ResearchContext, title: Option<string>, k: string)
    requires k in Keywords(ctx) && Contains(Lower(title.GetOr("")), k)
    ensures RelevanceScore(ctx, title) >= 0.35
  {
    var t := Lower(title.GetOr(""));
    var hits := set x | x in Keywords(ctx) && Contains(t, x);
    assert k in hits;
    assert Hits(ctx, title) >= 1;
  }
}
