/** The slide endpoints (backend/app/api/endpoints/slides.py): the per-node plan endpoint
    and its output check, the combination of per-node plans into one deck plan with a
    divider per node, and the normalisation of the generated file's name.

    The LLM client is the parameter `llm` (context to plan), the timestamp is the string
    `ts`, and Python's `str()` of a title that is not a string is the parameter `show`.
    An exception that no handler catches is the generic 500 response `Unhandled`. */
module Slides {
  import opened Common
  import opened Json
  import opened Strings
  import opened GraphModel
  import opened Literature
  import opened SlidesContext
  import opened PptxBuilder

  const Unhandled := HttpError(500, "Internal Server Error")

  /** One entry of the per-node plan list: the node's id, its stored title and the plan
      the LLM returned for it. */
  datatype PlanItem = PlanItem(nodeId: int, title: string, plan: Json)

  /** What one node contributes to the combined plan: the title of its divider, its
      slide definitions and its speaker notes. */
  datatype NodeSection = NodeSection(title: string, slides: seq<Json>, notes: seq<Json>)

  // ---------------------------------------------------------------- display titles

  /** `f"Node {nid}" if nid else "Node"`. */
  function NodeLabel(nid: int): (r: string)
    ensures |r| >= 4 && r[..4] == "Node"
  {
    if nid != 0 then "Node " + IntToString(nid) else "Node"
  }

  /** A title that reads as nothing: "none", "null" or empty once stripped and lower-cased. */
  predicate Blank(t: string)
  {
    Lower(PyStrip(t)) in {"none", "null", ""}
  }

  /** A text whose ends are not white space is its own `strip()`. */
  lemma StripKeeps(s: string)
    requires s != [] && !IsPySpace(s[0]) && !IsPySpace(s[|s| - 1])
    ensures PyStrip(s) == s
  {
    assert StripLeft(s) == s;
    assert StripRight(s) == s;
  }

  /** The fallback label itself never reads as blank, so the fallback is final. */
  lemma NodeLabelNotBlank(nid: int)
    ensures !Blank(NodeLabel(nid))
  {
    var l := NodeLabel(nid);
    if nid != 0 {
      var digits := IntToString(nid);
      assert IsDigit(digits[|digits| - 1]);
      assert l[|l| - 1] == digits[|digits| - 1];
    }
    StripKeeps(l);
    var low := Lower(l);
    assert low[2] == 'd';
  }

  /** The title of the first slide of a plan: `plan or {}`, its `SLIDE_PLAN or {}`, the
      `slides or [{}]` of that, its first element and that element's `title` (`null` when
      missing). `None` when one of these steps raises: a part that is not a dictionary, or
      a slide list that is not a list (the first character of a string has no `get`, and
      a dictionary has no key 0). */
  function FirstSlideTitle(plan: Json): (r: Option<Json>)
    ensures !Truthy(plan) ==> r == Some(JNull)
    ensures r.Some? && r.value != JNull ==> plan.JObj?
  {
    var preview := if Truthy(plan) then plan else JObj([]);
    if !preview.JObj? then None
    else
      var sp := OrElse(Get(preview.fields, "SLIDE_PLAN"), JObj([]));
      if !sp.JObj? then None
      else
        var slides := OrElse(Get(sp.fields, "slides"), JArr([JObj([])]));
        if slides.JArr? && slides.items[0].JObj? then Some(Get(slides.items[0].fields, "title").GetOr(JNull))
        else None
  }

  /** The title shown for a node: its stored title, else its plan's first slide title,
      else the label "Node {id}"; a title that reads as blank is replaced by the label. */
  function DisplayTitle(item: PlanItem): (r: Option<Json>)
    ensures r.Some? ==> Truthy(r.value) && (r.value.JStr? ==> !Blank(r.value.s))
  {
    if item.title != "" then ShownTitle(Some(JStr(item.title)), item.nodeId)
    else ShownTitle(FirstSlideTitle(item.plan), item.nodeId)
  }

  /** Which title is shown: the stored title when it is not blank, else the label; without
      a stored title, the first slide's title unless it reads as false or blank, else the
      label; nothing when reading the first slide's title raises. */
  lemma DisplayTitleChoice(item: PlanItem)
    ensures item.title != "" && !Blank(item.title) ==> DisplayTitle(item) == Some(JStr(item.title))
    ensures item.title != "" && Blank(item.title) ==> DisplayTitle(item) == Some(JStr(NodeLabel(item.nodeId)))
    ensures item.title == "" ==> (DisplayTitle(item).Some? <==> FirstSlideTitle(item.plan).Some?)
    ensures item.title == "" && FirstSlideTitle(item.plan).Some? ==>
      var t := FirstSlideTitle(item.plan).value;
      (Truthy(t) && !(t.JStr? && Blank(t.s)) ==> DisplayTitle(item) == Some(t)) &&
      (!Truthy(t) || (t.JStr? && Blank(t.s)) ==> DisplayTitle(item) == Some(JStr(NodeLabel(item.nodeId))))
  {
    if item.title != "" {
      assert Truthy(JStr(item.title));
    }
  }

  /** The raw title `raw`, or the label when it reads as false or blank. */
  function ShownTitle(raw: Option<Json>, nodeId: int): (r: Option<Json>)
    ensures r.Some? <==> raw.Some?
    ensures r.Some? ==> Truthy(r.value) && (r.value.JStr? ==> !Blank(r.value.s))
    ensures raw.Some? && Truthy(raw.value) && !(raw.value.JStr? && Blank(raw.value.s)) ==> r == raw
    ensures raw.Some? && (!Truthy(raw.value) || (raw.value.JStr? && Blank(raw.value.s))) ==> r == Some(JStr(NodeLabel(nodeId)))
  {
    var fallback := JStr(NodeLabel(nodeId));
    assert !Blank(fallback.s) by { NodeLabelNotBlank(nodeId); }
    match raw
    case None => None
    case Some(t) =>
      var d := if Truthy(t) then t else fallback;
      if d.JStr? && Blank(d.s) then Some(fallback) else Some(d)
  }

  /** `f"{display_title}"`. */
  function TitleString(d: Json, show: Json -> string): string
  {
    if d.JStr? then d.s else show(d)
  }

  // ---------------------------------------------------------------- one node's section

  /** `item.get("plan") or {}` as a dictionary; `None` when `get` raises on it. */
  function PlanFields(plan: Json): (r: Option<seq<(string, Json)>>)
    ensures !Truthy(plan) ==> r == Some([])
    ensures plan.JObj? ==> r == Some(plan.fields)
    ensures r.None? <==> Truthy(plan) && !plan.JObj?
  {
    if !Truthy(plan) then Some([]) else if plan.JObj? then Some(plan.fields) else None
  }

  /** `(plan.get("SLIDE_PLAN") or {}).get("slides", [])`, iterated: a list gives its
      definitions, a missing key none; `null` or a number cannot be iterated. */
  function NodeSlides(pf: seq<(string, Json)>): (r: Option<seq<Json>>)
    ensures var sp := OrElse(Get(pf, "SLIDE_PLAN"), JObj([]));
      (r.Some? ==> sp.JObj?) &&
      (sp.JObj? && Get(sp.fields, "slides").None? ==> r == Some([])) &&
      (sp.JObj? && Get(sp.fields, "slides").Some? && Get(sp.fields, "slides").value.JArr? ==>
         r == Some(Get(sp.fields, "slides").value.items)) &&
      (sp.JObj? && Get(sp.fields, "slides") == Some(JNull) ==> r.None?)
  {
    var sp := OrElse(Get(pf, "SLIDE_PLAN"), JObj([]));
    if !sp.JObj? then None else Iterate(Get(sp.fields, "slides").GetOr(JArr([])))
  }

  /** `plan.get("SPEAKER_NOTES") or []`, kept only when it is a list. */
  function NodeNotes(pf: seq<(string, Json)>): (r: seq<Json>)
    ensures var n := OrElse(Get(pf, "SPEAKER_NOTES"), JArr([]));
      (n.JArr? ==> r == n.items) && (!n.JArr? ==> r == [])
  {
    var n := OrElse(Get(pf, "SPEAKER_NOTES"), JArr([]));
    if n.JArr? then n.items else []
  }

  /** The section of one plan item; `None` when reading the item raises. */
  function PlanSection(item: PlanItem, show: Json -> string): (r: Option<NodeSection>)
    ensures r.Some? <==>
      DisplayTitle(item).Some? && PlanFields(item.plan).Some? && NodeSlides(PlanFields(item.plan).value).Some?
    ensures r.Some? ==>
      r.value.title == TitleString(DisplayTitle(item).value, show) &&
      r.value.slides == NodeSlides(PlanFields(item.plan).value).value &&
      r.value.notes == NodeNotes(PlanFields(item.plan).value)
  {
    match DisplayTitle(item)
    case None => None
    case Some(d) =>
      match PlanFields(item.plan)
      case None => None
      case Some(pf) =>
        match NodeSlides(pf)
        case None => None
        case Some(slides) => Some(NodeSection(TitleString(d, show), slides, NodeNotes(pf)))
  }

  /** The section of each item, or `None` where reading it raises. */
  function SectionResults(items: seq<PlanItem>, show: Json -> string): (r: seq<Option<NodeSection>>)
    ensures |r| == |items| && forall i | 0 <= i < |items| :: r[i] == PlanSection(items[i], show)
  {
    seq(|items|, i requires 0 <= i < |items| => PlanSection(items[i], show))
  }

  /** The sections of all items, when none of them raises. */
  function AllSections(items: seq<PlanItem>, show: Json -> string): (r: Option<seq<NodeSection>>)
    ensures r.Some? <==> forall i | 0 <= i < |items| :: PlanSection(items[i], show).Some?
    ensures r.Some? ==> |r.value| == |items| && forall i | 0 <= i < |items| :: PlanSection(items[i], show) == Some(r.value[i])
  {
    AllPresent(SectionResults(items, show))
  }

  // ---------------------------------------------------------------- combining

  /** The divider slide of a node section. */
  function Divider(title: string): Json
  {
    JObj([("title", JStr(title)), ("layout", JStr("title-only")), ("bullets", JArr([JStr("Overview of this experiment")])),
          ("charts", JArr([])), ("tables", JArr([])), ("refs", JArr([]))])
  }

  /** The speaker-notes entry that opens a node section. */
  function SectionNote(title: string): Json
  {
    JArr([JStr("Section: " + title)])
  }

  /** Blocks laid end to end. */
  function Concat(blocks: seq<seq<Json>>): (r: seq<Json>)
  {
    if blocks == [] then [] else Concat(blocks[..|blocks| - 1]) + blocks[|blocks| - 1]
  }

  lemma ConcatSnoc(blocks: seq<seq<Json>>, b: seq<Json>)
    ensures Concat(blocks + [b]) == Concat(blocks) + b
  {
    assert (blocks + [b])[..|blocks|] == blocks;
  }

  /** The concatenation of a prefix of the blocks is a prefix of the concatenation. */
  lemma {:induction false} ConcatPrefix(blocks: seq<seq<Json>>, j: nat)
    requires j <= |blocks|
    ensures Concat(blocks[..j]) <= Concat(blocks)
    decreases |blocks|
  {
    if j < |blocks| {
      var init := blocks[..|blocks| - 1];
      assert init[..j] == blocks[..j];
      ConcatPrefix(init, j);
    } else {
      assert blocks[..j] == blocks;
    }
  }

  /** Block `i` sits right after the blocks before it. */
  lemma BlockAt(blocks: seq<seq<Json>>, i: nat)
    requires i < |blocks|
    ensures var o := |Concat(blocks[..i])|;
      o + |blocks[i]| <= |Concat(blocks)| && Concat(blocks)[o..o + |blocks[i]|] == blocks[i]
  {
    assert blocks[..i + 1][..i] == blocks[..i];
    assert Concat(blocks[..i + 1]) == Concat(blocks[..i]) + blocks[i];
    ConcatPrefix(blocks, i + 1);
  }

  /** Each section's slides: its divider, then its own slides. */
  function SlideBlocks(secs: seq<NodeSection>): (r: seq<seq<Json>>)
    ensures |r| == |secs| && forall i | 0 <= i < |secs| :: r[i] == [Divider(secs[i].title)] + secs[i].slides
  {
    seq(|secs|, i requires 0 <= i < |secs| => [Divider(secs[i].title)] + secs[i].slides)
  }

  /** Each section's notes: its section entry, then its own notes. */
  function NoteBlocks(secs: seq<NodeSection>): (r: seq<seq<Json>>)
    ensures |r| == |secs| && forall i | 0 <= i < |secs| :: r[i] == [SectionNote(secs[i].title)] + secs[i].notes
  {
    seq(|secs|, i requires 0 <= i < |secs| => [SectionNote(secs[i].title)] + secs[i].notes)
  }

  /** Σ (1 + number of slides) over the sections. */
  function SlideCount(secs: seq<NodeSection>): nat
  {
    if secs == [] then 0 else SlideCount(secs[..|secs| - 1]) + 1 + |secs[|secs| - 1].slides|
  }

  /** The combined deck holds one divider plus the node's slides for every node. */
  lemma {:induction false} CombinedSlideCount(secs: seq<NodeSection>)
    ensures |Concat(SlideBlocks(secs))| == SlideCount(secs)
  {
    if secs != [] {
      var init := secs[..|secs| - 1];
      CombinedSlideCount(init);
      assert SlideBlocks(secs)[..|secs| - 1] == SlideBlocks(init);
    }
  }

  /** A block made of a head and a body: the head at the block's offset, the body after it. */
  lemma HeadedBlockAt(blocks: seq<seq<Json>>, i: nat, head: Json, body: seq<Json>)
    requires i < |blocks| && blocks[i] == [head] + body
    ensures var all, o := Concat(blocks), |Concat(blocks[..i])|;
      o + 1 + |body| <= |all| && all[o] == head && all[o + 1..o + 1 + |body|] == body
  {
    BlockAt(blocks, i);
    var all, o := Concat(blocks), |Concat(blocks[..i])|;
    assert all[o..o + 1 + |body|] == [head] + body;
    assert all[o] == all[o..o + 1 + |body|][0];
    assert all[o + 1..o + 1 + |body|] == all[o..o + 1 + |body|][1..];
  }

  /** Where node `i` lands: its divider at the offset of the sections before it, its
      slides right after, in order; likewise its section note and its own notes. */
  lemma SectionPlacement(secs: seq<NodeSection>, i: nat)
    requires i < |secs|
    ensures var slides, o := Concat(SlideBlocks(secs)), |Concat(SlideBlocks(secs[..i]))|;
      o + 1 + |secs[i].slides| <= |slides| &&
      slides[o] == Divider(secs[i].title) && slides[o + 1..o + 1 + |secs[i].slides|] == secs[i].slides
    ensures var notes, o := Concat(NoteBlocks(secs)), |Concat(NoteBlocks(secs[..i]))|;
      o + 1 + |secs[i].notes| <= |notes| &&
      notes[o] == SectionNote(secs[i].title) && notes[o + 1..o + 1 + |secs[i].notes|] == secs[i].notes
  {
    assert SlideBlocks(secs)[..i] == SlideBlocks(secs[..i]);
    assert NoteBlocks(secs)[..i] == NoteBlocks(secs[..i]);
    HeadedBlockAt(SlideBlocks(secs), i, Divider(secs[i].title), secs[i].slides);
    HeadedBlockAt(NoteBlocks(secs), i, SectionNote(secs[i].title), secs[i].notes);
  }

  const CombinedTheme := JObj([("palette", JStr("deep-blue")), ("accent", JStr("#2396F5"))])

  /** The combined plan of the sections. */
  function CombinedPlan(secs: seq<NodeSection>): seq<(string, Json)>
  {
    [("SLIDE_PLAN", JObj([("theme", CombinedTheme), ("slides", JArr(Concat(SlideBlocks(secs))))])),
     ("SPEAKER_NOTES", JArr(Concat(NoteBlocks(secs))))]
  }

  /** `_combine_plans`: `None` when reading some item raises. */
  function CombineOf(items: seq<PlanItem>, show: Json -> string): (r: Option<seq<(string, Json)>>)
    ensures r.Some? <==> AllSections(items, show).Some?
    ensures r.Some? ==> r.value == CombinedPlan(AllSections(items, show).value)
  {
    match AllSections(items, show)
    case None => None
    case Some(secs) => Some(CombinedPlan(secs))
  }

  /** The slide plan and slide list of the combined plan, as the deck builder reads them. */
  lemma CombinedPlanReads(secs: seq<NodeSection>)
    ensures SlidePlanOf(CombinedPlan(secs)).Some?
    ensures SlideDefs(SlidePlanOf(CombinedPlan(secs)).value) == Concat(SlideBlocks(secs))
    ensures AccentText(CombinedPlan(secs)) == Some("2396F5")
  {
    CombinedSlidesRead(secs);
    CombinedAccentRead(secs);
  }

  lemma CombinedSlidesRead(secs: seq<NodeSection>)
    ensures SlidePlanOf(CombinedPlan(secs)).Some?
    ensures SlideDefs(SlidePlanOf(CombinedPlan(secs)).value) == Concat(SlideBlocks(secs))
  {
    var sp := [("theme", CombinedTheme), ("slides", JArr(Concat(SlideBlocks(secs))))];
    assert SlidePlanOf(CombinedPlan(secs)) == Some(sp);
    GetAt(sp, 1, "slides");
  }

  lemma CombinedAccentRead(secs: seq<NodeSection>)
    ensures AccentText(CombinedPlan(secs)) == Some("2396F5")
  {
    ThemedPlanAccent(JArr(Concat(SlideBlocks(secs))), JArr(Concat(NoteBlocks(secs))));
  }

  /** Whatever its slides and notes, a plan with the combined theme has accent 2396F5. */
  lemma ThemedPlanAccent(slides: Json, notes: Json)
    ensures AccentText([("SLIDE_PLAN", JObj([("theme", CombinedTheme), ("slides", slides)])), ("SPEAKER_NOTES", notes)])
         == Some("2396F5")
  {
    var plan := [("SLIDE_PLAN", JObj([("theme", CombinedTheme), ("slides", slides)])), ("SPEAKER_NOTES", notes)];
    var sp := [("theme", CombinedTheme), ("slides", slides)];
    ThemedSlidePlan(slides, notes);
    GetAt(sp, 0, "theme");
    CombinedAccentField();
    AccentOfTheme(plan, sp, CombinedTheme.fields, "#2396F5");
    CombinedAccentStripped();
  }

  lemma ThemedSlidePlan(slides: Json, notes: Json)
    ensures SlidePlanOf([("SLIDE_PLAN", JObj([("theme", CombinedTheme), ("slides", slides)])), ("SPEAKER_NOTES", notes)])
         == Some([("theme", CombinedTheme), ("slides", slides)])
  {
  }

  lemma CombinedAccentField()
    ensures Get(CombinedTheme.fields, "accent") == Some(JStr("#2396F5"))
  {
    GetAt(CombinedTheme.fields, 1, "accent");
  }

  lemma CombinedAccentStripped()
    ensures LStripHash("#2396F5") == "2396F5"
  {
    assert "#2396F5" == "#" + "2396F5";
    StripOneHash("2396F5");
  }

  /** The combined deck is always themed deep blue with accent #2396F5. */
  lemma CombinedThemeIsDefault(secs: seq<NodeSection>)
    ensures ThemeColors(CombinedPlan(secs)) == Some(DefaultAccent)
  {
    CombinedPlanReads(secs);
    DefaultAccentSpelled();
    ThemeOfComponents(CombinedPlan(secs), "2396F5", 35, 150, 245);
  }

  /** The deck built from a combined plan: accent #2396F5, and for at least one node,
      exactly Σ (1 + |slides_i|) slides, each drawn from the combined slide list. */
  lemma CombinedDeck(secs: seq<NodeSection>)
    requires DeckOf(CombinedPlan(secs)).Some?
    ensures DeckOf(CombinedPlan(secs)).value.accent == DefaultAccent
    ensures secs != [] ==> |DeckOf(CombinedPlan(secs)).value.slides| == SlideCount(secs)
  {
    CombinedThemeIsDefault(secs);
    CombinedPlanReads(secs);
    CombinedSlideCount(secs);
    if secs != [] {
      BlockAt(SlideBlocks(secs), 0);
    }
  }

  lemma SlideBlocksSnoc(secs: seq<NodeSection>, s: NodeSection)
    ensures SlideBlocks(secs + [s]) == SlideBlocks(secs) + [[Divider(s.title)] + s.slides]
  {
    var a, b := SlideBlocks(secs + [s]), SlideBlocks(secs) + [[Divider(s.title)] + s.slides];
    forall i | 0 <= i < |a| ensures a[i] == b[i] {
      assert (secs + [s])[i] == if i < |secs| then secs[i] else s;
    }
  }

  lemma NoteBlocksSnoc(secs: seq<NodeSection>, s: NodeSection)
    ensures NoteBlocks(secs + [s]) == NoteBlocks(secs) + [[SectionNote(s.title)] + s.notes]
  {
    var a, b := NoteBlocks(secs + [s]), NoteBlocks(secs) + [[SectionNote(s.title)] + s.notes];
    forall i | 0 <= i < |a| ensures a[i] == b[i] {
      assert (secs + [s])[i] == if i < |secs| then secs[i] else s;
    }
  }

  /** One more section extends the combined slides and notes by its blocks. */
  lemma CombineStep(secs: seq<NodeSection>, s: NodeSection)
    ensures Concat(SlideBlocks(secs + [s])) == Concat(SlideBlocks(secs)) + [Divider(s.title)] + s.slides
    ensures Concat(NoteBlocks(secs + [s])) == Concat(NoteBlocks(secs)) + [SectionNote(s.title)] + s.notes
  {
    SlideBlocksSnoc(secs, s);
    NoteBlocksSnoc(secs, s);
    ConcatSnoc(SlideBlocks(secs), [Divider(s.title)] + s.slides);
    ConcatSnoc(NoteBlocks(secs), [SectionNote(s.title)] + s.notes);
  }

  /** One pass of `_combine_plans`' loop: the node's divider, then its slides one by one,
      then its section note and notes. */
  method AppendSection(slides: seq<Json>, notes: seq<Json>, s: NodeSection) returns (slides': seq<Json>, notes': seq<Json>)
    ensures slides' == slides + [Divider(s.title)] + s.slides
    ensures notes' == notes + [SectionNote(s.title)] + s.notes
  {
    slides' := slides + [Divider(s.title)];
    for j := 0 to |s.slides|
      invariant slides' == slides + [Divider(s.title)] + s.slides[..j]
    {
      slides' := slides' + [s.slides[j]];
      assert s.slides[..j + 1] == s.slides[..j] + [s.slides[j]];
    }
    assert s.slides[..|s.slides|] == s.slides;
    notes' := notes + [SectionNote(s.title)] + s.notes;
  }

  /** `_combine_plans`: the loop over the items, appending each node's divider, slides and
      notes. */
  method CombinePlans(items: seq<PlanItem>, show: Json -> string) returns (r: Option<seq<(string, Json)>>)
    ensures r == CombineOf(items, show)
  {
    var slides: seq<Json> := [];
    var notes: seq<Json> := [];
    ghost var results := SectionResults(items, show);
    ghost var secs: seq<NodeSection> := [];
    for i := 0 to |items|
      invariant AllPresent(results[..i]) == Some(secs)
      invariant slides == Concat(SlideBlocks(secs)) && notes == Concat(NoteBlocks(secs))
    {
      var sec := PlanSection(items[i], show);
      if sec.None? {
        assert results[i].None?;
        return None;
      }
      var s := sec.value;
      slides, notes := AppendSection(slides, notes, s);
      AllPresentSnoc(results, i, secs);
      CombineStep(secs, s);
      secs := secs + [s];
    }
    assert results[..|items|] == results;
    return Some([("SLIDE_PLAN", JObj([("theme", CombinedTheme), ("slides", JArr(slides))])),
                 ("SPEAKER_NOTES", JArr(notes))]);
  }

  // ---------------------------------------------------------------- file names

  /** The text after the last `/`, or all of `p` when it has none. */
  function LastSegment(p: string): (r: string)
    ensures |r| <= |p| && r == p[|p| - |r|..]
    ensures '/' !in r
    ensures |r| < |p| ==> p[|p| - |r| - 1] == '/'
  {
    if p == [] || p[|p| - 1] == '/' then [] else LastSegment(p[..|p| - 1]) + [p[|p| - 1]]
  }

  lemma {:induction false} LastSegmentWhole(s: string)
    requires '/' !in s
    ensures LastSegment(s) == s
  {
    if s != [] {
      LastSegmentWhole(s[..|s| - 1]);
    }
  }

  /** `Path(p).name`: the last path component that is neither empty nor ".", or "" when
      there is none. */
  function BaseName(p: string): (r: string)
    ensures '/' !in r && r != "."
    decreases |p|
  {
    var seg := LastSegment(p);
    if seg != "" && seg != "." then seg
    else if |seg| == |p| then ""
    else BaseName(p[..|p| - |seg| - 1])
  }

  /** A name without directory parts is its own base name. */
  lemma BaseNameOfName(s: string)
    requires '/' !in s && s != "."
    ensures BaseName(s) == s
  {
    LastSegmentWhole(s);
  }

  lemma LowerPptxSuffix(b: string)
    ensures EndsWith(Lower(b + ".pptx"), ".pptx")
  {
    var l := Lower(b + ".pptx");
    assert l[|b|..] == ".pptx" by {
      forall k | 0 <= k < 5 ensures l[|b| + k] == ".pptx"[k] {
        assert (b + ".pptx")[|b| + k] == ".pptx"[k];
      }
    }
  }

  /** The file name of a generated deck: the base name, with ".pptx" appended unless it
      already ends in it, ignoring case. */
  function PptxName(name: string): (r: string)
    ensures '/' !in r && |r| >= 5
    ensures EndsWith(Lower(r), ".pptx")
    ensures EndsWith(Lower(BaseName(name)), ".pptx") ==> r == BaseName(name)
    ensures !EndsWith(Lower(BaseName(name)), ".pptx") ==> r == BaseName(name) + ".pptx"
  {
    var b := BaseName(name);
    if EndsWith(Lower(b), ".pptx") then b
    else
      LowerPptxSuffix(b);
      b + ".pptx"
  }

  /** Normalising a normalised name changes nothing. */
  lemma PptxNameIdempotent(name: string)
    ensures PptxName(PptxName(name)) == PptxName(name)
  {
    var r := PptxName(name);
    BaseNameOfName(r);
  }

  /** `(title or f"node_{id}").replace("/", "_").replace(" ", "_")[:50]`. */
  function SafeTitle(title: string, id: int): (r: string)
    ensures var base := if title != "" then title else "node_" + IntToString(id);
      |r| == (if |base| <= 50 then |base| else 50) &&
      forall i | 0 <= i < |r| :: r[i] == (if base[i] == '/' || base[i] == ' ' then '_' else base[i])
    ensures '/' !in r && ' ' !in r
  {
    var base := if title != "" then title else "node_" + IntToString(id);
    var t := ReplaceChar(ReplaceChar(base, '/', '_'), ' ', '_');
    if |t| <= 50 then t else t[..50]
  }

  /** The default name of a single-node deck survives normalisation unchanged. */
  lemma DefaultNameKept(title: string, id: int, ts: string)
    requires '/' !in ts
    ensures PptxName(SafeTitle(title, id) + "_" + ts + ".pptx") == SafeTitle(title, id) + "_" + ts + ".pptx"
  {
    var b := SafeTitle(title, id) + "_" + ts;
    assert b + ".pptx" == SafeTitle(title, id) + "_" + ts + ".pptx";
    LowerPptxSuffix(b);
    BaseNameOfName(b + ".pptx");
  }

  // ---------------------------------------------------------------- endpoints

  /** The body of a generate request. */
  datatype GenerateRequest = GenerateRequest(nodeId: int, filename: Option<string>)

  /** `POST /slides/plan`: 404 for a missing node, the context's own exception, then the
      LLM's plan, refused with 500 unless it is an object with both parts. */
  function MakeSlidePlan(nodes: seq<Experiment>, lits: seq<LiteratureRow>, nodeId: int,
                         parse: string -> Option<Json>, kw: KeywordSource, llm: Json -> Json): (r: Result<Json, HttpError>)
    ensures !HasExperiment(nodes, nodeId) ==> r == Err(HttpError(404, "Node not found"))
    ensures r.Ok? ==>
      ContextOf(nodes, lits, nodeId, parse, kw).Some? &&
      r.value == llm(ContextOf(nodes, lits, nodeId, parse, kw).value) &&
      r.value.JObj? && HasKey(r.value.fields, "SLIDE_PLAN") && HasKey(r.value.fields, "SPEAKER_NOTES")
    ensures HasExperiment(nodes, nodeId) && ContextOf(nodes, lits, nodeId, parse, kw).Some? && r.Err? ==>
      r.error == HttpError(500, "Invalid LLM output format.")
  {
    if !HasExperiment(nodes, nodeId) then Err(HttpError(404, "Node not found"))
    else match ContextOf(nodes, lits, nodeId, parse, kw)
      case None => Err(Unhandled)
      case Some(ctx) =>
        var plan := llm(ctx);
        if plan.JObj? && HasKey(plan.fields, "SLIDE_PLAN") && HasKey(plan.fields, "SPEAKER_NOTES") then Ok(plan)
        else Err(HttpError(500, "Invalid LLM output format."))
  }

  /** The plan item of every node, in table order; `None` when a context raises. */
  function PlanItems(nodes: seq<Experiment>, lits: seq<LiteratureRow>, parse: string -> Option<Json>,
                     kw: KeywordSource, llm: Json -> Json): (r: Option<seq<PlanItem>>)
    ensures r.Some? <==> forall i | 0 <= i < |nodes| :: ContextOf(nodes, lits, nodes[i].id, parse, kw).Some?
    ensures r.Some? ==> |r.value| == |nodes| && forall i | 0 <= i < |nodes| ::
      r.value[i] == PlanItem(nodes[i].id, nodes[i].title, llm(ContextOf(nodes, lits, nodes[i].id, parse, kw).value))
  {
    if forall i | 0 <= i < |nodes| :: ContextOf(nodes, lits, nodes[i].id, parse, kw).Some? then
      Some(seq(|nodes|, i requires 0 <= i < |nodes| =>
        PlanItem(nodes[i].id, nodes[i].title, llm(ContextOf(nodes, lits, nodes[i].id, parse, kw).value))))
    else None
  }

  /** Building a deck from a plan and answering with its download path. */
  function BuildAndLink(plan: seq<(string, Json)>, filename: string): (r: Result<string, HttpError>)
    ensures r.Ok? <==> DeckOf(plan).Some?
    ensures r.Ok? ==> r.value == "/download/" + filename
    ensures r.Err? ==> r.error == HttpError(500, "PPTX build failed")
  {
    if DeckOf(plan).Some? then Ok("/download/" + filename) else Err(HttpError(500, "PPTX build failed"))
  }

  /** The combined deck of all nodes under the given name. */
  function CombinedPptx(nodes: seq<Experiment>, lits: seq<LiteratureRow>, parse: string -> Option<Json>,
                        kw: KeywordSource, llm: Json -> Json, show: Json -> string, name: string): (r: Result<string, HttpError>)
    ensures r.Ok? ==>
      PlanItems(nodes, lits, parse, kw, llm).Some? &&
      CombineOf(PlanItems(nodes, lits, parse, kw, llm).value, show).Some? &&
      DeckOf(CombineOf(PlanItems(nodes, lits, parse, kw, llm).value, show).value).Some? &&
      r.value == "/download/" + PptxName(name)
    ensures r.Err? && PlanItems(nodes, lits, parse, kw, llm).Some? &&
            CombineOf(PlanItems(nodes, lits, parse, kw, llm).value, show).Some? ==>
      r.error == HttpError(500, "PPTX build failed")
  {
    match PlanItems(nodes, lits, parse, kw, llm)
    case None => Err(Unhandled)
    case Some(items) =>
      match CombineOf(items, show)
      case None => Err(Unhandled)
      case Some(plan) => BuildAndLink(plan, PptxName(name))
  }

  /** `POST /slides/generate`: without a body, the combined deck "all_nodes_{ts}.pptx";
      with one, the node's deck named by the request or by its safe title and `ts`. */
  function GeneratePptx(nodes: seq<Experiment>, lits: seq<LiteratureRow>, parse: string -> Option<Json>,
                        kw: KeywordSource, llm: Json -> Json, show: Json -> string,
                        req: Option<GenerateRequest>, ts: string): (r: Result<string, HttpError>)
    ensures req.None? ==> r == CombinedPptx(nodes, lits, parse, kw, llm, show, "all_nodes_" + ts + ".pptx")
    ensures req.Some? && !HasExperiment(nodes, req.value.nodeId) ==> r == Err(HttpError(404, "Node not found"))
    ensures req.Some? && r.Ok? ==>
      var x := FindExperiment(nodes, req.value.nodeId).value;
      var plan := llm(ContextOf(nodes, lits, req.value.nodeId, parse, kw).value);
      HasExperiment(nodes, req.value.nodeId) && ContextOf(nodes, lits, req.value.nodeId, parse, kw).Some? &&
      plan.JObj? && HasKey(plan.fields, "SLIDE_PLAN") && DeckOf(plan.fields).Some? &&
      (req.value.filename.Some? && req.value.filename.value != "" ==>
         r.value == "/download/" + PptxName(req.value.filename.value)) &&
      (req.value.filename.None? || req.value.filename.value == "" ==>
         r.value == "/download/" + PptxName(SafeTitle(x.title, x.id) + "_" + ts + ".pptx"))
    ensures req.Some? && HasExperiment(nodes, req.value.nodeId) && ContextOf(nodes, lits, req.value.nodeId, parse, kw).Some? ==>
      var plan := llm(ContextOf(nodes, lits, req.value.nodeId, parse, kw).value);
      !(plan.JObj? && HasKey(plan.fields, "SLIDE_PLAN")) ==> r == Err(HttpError(500, "Failed to generate slide plan"))
  {
    match req
    case None => CombinedPptx(nodes, lits, parse, kw, llm, show, "all_nodes_" + ts + ".pptx")
    case Some(rq) =>
      match FindExperiment(nodes, rq.nodeId)
      case None => Err(HttpError(404, "Node not found"))
      case Some(x) =>
        match ContextOf(nodes, lits, rq.nodeId, parse, kw)
        case None => Err(Unhandled)
        case Some(ctx) =>
          var plan := llm(ctx);
          if !(plan.JObj? && HasKey(plan.fields, "SLIDE_PLAN")) then Err(HttpError(500, "Failed to generate slide plan"))
          else
            var requested := if rq.filename.Some? && rq.filename.value != "" then rq.filename.value
                             else SafeTitle(x.title, x.id) + "_" + ts + ".pptx";
            BuildAndLink(plan.fields, PptxName(requested))
  }

  /** `POST /slides/generate_all`: the combined deck, named by the request or
      "all_nodes_{ts}.pptx". */
  function GeneratePptxAll(nodes: seq<Experiment>, lits: seq<LiteratureRow>, parse: string -> Option<Json>,
                           kw: KeywordSource, llm: Json -> Json, show: Json -> string,
                           filename: Option<string>, ts: string): (r: Result<string, HttpError>)
    ensures filename.Some? && filename.value != "" ==>
      r == CombinedPptx(nodes, lits, parse, kw, llm, show, filename.value)
    ensures filename.None? || filename.value == "" ==>
      r == CombinedPptx(nodes, lits, parse, kw, llm, show, "all_nodes_" + ts + ".pptx")
  {
    var name := if filename.Some? && filename.value != "" then filename.value else "all_nodes_" + ts + ".pptx";
    CombinedPptx(nodes, lits, parse, kw, llm, show, name)
  }

  /** A successful generation answers with a download path whose file name has no
      directory part and ends in ".pptx". */
  lemma GeneratedNameSafe(nodes: seq<Experiment>, lits: seq<LiteratureRow>, parse: string -> Option<Json>,
                          kw: KeywordSource, llm: Json -> Json, show: Json -> string,
                          req: Option<GenerateRequest>, ts: string)
    requires GeneratePptx(nodes, lits, parse, kw, llm, show, req, ts).Ok?
    ensures var path := GeneratePptx(nodes, lits, parse, kw, llm, show, req, ts).value;
      StartsWith(path, "/download/") && '/' !in path[10..] && EndsWith(Lower(path[10..]), ".pptx")
  {
    var path := GeneratePptx(nodes, lits, parse, kw, llm, show, req, ts).value;
    var requested: string;
    if req.None? {
      requested := "all_nodes_" + ts + ".pptx";
    } else if req.value.filename.Some? && req.value.filename.value != "" {
      requested := req.value.filename.value;
    } else {
      var x := FindExperiment(nodes, req.value.nodeId).value;
      requested := SafeTitle(x.title, x.id) + "_" + ts + ".pptx";
    }
    var name := PptxName(requested);
    assert path == "/download/" + name;
    assert path[10..] == name;
  }

  /** The context of every node, in table order; `None` when one of them raises. */
  function ContextsOf(nodes: seq<Experiment>, lits: seq<LiteratureRow>, parse: string -> Option<Json>,
                      kw: KeywordSource): (r: Option<seq<Json>>)
    ensures r.Some? <==> forall i | 0 <= i < |nodes| :: ContextOf(nodes, lits, nodes[i].id, parse, kw).Some?
    ensures r.Some? ==> |r.value| == |nodes| && forall i | 0 <= i < |nodes| ::
      ContextOf(nodes, lits, nodes[i].id, parse, kw) == Some(r.value[i])
  {
    if forall i | 0 <= i < |nodes| :: ContextOf(nodes, lits, nodes[i].id, parse, kw).Some? then
      Some(seq(|nodes|, i requires 0 <= i < |nodes| => ContextOf(nodes, lits, nodes[i].id, parse, kw).value))
    else None
  }

  /** `GET /slides/context`: the contexts of all nodes and their count. */
  function ContextAll(nodes: seq<Experiment>, lits: seq<LiteratureRow>, parse: string -> Option<Json>,
                      kw: KeywordSource, generatedAt: string): (r: Option<Json>)
    ensures r.Some? <==> ContextsOf(nodes, lits, parse, kw).Some?
    ensures r.Some? ==>
      r.value.JObj? &&
      Get(r.value.fields, "node_count") == Some(JNum(|nodes| as real)) &&
      Get(r.value.fields, "contexts") == Some(JArr(ContextsOf(nodes, lits, parse, kw).value))
  {
    match ContextsOf(nodes, lits, parse, kw)
    case None => None
    case Some(contexts) =>
      var f := [("generated_at", JStr(generatedAt)), ("node_count", JNum(|contexts| as real)), ("contexts", JArr(contexts))];
      GetAt(f, 1, "node_count");
      GetAt(f, 2, "contexts");
      Some(JObj(f))
  }

  /** The speaker notes listed for one plan by `POST /slides/plan_all`. */
  function PlanNotes(plan: Json): (r: Json)
    ensures plan.JObj? && HasKey(plan.fields, "SPEAKER_NOTES") ==> r == Get(plan.fields, "SPEAKER_NOTES").value
    ensures !plan.JObj? || !HasKey(plan.fields, "SPEAKER_NOTES") ==> r == JNull
  {
    if plan.JObj? then Get(plan.fields, "SPEAKER_NOTES").GetOr(JNull) else JNull
  }
}
