# A verified model of the hophack25 research-lineage assistant

hophack25 helps a researcher keep track of a project as a graph of experiments.
Experiments are nodes, and lineage relationships between them are edges.
The system has four parts:

- a FastAPI backend that stores the graph with its literature, context keywords, notes, discussion points and professor feedback, and builds slide decks from it;
- a literature-suggestion pipeline: an LLM (Gemini) proposes candidate papers, OpenAlex resolves and checks each one, and a fixed linear scorer keeps the best;
- a Node assistant service with an in-memory session store, a summary cache with a five-minute lifetime, a translator from Zod argument schemas to JSON Schema for its tools, a log-level parser and a CORS origin list;
- front-end helpers that group a node's ancestors and descendants into generations, lay them out, map experiment statuses and retry failed requests with exponential back-off.

This project restates the deterministic core of those parts in Dafny and proves properties of each operation; the section "Left out" below lists what the contracts do not state.
There is one module per source file, in `src/`.
Code that mutates state is modelled imperatively:
- the graph store, literature table, keyword set, JSON record stores, session store and summary cache are classes whose methods change their fields;
- loops become `while` or `for` loops with invariants, each proved against a functional definition.

Pure code is modelled as functions.
Shared vocabulary lives in five helper modules:
- `Common`: `Option` and `Result`;
- `Strings`: Python and JavaScript white space, ASCII lower-casing and number rendering;
- `Seqs`: first-occurrence de-duplication;
- `Json`: JSON values whose objects keep insertion order, as Python dictionaries do;
- `GraphModel`: the experiment and relationship tables.

The outside world is passed in as parameters, as values or as oracle functions.
That covers the OpenAlex API, the Gemini and OpenAI models, the node-info HTTP API, the clock, generated ids and the retry jitter.

## Model

| member | source | states |
|---|---|---|
| Scorer.Clamp01 | backend/services/scorer.py:15-16 | the clamped value lies in [0, 1], and a value already in [0, 1] is unchanged |
| Scorer.NormYear | backend/services/scorer.py:2-5 | recency lies in [0, 1); a missing or zero year gives 0.3; years up to 2015 give 0 and years from 2025 give 10/(10+1e-9) |
| Scorer.Mix | backend/services/scorer.py:7-19 | the final score lies in [0, 1) |
| Scorer.NormYearMonotone | backend/services/scorer.py:2-5 | among known years, a later year never has a lower recency |
| Scorer.MixMonotone | backend/services/scorer.py:7-19 | raising relevance or verification strength never lowers the score |
| Scorer.OpenAccessBonus | backend/services/scorer.py:18-19 | open access adds exactly 0.10 |
| Scorer.VerifiedOutranksUnverified | backend/services/scorer.py:7-19 | a verified candidate outranks an unverified one of equal relevance and access, whatever the two years |
| OpenAlex.MaxPos | backend/services/openalex.py:20 | the largest position listed in the inverted index, or none when no token has a position |
| OpenAlex.SlotIsLastWriter | backend/services/openalex.py:22-24 | a position shows the token of the last entry that lists it |
| OpenAlex.SlotUnwritten | backend/services/openalex.py:21 | a position no entry lists stays empty |
| OpenAlex.FlattenAbstract | backend/services/openalex.py:16-25 | the buffer-filling loop produces exactly the reconstructed abstract: empty for an empty index, an error for an index with no positions, else the slots joined by spaces |
| OpenAlex.NormWork | backend/services/openalex.py:27-45 | id, title, year and DOI are copied; the citation count defaults to 0 and open access to false; the URL is the host URL when non-empty, else the DOI; it fails exactly when rebuilding the abstract fails |
| OpenAlex.BuildRequest | backend/services/openalex.py:47-52 | the request keeps the caller's parameters and adds `mailto` |
| OpenAlex.LastSegment | backend/services/openalex.py:58 | the text after the last slash: it holds no slash, ends the input, and is preceded by a slash when shorter than the input |
| OpenAlex.GetWork | backend/services/openalex.py:54-60 | a work is found exactly when the record fetched for the id's last segment arrives and its abstract can be rebuilt; it carries that record's id and title and no resolution tag |
| OpenAlex.UrlAndIdAgree | backend/services/openalex.py:54-60 | a full work URL and its bare id fetch the same work |
| OpenAlex.LastSegmentOfPlain | backend/services/openalex.py:58 | a text without a slash is its own last segment |
| OpenAlex.LastSegmentAfterSlash | backend/services/openalex.py:58 | the last segment of `prefix/id` is `id` |
| OpenAlex.ByDoi | backend/services/openalex.py:66-76 | a work is found exactly when the DOI is non-empty, the DOI lookup arrives and its abstract can be rebuilt; it is that record, normalised and tagged `doi` |
| OpenAlex.ByTitle | backend/services/openalex.py:77-89 | a work is found exactly when the query is non-empty, the search arrives with at least one hit, and the top hit's abstract can be rebuilt; it is that hit, normalised and tagged `title` |
| OpenAlex.Resolve | backend/services/openalex.py:62-90 | the DOI is tried first; the title is searched only when the DOI is missing or its lookup fails |
| OpenAlex.VerifyValidity | backend/services/openalex.py:99-113 | valid exactly when the work exists with a non-empty id; strength 1.0 when valid and 0.0 otherwise; the evidence names the id, the DOI and the resolution path |
| OpenAlex.ResolvedWorksVerify | backend/services/openalex.py:62-113 | every resolved work with an id verifies, with evidence `doi` or `title` |
| Orchestrator.Survivors | backend/services/orchestrator.py:41-68 | every surviving candidate was resolved in the index, is not excluded, verified with strength 1.0, obeys the temporal rule against the base when there is one, and carries the mixed score of its relevance, year and access, which lies in [0, 1); every candidate that passes these checks survives, so a failing one is skipped and never ends the loop |
| Orchestrator.SurvivorsAppend | backend/services/orchestrator.py:41-68 | the survivors keep proposal order: those of two runs of proposals are the first run's followed by the second's |
| Orchestrator.SurvivorsOfOne | backend/services/orchestrator.py:41-68 | one proposal survives exactly when its resolution, exclusion, validity and temporal checks pass, with its score |
| Orchestrator.VerifyCandidates | backend/services/orchestrator.py:40-68 | the candidate loop yields exactly `Survivors`: every candidate that resolves, is not excluded, is verified and passes the temporal check, scored, in proposal order, and no other |
| Orchestrator.FirstMax | backend/services/orchestrator.py:74 | `max(..., key=score)` picks a survivor whose score no other exceeds, and the first such one |
| Orchestrator.Pick | backend/services/orchestrator.py:70-93 | no survivor is the "no verified candidate" error and the only way to get it; a card is built from the first highest-scoring survivor, with "related" when its relationship is empty |
| Orchestrator.SuggestOne | backend/services/orchestrator.py:15-93 | the whole flow returns the result its functional definition gives; a missing node is reported exactly when neither the node endpoint nor the experiment table knows it |
| Orchestrator.SuggestOneCard | backend/services/orchestrator.py:41-93 | a suggested card is an index work that is not excluded, verified with strength 1.0, with a confidence in [0, 1) and no base, and no surviving candidate scores higher |
| Orchestrator.AfterLast | backend/services/orchestrator.py:100 | `split(sep)[-1]` is a suffix of the input |
| Orchestrator.AfterLastHasNoSep | backend/services/orchestrator.py:100 | the text after the last separator holds no separator |
| Orchestrator.AfterLastFollowsSep | backend/services/orchestrator.py:100 | when the separator occurs, the result begins right after an occurrence |
| Orchestrator.AfterLastWholeOrFollows | backend/services/orchestrator.py:100 | `split(sep)[-1]` is the whole input or begins right after an occurrence of the separator |
| Orchestrator.ParseDoiFromLink | backend/services/orchestrator.py:95-103 | a DOI is found exactly when the link is present and contains "doi.org/"; it is the stripped text after the last marker |
| Orchestrator.DoiLinkRoundTrip | backend/services/orchestrator.py:95-103 | parsing "https://doi.org/" + doi gives back the stripped DOI |
| Orchestrator.OnlyOccurrence | backend/services/orchestrator.py:99-100 | in a resolver link whose DOI does not repeat the marker, the marker occurs only once |
| Orchestrator.ResolveBase | backend/services/orchestrator.py:122-133 | a successful lookup by index id is the answer. When the id is missing or its lookup fails and a link is given, the answer is the resolution of the link's DOI with the link as search text. A result from the fallback implies a link. With neither id nor link, nothing |
| Orchestrator.SuggestFromLiterature | backend/services/orchestrator.py:105-198 | the whole flow returns the result its functional definition gives: missing node, unresolvable base, no candidate, or a card carrying the base |
| Orchestrator.FromLiteratureRespectsTime | backend/services/orchestrator.py:157-169 | a card suggested from a base is not excluded, verified, carries the base, and when both years are known a "prior" card is strictly older and a "builds_on" card not older |
| Orchestrator.PickRespectsTime | backend/services/orchestrator.py:177-198 | the picked card inherits the exclusion, validity and temporal facts every survivor has |
| LlmGemini.ValidCandidates | backend/services/llm_gemini.py:81-85 | exactly the papers with both a `title` and a `relationship` key survive, converted, and nothing else |
| LlmGemini.FilterPapers | backend/services/llm_gemini.py:81-85 | the loop over `papers` produces the well-formed candidates in reply order |
| LlmGemini.Proposals | backend/services/llm_gemini.py:43-102 | at least one and at most `k` proposals; each is the fallback or a well-formed paper of the reply; the single fallback without a key, on a failed call, or when no paper is well formed; otherwise the first `k` well-formed papers in reply order |
| LlmGemini.GenerateCandidates | backend/services/llm_gemini.py:43-102 | the `Proposals` with the node-context fallback: that single fallback without a key, on a failed call or when no paper is well formed, else the first `k` well-formed papers in reply order |
| LlmGemini.GenerateCandidatesFromBase | backend/services/llm_gemini.py:104-166 | the `Proposals` with the base-paper fallback: that single fallback without a key, on a failed call or when no paper is well formed, else the first `k` well-formed papers in reply order |
| LlmGemini.Propose | backend/services/llm_gemini.py:72-94 | the shared body of both proposers computes `Proposals`: the fallback alone, or the well-formed papers cut to `k` |
| LlmGemini.StanceOf | backend/services/llm_gemini.py:168-183 | neutral without a key; with one, contradict exactly when the normalised answer mentions "contrad", support exactly when it mentions "support" but not "contrad"; a failed call is an error |
| LlmGemini.SummaryFallback | backend/services/llm_gemini.py:190 | the no-key summary as written, at most 35 characters |
| LlmGemini.SummaryFallbackMisreports | backend/services/llm_gemini.py:190 | a 35-character abstract is cut to 34 without "…", and a padded abstract kept whole gets "…" |
| LlmGemini.SummaryFallbackIntended | backend/services/llm_gemini.py:187-190 | the stripped text when it fits in 34 characters, else its first 34 characters and "…" |
| LlmGemini.SummarizeOneLiner | backend/services/llm_gemini.py:185-194 | without a key the intended local fallback (`SummaryFallbackIntended`, not the as-written line 190); with one, a failed call is an error and otherwise the summary is never empty |
| LlmGemini.PySplit | backend/services/llm_gemini.py:203 | `str.split()` yields non-empty words with no whitespace |
| LlmGemini.Keywords | backend/services/llm_gemini.py:202-203 | every keyword has at least three characters |
| LlmGemini.RelevanceScore | backend/services/llm_gemini.py:196-205 | the score lies in [0.2, 1.0]; 0.2 with no hit and 1.0 from six hits on |
| LlmGemini.ScoreOfHitsMonotone | backend/services/llm_gemini.py:204-205 | more hits never lower the score, and below the cap each hit adds 0.15 |
| LlmGemini.KeywordInTitleScores | backend/services/llm_gemini.py:201-205 | a keyword found in the title lifts the score to at least 0.35 |
| Memory.LinkedDb | backend/services/memory.py:37-59 | every parent or child entry comes from a relationship touching the node, names its existing far end with that end's title, and carries the relationship type |
| Memory.LinkedDbCount | backend/services/memory.py:39-41 | each relationship touching the node contributes exactly one entry when its far end exists and none when it was deleted |
| Memory.NodeInfoDb | backend/services/memory.py:13-61 | the database view of the node, and an error exactly when the node does not exist |
| Memory.CollectLinked | backend/services/memory.py:38-47 | the scan of the relationship table builds exactly the linked entries, in table order |
| Memory.Brief | backend/services/memory.py:90-96 | one brief per entry, in order: the title, with the relationship in parentheses when there is one |
| Memory.NodeContext | backend/services/memory.py:75-112 | an endpoint answer always gives a context; without it, the context is missing exactly when the node is not in the database. The context condenses the node info used: the problem is the node's title, and description, motivation, expectations and hypothesis are the node's. There is one brief per parent and per child, in order, and the alias and dataset lists are empty. From the database, these are the stored experiment's fields, with one parent (child) brief per incoming (outgoing) relationship whose far end exists |
| Memory.GetNodeContext | backend/services/memory.py:75-112 | computes `NodeContext`, so it carries all of that contract; one parent brief per parent of the node info used |
| Memory.ContextOf | backend/services/memory.py:101-112 | the context condenses the node info: title as problem, the four text fields, one brief per parent and per child in order, empty alias and dataset lists |
| Experiments.Preview | backend/app/api/endpoints/experiments.py:29 | an empty or missing description has no preview; otherwise the preview is the description's first 100 characters, or all of it when shorter |
| Experiments.NodeType | backend/app/api/endpoints/experiments.py:108 | the `node_type` stored in a non-empty `extra_data`, else "experiment" |
| Experiments.Overview | backend/app/api/endpoints/experiments.py:11-46 | one node per experiment and one edge per relationship, in table order; each node typed "experiment" with a description preview, each edge keeping its ends, type and label |
| Experiments.FirstRelType | backend/app/api/endpoints/experiments.py:87 | `next(...)` finds a relationship type exactly when some relationship joins the two nodes, and it is the type of the first such relationship |
| Experiments.LinkedRows | backend/app/api/endpoints/experiments.py:78-100 | every listed parent or child carries the type of its first joining relationship, and every experiment joined to the node is listed |
| Experiments.LinkedRowsFromNodes | backend/app/api/endpoints/experiments.py:82-88 | each listed entry is the preview of a stored experiment |
| Experiments.GetNodeInfo | backend/app/api/endpoints/experiments.py:49-112 | the handler's answer: 404 exactly when the node is missing; otherwise the node with its declared type, and the parent and child lists only when asked for |
| Experiments.GetNodeInfoAsWritten | backend/app/api/endpoints/experiments.py:48 | the route checks the handler's answer against `NodeInfo`; it fails exactly when the node is missing or the `node` object lacks a field the schema requires |
| Experiments.NodeInfoAlways500 | backend/app/schemas/experiment.py:29-36 | as written, every existing node answers 500, because the handler's `node` has no `created_at` or `updated_at` |
| Experiments.ParentsAreExactlySources | backend/app/api/endpoints/experiments.py:68-88 | a stored experiment is listed as a parent exactly when a relationship runs from it into the node |
| Experiments.FindEdgeByNodes | backend/app/api/endpoints/experiments.py:293-306 | the first relationship in table order with both endpoints, and the label when one is given; none exactly when no relationship matches |
| Experiments.EmptyLabelIgnored | backend/app/api/endpoints/experiments.py:304-305 | an empty label filters nothing, like no label |
| Experiments.SubgraphUnique | backend/app/api/endpoints/experiments.py:174-195 | the set of nodes reachable from a node is unique |
| Experiments.CollectSubgraph | backend/app/api/endpoints/experiments.py:174-195 | the worklist walk ends on every graph, cycles included, with the least set holding the start and closed under the relationships |
| Experiments.NodesOutside | backend/app/api/endpoints/experiments.py:232-246 | the experiments left are exactly those whose id is not removed, and ids stay unique |
| Experiments.EdgesOutside | backend/app/api/endpoints/experiments.py:226-241 | the relationships left are exactly those with neither end removed, and ids stay unique |
| Experiments.EdgesWithoutId | backend/app/api/endpoints/experiments.py:313 | the relationships left are exactly those with another id, never more of them, and ids stay unique |
| Experiments.WithoutAbsentId | backend/app/api/endpoints/experiments.py:313 | when no relationship has the id, all are kept |
| Experiments.WithoutPresentId | backend/app/api/endpoints/experiments.py:313 | when some relationship has the id, fewer are left |
| Experiments.MergeExtra | backend/app/api/endpoints/experiments.py:164-168 | a non-empty update is merged into a non-empty stored object, the update's keys winning; otherwise the update replaces it |
| Experiments.Patched | backend/app/api/endpoints/experiments.py:161-168 | each field the request set takes its new value, `extra_data` by merging; every other field and the id keep theirs |
| Experiments.EmptyPatchIsIdentity | backend/app/api/endpoints/experiments.py:162-168 | a request that sets no field changes nothing |
| Experiments.GraphStore.UpdateNode | backend/app/api/endpoints/experiments.py:148-172 | 404 with nothing changed when the node is missing; otherwise only that row changes, to the patched row, which is returned |
| Experiments.GraphStore.DeleteNode | backend/app/api/endpoints/experiments.py:197-249 | 404 when the node is missing and 400 when it has children without force, both changing nothing; a forced delete removes the node's subgraph and every relationship touching it; a plain one the node and its relationships; unique ids are kept |
| Experiments.GraphStore.CreateEdge | backend/app/api/endpoints/experiments.py:251-270 | 404 unless both ends exist; otherwise exactly one relationship with a new id is appended, with no duplicate or cycle check |
| Experiments.GraphStore.DeleteEdgeById | backend/app/api/endpoints/experiments.py:308-318 | the relationship with that id is removed; 404 exactly when there was none |
| Experiments.GraphStore.DeleteEdgeByNodes | backend/app/api/endpoints/experiments.py:320-334 | the handler: the first matching relationship is removed; 404 with nothing changed exactly when none matches |
| Experiments.FirstRoute | backend/app/api/endpoints/experiments.py:308-320 | the router takes the first route in registration order whose pattern matches, and no route exactly when none matches |
| Experiments.DispatchEdgeDelete | backend/app/api/endpoints/experiments.py:308-320 | a DELETE under `/edges/` reaches the first matching route's handler; 422 exactly when that is the by-id route and the segment is not an integer |
| Experiments.ByNodesIsShadowed | backend/app/api/endpoints/experiments.py:308-320 | as registered, `DELETE /edges/by-nodes` answers 422 and no path reaches the by-nodes handler |
| Experiments.IntendedRouting | backend/app/api/endpoints/experiments.py:308-320 | with the literal route first, "by-nodes" reaches its handler and an integer id still reaches the by-id handler |
| Literature.LinksOf | backend/app/api/endpoints/literature.py:16-19 | a link is listed for a node exactly when a row attaches it to that node |
| Literature.RowsWithout | backend/app/api/endpoints/literature.py:56-59 | the rows left are exactly those not attaching the link to the node; fewer when one did, all when none did |
| Literature.AddedLinkListed | backend/app/api/endpoints/literature.py:21-47 | a link added to a node is listed for it afterwards, and other nodes' lists are unchanged |
| Literature.AppendOther | backend/app/api/endpoints/literature.py:16-19 | a row attached to another node leaves a node's list unchanged |
| Literature.LinksOfAppend | backend/app/api/endpoints/literature.py:16-19 | appending a row extends its node's list by its link, at the end |
| Literature.NoRowsNoLinks | backend/app/api/endpoints/literature.py:16-19 | a node with no rows has no links |
| Literature.LiteratureTable.Get | backend/app/api/endpoints/literature.py:10-19 | the links of the node's rows, and no other |
| Literature.LiteratureTable.Add | backend/app/api/endpoints/literature.py:21-47 | 404 with the table unchanged exactly when the node is missing; otherwise exactly one row is appended, even for a link already attached |
| Literature.LiteratureTable.Delete | backend/app/api/endpoints/literature.py:49-72 | every row attaching the link to the node is removed; 404 exactly when there was none |
| ContextKeywords.Without | backend/app/api/endpoints/context_keywords.py:32 | the keywords left are exactly the others; uniqueness is kept and an absent keyword changes nothing |
| ContextKeywords.KeywordTable.GetAll | backend/app/api/endpoints/context_keywords.py:11-15 | every stored keyword, each once |
| ContextKeywords.KeywordTable.Add | backend/app/api/endpoints/context_keywords.py:17-27 | 400 with nothing changed exactly when the keyword is already stored; otherwise it is appended; either way it is stored afterwards and the column stays unique |
| ContextKeywords.KeywordTable.Delete | backend/app/api/endpoints/context_keywords.py:29-36 | 404 with nothing changed exactly when the keyword is not stored; otherwise exactly that keyword is gone |
| Notes.NotesStore.constructor | backend/app/api/endpoints/notes.py:10-16 | the first record has both fields empty |
| Notes.NotesStore.Update | backend/app/api/endpoints/notes.py:27-45 | each given argument overwrites its field, every other key keeps its value, nothing changes when neither is given, and the record written is the one returned |
| Discussion.DiscussionStore.constructor | backend/app/api/endpoints/discussion.py:10-15 | the first record has empty discussion points |
| Discussion.DiscussionStore.Update | backend/app/api/endpoints/discussion.py:26-42 | a given value overwrites `discussion_points`, every other key keeps its value, and the record written is the one returned |
| Feedback.EmptyFeedback | backend/app/api/endpoints/feedback.py:16-19 | a record of exactly two keys: empty feedback and the given time stamp |
| Feedback.FeedbackStore.constructor | backend/app/api/endpoints/feedback.py:13-19 | the first record is the empty feedback stamped with the current time |
| Feedback.FeedbackStore.Update | backend/app/api/endpoints/feedback.py:30-47 | a given text sets the feedback and the time stamp together; without one the record is unchanged; other keys keep their values |
| Feedback.FeedbackStore.Delete | backend/app/api/endpoints/feedback.py:51-65 | the record is reset to empty feedback stamped now, whatever it held, and success is reported |
| PptxBuilder.ParseHex | backend/services/pptx_builder.py:23-25 | `int(t, 16)` on a two-character slice: a value in [-255, 255], read after stripping whitespace, with one optional sign |
| PptxBuilder.Slice | backend/services/pptx_builder.py:23-25 | a slice clamped to the string, equal to the plain slice when it fits |
| PptxBuilder.LStripHash | backend/services/pptx_builder.py:21 | a suffix of the input that does not start with `#` |
| PptxBuilder.AccentText | backend/services/pptx_builder.py:20-21 | the accent text exists only when the slide plan is an object |
| PptxBuilder.SlidePlanOf | backend/services/pptx_builder.py:20 | the slide plan is empty exactly when `SLIDE_PLAN` is missing or falsy |
| PptxBuilder.ParseComponents | backend/services/pptx_builder.py:22-25 | three components read from characters 0-2, 2-4 and 4-6, each in [-255, 255] |
| PptxBuilder.ThemeColors | backend/services/pptx_builder.py:19-28 | a colour has three byte components; there is one exactly when the accent can be read and its components are not negative; an accent that does not parse gives #2396F5 |
| PptxBuilder.HexPairParses | backend/services/pptx_builder.py:23-25 | two upper-case hexadecimal digits parse back to their byte |
| PptxBuilder.ComponentsOfPairs | backend/services/pptx_builder.py:22-25 | the components of `RRGGBB` are its three digit pairs read as bytes |
| PptxBuilder.AccentRoundTrip | backend/services/pptx_builder.py:19-28 | a theme accent `#` followed by three two-character digit pairs gives the colour whose components are those pairs read as hexadecimal numbers |
| PptxBuilder.DefaultAccentSpelled | backend/services/pptx_builder.py:21-27 | the default text #2396F5 spells the fallback colour (35, 150, 245) |
| PptxBuilder.NoThemeIsDefault | backend/services/pptx_builder.py:19-28 | a plan without a theme gets the default accent |
| PptxBuilder.TitleText | backend/services/pptx_builder.py:155 | the title is never empty: a missing or falsy title is "Untitled", and a non-empty string is kept |
| PptxBuilder.Placeholder | backend/services/pptx_builder.py:234-282 | each layout's stand-in bullet starts with "(placeholder) " |
| PptxBuilder.BulletTexts | backend/services/pptx_builder.py:173-175 | one text per bullet, in order, with `None` written as "" |
| PptxBuilder.FirstChart | backend/services/pptx_builder.py:244-249 | the first chart of a list is rendered; only a list or a text yields a chart, other values fail inside the guarded block |
| PptxBuilder.Grid | backend/services/pptx_builder.py:184-197 | a header row of the column names, then one row per data row, each as wide as the header, cells cut to the column count and missing cells empty |
| PptxBuilder.RowCells | backend/services/pptx_builder.py:196 | `r[:len(cols)]` works on a list or a text only, and gives at most the column count of cells |
| PptxBuilder.AllRowCells | backend/services/pptx_builder.py:195-197 | every row is sliced, or the table raises |
| PptxBuilder.TableFromSpec | backend/services/pptx_builder.py:184-197 | a specification must be an object; no columns draws nothing; with columns, the table is drawn exactly when the columns and rows can be iterated and every row sliced, and its grid is `Grid` of the columns and the sliced rows |
| PptxBuilder.TableOf | backend/services/pptx_builder.py:250-255 | the table drawn is the first element of a list of specifications |
| PptxBuilder.SlideOf | backend/services/pptx_builder.py:224-282 | a slide exists only for an object definition; its title is the definition's title text, no bullet is null, and any chart or table on it is the first of the definition's charts or tables |
| PptxBuilder.SlideSucceeds | backend/services/pptx_builder.py:224-282 | a definition yields a slide exactly when it is an object with a writable title, the bullets it shows can be iterated, and the table it draws, if any, can be drawn |
| PptxBuilder.SlideBullets | backend/services/pptx_builder.py:224-282 | the bullets are the texts of the given bullets, or of the layout's placeholder when none are given, and none when a left table replaces them |
| PptxBuilder.SlideTable | backend/services/pptx_builder.py:240-257 | the slide has the first table exactly in "table-left-chart-right" with tables and in "two-col" with tables and no chart |
| PptxBuilder.SlideChart | backend/services/pptx_builder.py:240-275 | the slide has the first chart exactly in the three chart layouts when there are charts |
| PptxBuilder.SlideLayout | backend/services/pptx_builder.py:234-282 | only three layouts place a table or a chart; in "two-col" a chart wins over a table; a left table replaces the bullets; "chart-full" has no table; missing bullets become the layout's placeholder |
| PptxBuilder.SlideDefs | backend/services/pptx_builder.py:213-215 | the plan's `slides` when it is a list, else none |
| PptxBuilder.AllSlides | backend/services/pptx_builder.py:224-282 | one slide per definition, in order, when no definition raises |
| PptxBuilder.AllSlidesStops | backend/services/pptx_builder.py:224-282 | one definition that raises aborts the whole build |
| PptxBuilder.DeckOf | backend/services/pptx_builder.py:205-286 | the deck has the theme's accent and at least one slide: the "No content available" slide when there are no definitions, else one slide per definition; it fails only on a bad accent or a definition that raises |
| PptxBuilder.AddTable | backend/services/pptx_builder.py:184-197 | the filled table has one more row than the data and one column per name, every cell holding the grid's cell |
| PptxBuilder.BuildPptx | backend/services/pptx_builder.py:205-223 | the build produces the deck of the plan: none when the theme raises, the placeholder slide when there are no definitions, otherwise the drawn slides |
| PptxBuilder.BuildSlides | backend/services/pptx_builder.py:224-282 | the slide-by-slide loop yields every definition's slide in order, or fails exactly when some definition raises |
| Slides.NodeLabel | backend/app/api/endpoints/slides.py:186 | the fallback label always starts with "Node" |
| Slides.StripKeeps | backend/app/api/endpoints/slides.py:187 | a text with non-blank ends is its own `strip()` |
| Slides.NodeLabelNotBlank | backend/app/api/endpoints/slides.py:186-188 | the fallback label never reads as "none", "null" or empty, so replacing a blank title by it is final |
| Slides.FirstSlideTitle | backend/app/api/endpoints/slides.py:183-185 | a falsy plan gives a null title; a non-null title can only come from an object plan |
| Slides.DisplayTitle | backend/app/api/endpoints/slides.py:180-188 | the divider title is truthy and never blank text |
| Slides.DisplayTitleChoice | backend/app/api/endpoints/slides.py:180-188 | the stored title when it is not blank, else the label; without a stored title, the first slide's title unless it is falsy or blank, else the label; no title exactly when reading the first slide's title raises |
| Slides.PlanFields | backend/app/api/endpoints/slides.py:189 | `plan or {}` fails exactly for a truthy plan that is not an object |
| Slides.NodeSlides | backend/app/api/endpoints/slides.py:190 | a slide list gives its definitions, a missing key none, and a null slide list raises |
| Slides.NodeNotes | backend/app/api/endpoints/slides.py:191-209 | the notes are added only when they are a list |
| Slides.PlanSection | backend/app/api/endpoints/slides.py:176-209 | a node contributes its display title, its slide definitions and its notes, and raises exactly when one of those reads raises |
| Slides.SectionResults | backend/app/api/endpoints/slides.py:176 | one section result per plan item, in order |
| Slides.AllSections | backend/app/api/endpoints/slides.py:176-209 | the sections of all items, present exactly when no item raises |
| Slides.ConcatSnoc | backend/app/api/endpoints/slides.py:205-209 | appending a block appends its items |
| Slides.ConcatPrefix | backend/app/api/endpoints/slides.py:205-209 | what earlier items contribute is a prefix of the whole |
| Slides.BlockAt | backend/app/api/endpoints/slides.py:194-209 | each item's block sits right after the blocks of the items before it |
| Slides.SlideBlocks | backend/app/api/endpoints/slides.py:194-206 | each node contributes its divider and then its own slides |
| Slides.NoteBlocks | backend/app/api/endpoints/slides.py:202-209 | each node contributes its "Section:" entry and then its own notes |
| Slides.CombinedSlideCount | backend/app/api/endpoints/slides.py:194-206 | the combined deck has one divider plus the node's slides for every node |
| Slides.SectionPlacement | backend/app/api/endpoints/slides.py:194-209 | node i's divider sits after the slides of the nodes before it, followed by its slides in order; its notes are placed the same way |
| Slides.CombineOf | backend/app/api/endpoints/slides.py:167-217 | the combined plan of the sections, present exactly when no item raises |
| Slides.CombinedPlanReads | backend/app/api/endpoints/slides.py:211-217 | the deck builder reads the combined slide list and the accent 2396F5 from the combined plan |
| Slides.CombinedThemeIsDefault | backend/app/api/endpoints/slides.py:173 | the combined deck always has accent #2396F5 |
| Slides.CombinedDeck | backend/app/api/endpoints/slides.py:96-111 | the combined deck of at least one node has Σ (1 + slides of node i) slides and accent #2396F5 |
| Slides.CombineStep | backend/app/api/endpoints/slides.py:176-209 | one more node extends the slides by its divider and slides and the notes by its section entry and notes |
| Slides.CombinePlans | backend/app/api/endpoints/slides.py:167-217 | the loop builds the combined plan of all items, or raises when one item does |
| Slides.LastSegment | backend/app/api/endpoints/slides.py:100-102 | the text after the last `/`: a suffix without `/`, preceded by `/` when shorter than the input |
| Slides.LastSegmentWhole | backend/app/api/endpoints/slides.py:127 | a text without `/` is its own last segment |
| Slides.BaseName | backend/app/api/endpoints/slides.py:100-102 | `Path(name).name` has no `/` and is never "." |
| Slides.BaseNameOfName | backend/app/api/endpoints/slides.py:127 | a plain file name is its own base name |
| Slides.LowerPptxSuffix | backend/app/api/endpoints/slides.py:101-102 | a name with ".pptx" appended ends in ".pptx" in any case |
| Slides.PptxName | backend/app/api/endpoints/slides.py:100-102 | the stored name has no directory part and ends in ".pptx" ignoring case; it is the base name when that already ends so, else the base name with ".pptx" |
| Slides.PptxNameIdempotent | backend/app/api/endpoints/slides.py:127-129 | normalising a normalised name changes nothing |
| Slides.SafeTitle | backend/app/api/endpoints/slides.py:125 | the title, or `node_{id}` when empty, with every `/` and space replaced by `_`, cut to 50 characters |
| Slides.DefaultNameKept | backend/app/api/endpoints/slides.py:125-129 | the default single-node name passes normalisation unchanged |
| Slides.MakeSlidePlan | backend/app/api/endpoints/slides.py:60-77 | 404 for a missing node; a returned plan is the model's plan for the node's context and holds both `SLIDE_PLAN` and `SPEAKER_NOTES`; anything else the model returns is a 500; the context is the intended one, not the as-written one that raises for a node with literature |
| Slides.PlanItems | backend/app/api/endpoints/slides.py:89-94 | one plan item per node in table order, holding the node's id, title and the model's plan for its context; the context is the intended one, not the as-written one that raises for a node with literature |
| Slides.BuildAndLink | backend/app/api/endpoints/slides.py:106-111 | the download path of the file exactly when the deck builds, else "PPTX build failed" |
| Slides.CombinedPptx | backend/app/api/endpoints/slides.py:88-111 | a combined deck is answered only when every node's plan was read and the deck builds; its path names the normalised file; the context is the intended one, not the as-written one that raises for a node with literature |
| Slides.GeneratePptx | backend/app/api/endpoints/slides.py:79-139 | without a body, the combined deck "all_nodes_{ts}.pptx"; with one, 404 for a missing node, 500 when the plan lacks `SLIDE_PLAN`, else the node's deck under the requested name or its safe title and time stamp; the context is the intended one, not the as-written one that raises for a node with literature |
| Slides.GeneratePptxAll | backend/app/api/endpoints/slides.py:220-253 | the combined deck under the requested name, or "all_nodes_{ts}.pptx" when none is given; the context is the intended one, not the as-written one that raises for a node with literature |
| Slides.GeneratedNameSafe | backend/app/api/endpoints/slides.py:100-111 | every answered download path is "/download/" followed by a file name without `/` that ends in ".pptx" |
| Slides.ContextsOf | backend/app/api/endpoints/slides.py:52-53 | one context per node, in table order, when none raises; the context is the intended one, not the as-written one that raises for a node with literature |
| Slides.ContextAll | backend/app/api/endpoints/slides.py:46-58 | the answer lists every node's context and counts them; the context is the intended one, not the as-written one that raises for a node with literature |
| Slides.PlanNotes | backend/app/api/endpoints/slides.py:153 | the plan's `SPEAKER_NOTES` when it is an object holding them, else null |
| Slides.AppendSection | backend/app/api/endpoints/slides.py:193-209 | one item's pass adds its divider and then its slides, in order, to the slides, and its section note and then its notes to the notes |
| SlidesContext.SafeJson | backend/services/slides_context.py:18-26 | an object is kept, a text is parsed with `{}` when parsing fails, and any other value becomes `{}` |
| SlidesContext.Keys | backend/services/slides_context.py:68 | `list(d.keys())`: one key per entry, in order |
| SlidesContext.MethodsList | backend/services/slides_context.py:62-68 | `extra.methods` when it is a list; else, for an object `extra.models`, its truthy `pipeline` or else its keys; else the empty list |
| SlidesContext.KeywordsOf | backend/services/slides_context.py:50-58 | no keyword without the keyword model or when the query fails; otherwise one entry per row, in order, weighing 1.0 when the row has no weight |
| SlidesContext.LiteratureEntries | backend/services/slides_context.py:37-48 | one entry per literature row of the node, in table order, whose id and url are the row's link |
| SlidesContext.ContextOf | backend/services/slides_context.py:28-86 | a context exists exactly when the node exists and its `extra_data` reads as an object, and it is the fourteen-key object assembled from the node, `extra_data`, keywords and literature |
| SlidesContext.ContextTitles | backend/services/slides_context.py:71-73 | the project title and the focus title are both the node's title |
| SlidesContext.ContextProblem | backend/services/slides_context.py:74 | the problem is the node's non-empty description, else `extra.problem`, else "" |
| SlidesContext.ContextHypothesis | backend/services/slides_context.py:75 | a missing hypothesis reads as "" |
| SlidesContext.ContextResults | backend/services/slides_context.py:81 | a missing result reads as "" |
| SlidesContext.BuildContextJson | backend/services/slides_context.py:28-86 | the row-by-row build produces the context of the node |
| SlidesContext.ContextAsWritten | backend/services/slides_context.py:38-48 | as written, a context is produced only for a node without literature rows, and then it equals the intended one |
| SlidesContext.LiteratureRowBreaksContext | backend/services/slides_context.py:40-47 | for a node with a literature row, the code as written raises while the intended context lists the row's link |
| FileUpload.Extension | backend/app/api/endpoints/file_upload.py:24-26 | the suffix from the last dot of the last path component, empty when only dots precede that dot in the component, and never holding a further dot or `/` |
| FileUpload.FileExtension | backend/app/api/endpoints/file_upload.py:24-26 | the extension lower-cased, of the same length |
| FileUpload.ExtensionOfLower | backend/app/api/endpoints/file_upload.py:26 | lower-casing a name lower-cases its extension and moves nothing |
| FileUpload.AllowedIgnoresCase | backend/app/api/endpoints/file_upload.py:19-30 | whether a file is allowed does not depend on the case of its name, and an allowed name ends in its extension once lower-cased |
| FileUpload.MatchesFrom | backend/app/api/endpoints/file_upload.py:46 | every match is a run of at least three ASCII letters standing between `\w` boundaries, where `\w` is an ASCII letter, digit or `_`, or a non-ASCII alphanumeric character |
| FileUpload.RunEndOfBoundedRun | backend/app/api/endpoints/file_upload.py:46 | a run of word characters followed by a non-word character or the end is the whole run the matcher reads |
| FileUpload.MatchesComplete | backend/app/api/endpoints/file_upload.py:46 | `findall` misses nothing: every word of at least three ASCII letters between word boundaries is among the matches |
| FileUpload.QuotedWordFound | backend/app/api/endpoints/file_upload.py:46 | a word in typographic quotes, which are not alphanumeric, is found as a keyword |
| FileUpload.MatchesLowercase | backend/app/api/endpoints/file_upload.py:46 | the matches found in lower-cased text are lower-case |
| FileUpload.FirstTwenty | backend/app/api/endpoints/file_upload.py:52 | a prefix of at most twenty elements, the whole list when it is that short, and distinct when the list is |
| FileUpload.ExtractKeywords | backend/app/api/endpoints/file_upload.py:32-52 | at most twenty keywords, none repeated |
| FileUpload.KeywordsSound | backend/app/api/endpoints/file_upload.py:38-52 | every keyword is a lower-case non-stop word of at least three letters bounded by word boundaries in the text; with at most twenty distinct such words, every non-stop word of at least three ASCII letters that stands between word boundaries in the lower-cased text is a keyword |
| FileUpload.Preview | backend/app/api/endpoints/file_upload.py:113 | the text itself up to 500 characters, otherwise its first 500 characters and "..."; a non-empty text keeps its first character |
| FileUpload.TextContent | backend/app/api/endpoints/file_upload.py:78-99 | a ".txt" file is its decoded text or an error; PDF and spreadsheet files give a bracketed notice; any other extension gives the decoded text, or the notice "[Content extraction not implemented for <ext> files]" when it does not decode |
| FileUpload.KeywordsOfText | backend/app/api/endpoints/file_upload.py:101-103 | keywords are extracted only from text that is non-empty and does not start with `[` |
| FileUpload.UploadAsWritten | backend/app/api/endpoints/file_upload.py:57-63 | as written, a disallowed type is answered with 500, carrying the 400 refusal in its detail, and an allowed file is accepted |
| FileUpload.Upload | backend/app/api/endpoints/file_upload.py:54-119 | a disallowed type is refused with 400. An accepted file is saved under its id and extension, with its type and size. Its keywords and preview are those of its extracted text, whatever the type: a PDF or spreadsheet has no keywords and a bracketed preview, and another type that decodes takes them from its text. Every allowed non-".txt" file is accepted; only an undecodable ".txt" file fails |
| FileUpload.Accepted | backend/app/api/endpoints/file_upload.py:64-113 | fails exactly when no text can be read; otherwise the reply's type, stored name, size, keywords and preview come from the extracted text |
| FileUpload.DisallowedTypeIs500 | backend/app/api/endpoints/file_upload.py:59-63 | "run.sh" is refused with 500 as written and with 400 as intended |
| UploadValidator.FileName | assistant/src/server/services/fileUploadService.ts:165 | the first non-empty of `originalname` and `name`, else "" |
| UploadValidator.ValidateFile | assistant/src/server/services/fileUploadService.ts:129-184 | valid exactly when the file is there, readable, not over 512 MiB, and of an allowed MIME type or allowed name; a valid answer has no error, and each refusal carries its own message |
| UploadValidator.SizeCheckedFirst | assistant/src/server/services/fileUploadService.ts:139-146 | an oversized file is refused for its size whatever its type |
| UploadValidator.ExtensionInAnyCase | assistant/src/server/services/fileUploadService.ts:164-168 | a name ending in a dot and an allowed extension, in any case, is accepted |
| UploadValidator.NameDecidesWithoutMime | assistant/src/server/services/fileUploadService.ts:159-168 | without an allowed MIME type the name alone decides |
| ToolSpecs.RequiredKeys | assistant/src/tools.ts:312-320 | a key is required exactly when some field of the shape has it and is neither optional nor defaulted |
| ToolSpecs.ObjectTranslation | assistant/src/tools.ts:309-327 | an object schema has one property per field, in order, each its field's translation; `required` lists the required keys and is absent when none is |
| ToolSpecs.WrappersTransparent | assistant/src/tools.ts:339-342 | optional and defaulted schemas translate as what they wrap, however deeply nested |
| ToolSpecs.TranslationTypes | assistant/src/tools.ts:328-347 | strings, numbers, booleans, enums and records keep their kind, objects and records alone give "object", and any other kind falls back to a string |
| ToolSpecs.ConvertZodToJsonSchema | assistant/src/tools.ts:308-348 | the recursive conversion with its field loop computes the translation |
| ToolSpecs.ConvertShape | assistant/src/tools.ts:310-321 | the field loop yields, in shape order, each field's translated schema under its key, and exactly the keys of the fields that are neither optional nor defaulted |
| ToolSpecs.OpenAiToolSpecs | assistant/src/tools.ts:306-358 | one function specification per tool, in order, with the tool's name, description and translated schema |
| ToolSpecs.NodeInfoRequiresOnlyTheId | assistant/src/tools.ts:33-37 | for `get_node_info` only `node_id` is required, and the defaulted flags are booleans |
| Retry.DefaultRetries | frontend/src/utils/retry.ts:12-17 | the default retries a TypeError or NetworkError whatever its status, a 5xx status whatever its name, and nothing else |
| Retry.Resolve | frontend/src/utils/retry.ts:8-24 | each option the caller gives replaces its default, field by field |
| Retry.Backoff | frontend/src/utils/retry.ts:42-45 | the exponential delay, capped at the maximum delay |
| Retry.BackoffGrows | frontend/src/utils/retry.ts:42-45 | with a non-negative base the back-off never shrinks from one attempt to the next |
| Retry.RunOutcome | frontend/src/utils/retry.ts:27-53 | at most `maxRetries` calls; every call but the last failed with a retryable error; the last success is returned, and its error rethrown only when not retryable or on the last attempt; with no attempt allowed nothing is called |
| Retry.WithRetry | frontend/src/utils/retry.ts:20-54 | the attempt loop gives the run's result and number of calls, and waits the capped back-off plus jitter between calls |
| Retry.DefaultSchedule | frontend/src/utils/retry.ts:8-11 | by default three attempts, with back-offs of 1 s, 2 s, 4 s and then the 5 s cap |
| Logger.GetLogLevel | assistant/src/logger.ts:13-23 | unset, unparsable or out-of-range values give INFO, and a parsed value from 0 to 3 gives that level |
| Logger.DecimalDigits | assistant/src/logger.ts:17 | `parseInt` reads a number's decimal digits back as that number, whatever non-digit text follows |
| Logger.DecimalLevel | assistant/src/logger.ts:17-22 | a decimal level followed by any non-digit text selects that level when it is at most 3, and INFO otherwise |
| Logger.NegativeLevel | assistant/src/logger.ts:17-22 | "-0" reads as DEBUG, while any other negative number gives INFO |
| Logger.HexLevel | assistant/src/logger.ts:17 | a `0x` prefix is read in base 16: "0x3" parses as 3 |
| Cors.AllowedOrigins | assistant/src/server/middleware/cors.ts:6-10 | the origins are exactly the two local front-ends and the configured one, without repeats, in first-occurrence order, at most three |
| Helpers.TruncateText | frontend/src/utils/helpers.ts:36-39 | a text no longer than the limit is kept; a longer one keeps its first `maxLength` characters and ends in "..." |
| Helpers.StatusColor | frontend/src/utils/helpers.ts:41-52 | accepted, pending and rejected get green, yellow and red, each exactly for its own status, and anything else gray |
| Helpers.TypeIcon | frontend/src/utils/helpers.ts:54-67 | each of the four node types gets its own icon, and any other type the clipboard |
| LineageGroup.Find | frontend/src/utils/lineageLayout.ts:105 | the first node with the id, or none exactly when no node has it |
| LineageGroup.Assign | frontend/src/utils/lineageLayout.ts:101-126 | one call of `assignGeneration`: the visited set only grows |
| LineageGroup.AssignFrom | frontend/src/utils/lineageLayout.ts:114-125 | the walk over the edges leaving a node: the visited set only grows |
| LineageGroup.RootFrom | frontend/src/utils/lineageLayout.ts:128-135 | the walks started from the root's neighbours: the visited set only grows |
| LineageGroup.AssignGeneration | frontend/src/utils/lineageLayout.ts:101-126 | the recursive walk, marking visited ids and appending found nodes, computes the functional walk |
| LineageGroup.GroupNodesByGeneration | frontend/src/utils/lineageLayout.ts:92-138 | the grouping from the root's neighbours at generation 1 computes the generation table |
| LineageGroup.GroupShape | frontend/src/utils/lineageLayout.ts:98-112 | the table holds generations 1, 2, ... without gaps, none empty, no id twice, each entry the listed node `find` returns for its id |
| LineageGroup.GroupSound | frontend/src/utils/lineageLayout.ts:101-134 | a node placed at generation g is reached from the root by a walk of exactly g lineage edges through listed nodes |
| LineageGroup.GroupComplete | frontend/src/utils/lineageLayout.ts:101-134 | every listed node at the end of a walk from the root through listed nodes is placed |
| LineageGroup.GenerationKeys | frontend/src/utils/lineageLayout.ts:76-81 | the generations in ascending order, as `Object.entries` lists integer keys, and all of them when they lie in 1..n |
| LineageGroup.Marked | frontend/src/utils/lineageLayout.ts:44-69 | one entry per node of a generation, in order, with depth the generation's magnitude and the path root then node |
| LineageGroup.PushGeneration | frontend/src/utils/lineageLayout.ts:44-69 | appending one generation's entries extends the list by exactly those entries |
| LineageGroup.PushGenerations | frontend/src/utils/lineageLayout.ts:76-84 | the loop over a table's generations appends their entries generation by generation |
| LineageGroup.ProcessLineageData | frontend/src/utils/lineageLayout.ts:29-87 | the list built is the root, then the ancestors, then the descendants, generation by generation |
| LineageGroup.AncestorMembers | frontend/src/utils/lineageLayout.ts:43-55 | the ancestor entries are exactly the placed ancestors, each with a negative generation |
| LineageGroup.DescendantMembers | frontend/src/utils/lineageLayout.ts:57-84 | the descendant entries are exactly the placed descendants, each with a positive generation |
| LineageGroup.LineageMembers | frontend/src/utils/lineageLayout.ts:29-87 | the root comes first, and the other entries are exactly the placed ancestors and descendants |
| LineageGroup.OneRoot | frontend/src/utils/lineageLayout.ts:33-41 | exactly one entry is the root: the first, at generation and depth 0, every other having depth equal to its generation's magnitude |
| LineageGroup.PushEntries | frontend/src/utils/lineageLayout.ts:76-84 | appending a list of generations, one after the other, adds each generation's entries in that order |
| LineageLayout.Generations | frontend/src/utils/lineageLayout.ts:160 | the distinct generations of the nodes, strictly ascending |
| LineageLayout.OfGeneration | frontend/src/utils/lineageLayout.ts:151-157 | the nodes of one generation in list order, empty exactly when no node has it |
| LineageLayout.GroupByGeneration | frontend/src/utils/lineageLayout.ts:150-157 | the table has a key exactly for each generation present, holding that generation's nodes in list order |
| LineageLayout.GroupNodes | frontend/src/utils/lineageLayout.ts:185-216 | one custom flow node per node of a generation, in order, each at its place |
| LineageLayout.PositionsOf | frontend/src/utils/lineageLayout.ts:196 | a position is recorded for exactly the ids of the placed nodes |
| LineageLayout.PlaceGeneration | frontend/src/utils/lineageLayout.ts:169-216 | placing a generation appends its flow nodes and records the position of each |
| LineageLayout.FlowEdges | frontend/src/utils/lineageLayout.ts:220-240 | one flow edge per lineage edge, in order |
| LineageLayout.EdgeLabels | frontend/src/utils/lineageLayout.ts:220-235 | an edge is labelled with its label, or its relationship type when the label is empty, and its ids name the edge and its ends |
| LineageLayout.FinalPositions | frontend/src/utils/lineageLayout.ts:243 | one stored position per placed node |
| LineageLayout.BoundsCover | frontend/src/utils/lineageLayout.ts:242-253 | every stored position lies inside the bounds at least half a node from each side, some position touches the padded minimum x and maximum y, and the size is the span |
| LineageLayout.CalculateLineageLayout | frontend/src/utils/lineageLayout.ts:143-260 | the grouping, placing and edge loops compute the specified layout |
| LineageLayout.OffsetsSpacedAndSymmetric | frontend/src/utils/lineageLayout.ts:186-190 | neighbours in a generation are one node width plus spacing apart, and the offsets are symmetric about 0 |
| LineageLayout.ReversedMirrors | frontend/src/utils/lineageLayout.ts:166-183 | reversing the direction mirrors the order of the generations |
| LineageLayout.TopToBottom | frontend/src/utils/lineageLayout.ts:174-194 | top to bottom, generation k sits k node heights plus spacings down, at its offset across |
| LineageLayout.OneFlowNodePerLineageNode | frontend/src/utils/lineageLayout.ts:150-217 | the flow nodes carry the lineage nodes regrouped by generation, each exactly as often as in the input |
| LineageLayout.CreateLineageNodeData | frontend/src/utils/lineageLayout.ts:265-274 | the root is drawn blue with a 3-wide border; any other node is drawn grey-white with a 2-wide border, which is gray for every status the view produces |
| LineageLayout.AddToGeneration | frontend/src/utils/lineageLayout.ts:152-157 | after one node's pass the table still holds exactly the non-empty generation groups of the nodes seen so far, the node appended to its own group |
| ExperimentService.Search | frontend/src/services/experimentService.ts:29 | a match of the tagged-status pattern captures a non-empty value without quotes |
| ExperimentService.PlainStatusUnchanged | frontend/src/services/experimentService.ts:19-35 | an absent status reads as "", and a string with no match of the pattern, such as one without a colon, is returned unchanged |
| ExperimentService.TaggedStatus | frontend/src/services/experimentService.ts:27-33 | the enum rendering `<Name.MEMBER: 'value'>` reads as its value |
| ExperimentService.MapUIStatusToAPIStatus | frontend/src/services/experimentService.ts:57-77 | completed, planned and postponed are sent as themselves, anything else as planned |
| ExperimentService.UIStatusOf | frontend/src/services/experimentService.ts:88-104 | the result is completed or postponed exactly for those statuses, and planned for everything else |
| ExperimentService.MapAPIStatusToUIStatus | frontend/src/services/experimentService.ts:80-107 | the extracted status, lower-cased, decides: completed and postponed exactly for those, planned otherwise |
| ExperimentService.PlainWord | frontend/src/services/experimentService.ts:28-35 | a lower-case word is read as itself |
| ExperimentService.StatusRoundTrip | frontend/src/services/experimentService.ts:57-107 | a status sent to the backend and read back is the status the interface knows it by, and the same status when it was one of the three |
| ExperimentService.CaseInsensitive | frontend/src/services/experimentService.ts:81 | upper- and lower-case spellings of a plain status map alike |
| ExperimentService.ConvertToResearchNode | frontend/src/services/experimentService.ts:111-130 | the id as text, the title and creation time kept, the description defaulting to "", the type to "experiment", the status mapped, and level 0, no keywords, not AI-generated |
| ExperimentService.ConvertAll | frontend/src/services/experimentService.ts:140 | one experiment per node, in order |
| ExperimentService.GetterSound | frontend/src/services/experimentService.ts:149-219 | each experiment a status getter lists converts a node with that status and carries it |
| ExperimentService.GetterComplete | frontend/src/services/experimentService.ts:149-219 | every node with the getter's status is listed |
| ExperimentService.InProgressNotPlanned | frontend/src/services/experimentService.ts:174-188 | a node reported "in_progress" shows as planned in the full list yet is left out of the planned list |
| Sessions.Assign | assistant/src/server/services/sessionService.ts:47 | each field the update gives replaces the session's, and every other field stays |
| Sessions.NewSession | assistant/src/server/services/sessionService.ts:14-24 | a new session has the given id, no messages, the fresh context, and its creation time as last activity |
| Sessions.Live | assistant/src/server/services/sessionService.ts:123-130 | the ids kept by the cleanup are exactly those whose sessions have not expired, in order, without repeats |
| Sessions.Remaining | assistant/src/server/services/sessionService.ts:123-130 | the sessions left are exactly the stored ones that are not expired among those swept, unchanged |
| Sessions.SessionService.constructor | assistant/src/server/services/sessionService.ts:8 | the store starts empty |
| Sessions.SessionService.CreateSession | assistant/src/server/services/sessionService.ts:10-30 | the new session is stored under its id, replacing any earlier one, and returned |
| Sessions.SessionService.GetSession | assistant/src/server/services/sessionService.ts:32-39 | an unknown id gives none and changes nothing; a known one has its last activity refreshed and is returned |
| Sessions.SessionService.UpdateSession | assistant/src/server/services/sessionService.ts:41-52 | false and no change for an unknown id; otherwise the update is applied and the last activity refreshed |
| Sessions.SessionService.DeleteSession | assistant/src/server/services/sessionService.ts:54-61 | the session is gone afterwards, and the answer says whether it was there |
| Sessions.SessionService.AddMessage | assistant/src/server/services/sessionService.ts:63-81 | false and no change for an unknown id; otherwise exactly one message is appended after the earlier ones and the last activity refreshed |
| Sessions.SessionService.UpdateContext | assistant/src/server/services/sessionService.ts:83-94 | false and no change for an unknown id; otherwise the context is replaced and the last activity refreshed |
| Sessions.SessionService.ClearSession | assistant/src/server/services/sessionService.ts:96-112 | false and no change for an unknown id; otherwise the messages are emptied and the context reset, while the session stays |
| Sessions.SessionService.GetAllSessions | assistant/src/server/services/sessionService.ts:114-116 | every stored session once, in insertion order |
| Sessions.SessionService.CleanupExpiredSessions | assistant/src/server/services/sessionService.ts:118-137 | exactly the sessions idle for longer than the given age, 24 hours when it is left out, are removed, the others kept in order, and the count is how many were removed |
| Sessions.Sweep | assistant/src/server/services/sessionService.ts:123-130 | the loop over the entries keeps the live keys, leaves the unexpired sessions and counts the deletions |
| Sessions.SweepEntry | assistant/src/server/services/sessionService.ts:124-129 | one pass deletes the entry's session when it has expired and keeps it otherwise |
| SummaryService.CacheKey | assistant/src/server/services/summaryService.ts:73-76 | the kind, a colon, then the parameter text, or nothing when there are no parameters |
| SummaryService.CacheKeyInjective | assistant/src/server/services/summaryService.ts:73-76 | keys of different kinds never collide, and keys of one kind are equal exactly when their parameter texts are |
| SummaryService.Lookup | assistant/src/server/services/summaryService.ts:78-90 | an entry is answered exactly when it is present and not past its expiry, with its data |
| SummaryService.AfterLookup | assistant/src/server/services/summaryService.ts:78-86 | a lookup drops the looked-up entry when it has expired and changes nothing else |
| SummaryService.Unexpired | assistant/src/server/services/summaryService.ts:63-71 | the cleanup keeps exactly the entries not past their expiry, unchanged |
| SummaryService.CacheRoundTrip | assistant/src/server/services/summaryService.ts:78-98 | an entry stored at t0 is found until it is five minutes old, and not afterwards |
| SummaryService.CleanupPreservesLookups | assistant/src/server/services/summaryService.ts:63-90 | the cleanup changes no answer a lookup gives at the same time and leaves no expired entry |
| SummaryService.RecentNodes | assistant/src/server/services/summaryService.ts:393-396 | the nodes updated at or after the cutoff, in order |
| SummaryService.NodeIds | assistant/src/server/services/summaryService.ts:399 | the set of the ids of the given nodes |
| SummaryService.RecentEdges | assistant/src/server/services/summaryService.ts:399-402 | the edges with at least one end among the given ids, in order |
| SummaryService.TallyCounts | assistant/src/server/services/summaryService.ts:263-272 | one count per distinct value, each the number of times the value occurs, the counts adding up to the number of items |
| SummaryService.ByRecencySorts | assistant/src/server/services/summaryService.ts:290-291 | the sort puts the nodes newest first and keeps each node as often as it occurs |
| SummaryService.MostRecentIsTopFive | assistant/src/server/services/summaryService.ts:290-292 | at most five nodes, all from the graph, newest first, and no node left out is newer than one listed |
| SummaryService.Summarize | assistant/src/server/services/summaryService.ts:207-255 | the model's reply when it is non-empty, "Unable to generate summary" when it is empty, and the template summary when the call fails |
| SummaryService.FreshResponse | assistant/src/server/services/summaryService.ts:340-346 | a fresh response is no cache hit, is stamped now, and counts the nodes and edges summarized |
| SummaryService.WeeklyNodes | assistant/src/server/services/summaryService.ts:389-396 | the weekly summary covers exactly the nodes updated in the last seven days |
| SummaryService.WeeklyEdges | assistant/src/server/services/summaryService.ts:398-402 | and exactly the edges with an end among those nodes |
| SummaryService.SummaryCache.constructor | assistant/src/server/services/summaryService.ts:48 | the cache starts empty |
| SummaryService.SummaryCache.GetFromCache | assistant/src/server/services/summaryService.ts:78-90 | answers the unexpired entry and deletes an expired one |
| SummaryService.SummaryCache.SetCache | assistant/src/server/services/summaryService.ts:92-100 | stores the data under the key, expiring five minutes from now |
| SummaryService.SummaryCache.CleanupCache | assistant/src/server/services/summaryService.ts:63-71 | removes exactly the expired entries |
| SummaryService.SummaryCache.ClearCache | assistant/src/server/services/summaryService.ts:449-452 | empties the cache |
| SummaryService.SummaryCache.GenerateOverviewSummary | assistant/src/server/services/summaryService.ts:301-363 | unless bypassed, an unexpired cached overview is returned marked as a hit; otherwise a fresh overview of the whole graph is cached and returned, or the fetch failure is thrown with nothing cached |
| SummaryService.SummaryCache.GenerateWeeklySummary | assistant/src/server/services/summaryService.ts:365-446 | the same for the weekly summary, whose fresh response covers and counts only the last seven days' nodes and the edges touching them |
| SummaryService.SecondRequestHits | assistant/src/server/services/summaryService.ts:301-349 | a second request within five minutes gets the cached response, and a later one builds a new one |

## Left out

- Experiments.GetNodeInfo: the handler's answer; the route as written answers 500 for every existing node (see Findings and `Experiments.GetNodeInfoAsWritten`). Even a validated answer would drop `parents` and `children`, which the response schema does not declare; this is not modelled. `Memory.NodeContext` takes the endpoint's answer as a parameter, so it covers the database fallback that this failure forces.
- Experiments.GraphStore.DeleteEdgeByNodes: the handler; as registered, the route never reaches it and answers 422 (see Findings and `Experiments.ByNodesIsShadowed`).
- Experiments.IsIntText: integer validation is an optional sign and decimal digits; other spellings pydantic accepts (surrounding whitespace, underscores) are not modelled.
- Each operation takes a single `now`. Where the source reads the clock twice (a message's timestamp and the session's `lastActivity`; a cache lookup and the later `setCache` across an `await`), the model uses one value for both.
- Sessions: the key order of the session store is insertion order, which JavaScript keeps for the uuid ids the service creates; an integer-like id such as "7" would be listed first, in ascending order, and the model does not capture that.
- Network and model calls are not modelled; each reply is a parameter or an oracle function. This covers the OpenAlex HTTP client, the Gemini calls and Jinja prompt rendering in `llm_gemini.py` (with `_resp_text`), the node-info HTTP API in `memory.py`, and the OpenAI chat call in `summaryService.ts`.
- Database sessions, commits and rollbacks are not modelled; the tables are sequences or maps held by a class. File reads and writes of the JSON record stores and of uploads are not modelled either, and neither are their I/O errors (500 answers).
- The GET endpoints of the notes, discussion and feedback stores, the `/feedback/updates` event stream, and the `get_file_info`, `delete_file` and sample-download endpoints of the upload router are not modelled. `get_all_nodes`, `create_node` and `update_edge` in `experiments.py` are not modelled either.
- Clocks, uuids and random values are parameters. Timestamps are whole milliseconds instead of ISO text. The weekly cut-off, which the source computes with `setDate(getDate() - 7)`, is now minus seven days of milliseconds, so daylight-saving shifts are not modelled. Dates that do not parse (`NaN`) are not modelled.
- Retry.WithRetry: the jitter is an oracle, so its range [0, 200) is not stated. The sleeps are recorded as waits, not performed.
- Retry.Resolve: an option given explicitly as `undefined` replaces its default in the source; here it counts as left out.
- Floating point is modelled as `real`: scores, relevance and layout coordinates. There is no IEEE rounding.
- Orchestrator.Pick: the confidence is the winning score itself; rounding to 4 places (`round(score, 4)`) is not modelled.
- `SummaryService` runs its cleanup every ten minutes with `setInterval`; that timer is not modelled, and `CleanupCache` is the step it repeats. `getCacheStats` is not modelled.
- SummaryService.WeeklyNodes: every node's `updated_at` is taken to be a time. The backend's `/graph/overview` (backend/app/api/endpoints/experiments.py:23-32) sends no `updated_at`. In the source, `new Date(undefined)` is therefore an invalid date and every weekly comparison is false, so the weekly summary lists no node. The newest-first comparator also yields NaN, so the template summary keeps the overview order.
- SummaryService.ByRecencySorts: the template summary sorts the caller's node array in place; the model sorts a copy. Nodes with the same `updated_at` are not stated to keep their order, although JavaScript's sort is stable.
- JavaScript lists integer-like object keys in ascending order before other keys. The status and relationship tallies in `generateTemplateSummary` list keys in first-appearance order instead.
- Sessions.SessionService.GetSession: the returned session is a copy; later changes through the store do not show through it, unlike the shared object in the source. `createSession`'s `useContext` flag only reaches a log line, so it is left out.
- Sessions.SessionService.CleanupExpiredSessions: the loop works on local copies of the store and assigns them back at the end; the source deletes from the store while it iterates.
- LineageLayout.CalculateLineageLayout: an empty node list has no bounds (`None`), where the source computes infinite ones. Node styling, edge styling and React Flow's rendering are not modelled.
- PptxBuilder: fonts, shape positions, sizes and the matplotlib chart images are not modelled. A slide is a record of its layout, title, text and chosen table or chart.
- Lower-casing is ASCII only, in Python and JavaScript alike.
- Python's Unicode character database is not modelled. Whether a non-ASCII character is alphanumeric, and so a `\w` character for the keyword pattern, is a parameter `isAlnum` of FileUpload.MatchesFrom, ExtractKeywords, KeywordsSound, KeywordsOfText and Upload.
- Helpers.TruncateText: lengths count Unicode scalar values, not UTF-16 code units. A character outside the Basic Multilingual Plane counts once here and twice in JavaScript, and the source's `substring` can cut it in half, which a Dafny string cannot hold.
- LlmGemini.SummarizeOneLiner: without an API key it returns the intended fallback `SummaryFallbackIntended`, not the fallback `llm_gemini.py:190` computes (`SummaryFallback`; see Findings).
- Orchestrator.Pick: the card summary comes from SummarizeOneLiner, so without an API key it is the intended fallback, not the as-written one.
- Orchestrator.SuggestOne: its card summary is the intended fallback without an API key, as for Orchestrator.Pick.
- Orchestrator.SuggestFromLiterature: its card summary is the intended fallback without an API key, as for Orchestrator.Pick.
- Slides.ContextsOf: uses the intended context `SlidesContext.ContextOf`. As written, `build_context_json` raises for any node with a literature row (see Findings), so the source answers 500 where the model answers a context.
- Slides.ContextAll: lists every node's intended context; the source answers 500 once any node has a literature row.
- Slides.MakeSlidePlan: builds the plan from the intended context; the source answers 500 for a node with a literature row.
- Slides.PlanItems: gives a plan item per node from the intended context; the source raises for any node with a literature row.
- Slides.CombinedPptx: answers a combined deck built from the intended contexts; the source answers 500 when a node has a literature row.
- Slides.GeneratePptx: on both the path with a plan in the body and the path without one, it answers where the source raises for a node with a literature row, because it uses the intended context.
- Slides.GeneratePptxAll: answers a deck where the source answers 500 once any node has a literature row, because it uses the intended contexts.
- The keyword extraction in `file_upload.py` de-duplicates through a Python `set`, which has no defined order; the model keeps first occurrences in text order.
- FileUpload.Upload: a ".txt" file that is not valid UTF-8 gets a 500 whose detail is "Error processing file", without the decoder's message. The allowed types in the 400 detail are listed in declaration order; the source joins a set, in no fixed order.
- SlidesContext.KeywordsOf: `slides_context.py` imports its keyword table from `app.models.context_keyword`, but the table is defined in `backend/app/models/context_keywords.py`. The import therefore fails, and no keyword is ever read. The model takes the outcome of that import as a flag.
- Experiments.GraphStore.UpdateNode: the `extra_data` merge is modelled as written, updating the stored object in place. Whether the ORM persists that in-place change is not modelled.
- The orchestrator has no second pass that clears exclusions after every candidate fails, and no suggestion cache. The code has neither, so neither is modelled.
- `stance` is modelled on its own, because no caller in the pipeline uses it.

- Experiments.GraphStore.UpdateNode: `NodePatch` gives each field as absent or a value, so a PATCH that sends an explicit JSON null cannot be written. In the source, `model_dump(exclude_unset=True)` keeps such a null, and `setattr` writes it. For the NOT NULL columns `title`, `motivation`, `expectations` and `status` (backend/app/models/experiment.py:27-38), the commit then fails and the route answers 500 (backend/app/api/endpoints/experiments.py:162-171).
- Sessions.SessionService: the store is a map of own keys. The source indexes a plain object (assistant/src/server/services/sessionService.ts:26-97), which also finds inherited members. There, `getSession("toString")` returns a function and `createSession("__proto__")` stores no own key. The model covers ids that are not names of `Object.prototype` members, like the uuids the service creates.
- Retry.RunOutcome: `maxRetries` is a natural number. The source takes any JavaScript number. For a fractional value such as 2.5, `attempt === maxRetries - 1` (frontend/src/utils/retry.ts:37) never holds, so three calls are made and the last failure waits a back-off before it is rethrown. Retry.WithRetry inherits this.
- OpenAlex.NormWork: a `cited_by_count` that is present but null gives 0 here. In the source, `w.get("cited_by_count", 0)` (backend/services/openalex.py:37) returns that null unchanged.

## Findings

| source | as written | input that shows it | evidently intended | confidence | as-written member | corrected member |
|---|---|---|---|---|---|---|
| backend/services/llm_gemini.py:190 | the no-key summary cuts the stripped abstract to 34 characters, but adds "…" when the unstripped abstract is longer than 35 | a 35-character abstract of `a` loses its last character with no "…"; ten spaces then 30 `a` are kept whole yet get "…" | "…" exactly when the stripped text was cut | not executed | `LlmGemini.SummaryFallback`, shown by `LlmGemini.SummaryFallbackMisreports` | `LlmGemini.SummaryFallbackIntended`, used by `LlmGemini.SummarizeOneLiner` |
| backend/services/slides_context.py:40-47 | each literature row's `openalex_id`, `title`, `venue`, `year` and `rel_type` are read, but the literature table (backend/app/models/literature.py:5-16) has only `id`, `link` and `experiment_id`, so the attribute access raises | any node with one literature row | one entry per row, whose id and url are the row's link | not executed | `SlidesContext.ContextAsWritten`, shown by `SlidesContext.LiteratureRowBreaksContext` | `SlidesContext.ContextOf`, computed by `SlidesContext.BuildContextJson` |
| backend/app/api/endpoints/file_upload.py:59-63 | the 400 for a disallowed type is raised inside the `try` whose `except Exception` (lines 117-119) turns it into a 500 | a file named "run.sh" | a 400 "File type not allowed" answer | not executed | `FileUpload.UploadAsWritten`, shown by `FileUpload.DisallowedTypeIs500` | `FileUpload.Upload` |
| backend/app/api/endpoints/experiments.py:48 | the route declares `response_model=schemas.NodeInfo`, whose `node` is an `Experiment` schema requiring `created_at` and `updated_at` (backend/app/schemas/experiment.py:29-36), but the handler's `node` (lines 102-108) has neither, so response validation fails | any existing node id | the node with its parents and children, as the handler builds it | not executed | `Experiments.GetNodeInfoAsWritten`, shown by `Experiments.NodeInfoAlways500` | `Experiments.GetNodeInfo` |
| backend/app/api/endpoints/experiments.py:308-320 | `DELETE /edges/{edge_id}` is registered before `DELETE /edges/by-nodes`, and its parameter matches the segment "by-nodes", which then fails integer validation | `DELETE /edges/by-nodes?from_id=1&to_id=2` | the by-nodes handler removes the matching edge | not executed | `Experiments.DispatchEdgeDelete` over `EdgeDeleteRoutes`, shown by `Experiments.ByNodesIsShadowed` | `Experiments.IntendedRouting` over `EdgeDeleteRoutesIntended`, reaching `Experiments.GraphStore.DeleteEdgeByNodes` |
