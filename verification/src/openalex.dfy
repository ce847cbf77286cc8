/** The bibliographic index client (backend/services/openalex.py): work normalisation,
    abstract reconstruction, DOI-then-title resolution and the binary validity check.
    The index itself is an oracle: `Index` maps each request to the response it would get. */
module OpenAlex {
  import opened Common
  import opened Strings

  /** One entry of an inverted abstract index: a token and the word positions it occupies. */
  type InvertedIndex = seq<(string, seq<nat>)>

  datatype HostVenue = HostVenue(displayName: Option<string>, url: Option<string>)

  /** A work record as the index returns it; `None` stands for a missing or null key. */
  datatype RawWork = RawWork(
    id: string,
    displayName: Option<string>,
    publicationYear: Option<int>,
    hostVenue: Option<HostVenue>,
    idsDoi: Option<string>,
    citedByCount: Option<int>,
    referencedWorks: seq<string>,
    relatedWorks: seq<string>,
    citedByApiUrl: Option<string>,
    openAccessIsOa: Option<bool>,
    topics: seq<string>,
    abstractIndex: InvertedIndex)

  /** How a work was found. */
  datatype Via = ViaDoi | ViaTitle

  /** The normalised work record the rest of the backend consumes. */
  datatype Work = Work(
    id: string,
    title: Option<string>,
    year: Option<int>,
    venue: Option<string>,
    doi: Option<string>,
    url: Option<string>,
    citedByCount: int,
    referencedWorks: seq<string>,
    relatedWorks: seq<string>,
    citedByApiUrl: Option<string>,
    isOa: bool,
    topics: seq<string>,
    abstractText: string,
    resolvedVia: Option<Via>)

  /** A GET request: path and query parameters. */
  datatype Request = Request(path: string, params: map<string, string>)

  datatype Fetch<T> = Fetched(payload: T) | Failed

  /** The index service: its contact address and its answers to work lookups and searches. */
  datatype Index = Index(
    mailto: string,
    fetchWork: Request -> Fetch<RawWork>,
    search: Request -> Fetch<seq<RawWork>>)

  // ---------------------------------------------------------------- abstract

  /** The largest position in the index, or `None` when no token has a position. */
  function MaxPos(idx: InvertedIndex): (r: Option<nat>)
    ensures r.None? <==> forall i :: 0 <= i < |idx| ==> idx[i].1 == []
    ensures r.Some? ==> forall i, p :: 0 <= i < |idx| && p in idx[i].1 ==> p <= r.value
    ensures r.Some? ==> exists i :: 0 <= i < |idx| && r.value in idx[i].1
  {
    if idx == [] then None
    else
      var rest := MaxPos(idx[1..]);
      var here := MaxOf(idx[0].1);
      assert forall i :: 1 <= i < |idx| ==> idx[i] == idx[1..][i - 1];
      if rest.None? then here
      else if here.None? || here.value < rest.value then
        assert forall i :: 0 < i < |idx| ==> idx[1..][i - 1] == idx[i];
        rest
      else here
  }

  function MaxOf(s: seq<nat>): (r: Option<nat>)
    ensures r.None? <==> s == []
    ensures r.Some? ==> r.value in s && forall p :: p in s ==> p <= r.value
  {
    if s == [] then None
    else
      var rest := MaxOf(s[1..]);
      assert forall p :: p in s ==> p == s[0] || p in s[1..];
      if rest.None? || rest.value < s[0] then Some(s[0]) else rest
  }

  /** The token left at position `k` after writing every entry in order: the last writer wins. */
  function Slot(idx: InvertedIndex, k: nat): string
  {
    if idx == [] then ""
    else if k in idx[|idx| - 1].1 then idx[|idx| - 1].0
    else Slot(idx[..|idx| - 1], k)
  }

  /** Writing one more entry changes exactly the positions it lists. */
  lemma SlotStep(idx: InvertedIndex, i: nat, k: nat)
    requires i < |idx|
    ensures Slot(idx[..i + 1], k) == if k in idx[i].1 then idx[i].0 else Slot(idx[..i], k)
  {
    assert idx[..i + 1][..i] == idx[..i];
  }

  /** The reconstructed abstract: `None` stands for the error raised when a non-empty
      index holds no position at all. */
  function Flattened(idx: InvertedIndex): Option<string>
  {
    if idx == [] then Some("")
    else
      var m := MaxPos(idx);
      if m.None? then None
      else Some(Join(" ", seq(m.value + 1, k requires 0 <= k => Slot(idx, k))))
  }

  /** Position `k` shows the token of the last entry that lists `k`. */
  lemma {:induction false} SlotIsLastWriter(idx: InvertedIndex, k: nat, i: nat)
    requires i < |idx| && k in idx[i].1
    requires forall j :: i < j < |idx| ==> k !in idx[j].1
    ensures Slot(idx, k) == idx[i].0
    decreases |idx|
  {
    if i < |idx| - 1 {
      var front := idx[..|idx| - 1];
      assert forall j :: i < j < |front| ==> front[j] == idx[j];
      SlotIsLastWriter(front, k, i);
    }
  }

  /** A position that no entry lists stays empty. */
  lemma {:induction false} SlotUnwritten(idx: InvertedIndex, k: nat)
    requires forall j :: 0 <= j < |idx| ==> k !in idx[j].1
    ensures Slot(idx, k) == ""
    decreases |idx|
  {
    if idx != [] {
      var front := idx[..|idx| - 1];
      assert forall j :: 0 <= j < |front| ==> front[j] == idx[j];
      SlotUnwritten(front, k);
    }
  }

  /** Rebuilds the abstract text: a buffer of `max + 1` empty slots, every token written
      at each of its positions in index order, the slots joined by single spaces. */
  method FlattenAbstract(idx: InvertedIndex) returns (r: Option<string>)
    ensures r == Flattened(idx)
  {
    if idx == [] {
      return Some("");
    }
    var m := MaxPos(idx);
    if m.None? {
      return None;
    }
    var arr := new string[m.value + 1](_ => "");
    var i := 0;
    while i < |idx|
      invariant 0 <= i <= |idx|
      invariant forall k :: 0 <= k < arr.Length ==> arr[k] == Slot(idx[..i], k)
    {
      var token, poses := idx[i].0, idx[i].1;
      var j := 0;
      while j < |poses|
        invariant 0 <= j <= |poses|
        invariant forall k :: 0 <= k < arr.Length ==> arr[k] == (if k in poses[..j] then token else Slot(idx[..i], k))
      {
        assert poses[j] in idx[i].1;
        arr[poses[j]] := token;
        PrefixSnoc(poses, j);
        j := j + 1;
      }
      PrefixWhole(poses);
      forall k | 0 <= k < arr.Length
        ensures arr[k] == Slot(idx[..i + 1], k)
      {
        SlotStep(idx, i, k);
      }
      i := i + 1;
    }
    PrefixWhole(idx);
    assert arr[..] == seq(m.value + 1, k requires 0 <= k => Slot(idx, k));
    r := Some(Join(" ", arr[..]));
  }

  // ---------------------------------------------------------------- records

  /** `_norm_work`: the index record mapped onto the backend's work record, with defaults
      for the missing keys; `None` when rebuilding the abstract raises. */
  function NormWork(raw: RawWork): (r: Option<Work>)
    ensures r.None? <==> Flattened(raw.abstractIndex).None?
    ensures r.Some? ==> (r.value.id == raw.id && r.value.title == raw.displayName
                         && r.value.year == raw.publicationYear && r.value.doi == raw.idsDoi && r.value.resolvedVia.None?)
    ensures r.Some? ==> (r.value.citedByCount == raw.citedByCount.GetOr(0)
                         && r.value.isOa == raw.openAccessIsOa.GetOr(false))
    ensures r.Some? ==> r.value.url == (if HostUrl(raw) != None && HostUrl(raw) != Some("") then HostUrl(raw) else raw.idsDoi)
  {
    var abs := Flattened(raw.abstractIndex);
    if abs.None? then None
    else
      var venue := if raw.hostVenue.Some? then raw.hostVenue.value.displayName else None;
      var hostUrl := HostUrl(raw);
      Some(Work(
        raw.id, raw.displayName, raw.publicationYear, venue, raw.idsDoi,
        if hostUrl.Some? && hostUrl.value != "" then hostUrl else raw.idsDoi,
        raw.citedByCount.GetOr(0), raw.referencedWorks, raw.relatedWorks, raw.citedByApiUrl,
        raw.openAccessIsOa.GetOr(false), raw.topics, abs.value, None))
  }

  function HostUrl(raw: RawWork): Option<string>
  {
    if raw.hostVenue.Some? then raw.hostVenue.value.url else None
  }

  // ---------------------------------------------------------------- requests

  /** `_get`: the caller's query parameters plus the contact address under `mailto`. */
  function BuildRequest(mailto: string, path: string, params: map<string, string>): (r: Request)
    ensures r.path == path
    ensures r.params.Keys == params.Keys + {"mailto"}
    ensures r.params["mailto"] == mailto
    ensures forall k :: k in params && k != "mailto" ==> r.params[k] == params[k]
  {
    Request(path, params["mailto" := mailto])
  }

  /** `s.split("/")[-1]`: the text after the last slash, or all of `s` when it has none. */
  function LastSegment(s: string): (r: string)
    ensures '/' !in r
    ensures EndsWith(s, r)
    ensures |r| < |s| ==> s[|s| - |r| - 1] == '/'
  {
    if s == [] then ""
    else if s[|s| - 1] == '/' then ""
    else LastSegment(s[..|s| - 1]) + [s[|s| - 1]]
  }

  /** `get_work`: looks a work up by its short id or by its full URL; `None` when the lookup fails. */
  function GetWork(index: Index, idOrUrl: string): (r: Option<Work>)
    ensures var f := index.fetchWork(WorkRequest(index, idOrUrl));
      r.Some? <==> f.Fetched? && Flattened(f.payload.abstractIndex).Some?
    ensures var f := index.fetchWork(WorkRequest(index, idOrUrl));
      r.Some? ==> r.value.id == f.payload.id && r.value.title == f.payload.displayName && r.value.resolvedVia.None?
  {
    match index.fetchWork(WorkRequest(index, idOrUrl))
    case Failed => None
    case Fetched(raw) => NormWork(raw)
  }

  function WorkRequest(index: Index, idOrUrl: string): Request
  {
    BuildRequest(index.mailto, "/works/" + LastSegment(idOrUrl), map[])
  }

  /** A full work URL and its bare id name the same request, hence the same work. */
  lemma {:induction false} UrlAndIdAgree(index: Index, prefix: string, id: string)
    requires '/' !in id
    ensures GetWork(index, prefix + "/" + id) == GetWork(index, id)
  {
    LastSegmentOfPlain(id);
    LastSegmentAfterSlash(prefix, id);
  }

  lemma {:induction false} LastSegmentOfPlain(s: string)
    requires '/' !in s
    ensures LastSegment(s) == s
  {
    if s != [] {
      LastSegmentOfPlain(s[..|s| - 1]);
      assert s[..|s| - 1] + [s[|s| - 1]] == s;
    }
  }

  lemma {:induction false} LastSegmentAfterSlash(prefix: string, id: string)
    requires '/' !in id
    ensures LastSegment(prefix + "/" + id) == id
    decreases |id|
  {
    var s := prefix + "/" + id;
    if id == [] {
      assert s[|s| - 1] == '/';
    } else {
      assert s[..|s| - 1] == prefix + "/" + id[..|id| - 1];
      LastSegmentAfterSlash(prefix, id[..|id| - 1]);
      assert id[..|id| - 1] + [id[|id| - 1]] == id;
    }
  }

  // ---------------------------------------------------------------- resolution

  function DoiRequest(index: Index, doi: string): Request
  {
    BuildRequest(index.mailto, "/works/doi:" + doi, map[])
  }

  function SearchRequest(index: Index, q: string): Request
  {
    BuildRequest(index.mailto, "/works", map["search" := q, "per-page" := "5"])
  }

  /** The DOI path: the normalised work tagged `ViaDoi`, or `None` on any failure. */
  function ByDoi(index: Index, doi: Option<string>): (r: Option<Work>)
    ensures r.Some? <==> doi.Some? && doi.value != "" && index.fetchWork(DoiRequest(index, doi.value)).Fetched?
                         && Flattened(index.fetchWork(DoiRequest(index, doi.value)).payload.abstractIndex).Some?
    ensures r.Some? ==> r.value == NormWork(index.fetchWork(DoiRequest(index, doi.value)).payload).value.(resolvedVia := Some(ViaDoi))
  {
    if doi.None? || doi.value == "" then None
    else match index.fetchWork(DoiRequest(index, doi.value))
      case Failed => None
      case Fetched(raw) =>
        var w := NormWork(raw);
        if w.None? then None else Some(w.value.(resolvedVia := Some(ViaDoi)))
  }

  /** The title path: the top search hit tagged `ViaTitle`, or `None` on no hit or any failure. */
  function ByTitle(index: Index, q: string): (r: Option<Work>)
    ensures r.Some? <==> q != "" && index.search(SearchRequest(index, q)).Fetched? && index.search(SearchRequest(index, q)).payload != []
                         && Flattened(index.search(SearchRequest(index, q)).payload[0].abstractIndex).Some?
    ensures r.Some? ==> r.value == NormWork(index.search(SearchRequest(index, q)).payload[0]).value.(resolvedVia := Some(ViaTitle))
  {
    if q == "" then None
    else match index.search(SearchRequest(index, q))
      case Failed => None
      case Fetched(res) =>
        if res == [] then None
        else
          var w := NormWork(res[0]);
          if w.None? then None else Some(w.value.(resolvedVia := Some(ViaTitle)))
  }

  /** `resolve_by_doi_or_title`: the DOI is tried first; only when it is absent or its lookup
      fails is the title (or link) searched; `None` when both fail. */
  function Resolve(index: Index, doi: Option<string>, titleOrLink: Option<string>): (r: Option<Work>)
    ensures ByDoi(index, doi).Some? ==> r == ByDoi(index, doi)
    ensures ByDoi(index, doi).None? ==> r == ByTitle(index, titleOrLink.GetOr(""))
    ensures r.Some? ==> r.value.resolvedVia.Some?
    ensures r.Some? && r.value.resolvedVia == Some(ViaTitle) ==> ByDoi(index, doi).None?
  {
    var viaDoi := ByDoi(index, doi);
    if viaDoi.Some? then viaDoi else ByTitle(index, titleOrLink.GetOr(""))
  }

  // ---------------------------------------------------------------- validity

  datatype Evidence =
    | Unresolved
    | Found(openalexId: string, doi: Option<string>, resolvedVia: string)

  datatype Validity = Validity(ok: bool, strength: real, labelText: string, evidence: Evidence)

  function ViaName(v: Option<Via>): string
  {
    match v
    case None => "unknown"
    case Some(ViaDoi) => "doi"
    case Some(ViaTitle) => "title"
  }

  /** `verify_validity`: a work is valid exactly when it exists and carries a non-empty id;
      a valid work has strength 1.0 and evidence naming its id, DOI and resolution path. */
  function VerifyValidity(w: Option<Work>): (r: Validity)
    ensures r.ok <==> w.Some? && w.value.id != ""
    ensures r.strength == (if r.ok then 1.0 else 0.0)
    ensures r.labelText == "valid"
    ensures !r.ok ==> r.evidence == Unresolved
    ensures r.ok ==> r.evidence == Found(w.value.id, w.value.doi, ViaName(w.value.resolvedVia))
  {
    if w.None? || w.value.id == "" then Validity(false, 0.0, "valid", Unresolved)
    else Validity(true, 1.0, "valid", Found(w.value.id, w.value.doi, ViaName(w.value.resolvedVia)))
  }

  /** Every resolved work with an id verifies, and its evidence records the path that found it. */
  lemma ResolvedWorksVerify(index: Index, doi: Option<string>, titleOrLink: Option<string>)
    requires Resolve(index, doi, titleOrLink).Some? && Resolve(index, doi, titleOrLink).value.id != ""
    ensures VerifyValidity(Resolve(index, doi, titleOrLink)).ok
    ensures VerifyValidity(Resolve(index, doi, titleOrLink)).evidence.resolvedVia in {"doi", "title"}
  {
  }
}
