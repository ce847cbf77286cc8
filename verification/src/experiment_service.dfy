/** The front-end experiment service: reading the backend's status values, mapping them to
    the three statuses the interface knows, converting graph nodes to experiments and
    listing the experiments of one status. */
module ExperimentService {
  import opened Common
  import opened Strings
  import opened Seqs

  /** A status as the backend sends it: absent or falsy, a string, an object (with or
      without a `value` field, shown through its `toString`), or another truthy scalar
      shown through `String(...)`. An empty `Text` is falsy. */
  datatype RawStatus = Absent | Text(s: string) | Record(value: Option<string>, shown: string) | Scalar(shown: string)

  // ---------------------------------------------------------------- the status pattern

  /** `[A-Z_]` */
  predicate IsNameChar(c: char) { ('A' <= c <= 'Z') || c == '_' }

  /** The end of the run of upper-case letters and underscores starting at `i`. */
  function NameEnd(s: string, i: nat): (j: nat)
    requires i <= |s|
    ensures i <= j <= |s| && (j == |s| || !IsNameChar(s[j]))
    ensures forall k | i <= k < j :: IsNameChar(s[k])
    decreases |s| - i
  {
    if i == |s| || !IsNameChar(s[i]) then i else NameEnd(s, i + 1)
  }

  /** The end of the run of white space starting at `i`. */
  function SpaceEnd(s: string, i: nat): (j: nat)
    requires i <= |s|
    ensures i <= j <= |s| && (j == |s| || !IsJsSpace(s[j]))
    ensures forall k | i <= k < j :: IsJsSpace(s[k])
    decreases |s| - i
  {
    if i == |s| || !IsJsSpace(s[i]) then i else SpaceEnd(s, i + 1)
  }

  /** The end of the run of characters other than `'` starting at `i`. */
  function QuoteEnd(s: string, i: nat): (j: nat)
    requires i <= |s|
    ensures i <= j <= |s| && (j == |s| || s[j] == '\'')
    ensures forall k | i <= k < j :: s[k] != '\''
    decreases |s| - i
  {
    if i == |s| || s[i] == '\'' then i else QuoteEnd(s, i + 1)
  }

  /** `/[A-Z_]+:\s*'([^']+)'/` tried at index `i`, giving the captured group. None of the
      three runs can give back a character to let the next part match (`:` is not in
      `[A-Z_]`, `'` is not white space, and `[^']` stops at `'`), so each run is taken
      whole. */
  function MatchAt(s: string, i: nat): (r: Option<string>)
    requires i <= |s|
    ensures r.Some? ==> r.value != [] && forall c | c in r.value :: c != '\''
  {
    var j := NameEnd(s, i);
    if j == i || j == |s| || s[j] != ':' then None
    else
      var k := SpaceEnd(s, j + 1);
      if k == |s| || s[k] != '\'' then None
      else
        var m := QuoteEnd(s, k + 1);
        if m == k + 1 || m == |s| then None
        else
          Some(s[k + 1..m])
  }

  /** `s.match(...)`: the first index from `i` on at which the pattern matches. */
  function Search(s: string, i: nat): (r: Option<string>)
    requires i <= |s|
    ensures r.Some? ==> r.value != [] && forall c | c in r.value :: c != '\''
    decreases |s| - i
  {
    match MatchAt(s, i)
    case Some(v) => Some(v)
    case None => if i == |s| then None else Search(s, i + 1)
  }

  /** `extractStatusValue` */
  function ExtractStatusValue(status: RawStatus): string
  {
    match status
    case Absent => ""
    case Text(s) =>
      if s == "" then ""
      else (match Search(s, 0) case Some(v) => v case None => s)
    case Record(value, shown) =>
      if value.Some? then value.value
      else (match Search(shown, 0) case Some(v) => v case None => shown)
    case Scalar(shown) => shown
  }

  /** A string with no match of the pattern is returned unchanged, and an empty or absent
      status reads as "". */
  lemma PlainStatusUnchanged(s: string)
    ensures ExtractStatusValue(Absent) == ""
    ensures (forall k | 0 <= k <= |s| :: MatchAt(s, k).None?) ==> ExtractStatusValue(Text(s)) == s
    ensures ':' !in s ==> ExtractStatusValue(Text(s)) == s
  {
    if ':' !in s {
      forall k | 0 <= k <= |s| ensures MatchAt(s, k).None? {
        var j := NameEnd(s, k);
        assert j < |s| ==> s[j] in s;
      }
    }
    if forall k | 0 <= k <= |s| :: MatchAt(s, k).None? {
      SearchSkips(s, 0, |s|);
    }
  }

  lemma {:induction false} SearchSkips(s: string, i: nat, n: nat)
    requires i <= n <= |s|
    requires forall k | i <= k < n :: MatchAt(s, k).None?
    ensures Search(s, i) == Search(s, n)
    decreases n - i
  {
    if i < n {
      SearchSkips(s, i + 1, n);
    }
  }

  /** No match starts before index `a` when no colon comes before it and the character
      just before it cannot continue a name. */
  lemma NoMatchBefore(s: string, a: nat)
    requires a <= |s| && (forall k | 0 <= k < a :: s[k] != ':')
    requires a == 0 || !IsNameChar(s[a - 1])
    ensures forall k | 0 <= k < a :: MatchAt(s, k).None?
  {
    forall k | 0 <= k < a ensures MatchAt(s, k).None? {
      var j := NameEnd(s, k);
    }
  }

  /** A name, a colon, a space and a quoted value at index `a` match, capturing the value. */
  lemma MatchTagged(s: string, a: nat, b: nat, v: string)
    requires a < b && b + 3 + |v| < |s| && v != []
    requires forall k | a <= k < b :: IsNameChar(s[k])
    requires s[b] == ':' && s[b + 1] == ' ' && s[b + 2] == '\'' && s[b + 3 + |v|] == '\''
    requires s[b + 3..b + 3 + |v|] == v && forall c | c in v :: c != '\''
    ensures MatchAt(s, a) == Some(v)
  {
    assert NameEnd(s, a) == b;
    assert SpaceEnd(s, b + 1) == b + 2;
    forall k | b + 3 <= k < b + 3 + |v| ensures s[k] != '\'' {
      assert s[k] == v[k - b - 3] && v[k - b - 3] in v;
    }
    assert QuoteEnd(s, b + 3) == b + 3 + |v|;
  }

  /** The Python enum's rendering, such as `<ExperimentStatus.COMPLETED: 'completed'>`,
      reads as the quoted value: `pre` is any text without a colon that does not end in a
      name character, `name` the enum member's name and `v` its value. */
  lemma TaggedStatus(pre: string, name: string, v: string, post: string)
    requires ':' !in pre && (pre == [] || !IsNameChar(pre[|pre| - 1]))
    requires name != [] && forall c | c in name :: IsNameChar(c)
    requires v != [] && forall c | c in v :: c != '\''
    ensures ExtractStatusValue(Text(pre + name + ": '" + v + "'" + post)) == v
  {
    var s1 := pre + name;
    var s2 := s1 + ": '";
    var s3 := s2 + v;
    var s := s3 + "'" + post;
    var a := |pre|;
    var b := a + |name|;
    forall k | 0 <= k < a ensures s[k] != ':' {
      assert s[k] == s1[k] == pre[k] && pre[k] in pre;
    }
    assert a == 0 || s[a - 1] == pre[a - 1];
    NoMatchBefore(s, a);
    forall k | a <= k < b ensures IsNameChar(s[k]) {
      assert s[k] == s1[k] == name[k - a] && name[k - a] in name;
    }
    assert s[b] == s2[b] == ':' && s[b + 1] == s2[b + 1] == ' ' && s[b + 2] == s2[b + 2] == '\'';
    assert s[b + 3..b + 3 + |v|] == s3[b + 3..] == v;
    assert s[b + 3 + |v|] == '\'';
    MatchTagged(s, a, b, v);
    ExtractAt(s, a, v);
  }

  lemma ExtractAt(s: string, a: nat, v: string)
    requires a < |s| && (forall k | 0 <= k < a :: MatchAt(s, k).None?) && MatchAt(s, a) == Some(v)
    ensures ExtractStatusValue(Text(s)) == v
  {
    SearchSkips(s, 0, a);
  }

  // ---------------------------------------------------------------- status mappings

  const Statuses: set<string> := {"completed", "planned", "postponed"}

  /** `mapUIStatusToAPIStatus` */
  function MapUIStatusToAPIStatus(uiStatus: string): (r: string)
    ensures r in Statuses
    ensures uiStatus in Statuses ==> r == uiStatus
    ensures uiStatus !in Statuses ==> r == "planned"
  {
    match uiStatus
    case "completed" => "completed"
    case "planned" => "planned"
    case "postponed" => "postponed"
    case _ => "planned"
  }

  /** The `switch` of `mapAPIStatusToUIStatus` on the lower-cased status: "in_progress"
      and anything unknown become "planned". */
  function UIStatusOf(status: string): (r: string)
    ensures r in Statuses
    ensures r == "completed" <==> status == "completed"
    ensures r == "postponed" <==> status == "postponed"
  {
    match status
    case "completed" => "completed"
    case "planned" => "planned"
    case "in_progress" => "planned"
    case "postponed" => "postponed"
    case _ => "planned"
  }

  /** `mapAPIStatusToUIStatus` */
  function MapAPIStatusToUIStatus(apiStatus: RawStatus): (r: string)
    ensures r in Statuses
    ensures r == "completed" <==> Lower(ExtractStatusValue(apiStatus)) == "completed"
    ensures r == "postponed" <==> Lower(ExtractStatusValue(apiStatus)) == "postponed"
  {
    UIStatusOf(Lower(ExtractStatusValue(apiStatus)))
  }

  /** Lower-case letters and underscores only. */
  predicate LowerWord(s: string)
  {
    forall i | 0 <= i < |s| :: ('a' <= s[i] <= 'z') || s[i] == '_'
  }

  /** A lower-case word is read as itself. */
  lemma PlainWord(s: string)
    requires LowerWord(s)
    ensures ExtractStatusValue(Text(s)) == s && MapAPIStatusToUIStatus(Text(s)) == UIStatusOf(s)
  {
    assert ':' !in s;
    PlainStatusUnchanged(s);
    assert Lower(s) == s;
  }

  /** Sending a status to the backend and reading it back gives the status the interface
      knows it by, and the same status when it was already one of the three. */
  lemma StatusRoundTrip(uiStatus: string)
    ensures MapAPIStatusToUIStatus(Text(MapUIStatusToAPIStatus(uiStatus))) == MapUIStatusToAPIStatus(uiStatus)
    ensures uiStatus in Statuses ==> MapAPIStatusToUIStatus(Text(MapUIStatusToAPIStatus(uiStatus))) == uiStatus
  {
    var api := MapUIStatusToAPIStatus(uiStatus);
    if api == "completed" {
      assert LowerWord("completed");
    } else if api == "planned" {
      assert LowerWord("planned");
    } else {
      assert LowerWord("postponed");
    }
    PlainWord(api);
  }

  /** Upper-case and lower-case spellings of a plain status map alike. */
  lemma CaseInsensitive(s: string)
    requires ':' !in s
    ensures MapAPIStatusToUIStatus(Text(s)) == MapAPIStatusToUIStatus(Text(Lower(s)))
  {
    PlainStatusUnchanged(s);
    assert forall i | 0 <= i < |s| :: Lower(s)[i] != ':';
    PlainStatusUnchanged(Lower(s));
    assert Lower(Lower(s)) == Lower(s);
  }

  // ---------------------------------------------------------------- experiments

  /** A graph node as the backend lists it; an empty description or type stands for a
      missing one. */
  datatype ApiNode = ApiNode(id: int, title: string, description: string, nodeType: string,
                             status: RawStatus, createdAt: string)

  datatype Experiment = Experiment(id: string, title: string, description: string, nodeType: string,
                                   status: string, level: int, keywords: seq<string>,
                                   createdAt: string, aiGenerated: bool)

  /** `convertToResearchNode` */
  function ConvertToResearchNode(node: ApiNode): (r: Experiment)
    ensures r.id == IntToString(node.id) && r.title == node.title && r.createdAt == node.createdAt
    ensures r.description == (if node.description == "" then "" else node.description)
    ensures r.nodeType != "" && (node.nodeType != "" ==> r.nodeType == node.nodeType)
    ensures node.nodeType == "" ==> r.nodeType == "experiment"
    ensures r.status in Statuses && r.status == MapAPIStatusToUIStatus(node.status)
    ensures r.level == 0 && r.keywords == [] && !r.aiGenerated
  {
    Experiment(IntToString(node.id), node.title, node.description,
               if node.nodeType != "" then node.nodeType else "experiment",
               MapAPIStatusToUIStatus(node.status), 0, [], node.createdAt, false)
  }

  function ConvertAll(nodes: seq<ApiNode>): (r: seq<Experiment>)
    ensures |r| == |nodes| && forall i | 0 <= i < |nodes| :: r[i] == ConvertToResearchNode(nodes[i])
  {
    seq(|nodes|, i requires 0 <= i < |nodes| => ConvertToResearchNode(nodes[i]))
  }

  /** The filter the status getters share: the node's extracted status, lower-cased, is
      `target`. */
  predicate HasStatus(target: string, node: ApiNode)
  {
    Lower(ExtractStatusValue(node.status)) == target
  }

  function WithStatus(nodes: seq<ApiNode>, target: string): seq<Experiment>
  {
    ConvertAll(Filter(n => HasStatus(target, n), nodes))
  }

  /** `getPastExperiments` */
  function PastExperiments(nodes: seq<ApiNode>): seq<Experiment> { WithStatus(nodes, "completed") }

  /** `getPlannedExperiments` */
  function PlannedExperiments(nodes: seq<ApiNode>): seq<Experiment> { WithStatus(nodes, "planned") }

  /** `getPostponedExperiments` */
  function PostponedExperiments(nodes: seq<ApiNode>): seq<Experiment> { WithStatus(nodes, "postponed") }

  /** Each experiment a getter lists is the conversion of a node with its status, and
      carries that status. */
  lemma GetterSound(nodes: seq<ApiNode>, target: string, i: nat)
    requires target in Statuses && i < |WithStatus(nodes, target)|
    ensures exists n | n in nodes :: HasStatus(target, n) && WithStatus(nodes, target)[i] == ConvertToResearchNode(n)
    ensures WithStatus(nodes, target)[i].status == target
  {
    var kept := Filter(n => HasStatus(target, n), nodes);
    assert kept[i] in kept;
  }

  /** Every node with the getter's status is listed. */
  lemma GetterComplete(nodes: seq<ApiNode>, target: string, n: ApiNode)
    requires n in nodes && HasStatus(target, n)
    ensures ConvertToResearchNode(n) in WithStatus(nodes, target)
  {
    var kept := Filter(n => HasStatus(target, n), nodes);
    assert n in kept;
    var i :| 0 <= i < |kept| && kept[i] == n;
    assert WithStatus(nodes, target)[i] == ConvertToResearchNode(n);
  }

  /** A node the backend reports as "in_progress" shows as planned in the full list but is
      left out of the planned list. */
  lemma InProgressNotPlanned(node: ApiNode)
    requires node.status == Text("in_progress")
    ensures ConvertToResearchNode(node).status == "planned"
    ensures PlannedExperiments([node]) == []
  {
    assert LowerWord("in_progress");
    PlainWord("in_progress");
    assert !HasStatus("planned", node);
  }
}
