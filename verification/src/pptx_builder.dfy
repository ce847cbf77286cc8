/** The PowerPoint deck builder: reads the accent colour of the theme, turns every slide
    definition of a slide plan into one slide according to its layout, and fills tables.
    Drawing (fonts, positions, chart images) is not modelled; a slide records what is put
    on it. `None` stands for an exception that aborts the build. */
module PptxBuilder {
  import opened Common
  import opened Json
  import opened Strings

  datatype Rgb = Rgb(r: int, g: int, b: int)

  /** The colour used when the accent cannot be parsed: #2396F5. */
  const DefaultAccent := Rgb(35, 150, 245)
  const DefaultAccentHex := "#2396F5"

  predicate InByte(n: int) { 0 <= n <= 255 }

  function HexDigitValue(c: char): (r: Option<nat>)
    ensures r.Some? ==> r.value < 16
  {
    if '0' <= c <= '9' then Some(c as int - '0' as int)
    else if 'a' <= c <= 'f' then Some(c as int - 'a' as int + 10)
    else if 'A' <= c <= 'F' then Some(c as int - 'A' as int + 10)
    else None
  }

  /** The value of one or two hexadecimal digits, most significant first. */
  function HexValue(ds: string): (r: Option<nat>)
    requires 1 <= |ds| <= 2
    ensures r.Some? <==> HexDigitValue(ds[0]).Some? && HexDigitValue(ds[|ds| - 1]).Some?
    ensures r.Some? ==> r.value <= 255
  {
    var hi := HexDigitValue(ds[0]);
    var lo := HexDigitValue(ds[|ds| - 1]);
    if hi.None? || lo.None? then None
    else if |ds| == 1 then hi
    else Some(16 * hi.value + lo.value)
  }

  /** An optional sign followed by one or two hexadecimal digits, and nothing else. */
  function SignedHex(u: string): (r: Option<int>)
    requires |u| <= 2
    ensures r.Some? ==> -255 <= r.value <= 255
    ensures r.Some? ==> u != [] && (r.value < 0 ==> u[0] == '-')
  {
    if u == [] then None
    else
      var signed := u[0] == '+' || u[0] == '-';
      var ds := if signed then u[1..] else u;
      if ds == [] then None
      else
        match HexValue(ds)
        case None => None
        case Some(v) =>
          var n: int := v;
          Some(if u[0] == '-' then -n else n)
  }

  /** Python's `int(t, 16)` on a slice of at most two characters: surrounding whitespace
      is ignored, one sign is allowed, and one or two hexadecimal digits must follow
      (a `0x` prefix or an underscore cannot fit in two characters). `None` is the
      ValueError. */
  function ParseHex(t: string): (r: Option<int>)
    requires |t| <= 2
    ensures r.Some? ==> -255 <= r.value <= 255
    ensures r.Some? ==> r == SignedHex(PyStrip(t))
  {
    SignedHex(PyStrip(t))
  }

  /** Python's slice `s[i:j]`, clamped to the string. */
  function Slice(s: string, i: nat, j: nat): (r: string)
    requires i <= j
    ensures |r| <= j - i
    ensures j <= |s| ==> r == s[i..j]
  {
    if i >= |s| then "" else s[i..if j <= |s| then j else |s|]
  }

  /** `s.lstrip("#")`. */
  function LStripHash(s: string): (r: string)
    ensures |r| <= |s| && r == s[|s| - |r|..]
    ensures r == [] || r[0] != '#'
  {
    if s != [] && s[0] == '#' then LStripHash(s[1..]) else s
  }

  /** The accent text of a plan without its leading `#`s: `SLIDE_PLAN` (or `{}` when falsy)
      and its `theme` (default `{}`) must be objects, and a truthy accent must be a string;
      otherwise the lookup raises. A falsy accent is replaced by #2396F5. */
  function AccentText(plan: seq<(string, Json)>): (r: Option<string>)
    ensures r.Some? ==> SlidePlanOf(plan).Some?
  {
    match SlidePlanOf(plan)
    case None => None
    case Some(sp) =>
      match Get(sp, "theme").GetOr(JObj([]))
      case JObj(theme) =>
        var accent := OrElse(Get(theme, "accent"), JStr(DefaultAccentHex));
        if accent.JStr? then Some(LStripHash(accent.s)) else None
      case _ => None
  }

  /** `plan.get("SLIDE_PLAN") or {}`, which must be an object for the `.get` that follows. */
  function SlidePlanOf(plan: seq<(string, Json)>): (r: Option<seq<(string, Json)>>)
    ensures r.Some? ==> (r.value == [] <==> !HasKey(plan, "SLIDE_PLAN") || !Truthy(Get(plan, "SLIDE_PLAN").value))
  {
    match OrElse(Get(plan, "SLIDE_PLAN"), JObj([]))
    case JObj(sp) => Some(sp)
    case _ => None
  }

  /** The three components read from characters 0-2, 2-4 and 4-6; `None` when any of the
      three conversions fails. */
  function ParseComponents(hex: string): (r: Option<(int, int, int)>)
    ensures r.Some? ==> -255 <= r.value.0 <= 255 && -255 <= r.value.1 <= 255 && -255 <= r.value.2 <= 255
  {
    var r := ParseHex(Slice(hex, 0, 2));
    var g := ParseHex(Slice(hex, 2, 4));
    var b := ParseHex(Slice(hex, 4, 6));
    if r.Some? && g.Some? && b.Some? then Some((r.value, g.value, b.value)) else None
  }

  /** The accent colour of the deck. A failed conversion falls back to the default colour;
      a negative component (from a `-` sign) is refused by the colour constructor, which
      raises outside the fallback. */
  function ThemeColors(plan: seq<(string, Json)>): (r: Option<Rgb>)
    ensures r.Some? ==> InByte(r.value.r) && InByte(r.value.g) && InByte(r.value.b)
    ensures r.Some? <==>
      AccentText(plan).Some? &&
      (ParseComponents(AccentText(plan).value).None? ||
       (ParseComponents(AccentText(plan).value).value.0 >= 0 &&
        ParseComponents(AccentText(plan).value).value.1 >= 0 &&
        ParseComponents(AccentText(plan).value).value.2 >= 0))
    ensures AccentText(plan).Some? && ParseComponents(AccentText(plan).value).None? ==> r == Some(DefaultAccent)
  {
    match AccentText(plan)
    case None => None
    case Some(hex) =>
      match ParseComponents(hex)
      case None => Some(DefaultAccent)
      case Some((r, g, b)) =>
        if r >= 0 && g >= 0 && b >= 0 then Some(Rgb(r, g, b)) else None
  }

  function HexChar(d: nat): (c: char)
    requires d < 16
    ensures HexDigitValue(c) == Some(d)
  {
    if d < 10 then ('0' as int + d) as char else ('A' as int + d - 10) as char
  }

  /** Two upper-case hexadecimal digits, the byte `16 * hi + lo`. */
  function HexPair(hi: nat, lo: nat): (r: string)
    requires hi < 16 && lo < 16
    ensures |r| == 2 && '#' != r[0]
  {
    [HexChar(hi), HexChar(lo)]
  }

  /** A hexadecimal digit is neither whitespace nor a sign. */
  lemma DigitIsPlain(c: char)
    requires HexDigitValue(c).Some?
    ensures !IsPySpace(c) && c != '+' && c != '-'
  {
  }

  lemma PairStrips(a: char, b: char)
    requires !IsPySpace(a) && !IsPySpace(b)
    ensures PyStrip([a, b]) == [a, b]
  {
    var ab := [a, b];
    assert ab[0] == a && ab[|ab| - 1] == b;
    assert StripLeft(ab) == ab;
    assert StripRight(ab) == ab;
  }

  /** Two hexadecimal digits parse to their value. */
  lemma DigitPairParses(a: char, b: char, hi: nat, lo: nat)
    requires HexDigitValue(a) == Some(hi) && HexDigitValue(b) == Some(lo)
    ensures ParseHex([a, b]) == Some(16 * hi + lo)
  {
    var ab := [a, b];
    assert HexValue(ab) == Some(16 * hi + lo);
    DigitIsPlain(a);
    DigitIsPlain(b);
    PairStrips(a, b);
    assert SignedHex(ab) == Some(16 * hi + lo);
  }

  lemma HexPairParses(hi: nat, lo: nat)
    requires hi < 16 && lo < 16
    ensures ParseHex(HexPair(hi, lo)) == Some(16 * hi + lo)
  {
    DigitPairParses(HexChar(hi), HexChar(lo), hi, lo);
  }

  lemma ThemeOfComponents(plan: seq<(string, Json)>, hex: string, r: int, g: int, b: int)
    requires AccentText(plan) == Some(hex) && ParseComponents(hex) == Some((r, g, b))
    requires r >= 0 && g >= 0 && b >= 0
    ensures ThemeColors(plan) == Some(Rgb(r, g, b))
  {
  }

  lemma StripOneHash(h: string)
    requires h == [] || h[0] != '#'
    ensures LStripHash("#" + h) == h
  {
    assert ("#" + h)[1..] == h;
  }

  /** The plan `{"SLIDE_PLAN": {"theme": {"accent": text}}}`. */
  function AccentPlan(text: string): seq<(string, Json)>
  {
    [("SLIDE_PLAN", JObj([("theme", JObj([("accent", JStr(text))]))]))]
  }

  lemma AccentPlanText(text: string)
    requires text != ""
    ensures AccentText(AccentPlan(text)) == Some(LStripHash(text))
  {
    var theme := [("accent", JStr(text))];
    var sp := [("theme", JObj(theme))];
    assert SlidePlanOf(AccentPlan(text)) == Some(sp);
    assert Get(sp, "theme") == Some(JObj(theme));
    assert Get(theme, "accent") == Some(JStr(text));
    assert OrElse(Get(theme, "accent"), JStr(DefaultAccentHex)) == JStr(text);
  }

  /** A slide plan whose theme names a non-empty accent string has that accent, less its
      leading `#`. */
  lemma AccentOfTheme(plan: seq<(string, Json)>, sp: seq<(string, Json)>, theme: seq<(string, Json)>, text: string)
    requires SlidePlanOf(plan) == Some(sp) && Get(sp, "theme") == Some(JObj(theme))
    requires Get(theme, "accent") == Some(JStr(text)) && text != ""
    ensures AccentText(plan) == Some(LStripHash(text))
  {
    assert OrElse(Get(theme, "accent"), JStr(DefaultAccentHex)) == JStr(text);
  }

  /** The components of `RRGGBB` are read back from its three digit pairs. */
  lemma ComponentsOfPairs(r1: nat, r2: nat, g1: nat, g2: nat, b1: nat, b2: nat)
    requires r1 < 16 && r2 < 16 && g1 < 16 && g2 < 16 && b1 < 16 && b2 < 16
    ensures ParseComponents(HexPair(r1, r2) + HexPair(g1, g2) + HexPair(b1, b2))
         == Some((16 * r1 + r2, 16 * g1 + g2, 16 * b1 + b2))
  {
    var hex := HexPair(r1, r2) + HexPair(g1, g2) + HexPair(b1, b2);
    assert Slice(hex, 0, 2) == HexPair(r1, r2);
    assert Slice(hex, 2, 4) == HexPair(g1, g2);
    assert Slice(hex, 4, 6) == HexPair(b1, b2);
    HexPairParses(r1, r2);
    HexPairParses(g1, g2);
    HexPairParses(b1, b2);
  }

  lemma ThemeOfAccent(text: string, hex: string, r: int, g: int, b: int)
    requires text != "" && LStripHash(text) == hex
    requires ParseComponents(hex) == Some((r, g, b)) && r >= 0 && g >= 0 && b >= 0
    ensures ThemeColors(AccentPlan(text)) == Some(Rgb(r, g, b))
  {
    AccentPlanText(text);
    ThemeOfComponents(AccentPlan(text), hex, r, g, b);
  }

  lemma ThreePairs(rr: string, gg: string, bb: string)
    requires |rr| == 2 && |gg| == 2 && |bb| == 2
    ensures var hex := rr + gg + bb;
      "#" + rr + gg + bb == "#" + hex && (hex == [] || hex[0] == rr[0]) &&
      Slice(hex, 0, 2) == rr && Slice(hex, 2, 4) == gg && Slice(hex, 4, 6) == bb
  {
    var hex := rr + gg + bb;
    assert hex[0..2] == rr;
    assert hex[2..4] == gg;
    assert hex[4..6] == bb;
  }

  /** A theme accent `#` followed by the digit pairs `rr`, `gg` and `bb` gives the colour
      whose components are the three pairs read as hexadecimal numbers (with
      `HexPairParses`, every colour written in upper-case digits is read back exactly). */
  lemma AccentRoundTrip(rr: string, gg: string, bb: string, r: nat, g: nat, b: nat)
    requires |rr| == 2 && |gg| == 2 && |bb| == 2 && rr[0] != '#'
    requires ParseHex(rr) == Some(r) && ParseHex(gg) == Some(g) && ParseHex(bb) == Some(b)
    ensures ThemeColors(AccentPlan("#" + rr + gg + bb)) == Some(Rgb(r, g, b))
  {
    var hex := rr + gg + bb;
    ThreePairs(rr, gg, bb);
    StripOneHash(hex);
    assert ParseComponents(hex) == Some((r, g, b));
    ThemeOfAccent("#" + hex, hex, r, g, b);
  }

  /** The digits of the default accent spell its colour. */
  lemma DefaultAccentSpelled()
    ensures ParseComponents("2396F5") == Some((35, 150, 245))
  {
    var hex := HexPair(2, 3) + HexPair(9, 6) + HexPair(15, 5);
    assert hex == "2396F5";
    ComponentsOfPairs(2, 3, 9, 6, 15, 5);
  }

  /** Without a slide plan the accent text is the default's digits. */
  lemma NoPlanAccentText()
    ensures AccentText([]) == Some("2396F5")
  {
    var none: seq<(string, Json)> := [];
    assert SlidePlanOf([]) == Some(none);
    assert Get(none, "theme").GetOr(JObj([])) == JObj(none);
    assert OrElse(Get(none, "accent"), JStr(DefaultAccentHex)) == JStr("#" + "2396F5");
    StripOneHash("2396F5");
  }

  /** A plan without a theme gets the default accent, which is what #2396F5 spells. */
  lemma NoThemeIsDefault()
    ensures ThemeColors([]) == Some(DefaultAccent)
  {
    NoPlanAccentText();
    DefaultAccentSpelled();
    ThemeOfComponents([], "2396F5", 35, 150, 245);
  }

  /** What one slide carries: its title, the bullet texts (a JSON `null` becomes an empty
      text), the table grid drawn on it, and the chart specification rendered on it. */
  datatype Slide = Slide(title: string, bullets: seq<Json>, table: Option<seq<seq<Json>>>, chart: Option<Json>)

  /** The single slide of a deck whose plan has no slides. */
  const NoContent := Slide("No content available", [JStr("The generated plan contained no slides.")], None, None)

  /** The title text `title or "Untitled"`; a truthy title that is not a string cannot be
      written into the text frame. */
  function TitleText(v: Option<Json>): (r: Option<string>)
    ensures r.Some? ==> r.value != ""
    ensures v.Some? && v.value.JStr? && v.value.s != "" ==> r == Some(v.value.s)
    ensures v.None? || !Truthy(v.value) ==> r == Some("Untitled")
  {
    var t := v.GetOr(JStr(""));
    if !Truthy(t) then Some("Untitled")
    else if t.JStr? then Some(t.s)
    else None
  }

  /** The bullet that stands in for missing bullets, per layout. */
  function Placeholder(layout: Json): (r: string)
    ensures StartsWith(r, "(placeholder) ")
  {
    if layout == JStr("title-only") then "(placeholder) Add key highlights here"
    else if layout == JStr("two-col") then "(placeholder) Add bullet points"
    else if layout == JStr("table-left-chart-right") then "(placeholder) Add details"
    else if layout == JStr("chart-full") then "(placeholder) Chart caption"
    else "(placeholder) Content"
  }

  /** The texts of the bullets: every element visited by the loop, with `null` as "". */
  function BulletTexts(bullets: Json): (r: Option<seq<Json>>)
    ensures r.Some? <==> Iterate(bullets).Some?
    ensures r.Some? ==> |r.value| == |Iterate(bullets).value|
    ensures r.Some? ==> forall i | 0 <= i < |r.value| ::
      r.value[i] == (if Iterate(bullets).value[i] == JNull then JStr("") else Iterate(bullets).value[i])
  {
    match Iterate(bullets)
    case None => None
    case Some(bs) => Some(seq(|bs|, i requires 0 <= i < |bs| => if bs[i] == JNull then JStr("") else bs[i]))
  }

  /** The chart rendered for a truthy `charts`: its first element. Indexing an object or a
      number fails inside the guarded block, so no chart is placed then; rendering errors
      are also absorbed there (an error image is drawn instead). */
  function FirstChart(charts: Json): (r: Option<Json>)
    requires Truthy(charts)
    ensures charts.JArr? ==> r == Some(charts.items[0])
    ensures r.Some? <==> charts.JArr? || charts.JStr?
  {
    match charts
    case JArr(items) => Some(items[0])
    case JStr(s) => Some(JStr([s[0]]))
    case _ => None
  }

  /** The grid of a table: a header row of the column names, then each row cut to the
      number of columns, with empty text in the cells a short row leaves unfilled. */
  function Grid(cols: seq<Json>, rows: seq<seq<Json>>): (r: seq<seq<Json>>)
    ensures |r| == |rows| + 1 && r[0] == cols
    ensures forall i | 0 <= i < |r| :: |r[i]| == |cols|
    ensures forall i, j | 0 <= i < |rows| && 0 <= j < |cols| ::
      r[i + 1][j] == (if j < |rows[i]| then rows[i][j] else JStr(""))
  {
    [cols] + seq(|rows|, i requires 0 <= i < |rows| =>
      seq(|cols|, j requires 0 <= j < |cols| => if j < |rows[i]| then rows[i][j] else JStr("")))
  }

  /** The cells one row contributes, `r[:len(cols)]`: a list or a string can be sliced,
      anything else raises. */
  function RowCells(row: Json, n: nat): (r: Option<seq<Json>>)
    ensures r.Some? <==> row.JArr? || row.JStr?
    ensures r.Some? ==> |r.value| <= n
    ensures row.JArr? && |row.items| <= n ==> r == Some(row.items)
  {
    match row
    case JArr(items) => Some(if |items| <= n then items else items[..n])
    case JStr(s) =>
      var cut := if |s| <= n then s else s[..n];
      Some(seq(|cut|, i requires 0 <= i < |cut| => JStr([cut[i]])))
    case _ => None
  }

  function AllRowCells(rows: seq<Json>, n: nat): (r: Option<seq<seq<Json>>>)
    ensures r.Some? <==> forall i | 0 <= i < |rows| :: RowCells(rows[i], n).Some?
    ensures r.Some? ==> |r.value| == |rows| && forall i | 0 <= i < |rows| :: r.value[i] == RowCells(rows[i], n).value
  {
    if forall i | 0 <= i < |rows| :: RowCells(rows[i], n).Some? then
      Some(seq(|rows|, i requires 0 <= i < |rows| => RowCells(rows[i], n).value))
    else None
  }

  /** A table specification drawn: `None` when it raises, `Some(None)` when it has no
      columns and nothing is drawn, otherwise the grid. */
  function TableFromSpec(spec: Json): (r: Option<Option<seq<seq<Json>>>>)
    ensures r.Some? ==> spec.JObj?
    ensures r.Some? && r.value.Some? ==> |r.value.value| >= 1 && r.value.value[0] != []
    ensures spec.JObj? && !Truthy(Get(spec.fields, "columns").GetOr(JArr([]))) ==> r == Some(None)
    ensures spec.JObj? && Truthy(Get(spec.fields, "columns").GetOr(JArr([]))) ==>
      var cols, rows := Iterate(Get(spec.fields, "columns").value), Iterate(Get(spec.fields, "rows").GetOr(JArr([])));
      (r.Some? <==> cols.Some? && rows.Some? && AllRowCells(rows.value, |cols.value|).Some?) &&
      (r.Some? ==> r.value == Some(Grid(cols.value, AllRowCells(rows.value, |cols.value|).value)))
  {
    if !spec.JObj? then None
    else
      var fields := spec.fields;
      var cols := Get(fields, "columns").GetOr(JArr([]));
      var rows := Get(fields, "rows").GetOr(JArr([]));
      if !Truthy(cols) then Some(None)
      else
        match Iterate(cols)
        case None => None
        case Some(cs) =>
          match Iterate(rows)
          case None => None
          case Some(rs) =>
            match AllRowCells(rs, |cs|)
            case None => None
            case Some(cells) => Some(Some(Grid(cs, cells)))
  }

  /** The table of a truthy `tables`: its first element must be a table specification;
      indexing an object or a number, or reading a character as a specification, raises. */
  function TableOf(tables: Json): (r: Option<Option<seq<seq<Json>>>>)
    requires Truthy(tables)
    ensures r.Some? ==> tables.JArr? && r == TableFromSpec(tables.items[0])
  {
    match tables
    case JArr(items) => TableFromSpec(items[0])
    case _ => None
  }

  /** Whether a slide shows bullets: every layout does, except "table-left-chart-right"
      with a table, which draws the table in their place. */
  predicate ShowsBullets(def: Json)
    requires def.JObj?
  {
    !(LayoutOf(def) == JStr("table-left-chart-right") && Truthy(ListField(def, "tables")))
  }

  /** Whether a slide draws the first of its tables: "table-left-chart-right" whenever it
      has one, "two-col" when it has one and no chart. */
  predicate DrawsTable(def: Json)
    requires def.JObj?
  {
    Truthy(ListField(def, "tables")) &&
    (LayoutOf(def) == JStr("table-left-chart-right") || (LayoutOf(def) == JStr("two-col") && !Truthy(ListField(def, "charts"))))
  }

  /** Whether a slide renders the first of its charts: the three chart layouts, when it has one. */
  predicate RendersChart(def: Json)
    requires def.JObj?
  {
    Truthy(ListField(def, "charts")) &&
    (LayoutOf(def) == JStr("two-col") || LayoutOf(def) == JStr("table-left-chart-right") || LayoutOf(def) == JStr("chart-full"))
  }

  /** The bullets a slide draws: the given ones, or the layout's placeholder when none are given. */
  function BulletsShown(def: Json): Json
    requires def.JObj?
  {
    if ListField(def, "bullets") == JArr([]) then JArr([JStr(Placeholder(LayoutOf(def)))]) else ListField(def, "bullets")
  }

  /** The slide one slide definition produces, or `None` when drawing it raises. */
  function SlideOf(def: Json): (r: Option<Slide>)
    ensures r.Some? ==> def.JObj? && TitleText(Get(def.fields, "title")) == Some(r.value.title)
    ensures r.Some? ==> forall i | 0 <= i < |r.value.bullets| :: r.value.bullets[i] != JNull
    ensures r.Some? && r.value.chart.Some? ==>
      Truthy(OrElse(Get(def.fields, "charts"), JArr([]))) &&
      r.value.chart == FirstChart(OrElse(Get(def.fields, "charts"), JArr([])))
    ensures r.Some? && r.value.table.Some? ==>
      Truthy(OrElse(Get(def.fields, "tables"), JArr([]))) &&
      Some(r.value.table) == TableOf(OrElse(Get(def.fields, "tables"), JArr([])))
  {
    if !def.JObj? then None
    else
      var f := def.fields;
      var layout := Get(f, "layout").GetOr(JStr("title-only"));
      var title := TitleText(Get(f, "title"));
      var given := OrElse(Get(f, "bullets"), JArr([]));
      var tables := OrElse(Get(f, "tables"), JArr([]));
      var charts := OrElse(Get(f, "charts"), JArr([]));
      var bullets := if given == JArr([]) then JArr([JStr(Placeholder(layout))]) else given;
      var chart := if Truthy(charts) then FirstChart(charts) else None;
      if title.None? then None
      else if layout == JStr("two-col") then
        match BulletTexts(bullets)
        case None => None
        case Some(bs) =>
          if Truthy(charts) then Some(Slide(title.value, bs, None, chart))
          else if Truthy(tables) then
            match TableOf(tables)
            case None => None
            case Some(t) => Some(Slide(title.value, bs, t, None))
          else Some(Slide(title.value, bs, None, None))
      else if layout == JStr("table-left-chart-right") then
        if Truthy(tables) then
          match TableOf(tables)
          case None => None
          case Some(t) => Some(Slide(title.value, [], t, chart))
        else
          match BulletTexts(bullets)
          case None => None
          case Some(bs) => Some(Slide(title.value, bs, None, chart))
      else if layout == JStr("chart-full") then
        match BulletTexts(bullets)
        case None => None
        case Some(bs) => Some(Slide(title.value, bs, None, chart))
      else
        // "title-only" and every other layout: bullets only
        match BulletTexts(bullets)
        case None => None
        case Some(bs) => Some(Slide(title.value, bs, None, None))
  }

  /** A definition yields a slide exactly when it is an object with a writable title, its
      shown bullets can be iterated, and the table it draws, if any, can be drawn. */
  lemma SlideSucceeds(def: Json)
    ensures SlideOf(def).Some? <==> (def.JObj? && TitleText(Get(def.fields, "title")).Some?
                                    && (ShowsBullets(def) ==> BulletTexts(BulletsShown(def)).Some?)
                                    && (DrawsTable(def) ==> TableOf(ListField(def, "tables")).Some?))
  {
    if def.JObj? {
      var layout := LayoutOf(def);
      if layout == JStr("two-col") {
      } else if layout == JStr("table-left-chart-right") {
      } else if layout == JStr("chart-full") {
      }
    }
  }

  /** The slide's bullets are the texts of the shown bullets, and so of the given ones
      when there are any; none when a table takes their place. */
  lemma SlideBullets(def: Json)
    requires SlideOf(def).Some?
    ensures def.JObj?
    ensures SlideOf(def).value.bullets == (if ShowsBullets(def) then BulletTexts(BulletsShown(def)).value else [])
    ensures ShowsBullets(def) && ListField(def, "bullets") != JArr([]) ==>
      SlideOf(def).value.bullets == BulletTexts(ListField(def, "bullets")).value
  {
    if def.JObj? {
      var layout := LayoutOf(def);
      if layout == JStr("two-col") {
      } else if layout == JStr("table-left-chart-right") {
      } else if layout == JStr("chart-full") {
      }
    }
  }

  /** The slide's table is the first table specification drawn, exactly when the layout
      draws one. */
  lemma SlideTable(def: Json)
    requires SlideOf(def).Some?
    ensures def.JObj?
    ensures SlideOf(def).value.table == (if DrawsTable(def) then TableOf(ListField(def, "tables")).value else None)
  {
    if def.JObj? {
      var layout := LayoutOf(def);
      if layout == JStr("two-col") {
      } else if layout == JStr("table-left-chart-right") {
      } else if layout == JStr("chart-full") {
      }
    }
  }

  /** The slide's chart is the first chart, exactly when the layout renders one. */
  lemma SlideChart(def: Json)
    requires SlideOf(def).Some?
    ensures def.JObj?
    ensures SlideOf(def).value.chart == (if RendersChart(def) then FirstChart(ListField(def, "charts")) else None)
  {
    if def.JObj? {
      var layout := LayoutOf(def);
      if layout == JStr("two-col") {
      } else if layout == JStr("table-left-chart-right") {
      } else if layout == JStr("chart-full") {
      }
    }
  }

  function LayoutOf(def: Json): Json
    requires def.JObj?
  {
    Get(def.fields, "layout").GetOr(JStr("title-only"))
  }

  /** `slide_def.get(key) or []`. */
  function ListField(def: Json, key: string): Json
    requires def.JObj?
  {
    OrElse(Get(def.fields, key), JArr([]))
  }

  /** Where each layout puts things: only "two-col", "table-left-chart-right" and
      "chart-full" place a table or a chart; in "two-col" a chart wins over a table; the
      left table of "table-left-chart-right" replaces its bullets; "chart-full" never has
      a table; and missing bullets become the layout's placeholder. */
  lemma SlideLayout(def: Json)
    requires SlideOf(def).Some?
    ensures def.JObj?
    ensures var layout, slide := LayoutOf(def), SlideOf(def).value;
      (layout != JStr("two-col") && layout != JStr("table-left-chart-right") && layout != JStr("chart-full") ==>
         slide.table.None? && slide.chart.None?) &&
      (layout == JStr("two-col") && Truthy(ListField(def, "charts")) ==> slide.table.None?) &&
      (layout == JStr("table-left-chart-right") && Truthy(ListField(def, "tables")) ==> slide.bullets == []) &&
      (layout == JStr("chart-full") ==> slide.table.None?) &&
      (ListField(def, "bullets") == JArr([]) && !(layout == JStr("table-left-chart-right") && Truthy(ListField(def, "tables"))) ==>
         slide.bullets == [JStr(Placeholder(layout))])
  {
    var b := JStr(Placeholder(LayoutOf(def)));
    var texts := BulletTexts(JArr([b])).value;
    assert texts[0] == b;
  }

  /** The slide definitions of a plan: `slides` of the slide plan, or none when it is not
      a list. */
  function SlideDefs(sp: seq<(string, Json)>): (r: seq<Json>)
    ensures Get(sp, "slides").Some? && Get(sp, "slides").value.JArr? ==> r == Get(sp, "slides").value.items
  {
    match Get(sp, "slides").GetOr(JArr([]))
    case JArr(items) => items
    case _ => []
  }

  datatype Deck = Deck(accent: Rgb, slides: seq<Slide>)

  /** The slide of each definition, or `None` where drawing it raises. */
  function SlideResults(defs: seq<Json>): (r: seq<Option<Slide>>)
    ensures |r| == |defs| && forall i | 0 <= i < |defs| :: r[i] == SlideOf(defs[i])
  {
    seq(|defs|, i requires 0 <= i < |defs| => SlideOf(defs[i]))
  }

  /** The slides of the definitions, when none of them raises. */
  function AllSlides(defs: seq<Json>): (r: Option<seq<Slide>>)
    ensures r.Some? <==> forall i | 0 <= i < |defs| :: SlideOf(defs[i]).Some?
    ensures r.Some? ==> |r.value| == |defs| && forall i | 0 <= i < |defs| :: SlideOf(defs[i]) == Some(r.value[i])
  {
    AllPresent(SlideResults(defs))
  }

  /** One definition that raises aborts the whole build. */
  lemma AllSlidesStops(defs: seq<Json>, i: nat)
    requires i < |defs| && SlideOf(defs[i]).None?
    ensures AllSlides(defs).None?
  {
  }

  /** The deck a plan produces: one slide per definition, or the single placeholder
      slide when there are none; `None` when any step raises. */
  function DeckOf(plan: seq<(string, Json)>): (r: Option<Deck>)
    ensures r.Some? ==> Some(r.value.accent) == ThemeColors(plan)
    ensures r.Some? ==> |r.value.slides| >= 1
    ensures r.Some? && SlideDefs(SlidePlanOf(plan).value) == [] ==> r.value.slides == [NoContent]
    ensures r.Some? && SlideDefs(SlidePlanOf(plan).value) != [] ==>
      |r.value.slides| == |SlideDefs(SlidePlanOf(plan).value)| &&
      forall i | 0 <= i < |r.value.slides| :: SlideOf(SlideDefs(SlidePlanOf(plan).value)[i]) == Some(r.value.slides[i])
    ensures r.None? && ThemeColors(plan).Some? ==>
      exists i | 0 <= i < |SlideDefs(SlidePlanOf(plan).value)| :: SlideOf(SlideDefs(SlidePlanOf(plan).value)[i]).None?
  {
    match ThemeColors(plan)
    case None => None
    case Some(accent) =>
      var defs := SlideDefs(SlidePlanOf(plan).value);
      if defs == [] then Some(Deck(accent, [NoContent]))
      else
        match AllSlides(defs)
        case None => None
        case Some(slides) => Some(Deck(accent, slides))
  }

  /** Draws a table with `|rows| + 1` rows and `|cols|` columns: the header cells take the
      column names, then each row's cells, cut to the column count, fill its line. Only
      reached when the specification has columns. */
  method AddTable(cols: seq<Json>, rows: seq<seq<Json>>) returns (grid: array2<Json>)
    requires cols != []
    ensures fresh(grid)
    ensures grid.Length0 == |rows| + 1 && grid.Length1 == |cols|
    ensures forall i, j | 0 <= i < grid.Length0 && 0 <= j < grid.Length1 :: grid[i, j] == Grid(cols, rows)[i][j]
  {
    grid := new Json[|rows| + 1, |cols|]((i, j) => JStr(""));
    ghost var g := Grid(cols, rows);
    FillLine(grid, 0, cols);
    for i := 0 to |rows|
      invariant forall a, k | 0 <= a < grid.Length0 && 0 <= k < grid.Length1 ::
        grid[a, k] == (if a <= i then g[a][k] else JStr(""))
    {
      var row := if |rows[i]| <= |cols| then rows[i] else rows[i][..|cols|];
      FillLine(grid, i + 1, row);
    }
  }

  /** Writes `line` into the first cells of row `a`, leaving every other cell as it was. */
  method FillLine(grid: array2<Json>, a: nat, line: seq<Json>)
    requires a < grid.Length0 && |line| <= grid.Length1
    modifies grid
    ensures forall b, k | 0 <= b < grid.Length0 && 0 <= k < grid.Length1 ::
      grid[b, k] == (if b == a && k < |line| then line[k] else old(grid[b, k]))
  {
    for j := 0 to |line|
      invariant forall b, k | 0 <= b < grid.Length0 && 0 <= k < grid.Length1 ::
        grid[b, k] == (if b == a && k < j then line[k] else old(grid[b, k]))
    {
      grid[a, j] := line[j];
    }
  }

  /** Builds the deck for a plan, slide definition by slide definition. */
  method BuildPptx(plan: seq<(string, Json)>) returns (deck: Option<Deck>)
    ensures deck == DeckOf(plan)
  {
    var accent := ThemeColors(plan);
    if accent.None? {
      return None;
    }
    var defs := SlideDefs(SlidePlanOf(plan).value);
    if defs == [] {
      return Some(Deck(accent.value, [NoContent]));
    }
    var slides := BuildSlides(defs);
    if slides.None? {
      return None;
    }
    return Some(Deck(accent.value, slides.value));
  }

  /** Draws the slides one definition at a time, stopping at the first that raises. */
  method BuildSlides(defs: seq<Json>) returns (r: Option<seq<Slide>>)
    ensures r == AllSlides(defs)
  {
    var slides: seq<Slide> := [];
    ghost var results := SlideResults(defs);
    for i := 0 to |defs|
      invariant AllPresent(results[..i]) == Some(slides)
    {
      var s := SlideOf(defs[i]);
      if s.None? {
        AllSlidesStops(defs, i);
        return None;
      }
      AllPresentSnoc(results, i, slides);
      slides := slides + [s.value];
    }
    assert results[..|defs|] == results;
    return Some(slides);
  }
}
