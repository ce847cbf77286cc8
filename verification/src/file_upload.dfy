/** The upload endpoint of the backend (backend/app/api/endpoints/file_upload.py): the
    extension allow-list, keyword extraction from the uploaded text, and the response of
    `POST /upload`. The file's bytes, its UTF-8 decoding, the generated file id and
    Python's classification of non-ASCII characters as alphanumeric are parameters;
    writing the file to disk is not modelled. */
module FileUpload {
  import opened Common
  import opened Strings
  import opened Seqs

  // ---------------------------------------------------------------- extensions

  /** The index of the last `c` in `s`, or -1 when there is none. */
  function LastIndex(s: string, c: char): (r: int)
    ensures -1 <= r < |s|
    ensures r >= 0 ==> s[r] == c
    ensures forall k | r < k < |s| :: s[k] != c
  {
    if s == [] then -1 else if s[|s| - 1] == c then |s| - 1 else LastIndex(s[..|s| - 1], c)
  }

  /** `os.path.splitext(p)[1]`: from the last dot of the last path component, unless
      only dots precede that dot in the component (".bashrc" and "..pdf" have none). */
  function Extension(p: string): (r: string)
    ensures r == [] || (r[0] == '.' && EndsWith(p, r))
    ensures forall k | 1 <= k < |r| :: r[k] != '.' && r[k] != '/'
    ensures r != [] <==>
      var sep, dot := LastIndex(p, '/'), LastIndex(p, '.');
      dot > sep && exists k | sep + 1 <= k < dot :: p[k] != '.'
  {
    var sep, dot := LastIndex(p, '/'), LastIndex(p, '.');
    if dot > sep && exists k | sep + 1 <= k < dot :: p[k] != '.' then p[dot..] else ""
  }

  /** `get_file_extension`: the extension, lower-cased. */
  function FileExtension(filename: string): (r: string)
    ensures |r| == |Extension(filename)|
    ensures r == Lower(Extension(filename))
  {
    Lower(Extension(filename))
  }

  const AllowedExtensions: set<string> :=
    {".pdf", ".doc", ".docx", ".txt", ".csv", ".xlsx", ".xls", ".ppt", ".pptx", ".rtf", ".odt", ".ods", ".odp"}

  /** `is_allowed_file`. */
  predicate IsAllowedFile(filename: string)
  {
    FileExtension(filename) in AllowedExtensions
  }

  lemma {:induction false} LastIndexLower(s: string, c: char)
    requires !IsAsciiLetter(c)
    ensures LastIndex(Lower(s), c) == LastIndex(s, c)
  {
    if s != [] {
      var init := s[..|s| - 1];
      assert Lower(s)[..|s| - 1] == Lower(init);
      assert Lower(s)[|s| - 1] == LowerChar(s[|s| - 1]);
      LastIndexLower(init, c);
    }
  }

  /** Lower-casing a name lower-cases its extension and moves nothing. */
  lemma ExtensionOfLower(p: string)
    ensures Extension(Lower(p)) == Lower(Extension(p))
  {
    LastIndexLower(p, '/');
    LastIndexLower(p, '.');
    var sep, dot := LastIndex(p, '/'), LastIndex(p, '.');
    if dot > sep {
      NonDotLower(p, sep + 1, dot);
      LowerSuffix(p, dot);
    }
  }

  /** A character other than a dot stays one when lower-cased, and conversely. */
  lemma NonDotLower(p: string, lo: nat, hi: nat)
    requires lo <= hi <= |p|
    ensures (exists k | lo <= k < hi :: Lower(p)[k] != '.') <==> (exists k | lo <= k < hi :: p[k] != '.')
  {
    assert forall k | lo <= k < hi :: (Lower(p)[k] != '.' <==> p[k] != '.');
  }

  lemma LowerSuffix(p: string, i: nat)
    requires i <= |p|
    ensures Lower(p)[i..] == Lower(p[i..])
  {
  }

  lemma LowerTwice(s: string)
    ensures Lower(Lower(s)) == Lower(s)
  {
  }

  /** Whether a file is allowed does not depend on the case of its name, and an allowed
      name ends in its allowed extension once lower-cased. */
  lemma AllowedIgnoresCase(filename: string)
    ensures IsAllowedFile(Lower(filename)) == IsAllowedFile(filename)
    ensures IsAllowedFile(filename) ==> EndsWith(Lower(filename), FileExtension(filename))
  {
    ExtensionOfLower(filename);
    LowerTwice(Extension(filename));
    var e := Extension(filename);
    if e != [] {
      assert Lower(filename)[|filename| - |e|..] == Lower(e);
    }
  }

  // ---------------------------------------------------------------- keywords

  const StopWords: set<string> := {
    "the", "a", "an", "and", "or", "but", "in", "on", "at", "to", "for",
    "of", "with", "by", "is", "are", "was", "were", "be", "been", "being",
    "have", "has", "had", "do", "does", "did", "will", "would", "could",
    "should", "may", "might", "must", "can", "this", "that", "these", "those"}

  /** A character of the regular expression class `\w` on text: ASCII letters, digits and
      `_` exactly; a character outside ASCII when `isAlnum` says so. `isAlnum` is Python's
      Unicode character database (`str.isalnum`), which the model takes as given. */
  predicate IsWordChar(c: char, isAlnum: char -> bool)
  {
    IsAsciiLetter(c) || IsDigit(c) || c == '_' || (c as int >= 0x80 && isAlnum(c))
  }

  /** The end of the run of word characters that starts at `i`. */
  function RunEnd(t: string, i: nat, isAlnum: char -> bool): (j: nat)
    requires i <= |t|
    ensures i <= j <= |t|
    ensures forall k | i <= k < j :: IsWordChar(t[k], isAlnum)
    ensures j < |t| ==> !IsWordChar(t[j], isAlnum)
    decreases |t| - i
  {
    if i < |t| && IsWordChar(t[i], isAlnum) then RunEnd(t, i + 1, isAlnum) else i
  }

  /** `w` stands in `t` at `k` between word boundaries. */
  predicate BoundedAt(t: string, w: string, k: int, isAlnum: char -> bool)
  {
    OccursAt(t, w, k) && (k == 0 || !IsWordChar(t[k - 1], isAlnum)) && (k + |w| == |t| || !IsWordChar(t[k + |w|], isAlnum))
  }

  predicate AllLetters(w: string)
  {
    forall k | 0 <= k < |w| :: IsAsciiLetter(w[k])
  }

  /** `re.findall(r'\b[a-zA-Z]{3,}\b', t)` from position `i`: the maximal runs of word
      characters that are made of at least three ASCII letters, in order. */
  function MatchesFrom(t: string, i: nat, isAlnum: char -> bool): (r: seq<string>)
    requires i <= |t|
    requires i == 0 || i == |t| || !IsWordChar(t[i - 1], isAlnum) || !IsWordChar(t[i], isAlnum)
    ensures forall w | w in r :: |w| >= 3 && AllLetters(w) && exists k | i <= k <= |t| :: BoundedAt(t, w, k, isAlnum)
    decreases |t| - i
  {
    if i == |t| then []
    else if !IsWordChar(t[i], isAlnum) then MatchesFrom(t, i + 1, isAlnum)
    else
      var j := RunEnd(t, i, isAlnum);
      var run := t[i..j];
      var rest := MatchesFrom(t, j, isAlnum);
      if |run| >= 3 && AllLetters(run) then
        RunIsBounded(t, i, isAlnum);
        [run] + rest
      else rest
  }

  /** The run that starts at a word boundary stands between word boundaries. */
  lemma RunIsBounded(t: string, i: nat, isAlnum: char -> bool)
    requires i < |t| && (i == 0 || !IsWordChar(t[i - 1], isAlnum))
    ensures BoundedAt(t, t[i..RunEnd(t, i, isAlnum)], i, isAlnum)
  {
    var j := RunEnd(t, i, isAlnum);
    assert t[i..i + |t[i..j]|] == t[i..j];
  }

  /** A run of word characters that ends at a non-word character (or the end) ends the
      run that `RunEnd` finds. */
  lemma {:induction false} RunEndOfBoundedRun(t: string, i: nat, n: nat, isAlnum: char -> bool)
    requires i + n <= |t|
    requires forall m | i <= m < i + n :: IsWordChar(t[m], isAlnum)
    requires i + n == |t| || !IsWordChar(t[i + n], isAlnum)
    ensures RunEnd(t, i, isAlnum) == i + n
    decreases n
  {
    if n > 0 {
      RunEndOfBoundedRun(t, i + 1, n - 1, isAlnum);
    }
  }

  /** `findall` misses nothing: every word of at least three ASCII letters that stands
      between word boundaries at or after `i` is among the matches. */
  lemma {:induction false} MatchesComplete(t: string, i: nat, isAlnum: char -> bool, w: string, k: int)
    requires i <= |t|
    requires i == 0 || i == |t| || !IsWordChar(t[i - 1], isAlnum) || !IsWordChar(t[i], isAlnum)
    requires i <= k && BoundedAt(t, w, k, isAlnum) && |w| >= 3 && AllLetters(w)
    ensures w in MatchesFrom(t, i, isAlnum)
    decreases |t| - i
  {
    assert t[k] == w[0];
    if !IsWordChar(t[i], isAlnum) {
      MatchesComplete(t, i + 1, isAlnum, w, k);
    } else {
      var j := RunEnd(t, i, isAlnum);
      if k == i {
        forall m | i <= m < i + |w| ensures IsWordChar(t[m], isAlnum) {
          assert t[m] == w[m - i];
        }
        RunEndOfBoundedRun(t, i, |w|, isAlnum);
        assert t[i..j] == w;
      } else if k < j {
        assert false;
      } else {
        MatchesComplete(t, j, isAlnum, w, k);
      }
    }
  }

  predicate NotStopWord(w: string)
  {
    w !in StopWords
  }

  /** The matches in lower-cased text are lower-case. */
  lemma MatchesLowercase(text: string, isAlnum: char -> bool)
    ensures forall w | w in MatchesFrom(Lower(text), 0, isAlnum) :: forall k | 0 <= k < |w| :: 'a' <= w[k] <= 'z'
  {
    var low := Lower(text);
    forall w | w in MatchesFrom(low, 0, isAlnum) ensures forall k | 0 <= k < |w| :: 'a' <= w[k] <= 'z' {
      var p :| 0 <= p <= |low| && BoundedAt(low, w, p, isAlnum);
      LettersOfLowerAreLower(text, w, p);
    }
  }

  /** Letters found in lower-cased text are lower-case letters. */
  lemma LettersOfLowerAreLower(text: string, w: string, p: int)
    requires OccursAt(Lower(text), w, p) && AllLetters(w)
    ensures forall k | 0 <= k < |w| :: 'a' <= w[k] <= 'z'
  {
    forall k | 0 <= k < |w| ensures 'a' <= w[k] <= 'z' {
      assert w[k] == Lower(text)[p + k];
    }
  }

  /** The first twenty elements of `s`, all of them when there are fewer. */
  function FirstTwenty<T(==)>(s: seq<T>): (r: seq<T>)
    ensures |r| <= 20 && r <= s
    ensures |s| <= 20 ==> r == s
    ensures Distinct(s) ==> Distinct(r)
  {
    if |s| <= 20 then s else s[..20]
  }

  /** `extract_keywords_from_text`: the matches in the lower-cased text that are not stop
      words, each once, at most twenty. Python's `set` has no defined order; the model
      keeps first occurrences in text order. */
  function ExtractKeywords(text: string, isAlnum: char -> bool): (r: seq<string>)
    ensures |r| <= 20 && Distinct(r)
  {
    var low := Lower(text);
    var matches := MatchesFrom(low, 0, isAlnum);
    var unique := KeepFirst(Filter(NotStopWord, matches));
    assert Distinct(unique);
    FirstTwenty(unique)
  }

  /** Every keyword is a lower-case word of at least three letters that is not a stop
      word and stands between word boundaries in the lower-cased text; when there are at
      most twenty distinct such words, every one of them is a keyword. */
  lemma KeywordsSound(text: string, isAlnum: char -> bool)
    ensures forall w | w in ExtractKeywords(text, isAlnum) ::
      NotStopWord(w) && |w| >= 3 && (forall k | 0 <= k < |w| :: 'a' <= w[k] <= 'z') &&
      exists k | 0 <= k <= |text| :: BoundedAt(Lower(text), w, k, isAlnum)
    ensures var kept := Filter(NotStopWord, MatchesFrom(Lower(text), 0, isAlnum));
      |KeepFirst(kept)| <= 20 ==> forall w | w in kept :: w in ExtractKeywords(text, isAlnum)
    ensures var kept := Filter(NotStopWord, MatchesFrom(Lower(text), 0, isAlnum));
      |KeepFirst(kept)| <= 20 ==>
        forall w, k | BoundedAt(Lower(text), w, k, isAlnum) && |w| >= 3 && AllLetters(w) && NotStopWord(w) ::
          w in ExtractKeywords(text, isAlnum)
  {
    forall w, k | BoundedAt(Lower(text), w, k, isAlnum) && |w| >= 3 && AllLetters(w)
      ensures w in MatchesFrom(Lower(text), 0, isAlnum)
    {
      MatchesComplete(Lower(text), 0, isAlnum, w, k);
    }
    var matches := MatchesFrom(Lower(text), 0, isAlnum);
    MatchesLowercase(text, isAlnum);
    var unique := KeepFirst(Filter(NotStopWord, matches));
    UniqueWords(matches);
    var r := ExtractKeywords(text, isAlnum);
    assert r == FirstTwenty(unique);
    forall w | w in r ensures w in matches && NotStopWord(w) {
      assert w in unique;
    }
  }

  /** A word in typographic quotes is found: the quotes are not word characters, so they
      bound it. */
  lemma QuotedWordFound(isAlnum: char -> bool)
    requires !isAlnum('\U{201C}') && !isAlnum('\U{201D}')
    ensures ExtractKeywords("\U{201C}quantum\U{201D}", isAlnum) == ["quantum"]
  {
    var t := "\U{201C}quantum\U{201D}";
    QuotedLower();
    QuotedMatches(isAlnum);
    QuantumKept();
    assert ExtractKeywords(t, isAlnum) == FirstTwenty(KeepFirst(Filter(NotStopWord, ["quantum"])));
  }

  lemma QuantumKept()
    ensures KeepFirst(Filter(NotStopWord, ["quantum"])) == ["quantum"]
  {
    assert "quantum" !in StopWords by {
      assert forall w | w in StopWords :: |w| != 7 || w[0] != 'q';
    }
    assert Filter(NotStopWord, ["quantum"]) == ["quantum"];
    var r := KeepFirst(["quantum"]);
    assert "quantum" in r;
    assert |r| <= 1;
  }

  lemma QuotedLower()
    ensures Lower("\U{201C}quantum\U{201D}") == "\U{201C}quantum\U{201D}"
  {
  }

  lemma QuotedMatches(isAlnum: char -> bool)
    requires !isAlnum('\U{201C}') && !isAlnum('\U{201D}')
    ensures MatchesFrom("\U{201C}quantum\U{201D}", 0, isAlnum) == ["quantum"]
  {
    var t := "\U{201C}quantum\U{201D}";
    assert RunEnd(t, 8, isAlnum) == 8;
    assert RunEnd(t, 7, isAlnum) == 8;
    assert RunEnd(t, 6, isAlnum) == 8;
    assert RunEnd(t, 5, isAlnum) == 8;
    assert RunEnd(t, 4, isAlnum) == 8;
    assert RunEnd(t, 3, isAlnum) == 8;
    assert RunEnd(t, 2, isAlnum) == 8;
    assert RunEnd(t, 1, isAlnum) == 8;
    assert t[1..8] == "quantum";
    assert MatchesFrom(t, 9, isAlnum) == [];
    assert MatchesFrom(t, 8, isAlnum) == [];
    assert MatchesFrom(t, 1, isAlnum) == ["quantum"];
  }

  /** The distinct non-stop words are exactly the matches that are not stop words. */
  lemma UniqueWords(matches: seq<string>)
    ensures forall w :: w in KeepFirst(Filter(NotStopWord, matches)) <==> w in matches && NotStopWord(w)
  {
  }

  // ---------------------------------------------------------------- the upload

  /** The preview: the first 500 characters and "..." when the text is longer. */
  function Preview(text: string): (r: string)
    ensures |text| <= 500 ==> r == text
    ensures |text| > 500 ==> |r| == 503 && r[..500] == text[..500] && r[500..] == "..."
    ensures text != [] ==> r != [] && r[0] == text[0]
  {
    if |text| > 500 then text[..500] + "..." else text
  }

  /** A bracketed notice that stands in for text that was not extracted. */
  function Notice(s: string): (r: string)
    ensures r != [] && r[0] == '['
  {
    "[" + s + "]"
  }

  /** The text read from an uploaded file with extension `ext`; `decoded` is the file
      read as UTF-8, `None` when it is not valid UTF-8. A ".txt" file that does not
      decode raises (`None`); other kinds fall back to a bracketed notice. */
  function TextContent(filename: string, ext: string, decoded: Option<string>): (r: Option<string>)
    ensures ext == ".txt" ==> r == decoded
    ensures ext != ".txt" ==> r.Some?
    ensures ext == ".pdf" || ext == ".csv" || ext == ".xlsx" || ext == ".xls" ==> r.value != [] && r.value[0] == '['
    ensures ext !in [".txt", ".pdf", ".csv", ".xlsx", ".xls"] ==>
      r == if decoded.Some? then decoded else Some(Notice("Content extraction not implemented for " + ext + " files"))
  {
    if ext == ".txt" then decoded
    else if ext == ".pdf" then Some(Notice("PDF content extraction not implemented yet for " + filename))
    else if ext in [".csv", ".xlsx", ".xls"] then Some(Notice("CSV/Excel content extraction not implemented yet for " + filename))
    else if decoded.Some? then decoded
    else Some(Notice("Content extraction not implemented for " + ext + " files"))
  }

  /** Keywords are extracted only from text that is there and is not a bracketed notice. */
  function KeywordsOfText(text: string, isAlnum: char -> bool): (r: seq<string>)
    ensures text == "" || text[0] == '[' ==> r == []
    ensures text != "" && text[0] != '[' ==> r == ExtractKeywords(text, isAlnum)
  {
    if text != "" && text[0] != '[' then ExtractKeywords(text, isAlnum) else []
  }

  /** The reply of an accepted upload; `storedName` is the name the file is saved under
      in the upload directory. */
  datatype UploadReply = UploadReply(
    fileId: string, storedName: string, filename: string, fileType: string, fileSize: nat,
    keywords: seq<string>, preview: string, message: string)

  /** The allowed types as the error message lists them (a set, so in no fixed order;
      the model lists them as declared). */
  const AllowedList := ".pdf, .doc, .docx, .txt, .csv, .xlsx, .xls, .ppt, .pptx, .rtf, .odt, .ods, .odp"

  /** The reply of an accepted upload. */
  function Accepted(filename: string, size: nat, decoded: Option<string>, fileId: string, isAlnum: char -> bool): (r: Result<UploadReply, HttpError>)
    ensures r.Err? <==> TextContent(filename, FileExtension(filename), decoded).None?
    ensures r.Ok? ==>
      var text := TextContent(filename, FileExtension(filename), decoded).value;
      && r.value.fileType == FileExtension(filename) && r.value.fileId == fileId
      && r.value.storedName == fileId + r.value.fileType && r.value.fileSize == size
      && r.value.keywords == KeywordsOfText(text, isAlnum) && r.value.preview == Preview(text)
  {
    var ext := FileExtension(filename);
    match TextContent(filename, ext, decoded)
    case None => Err(HttpError(500, "Error processing file"))
    case Some(text) =>
      var keywords := KeywordsOfText(text, isAlnum);
      Ok(UploadReply(fileId, fileId + ext, filename, ext, size, keywords, Preview(text),
                     "File uploaded successfully. Extracted " + NatToString(|keywords|) + " keywords."))
  }

  /** `POST /upload` as written: the refusal of a disallowed type is raised inside the
      `try`, whose handler turns every exception, this one included, into a 500. */
  function UploadAsWritten(filename: string, size: nat, decoded: Option<string>, fileId: string, isAlnum: char -> bool): (r: Result<UploadReply, HttpError>)
    ensures !IsAllowedFile(filename) ==>
      r == Err(HttpError(500, "Error processing file: 400: File type not allowed. Allowed types: " + AllowedList))
    ensures IsAllowedFile(filename) ==> r == Accepted(filename, size, decoded, fileId, isAlnum)
  {
    if !IsAllowedFile(filename) then
      Err(HttpError(500, "Error processing file: 400: File type not allowed. Allowed types: " + AllowedList))
    else Accepted(filename, size, decoded, fileId, isAlnum)
  }

  /** `POST /upload` as intended: a disallowed type is refused with 400; an accepted file
      is stored under its id and extension and described by its type, size, keywords and
      preview. */
  function Upload(filename: string, size: nat, decoded: Option<string>, fileId: string, isAlnum: char -> bool): (r: Result<UploadReply, HttpError>)
    ensures !IsAllowedFile(filename) ==> r == Err(HttpError(400, "File type not allowed. Allowed types: " + AllowedList))
    ensures r.Ok? ==>
      IsAllowedFile(filename) && r.value.fileType == FileExtension(filename) && r.value.fileType in AllowedExtensions &&
      r.value.fileId == fileId && r.value.storedName == fileId + r.value.fileType && r.value.fileSize == size &&
      |r.value.keywords| <= 20 && |r.value.preview| <= 503
    ensures r.Ok? && FileExtension(filename) == ".txt" ==>
      decoded.Some? && r.value.keywords == KeywordsOfText(decoded.value, isAlnum) && r.value.preview == Preview(decoded.value)
    ensures r.Err? && IsAllowedFile(filename) ==> FileExtension(filename) == ".txt" && decoded.None?
    ensures r.Ok? ==>
      var text := TextContent(filename, FileExtension(filename), decoded).value;
      r.value.keywords == KeywordsOfText(text, isAlnum) && r.value.preview == Preview(text)
    ensures r.Ok? && (var ext := FileExtension(filename); ext == ".pdf" || ext == ".csv" || ext == ".xlsx" || ext == ".xls") ==>
      r.value.keywords == [] && r.value.preview != [] && r.value.preview[0] == '['
    ensures IsAllowedFile(filename) && FileExtension(filename) != ".txt" ==> r.Ok?
    ensures IsAllowedFile(filename) && FileExtension(filename) !in [".txt", ".pdf", ".csv", ".xlsx", ".xls"] && decoded.Some? ==>
      r.Ok? && r.value.keywords == KeywordsOfText(decoded.value, isAlnum) && r.value.preview == Preview(decoded.value)
  {
    if !IsAllowedFile(filename) then Err(HttpError(400, "File type not allowed. Allowed types: " + AllowedList))
    else Accepted(filename, size, decoded, fileId, isAlnum)
  }

  /** A shell script's extension is ".sh". */
  lemma ShellScriptExtension()
    ensures FileExtension("run.sh") == ".sh"
  {
    var p := "run.sh";
    assert forall k | 0 <= k < |p| :: p[k] != '/';
    assert LastIndex(p, '/') == -1;
    assert p[3] == '.' && p[4] != '.' && p[5] != '.';
    assert LastIndex(p, '.') == 3;
    assert p[0] != '.';
    assert Extension(p) == ".sh";
  }

  /** The discrepancy: "run.sh" is refused with 500 as written, with 400 as intended. */
  lemma DisallowedTypeIs500(isAlnum: char -> bool)
    ensures UploadAsWritten("run.sh", 0, None, "id", isAlnum).Err?
    ensures UploadAsWritten("run.sh", 0, None, "id", isAlnum).error.code == 500
    ensures Upload("run.sh", 0, None, "id", isAlnum).error.code == 400
  {
    ShellScriptExtension();
    assert ".sh" !in AllowedExtensions;
  }
}
