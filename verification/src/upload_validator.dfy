/** The assistant server's check of a file before it is uploaded: present, at most 512 MiB,
    and of a supported type, by MIME type or else by file-name extension. */
module UploadValidator {
  import opened Common
  import opened Strings

  /** The uploaded file's properties; `None` is a property the object lacks. `readThrows`
      stands for an object whose property access throws. */
  datatype UploadFile = UploadFile(size: Option<int>, mimetype: Option<string>, originalname: Option<string>,
                                   name: Option<string>, readThrows: bool)

  datatype Validation = Validation(valid: bool, error: Option<string>)

  const MaxSize := 512 * 1024 * 1024

  const NoFile := "No file provided"
  const TooLargeMessage := "File size must be less than 512MB"
  const Unsupported := "Unsupported file type. Supported types: txt, csv, pdf, json, docx, xlsx, pptx"
  const ValidationError := "File validation error"

  const AllowedTypes: seq<string> := [
    "text/plain",
    "text/csv",
    "application/pdf",
    "application/json",
    "application/vnd.openxmlformats-officedocument.wordprocessingml.document",
    "application/vnd.openxmlformats-officedocument.spreadsheetml.sheet",
    "application/vnd.openxmlformats-officedocument.presentationml.presentation"
  ]

  const AllowedExtensions: seq<string> := ["txt", "csv", "pdf", "json", "docx", "xlsx", "pptx"]

  /** `file.size && file.size > maxSize`: a size that is present, non-zero and too large. */
  predicate TooLarge(f: UploadFile)
  {
    f.size.Some? && f.size.value != 0 && f.size.value > MaxSize
  }

  /** `file.mimetype && allowedTypes.includes(file.mimetype)`. */
  predicate AllowedMime(f: UploadFile)
  {
    f.mimetype.Some? && f.mimetype.value != "" && f.mimetype.value in AllowedTypes
  }

  /** `file.originalname || file.name || ''`: the first non-empty name. */
  function FileName(f: UploadFile): (r: string)
    ensures f.originalname.Some? && f.originalname.value != "" ==> r == f.originalname.value
    ensures !(f.originalname.Some? && f.originalname.value != "") && f.name.Some? && f.name.value != "" ==> r == f.name.value
    ensures !(f.originalname.Some? && f.originalname.value != "") && !(f.name.Some? && f.name.value != "") ==> r == ""
  {
    if f.originalname.Some? && f.originalname.value != "" then f.originalname.value
    else if f.name.Some? && f.name.value != "" then f.name.value
    else ""
  }

  /** `/\.(txt|csv|pdf|json|docx|xlsx|pptx)$/i`: the name ends in a dot and one of the
      extensions, in any mix of upper and lower case. */
  predicate AllowedName(name: string)
  {
    exists ext | ext in AllowedExtensions :: EndsWith(Lower(name), "." + ext)
  }

  /** `validateFile`: a chain of checks, the first that decides wins. */
  function ValidateFile(file: Option<UploadFile>): (r: Validation)
    ensures r.valid <==> file.Some? && !file.value.readThrows && !TooLarge(file.value)
                         && (AllowedMime(file.value) || AllowedName(FileName(file.value)))
    ensures r.valid ==> r.error.None?
    ensures file.None? ==> r.error == Some(NoFile)
    ensures file.Some? && file.value.readThrows ==> r.error == Some(ValidationError)
    ensures file.Some? && !file.value.readThrows && TooLarge(file.value) ==> r.error == Some(TooLargeMessage)
    ensures file.Some? && !file.value.readThrows && !TooLarge(file.value) && !r.valid ==> r.error == Some(Unsupported)
  {
    match file
    case None => Validation(false, Some(NoFile))
    case Some(f) =>
      if f.readThrows then Validation(false, Some(ValidationError))
      else if TooLarge(f) then Validation(false, Some(TooLargeMessage))
      else if AllowedMime(f) then Validation(true, None)
      else
        var fileName := FileName(f);
        if fileName != "" && AllowedName(fileName) then Validation(true, None)
        else Validation(false, Some(Unsupported))
  }

  /** The size limit is checked before the type: an oversized file is refused for its size
      even when its MIME type and name are both allowed. */
  lemma SizeCheckedFirst(f: UploadFile)
    requires !f.readThrows && f.size.Some? && f.size.value > MaxSize
    ensures ValidateFile(Some(f)) == Validation(false, Some(TooLargeMessage))
  {
  }

  /** A name ending in a dot and an allowed extension written in any case is accepted when
      the MIME type is not. */
  lemma ExtensionInAnyCase(base: string, e: string, ext: string, f: UploadFile)
    requires ext in AllowedExtensions && Lower(e) == ext
    requires !f.readThrows && !TooLarge(f) && f.originalname == Some(base + "." + e)
    ensures ValidateFile(Some(f)).valid
  {
    var name := base + "." + e;
    var suffix := "." + ext;
    assert Lower(name)[|name| - |suffix|..] == suffix by {
      forall i | 0 <= i < |suffix| ensures Lower(name)[|name| - |suffix| + i] == suffix[i] {
        if i == 0 {
          assert name[|base|] == '.';
        } else {
          assert name[|base| + 1 + (i - 1)] == e[i - 1];
          assert Lower(e)[i - 1] == LowerChar(e[i - 1]);
        }
      }
    }
    assert EndsWith(Lower(name), suffix);
  }

  /** With no allowed MIME type, a file is accepted by name only when its name has an
      allowed extension. */
  lemma NameDecidesWithoutMime(f: UploadFile)
    requires !f.readThrows && !TooLarge(f) && !AllowedMime(f)
    ensures ValidateFile(Some(f)).valid <==> AllowedName(FileName(f))
  {
  }
}
