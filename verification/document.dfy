/** Text extraction from uploaded documents: the file type is chosen from the MIME type or the
    file name's extension, PDF before DOCX, and a batch turns every failure into an entry with an
    error instead of failing as a whole. The PDF and DOCX parsers are parameters. */
module Document {
  import opened Wrappers
  import Chars

  const PdfMime := "application/pdf"
  const DocxMime := "application/vnd.openxmlformats-officedocument.wordprocessingml.document"

  /** What a parser does with a buffer: text that may be missing, or an error whose message may
      be missing. */
  datatype Parse = Parsed(text: Option<string>) | Raised(message: Option<string>)

  datatype Upload = Upload(filename: string, mimeType: string, buffer: seq<bv8>)

  datatype ExtractedDoc = ExtractedDoc(filename: string, mimeType: string, text: string, error: Option<string>)

  /** `name.lastIndexOf('.')`. */
  function LastDot(name: string): (r: Option<nat>)
    ensures r.Some? ==> r.value < |name| && name[r.value] == '.' && '.' !in name[r.value + 1..]
    ensures r.None? ==> '.' !in name
  {
    if name == [] then None
    else if name[|name| - 1] == '.' then Some(|name| - 1)
    else
      var r := LastDot(name[..|name| - 1]);
      assert name == name[..|name| - 1] + [name[|name| - 1]];
      if r.Some? then
        assert name[r.value + 1..] == name[..|name| - 1][r.value + 1..] + [name[|name| - 1]];
        r
      else r
  }

  /** `getExt`: the lower-cased text after the last dot, empty when there is no dot. */
  function GetExt(name: string): (r: string)
    ensures '.' !in r
    ensures forall k :: 0 <= k < |r| ==> !Chars.IsUpper(r[k])
    ensures '.' !in name ==> r == ""
    ensures '.' in name ==> exists i :: 0 <= i < |name| && name[i] == '.' && '.' !in name[i + 1..] && r == Chars.Lower(name[i + 1..])
  {
    match LastDot(name)
    case Some(i) => LowerNoDot(name[i + 1..]); Chars.Lower(name[i + 1..])
    case None => ""
  }

  /** `split('.').pop()` lower-cased: the text after the last dot, or the whole name when it has
      none. */
  function PopExt(name: string): (r: string)
    ensures '.' !in r
    ensures '.' !in name ==> r == Chars.Lower(name)
  {
    match LastDot(name)
    case Some(i) => LowerNoDot(name[i + 1..]); Chars.Lower(name[i + 1..])
    case None => LowerNoDot(name); Chars.Lower(name)
  }

  lemma LowerNoDot(s: string)
    requires '.' !in s
    ensures '.' !in Chars.Lower(s)
  {
  }

  /** The two ways of reading the extension agree on every name with a dot; on a name without one
      the batch's reading is the whole name: "pdf" is labelled as a PDF though `getExt` gives "". */
  lemma ExtensionReadings(name: string)
    ensures '.' in name ==> PopExt(name) == GetExt(name)
    ensures GetExt("pdf") == "" && PopExt("pdf") == "pdf"
  {
    assert LastDot("pdf") == None by {
      assert "pdf"[2] != '.';
    }
    assert Chars.Lower("pdf") == "pdf";
  }

  /** `data.text || ''`. */
  function TextOr(t: Option<string>): string {
    if t.Some? then t.value else ""
  }

  /** A thrown error's message, "" when it has none. */
  function MessageOr(m: Option<string>): string {
    if m.Some? then m.value else ""
  }

  predicate IsPdf(mimeType: string, filename: string) {
    mimeType == PdfMime || GetExt(filename) == "pdf"
  }

  predicate IsDocx(mimeType: string, filename: string) {
    mimeType == DocxMime || GetExt(filename) == "docx"
  }

  /** `extractTextFromBuffer`: PDF when either the MIME type or the extension says so, else DOCX
      likewise, else an unsupported-type error naming the MIME type, or the extension when the
      MIME type is empty; a parser's error passes through. */
  function ExtractText(u: Upload, pdf: seq<bv8> -> Parse, docx: seq<bv8> -> Parse): (r: Result<ExtractedDoc>)
    ensures r.Ok? ==> r.value.filename == u.filename && r.value.error.None?
    ensures r.Ok? ==> (r.value.mimeType == PdfMime <==> IsPdf(u.mimeType, u.filename))
    ensures r.Ok? ==> (r.value.mimeType == DocxMime <==> !IsPdf(u.mimeType, u.filename))
    ensures r.Ok? ==> IsPdf(u.mimeType, u.filename) || IsDocx(u.mimeType, u.filename)
    ensures IsPdf(u.mimeType, u.filename) ==> (r.Throws? <==> pdf(u.buffer).Raised?)
    ensures !IsPdf(u.mimeType, u.filename) && IsDocx(u.mimeType, u.filename) ==> (r.Throws? <==> docx(u.buffer).Raised?)
    ensures !IsPdf(u.mimeType, u.filename) && !IsDocx(u.mimeType, u.filename) ==>
      r == Throws("Unsupported file type: " + if u.mimeType != "" then u.mimeType else GetExt(u.filename))
  {
    if IsPdf(u.mimeType, u.filename) then
      match pdf(u.buffer)
      case Parsed(t) => Ok(ExtractedDoc(u.filename, PdfMime, TextOr(t), None))
      case Raised(m) => Throws(MessageOr(m))
    else if IsDocx(u.mimeType, u.filename) then
      match docx(u.buffer)
      case Parsed(t) => Ok(ExtractedDoc(u.filename, DocxMime, TextOr(t), None))
      case Raised(m) => Throws(MessageOr(m))
    else
      Throws("Unsupported file type: " + if u.mimeType != "" then u.mimeType else GetExt(u.filename))
  }

  /** One file of `extractMany`: the extracted document, or an entry with no text, a MIME type
      read from the name and the error's message, "Failed to parse" when it has none. */
  function ExtractOne(u: Upload, pdf: seq<bv8> -> Parse, docx: seq<bv8> -> Parse): (d: ExtractedDoc)
    ensures d.filename == u.filename
    ensures d.mimeType == PdfMime || d.mimeType == DocxMime
    ensures d.error.Some? <==> ExtractText(u, pdf, docx).Throws?
    ensures d.error.Some? ==> d.error.value != "" && d.text == "" && (d.mimeType == PdfMime <==> PopExt(u.filename) == "pdf")
  {
    match ExtractText(u, pdf, docx)
    case Ok(doc) => doc
    case Throws(m) =>
      ExtractedDoc(u.filename, if PopExt(u.filename) == "pdf" then PdfMime else DocxMime, "",
                   Some(if m != "" then m else "Failed to parse"))
  }

  /** `extractMany`: one entry per file, in order, none of them lost to an error. */
  method ExtractMany(files: seq<Upload>, pdf: seq<bv8> -> Parse, docx: seq<bv8> -> Parse) returns (results: seq<ExtractedDoc>)
    ensures |results| == |files|
    ensures forall i :: 0 <= i < |files| ==> results[i] == ExtractOne(files[i], pdf, docx)
  {
    results := [];
    for i := 0 to |files|
      invariant |results| == i
      invariant forall k :: 0 <= k < i ==> results[k] == ExtractOne(files[k], pdf, docx)
    {
      var f := files[i];
      var r := ExtractText(f, pdf, docx);
      var d;
      if r.Ok? {
        d := r.value;
      } else {
        var ext := PopExt(f.filename);
        var mime := if ext == "pdf" then PdfMime else DocxMime;
        d := ExtractedDoc(f.filename, mime, "", Some(if r.message != "" then r.message else "Failed to parse"));
      }
      assert d == ExtractOne(f, pdf, docx);
      results := results + [d];
    }
  }

  /** A file of an unsupported type is reported, not dropped: its entry carries the
      unsupported-type message. */
  lemma UnsupportedReported(u: Upload, pdf: seq<bv8> -> Parse, docx: seq<bv8> -> Parse)
    requires !IsPdf(u.mimeType, u.filename) && !IsDocx(u.mimeType, u.filename)
    ensures ExtractOne(u, pdf, docx).error == Some("Unsupported file type: " + if u.mimeType != "" then u.mimeType else GetExt(u.filename))
  {
    var m := "Unsupported file type: " + if u.mimeType != "" then u.mimeType else GetExt(u.filename);
    assert m[0] == 'U';
  }

  /** PDF wins over DOCX: a file sent as DOCX but named `.pdf` goes to the PDF parser. */
  lemma PdfFirst(u: Upload, pdf: seq<bv8> -> Parse, docx: seq<bv8> -> Parse)
    requires u.mimeType == DocxMime && GetExt(u.filename) == "pdf" && pdf(u.buffer).Parsed?
    ensures ExtractText(u, pdf, docx) == Ok(ExtractedDoc(u.filename, PdfMime, TextOr(pdf(u.buffer).text), None))
  {
  }
}
