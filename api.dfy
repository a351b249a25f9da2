/**
 * The upload endpoint of the HTTP API (src/api.py:19-62): the extension
 * filter `archivo_permitido` and the choice between the 400, 500 and 200
 * replies of `procesar_archivo`.
 *
 * Flask is not modelled: the request is reduced to the name of its `file`
 * part, if it has one; `secure_filename`, saving the file and removing it are
 * left out, and the name the file is saved under is a parameter. The saved
 * file is a regular file, and the endpoint calls the dispatcher without a
 * progress callback.
 */
module Api {
  import opened Wrappers
  import opened Strings
  import opened Extraction
  import opened Cleaner

  // ---------------------------------------------------------------------------
  // The extension filter (src/api.py:19-23)
  // ---------------------------------------------------------------------------

  /** `ALLOWED_EXTENSIONS`: the suffixes of the extractor table. */
  const AllowedExtensions: set<string> := Extractors.Keys

  /** `archivo_permitido`: the name has a dot, and a dot followed by the
      lower-cased text after its last dot is an allowed extension. */
  predicate AllowedFile(filename: string): (b: bool)
    ensures b ==> LastIndexOf(filename, '.') + 2 < |filename|
  {
    '.' in filename
    && "." + Lower(filename[LastIndexOf(filename, '.') + 1..]) in AllowedExtensions
  }

  /** A name without a dot is refused. */
  lemma NoDotRefused(filename: string)
    requires '.' !in filename
    ensures !AllowedFile(filename)
  {
  }

  /** A name is allowed exactly when the text after its last dot, lower-cased,
      names a supported format, whatever comes before that dot (nothing, as
      in ".pdf", or more dots, as in "a.tar.pdf"). */
  lemma AllowedFileMeans(base: string, ext: string)
    requires '.' !in ext
    ensures AllowedFile(base + "." + ext) <==> "." + Lower(ext) in Extractors
  {
    var s := base + "." + ext;
    LastDot(base, ext);
    assert s[|base|] in s;
    assert s[|base| + 1..] == ext;
  }

  /** Lower-casing leaves the dot alone. */
  lemma LowerDot(ext: string)
    ensures Lower("." + ext) == "." + Lower(ext)
  {
    assert LowerChar('.') == '.';
  }

  /** The filter and the dispatcher agree on every name whose last dot is not
      its first character: the filter lets the name through exactly when the
      dispatcher finds a handler for its suffix. */
  lemma AllowedAgreesWithDispatcher(filename: string)
    requires LastIndexOf(filename, '.') != 0
    ensures AllowedFile(filename) <==> Lower(Suffix(filename)) in Extractors
  {
    var i := LastIndexOf(filename, '.');
    if i < 0 {
      assert forall j | 0 <= j < |filename| :: filename[j] != '.';
      SuffixOfPlain(filename);
    } else {
      var base := filename[..i];
      var ext := filename[i + 1..];
      assert filename == base + "." + ext;
      assert forall j | 0 <= j < |ext| :: ext[j] == filename[i + 1 + j];
      DottedAgrees(base, ext);
    }
  }

  lemma DottedAgrees(base: string, ext: string)
    requires base != [] && '.' !in ext
    ensures AllowedFile(base + "." + ext) <==> Lower(Suffix(base + "." + ext)) in Extractors
  {
    AllowedFileMeans(base, ext);
    SuffixOf(base, ext);
    if ext != [] {
      LowerDot(ext);
    } else {
      assert "." + Lower(ext) == ".";
      assert Lower([]) == [];
    }
  }

  /** A name whose only dot leads it, such as ".pdf", passes the filter when
      what follows the dot is supported, but has no suffix, so the dispatcher
      refuses it. */
  lemma LeadingDotName(filename: string)
    requires LastIndexOf(filename, '.') == 0
    ensures AllowedFile(filename) <==> "." + Lower(filename[1..]) in Extractors
    ensures Suffix(filename) == []
  {
    assert filename[0] in filename;
  }

  // ---------------------------------------------------------------------------
  // The endpoint (src/api.py:25-62)
  // ---------------------------------------------------------------------------

  /** The JSON body of a reply. */
  datatype Body = Failure(error: string) | Processed(fileName: string, text: string)

  datatype Reply = Reply(status: int, body: Body)

  const NoFileMessage: string := "No se ha enviado ning\U{00FA}n archivo"
  const RefusedMessage: string := "Tipo de archivo no permitido o archivo sin nombre"
  const FailurePrefix: string := "Ha ocurrido un error al procesar el archivo: "

  /** The message of the `AttributeError` raised by calling `startswith` on
      `None`. */
  const NoneStartsWithMessage: string := "'NoneType' object has no attribute 'startswith'"

  /** Whether the request names a file and that name passes the filter. */
  predicate Accepted(upload: Option<string>)
  {
    upload.Some? && upload.value != [] && AllowedFile(upload.value)
  }

  /**
   * `procesar_archivo`: `upload` is the file name of the request's `file`
   * part, if there is one, and `savedName` the name the file is saved under.
   * A request without a file, or whose file name is empty or not allowed, is
   * answered 400 before anything is saved; otherwise an extraction that
   * reports an error, or that returns `None` (the `startswith` call then
   * raises), is answered 500, and anything else 200 with the cleaned text.
   */
  function ProcessUpload(upload: Option<string>, savedName: string, lib: Library): (r: Reply)
    ensures r.status == 400 <==> !Accepted(upload)
    ensures r.status == 200 <==> r.body.Processed?
    ensures r.status == 200 || r.status == 400 || r.status == 500
  {
    if upload.None? then Reply(400, Failure(NoFileMessage))
    else if upload.value == [] || !AllowedFile(upload.value) then Reply(400, Failure(RefusedMessage))
    else
      var extracted := ExtractText(true, savedName, false, lib);
      if extracted.None? then Reply(500, Failure(FailurePrefix + NoneStartsWithMessage))
      else if StartsWith(extracted.value, ErrorPrefix) then Reply(500, Failure(FailurePrefix + extracted.value))
      else Reply(200, Processed(savedName, Cleaned(extracted.value)))
  }

  /** A refused request is answered without looking at the file: neither the
      saved name nor what the libraries would do matters. */
  lemma RefusedBeforeSaving(upload: Option<string>, name1: string, name2: string, lib1: Library, lib2: Library)
    requires !Accepted(upload)
    ensures ProcessUpload(upload, name1, lib1) == ProcessUpload(upload, name2, lib2)
    ensures ProcessUpload(upload, name1, lib1).body.error
      == if upload.None? then NoFileMessage else RefusedMessage
  {
  }

  /** The reply is 200 exactly when the request is accepted and the dispatcher
      returns text that does not start with "Error:"; the body then carries
      the saved name and the cleaned text. */
  lemma OkMeans(upload: Option<string>, savedName: string, lib: Library)
    ensures var extracted := ExtractText(true, savedName, false, lib);
      ProcessUpload(upload, savedName, lib).status == 200 <==>
        Accepted(upload) && extracted.Some? && !StartsWith(extracted.value, ErrorPrefix)
    ensures var extracted := ExtractText(true, savedName, false, lib);
      ProcessUpload(upload, savedName, lib).status == 200 ==>
        ProcessUpload(upload, savedName, lib).body == Processed(savedName, Cleaned(extracted.value))
  {
  }

  /** The eleven handlers that return only with a callback make every
      accepted upload of their format fail with the `AttributeError` of
      `None.startswith`, unless their library raised. */
  lemma SilentHandlerFails(upload: Option<string>, savedName: string, lib: Library)
    requires Accepted(upload)
    requires Lower(Suffix(savedName)) in Extractors
    requires Extractors[Lower(Suffix(savedName))] !in {Pdf, Epub}
    requires Loads(Extractors[Lower(Suffix(savedName))], lib)
    ensures ProcessUpload(upload, savedName, lib) == Reply(500, Failure(FailurePrefix + NoneStartsWithMessage))
  {
    ExtractNoneMeans(true, savedName, false, lib);
  }

  /** A PDF or EPUB file whose library does not raise reaches the cleaner,
      unless its text itself starts with "Error:". */
  lemma PdfOrEpubCleaned(upload: Option<string>, savedName: string, lib: Library)
    requires Accepted(upload)
    requires Lower(Suffix(savedName)) in Extractors
    requires Extractors[Lower(Suffix(savedName))] in {Pdf, Epub}
    requires Loads(Extractors[Lower(Suffix(savedName))], lib)
    ensures var extracted := ExtractText(true, savedName, false, lib);
      extracted.Some? &&
      ProcessUpload(upload, savedName, lib).status
        == if StartsWith(extracted.value, ErrorPrefix) then 500 else 200
  {
    ExtractNoneMeans(true, savedName, false, lib);
  }

  /** When a handler raises, the dispatcher's message does not start with
      "Error:", so the endpoint answers 200 and returns the cleaned error
      message as if it were the document's text. */
  lemma HandlerFailureAnsweredOk(upload: Option<string>, savedName: string, lib: Library)
    requires Accepted(upload)
    requires Lower(Suffix(savedName)) in Extractors
    requires !Loads(Extractors[Lower(Suffix(savedName))], lib)
    ensures var r := Handle(Extractors[Lower(Suffix(savedName))], false, lib);
      r.Raised? &&
      ProcessUpload(upload, savedName, lib)
        == Reply(200, Processed(savedName, Cleaned(FailureMessage(savedName, r.message))))
  {
    var r := Handle(Extractors[Lower(Suffix(savedName))], false, lib);
    FailureMessageNotError(savedName, r.message);
  }

  /** A saved name whose suffix has no handler is answered 500 with the
      dispatcher's message, which quotes the suffix as written. */
  lemma UnsupportedSuffixFails(upload: Option<string>, savedName: string, lib: Library)
    requires Accepted(upload)
    requires Lower(Suffix(savedName)) !in Extractors
    ensures ProcessUpload(upload, savedName, lib)
      == Reply(500, Failure(FailurePrefix + UnsupportedMessage(Suffix(savedName))))
  {
    ExtractErrorMeans(true, savedName, false, lib);
  }

  /** "notes." is refused: the text after its last dot is empty, and "." is
      not a supported extension. */
  lemma TrailingDotRefused()
    ensures !AllowedFile("notes.")
  {
    AllowedFileMeans("notes", "");
    assert "notes" + "." + "" == "notes.";
  }
}
