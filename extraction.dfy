/**
 * Text extraction (src/parser_core.py:84-174): the `EXTRACTORES` table that
 * maps a lower-cased file suffix to one of thirteen handlers, the dispatcher
 * `extraer_texto`, and the handlers themselves.
 *
 * The libraries each handler calls (pdfplumber, python-docx, BeautifulSoup,
 * python-pptx, openpyxl, odfpy, striprtf, ebooklib, markdown, json, csv) are
 * not modelled: a `Library` value records, for the file at hand, what each of
 * them hands back, or the message of the exception it raises. What the
 * handlers do with those results (joining pages, paragraphs, shapes, cells and
 * rows, and returning only when a progress callback is given) is modelled as
 * written.
 */
module Extraction {
  import opened Wrappers
  import opened Seqs
  import opened Strings

  // ---------------------------------------------------------------------------
  // The table (src/parser_core.py:84-90)
  // ---------------------------------------------------------------------------

  /** The thirteen supported formats, one per handler. */
  datatype Format = Pdf | Docx | Txt | Html | Xml | Pptx | Xlsx | Odt | Rtf | Epub | Md | Json | Csv

  /** `EXTRACTORES`: lower-case suffix to handler. */
  const Extractors: map<string, Format> := map[
    ".pdf" := Pdf, ".docx" := Docx, ".txt" := Txt,
    ".html" := Html, ".xml" := Xml, ".pptx" := Pptx,
    ".xlsx" := Xlsx, ".odt" := Odt, ".rtf" := Rtf,
    ".epub" := Epub, ".md" := Md, ".json" := Json,
    ".csv" := Csv
  ]

  /** The suffix each format is registered under. */
  function Key(f: Format): string
  {
    match f
    case Pdf => ".pdf"
    case Docx => ".docx"
    case Txt => ".txt"
    case Html => ".html"
    case Xml => ".xml"
    case Pptx => ".pptx"
    case Xlsx => ".xlsx"
    case Odt => ".odt"
    case Rtf => ".rtf"
    case Epub => ".epub"
    case Md => ".md"
    case Json => ".json"
    case Csv => ".csv"
  }

  /** Every format is in the table, under its key. */
  lemma ExtractorsCoverFormats()
    ensures forall f: Format :: Key(f) in Extractors && Extractors[Key(f)] == f
  {
  }

  /** Every entry of the table is some format's key: the table and `Key` are
      inverse, so there are thirteen distinct entries. */
  lemma ExtractorsKeyed()
    ensures forall k | k in Extractors :: k == Key(Extractors[k])
  {
  }

  // ---------------------------------------------------------------------------
  // File names
  // ---------------------------------------------------------------------------

  /** `Path.suffix` of a file name: from its last dot on, provided that dot is
      neither the first nor the last character; otherwise empty. */
  function Suffix(name: string): (r: string)
    ensures r == [] || (2 <= |r| < |name| && r == name[|name| - |r|..])
    ensures r != [] ==> r[0] == '.' && '.' !in r[1..]
  {
    var i := LastIndexOf(name, '.');
    if 0 < i < |name| - 1 then name[i..] else []
  }

  /** The last dot of `base + "." + ext`, when `ext` has none, is the one
      between them. */
  lemma {:induction false} LastDot(base: string, ext: string)
    requires '.' !in ext
    ensures LastIndexOf(base + "." + ext, '.') == |base|
  {
    var s := base + "." + ext;
    if ext != [] {
      var init := ext[..|ext| - 1];
      assert ext[|ext| - 1] in ext;
      assert s[..|s| - 1] == base + "." + init;
      assert forall c | c in init :: c in ext;
      LastDot(base, init);
    }
  }

  /** The suffix is the text from the last dot on, unless the dot leads the
      name or ends it. */
  lemma SuffixOf(base: string, ext: string)
    requires '.' !in ext
    ensures Suffix(base + "." + ext) == if base != [] && ext != [] then "." + ext else []
  {
    LastDot(base, ext);
    var s := base + "." + ext;
    if base != [] && ext != [] {
      assert s[|base|..] == "." + ext;
    }
  }

  /** A name without a dot has no suffix. */
  lemma SuffixOfPlain(name: string)
    requires '.' !in name
    ensures Suffix(name) == []
  {
    assert forall j | 0 <= j < |name| :: name[j] in name;
  }

  // ---------------------------------------------------------------------------
  // What the libraries hand back
  // ---------------------------------------------------------------------------

  /** A library call either returns a value or raises an exception whose
      string form is `message`. */
  datatype Outcome<T> = Returned(value: T) | Raised(message: string)

  /** A cell value as `str(cell.value)`, or `None` for an empty cell. */
  type Cell = Option<string>

  /**
   * For one file, what every library would give the handler that calls it:
   * the text of each PDF page (`None` where `extract_text` finds none), the
   * DOCX and ODT paragraph texts, the file read as text (TXT), the text
   * BeautifulSoup extracts (HTML, XML, Markdown), the `text` of each shape of
   * each slide (`None` for a shape without one), the cells of each row of each
   * worksheet, the RTF converter's output, the text of each EPUB document, the
   * re-serialised JSON and the CSV reader's rows.
   */
  datatype Library = Library(
    pdfPages: Outcome<seq<Option<string>>>,
    docxParagraphs: Outcome<seq<string>>,
    txtContent: Outcome<string>,
    htmlText: Outcome<string>,
    xmlText: Outcome<string>,
    pptxSlides: Outcome<seq<seq<Option<string>>>>,
    xlsxSheets: Outcome<seq<seq<seq<Cell>>>>,
    odtParagraphs: Outcome<seq<string>>,
    rtfText: Outcome<string>,
    epubItems: Outcome<seq<string>>,
    mdText: Outcome<string>,
    jsonText: Outcome<string>,
    csvRows: Outcome<seq<seq<string>>>)

  /** Whether the library behind `f` returned for this file rather than raised. */
  predicate Loads(f: Format, lib: Library)
  {
    match f
    case Pdf => lib.pdfPages.Returned?
    case Docx => lib.docxParagraphs.Returned?
    case Txt => lib.txtContent.Returned?
    case Html => lib.htmlText.Returned?
    case Xml => lib.xmlText.Returned?
    case Pptx => lib.pptxSlides.Returned?
    case Xlsx => lib.xlsxSheets.Returned?
    case Odt => lib.odtParagraphs.Returned?
    case Rtf => lib.rtfText.Returned?
    case Epub => lib.epubItems.Returned?
    case Md => lib.mdText.Returned?
    case Json => lib.jsonText.Returned?
    case Csv => lib.csvRows.Returned?
  }

  // ---------------------------------------------------------------------------
  // The texts the handlers build (src/parser_core.py:110-174)
  // ---------------------------------------------------------------------------

  /** `x or ""`. */
  function OrEmpty(x: Option<string>): string
  {
    if x.Some? then x.value else []
  }

  function NewlineJoin(ss: seq<string>): string
  {
    Join(ss, '\n')
  }

  /** PDF: the pages' texts, a page without text counting as empty, one per
      line. */
  function PdfText(pages: seq<Option<string>>): string
  {
    Join(Map(OrEmpty, pages), '\n')
  }

  /** PPTX: the texts of the shapes that have one, slide after slide. */
  function PptxText(slides: seq<seq<Option<string>>>): string
  {
    Join(Present(Flatten(slides)), '\n')
  }

  /** XLSX, one row: its non-empty cells joined by spaces. */
  function RowLine(cells: seq<Cell>): string
  {
    Join(Present(cells), ' ')
  }

  /** XLSX: one line per row, worksheet after worksheet. */
  function XlsxText(sheets: seq<seq<seq<Cell>>>): string
  {
    Join(Map(RowLine, Flatten(sheets)), '\n')
  }

  /** CSV, one row: its fields joined by tabs. */
  function TabJoin(row: seq<string>): string
  {
    Join(row, '\t')
  }

  /** CSV: one line per row. */
  function CsvText(rows: seq<seq<string>>): string
  {
    Join(Map(TabJoin, rows), '\n')
  }

  /** A handler that returns its text whether or not there is a callback
      (PDF, EPUB). */
  function Always<T>(loaded: Outcome<T>, render: T -> string): Outcome<Option<string>>
  {
    match loaded
    case Raised(m) => Raised(m)
    case Returned(v) => Returned(Some(render(v)))
  }

  /** A handler ending in `if cb: cb(100); return texto`: the `return` is part
      of the `if`, so without a callback the handler falls off its end and
      returns `None`. */
  function OnlyWithCallback<T>(loaded: Outcome<T>, render: T -> string, hasCb: bool): Outcome<Option<string>>
  {
    match loaded
    case Raised(m) => Raised(m)
    case Returned(v) => Returned(if hasCb then Some(render(v)) else None)
  }

  /** The handler for `f`, run on this file: its return value, or the message
      of the exception it lets through. It returns `None` exactly when it is
      one of the eleven handlers other than PDF and EPUB, no callback is given
      and its library did not raise. */
  function Handle(f: Format, hasCb: bool, lib: Library): (r: Outcome<Option<string>>)
    ensures r.Raised? <==> !Loads(f, lib)
    ensures r == Returned(None) <==> f != Pdf && f != Epub && !hasCb && Loads(f, lib)
  {
    match f
    case Pdf => Always(lib.pdfPages, PdfText)
    case Docx => OnlyWithCallback(lib.docxParagraphs, NewlineJoin, hasCb)
    case Txt => OnlyWithCallback(lib.txtContent, (t: string) => t, hasCb)
    case Html => OnlyWithCallback(lib.htmlText, (t: string) => t, hasCb)
    case Xml => OnlyWithCallback(lib.xmlText, (t: string) => t, hasCb)
    case Pptx => OnlyWithCallback(lib.pptxSlides, PptxText, hasCb)
    case Xlsx => OnlyWithCallback(lib.xlsxSheets, XlsxText, hasCb)
    case Odt => OnlyWithCallback(lib.odtParagraphs, NewlineJoin, hasCb)
    case Rtf => OnlyWithCallback(lib.rtfText, (t: string) => t, hasCb)
    case Epub => Always(lib.epubItems, NewlineJoin)
    case Md => OnlyWithCallback(lib.mdText, (t: string) => t, hasCb)
    case Json => OnlyWithCallback(lib.jsonText, (t: string) => t, hasCb)
    case Csv => OnlyWithCallback(lib.csvRows, CsvText, hasCb)
  }

  // ---------------------------------------------------------------------------
  // The dispatcher (src/parser_core.py:92-107)
  // ---------------------------------------------------------------------------

  /** The prefix of the dispatcher's own error answers, and the one its
      callers test for. */
  const ErrorPrefix: string := "Error:"

  const NotAFileMessage: string := ErrorPrefix + " La ruta no corresponde a un archivo."

  /** The answer for a suffix that is not in the table, quoting the suffix as
      written. */
  function UnsupportedMessage(suffix: string): string
  {
    ErrorPrefix + " Formato de archivo '" + suffix + "' no soportado."
  }

  /** The answer when a handler raises. */
  function FailureMessage(name: string, message: string): string
  {
    "Error al procesar el archivo '" + name + "': " + message
  }

  /**
   * `extraer_texto` for a path whose final component is `name`: `isFile` is
   * whether the path is a regular file, `hasCb` whether a progress callback
   * is passed. The result is `None` where the handler returns `None`.
   */
  function ExtractText(isFile: bool, name: string, hasCb: bool, lib: Library): (r: Option<string>)
    ensures r.None? ==>
              isFile && !hasCb && Lower(Suffix(name)) in Extractors
              && Extractors[Lower(Suffix(name))] !in {Pdf, Epub}
  {
    if !isFile then Some(NotAFileMessage)
    else
      var key := Lower(Suffix(name));
      if key !in Extractors then Some(UnsupportedMessage(Suffix(name)))
      else
        match Handle(Extractors[key], hasCb, lib)
        case Raised(m) => Some(FailureMessage(name, m))
        case Returned(text) => text
  }

  /** A string that starts with `p` and goes on. */
  lemma PrefixOfConcat(p: string, rest: string)
    ensures StartsWith(p + rest, p)
  {
    assert (p + rest)[..|p|] == p;
  }

  /** The wrapped exception message starts with "Error al", not "Error:", so a
      caller testing for "Error:" does not see it as an error. */
  lemma FailureMessageNotError(name: string, message: string)
    ensures !StartsWith(FailureMessage(name, message), ErrorPrefix)
  {
    var s := FailureMessage(name, message);
    assert s[5] == ' ';
  }

  /** Whether the handler for `f` returned text starting with "Error:". */
  predicate HandlerSaysError(f: Format, hasCb: bool, lib: Library)
  {
    var r := Handle(f, hasCb, lib);
    r.Returned? && r.value.Some? && StartsWith(r.value.value, ErrorPrefix)
  }

  /** The dispatcher answers with text starting with "Error:" exactly when the
      path is not a file, when the suffix is not in the table, or when the
      handler itself returned such text; never because a handler raised. */
  lemma ExtractErrorMeans(isFile: bool, name: string, hasCb: bool, lib: Library)
    ensures var r := ExtractText(isFile, name, hasCb, lib);
      r.Some? && StartsWith(r.value, ErrorPrefix) <==>
        !isFile || Lower(Suffix(name)) !in Extractors
        || HandlerSaysError(Extractors[Lower(Suffix(name))], hasCb, lib)
  {
    if !isFile {
      PrefixOfConcat(ErrorPrefix, " La ruta no corresponde a un archivo.");
    } else if Lower(Suffix(name)) !in Extractors {
      PrefixOfConcat(ErrorPrefix, " Formato de archivo '" + Suffix(name) + "' no soportado.");
    } else {
      var r := Handle(Extractors[Lower(Suffix(name))], hasCb, lib);
      if r.Raised? {
        FailureMessageNotError(name, r.message);
      }
    }
  }

  /** The dispatcher returns `None` exactly when the path is a file with a
      supported suffix other than PDF and EPUB, there is no callback and the
      library did not raise. */
  lemma ExtractNoneMeans(isFile: bool, name: string, hasCb: bool, lib: Library)
    ensures ExtractText(isFile, name, hasCb, lib) == None <==>
      isFile && Lower(Suffix(name)) in Extractors && !hasCb
      && Extractors[Lower(Suffix(name))] !in {Pdf, Epub}
      && Loads(Extractors[Lower(Suffix(name))], lib)
  {
  }

  /** The file check comes first and the suffix check second: when either
      fails, no handler is run, so neither the callback nor the libraries
      matter. */
  lemma ChecksBeforeHandlers(isFile: bool, name: string, cb1: bool, cb2: bool, lib1: Library, lib2: Library)
    requires !isFile || Lower(Suffix(name)) !in Extractors
    ensures ExtractText(isFile, name, cb1, lib1) == ExtractText(isFile, name, cb2, lib2)
    ensures !isFile ==> ExtractText(isFile, name, cb1, lib1) == Some(NotAFileMessage)
  {
  }

  // ---------------------------------------------------------------------------
  // The handlers with loops, as written
  // ---------------------------------------------------------------------------

  /** `_extraer_pdf` once the document is open: one text per page, the
      callback called once per page. */
  method ExtractPdf(pages: seq<Option<string>>, hasCb: bool) returns (text: string, progressCalls: nat)
    ensures text == PdfText(pages)
    ensures progressCalls == if hasCb then |pages| else 0
  {
    var texts: seq<string> := [];
    progressCalls := 0;
    var i := 0;
    while i < |pages|
      invariant 0 <= i <= |pages|
      invariant texts == Map(OrEmpty, pages[..i])
      invariant progressCalls == if hasCb then i else 0
    {
      MapPrefixStep(OrEmpty, [], pages, i);
      assert [] + pages[..i] == pages[..i] && [] + pages[..i + 1] == pages[..i + 1];
      texts := texts + [OrEmpty(pages[i])];
      if hasCb {
        progressCalls := progressCalls + 1;
      }
      i := i + 1;
    }
    assert pages[..i] == pages;
    text := Join(texts, '\n');
  }

  /** `_extraer_epub` once the book is read: one text per document, the
      callback called once per document. */
  method ExtractEpub(items: seq<string>, hasCb: bool) returns (text: string, progressCalls: nat)
    ensures text == NewlineJoin(items)
    ensures progressCalls == if hasCb then |items| else 0
  {
    var texts: seq<string> := [];
    progressCalls := 0;
    var i := 0;
    while i < |items|
      invariant 0 <= i <= |items|
      invariant texts == items[..i]
      invariant progressCalls == if hasCb then i else 0
    {
      assert items[..i + 1] == items[..i] + [items[i]];
      texts := texts + [items[i]];
      if hasCb {
        progressCalls := progressCalls + 1;
      }
      i := i + 1;
    }
    assert items[..i] == items;
    text := Join(texts, '\n');
  }

  /** `_extraer_pptx` once the presentation is open: the text of every shape
      that has one, slide by slide; `None` without a callback. */
  method ExtractPptx(slides: seq<seq<Option<string>>>, hasCb: bool) returns (text: Option<string>, progressCalls: nat)
    ensures text == if hasCb then Some(PptxText(slides)) else None
    ensures progressCalls == if hasCb then 1 else 0
  {
    var texts: seq<string> := [];
    var i := 0;
    while i < |slides|
      invariant 0 <= i <= |slides|
      invariant texts == Present(Flatten(slides[..i]))
    {
      var shapes := slides[i];
      var done := Flatten(slides[..i]);
      var j := 0;
      assert done + shapes[..j] == done;
      while j < |shapes|
        invariant 0 <= j <= |shapes|
        invariant texts == Present(done + shapes[..j])
      {
        PresentPrefixStep(done, shapes, j);
        if shapes[j].Some? {
          texts := texts + [shapes[j].value];
        }
        j := j + 1;
      }
      FlattenPrefixStep(slides, i);
      assert shapes[..j] == shapes;
      i := i + 1;
    }
    assert slides[..i] == slides;
    if hasCb {
      progressCalls := 1;
      text := Some(Join(texts, '\n'));
    } else {
      progressCalls := 0;
      text := None;
    }
  }

  /** `_extraer_xlsx` once the workbook is open: one line per row of every
      worksheet; `None` without a callback. */
  method ExtractXlsx(sheets: seq<seq<seq<Cell>>>, hasCb: bool) returns (text: Option<string>, progressCalls: nat)
    ensures text == if hasCb then Some(XlsxText(sheets)) else None
    ensures progressCalls == if hasCb then 1 else 0
  {
    var texts: seq<string> := [];
    var i := 0;
    while i < |sheets|
      invariant 0 <= i <= |sheets|
      invariant texts == Map(RowLine, Flatten(sheets[..i]))
    {
      var rows := sheets[i];
      var done := Flatten(sheets[..i]);
      var j := 0;
      assert done + rows[..j] == done;
      while j < |rows|
        invariant 0 <= j <= |rows|
        invariant texts == Map(RowLine, done + rows[..j])
      {
        MapPrefixStep(RowLine, done, rows, j);
        texts := texts + [RowLine(rows[j])];
        j := j + 1;
      }
      FlattenPrefixStep(sheets, i);
      assert rows[..j] == rows;
      i := i + 1;
    }
    assert sheets[..i] == sheets;
    if hasCb {
      progressCalls := 1;
      text := Some(Join(texts, '\n'));
    } else {
      progressCalls := 0;
      text := None;
    }
  }

  /** The handler for `f`, running the loops above where the source has them. */
  method RunHandler(f: Format, hasCb: bool, lib: Library) returns (r: Outcome<Option<string>>)
    ensures r == Handle(f, hasCb, lib)
  {
    match f {
      case Pdf =>
        match lib.pdfPages {
          case Raised(m) => r := Raised(m);
          case Returned(pages) =>
            var text, _ := ExtractPdf(pages, hasCb);
            r := Returned(Some(text));
        }
      case Epub =>
        match lib.epubItems {
          case Raised(m) => r := Raised(m);
          case Returned(items) =>
            var text, _ := ExtractEpub(items, hasCb);
            r := Returned(Some(text));
        }
      case Pptx =>
        match lib.pptxSlides {
          case Raised(m) => r := Raised(m);
          case Returned(slides) =>
            var text, _ := ExtractPptx(slides, hasCb);
            r := Returned(text);
        }
      case Xlsx =>
        match lib.xlsxSheets {
          case Raised(m) => r := Raised(m);
          case Returned(sheets) =>
            var text, _ := ExtractXlsx(sheets, hasCb);
            r := Returned(text);
        }
      case _ =>
        r := Handle(f, hasCb, lib);
    }
  }

  // ---------------------------------------------------------------------------
  // What the joined texts keep
  // ---------------------------------------------------------------------------

  /** Every piece contributes at least one line to a split. */
  lemma {:induction false} SplitEachLength(ss: seq<string>, sep: char)
    ensures |SplitEach(ss, sep)| >= |ss|
  {
    if ss != [] {
      SplitEachLength(ss[1..], sep);
    }
  }

  /** The lines of a PDF's text are the lines of its pages in order, and every
      page, even one without text, accounts for at least one line. */
  lemma PdfLines(pages: seq<Option<string>>)
    requires pages != []
    ensures Split(PdfText(pages), '\n') == SplitEach(Map(OrEmpty, pages), '\n')
    ensures |Split(PdfText(pages), '\n')| >= |pages|
  {
    SplitOfJoin(Map(OrEmpty, pages), '\n');
    SplitEachLength(Map(OrEmpty, pages), '\n');
  }

  /** An XLSX row whose cells are all empty becomes an empty line. */
  lemma BlankRowLine(cells: seq<Cell>)
    requires forall i | 0 <= i < |cells| :: cells[i].None?
    ensures RowLine(cells) == []
  {
    PresentOfNone(cells);
  }

  /** Splitting an XLSX line on spaces gives back the row's non-empty cells,
      when the row has one and no cell text contains a space. */
  lemma RowLineFields(cells: seq<Cell>)
    requires exists i | 0 <= i < |cells| :: cells[i].Some?
    requires forall i | 0 <= i < |cells| && cells[i].Some? :: ' ' !in cells[i].value
    ensures Split(RowLine(cells), ' ') == Present(cells)
  {
    var vs := Present(cells);
    var i :| 0 <= i < |cells| && cells[i].Some?;
    PresentMembers(cells, cells[i].value);
    forall k | 0 <= k < |vs|
      ensures ' ' !in vs[k]
    {
      PresentMembers(cells, vs[k]);
    }
    SplitJoin(vs, ' ');
  }

  /** The lines of an XLSX text are the rows' lines, one per row of every
      sheet, when the workbook has a row and no cell text contains a newline. */
  lemma XlsxLines(sheets: seq<seq<seq<Cell>>>)
    requires Flatten(sheets) != []
    requires forall r, c | r in Flatten(sheets) && Some(c) in r :: '\n' !in c
    ensures Split(XlsxText(sheets), '\n') == Map(RowLine, Flatten(sheets))
  {
    var rows := Flatten(sheets);
    var lines := Map(RowLine, rows);
    forall k | 0 <= k < |lines|
      ensures '\n' !in lines[k]
    {
      MapAt(RowLine, rows, k);
      assert rows[k] in rows;
      var vs := Present(rows[k]);
      forall m | 0 <= m < |vs|
        ensures '\n' !in vs[m]
      {
        PresentMembers(rows[k], vs[m]);
      }
      JoinKeepsOut(vs, ' ', '\n');
    }
    SplitJoin(lines, '\n');
  }

  /** Splitting each line of a text on tabs. */
  function Fields(lines: seq<string>): seq<seq<string>>
  {
    if lines == [] then [] else Fields(lines[..|lines| - 1]) + [Split(lines[|lines| - 1], '\t')]
  }

  /** Splitting tab-joined rows on tabs gives the rows back. */
  lemma {:induction false} FieldsOfTabJoined(rows: seq<seq<string>>)
    requires forall r | r in rows :: r != [] && forall c | c in r :: '\t' !in c
    ensures Fields(Map(TabJoin, rows)) == rows
  {
    if rows != [] {
      var init := rows[..|rows| - 1];
      var last := rows[|rows| - 1];
      assert rows == init + [last];
      assert forall r | r in init :: r in rows;
      assert last in rows;
      FieldsOfTabJoined(init);
      MapSnoc(TabJoin, init, last);
      var u := Map(TabJoin, rows);
      assert u[..|u| - 1] == Map(TabJoin, init);
      SplitJoin(last, '\t');
    }
  }

  /** The CSV text splits back into its rows, when there is a row, no row is
      empty and no field contains a tab or a newline. */
  lemma CsvRoundTrip(rows: seq<seq<string>>)
    requires rows != []
    requires forall r | r in rows :: r != [] && forall c | c in r :: '\t' !in c && '\n' !in c
    ensures Fields(Split(CsvText(rows), '\n')) == rows
  {
    var lines := Map(TabJoin, rows);
    forall k | 0 <= k < |lines|
      ensures '\n' !in lines[k]
    {
      MapAt(TabJoin, rows, k);
      assert rows[k] in rows;
      JoinKeepsOut(rows[k], '\t', '\n');
    }
    SplitJoin(lines, '\n');
    FieldsOfTabJoined(rows);
  }
}
