# Dissentis parser core, in Dafny

A model of the core of the Dissentis document parser. The parser turns an
uploaded document (PDF, DOCX, TXT, HTML, XML, PPTX, XLSX, ODT, RTF, EPUB,
Markdown, JSON or CSV) into raw text. It then cleans that text into light
Markdown: noise lines dropped, prompt lines fenced as code, upper-case titles
turned into `## ` headings, bullets normalised, spacing fixed. The model
covers three parts:

- **The cleaner** `limpiar_y_estructurar_texto` (`src/parser_core.py`).
  - The line loop is the method `Cleaner.CleanAndStructure`, written as a
    loop over the lines with the `in_code_block` flag. It is proved equal to
    the function `Cleaner.Cleaned`, which is a left fold over the classified
    lines.
  - The four `re.sub` passes are character scanners in `Rewrites`. They
    follow Python's leftmost, non-overlapping matching.
  - The properties are proved over `Cleaned`, in `CleanerFacts` and
    `CleanerSpacing`.
- **Extraction** (`src/parser_core.py`).
  - `Extraction.Extractors` is the `EXTRACTORES` table.
  - `Extraction.ExtractText` is the dispatcher `extraer_texto`.
  - `Extraction.Handle` gives what each of the thirteen `_extraer_*` handlers
    returns. The four handlers that loop (PDF, EPUB, PPTX, XLSX) are also
    methods with loops, proved against the functions `Handle` uses.
  - The third-party libraries are opaque. A `Library` value records, for one
    file, what each library hands back or the message of the exception it
    raises.
- **The HTTP endpoint** (`src/api.py`).
  - `Api.AllowedFile` is the extension filter `archivo_permitido`.
  - `Api.ProcessUpload` is the 400/500/200 decision of `procesar_archivo`,
    with extraction and cleaning plugged in.

Fixed choices:

- Strings are `seq<char>`.
- Whitespace is the exact set of characters `str.isspace` accepts, which is
  also what `\s` matches.
- Digits are ASCII.
- Case folding covers ASCII and Latin-1.

The model follows the code as written, including where it behaves
unexpectedly:

- The dispatcher checks "is a regular file" before it looks at the suffix.
- Eleven handlers return `None` when no progress callback is given, because
  `return` sits inside the one-line `if cb:` suite. Only PDF and EPUB always
  return text. The API calls the dispatcher without a callback, so uploads of
  those eleven formats fail with a 500 `AttributeError` reply when their
  library returns (`Api.SilentHandlerFails`).
- An exception inside a handler becomes `"Error al procesar el archivo ..."`.
  That does not start with `"Error:"`, so the API answers 200 with the
  cleaned error message as the document's text
  (`Api.HandlerFailureAnsweredOk`).
- The heading pass consumes the newlines after a `## ` line. A heading that
  immediately follows another one is therefore not padded
  (`Rewrites.ConsecutiveHeadings`).
- After fences are padded, the output can hold three newlines in a row
  (`CleanerSpacing.PromptThenText`). When no surviving line is a prompt line
  or holds three backticks in a row, it never does
  (`CleanerSpacing.NoCodeNoTripleNewline`).
- A lone title line comes out as `"## TITLE"`, with no blank line after it,
  because the final `strip` removes it (`CleanerSpacing.TitleLineBecomesHeading`).

## Model

| member | source | states |
|---|---|---|
| `Strings.Strip` | src/parser_core.py:44 | `str.strip()`: the result has no leading or trailing whitespace, is the slice of the input after its leading whitespace, and only whitespace follows it in the input |
| `Strings.StripAround` | src/parser_core.py:80 | stripping whitespace-only padding off a trimmed text gives that text back |
| `Strings.StripOfBlank` | src/parser_core.py:44-46 | a whitespace-only line strips to the empty string (so it is dropped) |
| `Strings.JoinSplit` | src/parser_core.py:38 | joining the pieces of `split('\n')` with `'\n'` gives back the input |
| `Strings.SplitJoin` | src/parser_core.py:73 | splitting a join of separator-free pieces gives back the pieces |
| `Strings.SplitOfJoin` | src/parser_core.py:116 | the pieces of a join are the pieces of the joined strings, in order |
| `Strings.SplitLength` | src/parser_core.py:38 | `split('\n')` gives one more piece than there are newlines |
| `Strings.SplitConcat` | src/parser_core.py:38 | splitting at a separator splits the two sides independently |
| `Strings.WordsShape` | src/parser_core.py:59 | every word of `split()` is non-empty and holds no whitespace |
| `Strings.WordsConcat` | src/parser_core.py:59 | the words of `split()` put together are the input without its whitespace |
| `Strings.WordsCount` | src/parser_core.py:59 | `split()` gives one word per run of non-whitespace characters |
| `Strings.ContainsIgnoringCaseMeans` | src/parser_core.py:46 | the case-insensitive search finds the phrase exactly when it matches, ignoring case, at some position |
| `Strings.LowerLeavesNoCapital` | src/api.py:23 | after `str.lower()` no capital letter remains, and every other character is kept as it is |
| `Strings.LowerIdempotent` | src/api.py:23 | lower-casing twice gives the same as lower-casing once |
| `Strings.Split` | src/parser_core.py:38 | `split('\n')` gives at least one piece, and no piece holds the separator |
| `Strings.Join` | src/parser_core.py:73 | `'\n'.join` starts with its first piece; its full value is fixed by the round trips `Strings.JoinSplit` and `Strings.SplitJoin` |
| `Strings.Words` | src/parser_core.py:59 | a string that starts with a non-whitespace character has at least one word |
| `Strings.ContainsIgnoringCase` | src/parser_core.py:46 | a phrase is found only in a line at least as long, and the empty phrase is found everywhere |
| `Strings.LastIndexOf` | src/api.py:23 | `rfind`: the index holds the character and no later index does, or -1 when it is absent |
| `Rewrites.CollapseNewlines` | src/parser_core.py:75 | the collapse leaves no run of three newlines and changes only newlines |
| `Rewrites.CollapseRun` | src/parser_core.py:75 | a run of newlines ended by another character or the end of the text becomes two newlines when it has three or more, and is kept otherwise |
| `Rewrites.CollapseSplitsAfter` | src/parser_core.py:75 | text that ends in a character other than a newline is collapsed on its own, apart from what follows it |
| `Rewrites.CollapseNewlinesRun` | src/parser_core.py:75 | the collapse of `x`, a run of `k` newlines and `z` is the collapse of `x`, then two newlines if `k >= 3` or the run itself, then the collapse of `z` |
| `Rewrites.CollapseKeepsNoFence` | src/parser_core.py:75 | the collapse creates no three backticks in a row |
| `Rewrites.CollapseNewlinesNoTriple` | src/parser_core.py:75 | after `re.sub(r'\n{3,}', '\n\n', ...)` no three newlines are adjacent |
| `Rewrites.CollapseNewlinesIdentity` | src/parser_core.py:75 | a text with no three adjacent newlines is left unchanged |
| `Rewrites.CollapseNewlinesKeepsText` | src/parser_core.py:75 | the collapse changes only newlines: every other character survives, in order |
| `Rewrites.HeadingPadded` | src/parser_core.py:76 | a `\n## ` line followed by a run of newlines is followed by exactly one blank line |
| `Rewrites.ConsecutiveHeadings` | src/parser_core.py:76 | of two `## ` lines in a row, only the first is padded: the second's leading newline was consumed by the first match |
| `Rewrites.SpaceHeadingsLastLine` | src/parser_core.py:76 | a heading at the very end, with no newline after it, is not matched |
| `Rewrites.SpaceHeadingsIdentity` | src/parser_core.py:76 | a text with no `\n## ` is left unchanged |
| `Rewrites.SpaceHeadingsKeepsText` | src/parser_core.py:76 | the heading pass changes only newlines |
| `Rewrites.SpaceHeadingsNoTriple` | src/parser_core.py:75-76 | the heading pass, run after the collapse, creates no run of three newlines |
| `Rewrites.SpaceHeadingsFront` | src/parser_core.py:76 | outside a newline run, the heading pass writes first what it reads first, and after a non-newline the second character read |
| `Rewrites.SpaceHeadingsKeepsNoFence` | src/parser_core.py:76 | the heading pass creates no three backticks in a row |
| `Rewrites.PadBeforeFencesIdentity` | src/parser_core.py:77 | a text without three backticks in a row is left unchanged |
| `Rewrites.PadBeforeFencesKeepsText` | src/parser_core.py:77 | the pass adds only newlines |
| `Rewrites.PadAfterFencesOpening` | src/parser_core.py:78 | an opening fence directly followed by `python` is not padded |
| `Rewrites.PadAfterFencesIdentity` | src/parser_core.py:78 | a text without three backticks in a row is left unchanged |
| `Rewrites.PadAfterFencesPlain` | src/parser_core.py:78 | a text without a newline is left unchanged, whatever backticks it holds |
| `Rewrites.PadAfterFencesPrefix` | src/parser_core.py:78 | a newline-free prefix that does not end in a backtick is copied as it is |
| `Rewrites.PadAfterFencesKeepsText` | src/parser_core.py:78 | the pass adds only newlines |
| `Cleaner.IsDropped` | src/parser_core.py:44-46 | a whitespace-only line is dropped |
| `Cleaner.IsPromptLine` | src/parser_core.py:34 | a prompt line's stripped form matches neither the title nor the list pattern, so checking prompts first hides no other branch |
| `Cleaner.IsTitle` | src/parser_core.py:59 | a title never matches the list pattern |
| `Cleaner.MatchesListPattern` | src/parser_core.py:36 | a list item has at least two characters and never matches the title pattern |
| `Cleaner.RespacedKeepsText` | src/parser_core.py:75-78 | the four rewrites together change only newlines |
| `Cleaner.ShapeOf` | src/parser_core.py:49-68 | a surviving line becomes a prompt exactly when it matches the prompt pattern, and never becomes a fence |
| `Cleaner.ProcessLine` | src/parser_core.py:44-68 | one loop iteration emits what the fold's step emits for the line and leaves the code-block flag where the step leaves it |
| `Cleaner.ProcessLines` | src/parser_core.py:43-68 | the loop's output and final flag are those of the fold over all lines |
| `Cleaner.StructureLines` | src/parser_core.py:38-71 | the loop plus the final closing fence emits the rendered line pass |
| `Cleaner.CleanAndStructure` | src/parser_core.py:22-80 | the cleaner as written computes `Cleaned(raw)`, whose result has no leading or trailing whitespace |
| `CleanerFacts.LinePassFenced` | src/parser_core.py:49-57 | opening and closing fences alternate, starting with an opening one, and every opened block is closed by the end |
| `CleanerFacts.InCodeIffLastSurvivorIsPrompt` | src/parser_core.py:41-57 | after any lines, a code block is open exactly when the last surviving line was a prompt line |
| `CleanerFacts.ContentInOrder` | src/parser_core.py:43-68 | without the fences, the emitted pieces are the shapes of the surviving lines, in input order |
| `CleanerFacts.SkipInvisible` | src/parser_core.py:46-47 | a skipped line changes neither the output nor the code-block flag |
| `CleanerFacts.DroppedLineVanishes` | src/parser_core.py:46-47 | removing a dropped line from the input does not change the cleaned text |
| `CleanerFacts.AllDroppedGivesEmpty` | src/parser_core.py:46-47 | when every line is dropped the result is the empty string |
| `CleanerFacts.BlankGivesEmpty` | src/parser_core.py:44-47 | empty or whitespace-only input cleans to the empty string |
| `CleanerSpacing.NoCodeNoTripleNewline` | src/parser_core.py:44-80 | when no surviving line is a prompt line or holds three backticks in a row, the output has no run of three newlines; dropped lines may hold anything |
| `CleanerSpacing.NoFenceStructured` | src/parser_core.py:38-73 | when no surviving line is a prompt line or holds three backticks in a row, the loop's joined output holds no three backticks in a row |
| `CleanerSpacing.NoFenceNoTriple` | src/parser_core.py:75-78 | on text without three backticks in a row the four rewrites leave no run of three newlines |
| `CleanerSpacing.RespacedPlain` | src/parser_core.py:75-78 | text without newlines goes through the four rewrites unchanged, backticks included |
| `CleanerSpacing.RenderedShape` | src/parser_core.py:59-68 | a surviving non-prompt line is emitted as a heading, a normalised bullet or its stripped form |
| `CleanerSpacing.TitleLineBecomesHeading` | src/parser_core.py:59-60 | a lone title line cleans to `"## "` and its stripped form |
| `CleanerSpacing.NormalizeTrimmed` | src/parser_core.py:64 | on a trimmed line only a leading `*` or `•` changes, into `-`; the result stays trimmed and newline-free |
| `CleanerSpacing.ListLineNormalised` | src/parser_core.py:63-65 | a lone list line has only its leading `*` or bullet replaced by `-`; `-` and numbered items come out unchanged |
| `CleanerSpacing.PlainLineStripped` | src/parser_core.py:68 | a lone ordinary line cleans to its stripped form |
| `CleanerSpacing.OrdinaryStructured` | src/parser_core.py:38-73 | when every surviving line is ordinary, the loop emits exactly the stripped surviving lines, joined by newlines |
| `CleanerSpacing.OrdinaryTextCleaned` | src/parser_core.py:22-80 | when every surviving line is ordinary (no prompt, title, list item, `## ` start or three backticks in a row), the result is the stripped surviving lines joined by newlines |
| `CleanerSpacing.QuietRespaced` | src/parser_core.py:75-78 | non-empty newline-free lines that neither start with `## ` nor hold three backticks in a row, joined by newlines, go through the rewrites unchanged |
| `CleanerSpacing.PromptThenTextPieces` | src/parser_core.py:49-57 | a prompt line then an ordinary line give opening fence, prompt, closing fence, paragraph |
| `CleanerSpacing.FencedThenText` | src/parser_core.py:75-80 | the rewrites turn that fenced pair into a fence block followed by three newlines and the paragraph |
| `CleanerSpacing.PromptThenText` | src/parser_core.py:22-80 | `prompt + "\n" + text` cleans to a python fence around the prompt, then three newlines and the stripped text |
| `Extraction.ExtractorsCoverFormats` | src/parser_core.py:84-90 | every format is registered under its own lower-case suffix |
| `Extraction.ExtractorsKeyed` | src/parser_core.py:84-90 | every table entry is the suffix of the format it maps to, so the table holds nothing else |
| `Extraction.Suffix` | src/parser_core.py:100-105 | `Path.suffix`: empty, or a dot-led tail of the name with no other dot, shorter than the name |
| `Extraction.SuffixOf` | src/parser_core.py:100-105 | the suffix runs from the last dot, unless that dot leads or ends the name |
| `Extraction.SuffixOfPlain` | src/parser_core.py:100-105 | a name without a dot has no suffix |
| `Extraction.Handle` | src/parser_core.py:110-174 | a handler raises exactly when its library raises; it returns `None` exactly for the eleven handlers other than PDF and EPUB, without callback, when the library returns |
| `Extraction.ExtractText` | src/parser_core.py:92-107 | the dispatcher returns `None` only for a file whose suffix is in the table, other than PDF and EPUB, and only without a callback |
| `Extraction.ExtractErrorMeans` | src/parser_core.py:92-107 | the dispatcher's answer starts with "Error:" exactly when the path is not a file, the suffix is unknown, or the handler's own text starts so, and never because a handler raised |
| `Extraction.ExtractNoneMeans` | src/parser_core.py:92-107 | the dispatcher returns `None` exactly for a file with a known suffix other than PDF and EPUB, no callback, and a library that returns |
| `Extraction.ChecksBeforeHandlers` | src/parser_core.py:96-105 | a non-file, or an unknown suffix, is answered without any handler, callback or library playing a part |
| `Extraction.FailureMessageNotError` | src/parser_core.py:106-107 | the wrapped exception message does not start with "Error:" |
| `Extraction.ExtractPdf` | src/parser_core.py:110-116 | the loop joins the pages' texts, an empty page as "", and calls the callback once per page |
| `Extraction.ExtractEpub` | src/parser_core.py:153-161 | the loop joins the documents' texts and calls the callback once per document |
| `Extraction.ExtractPptx` | src/parser_core.py:131-136 | the nested loop joins the texts of the shapes that have one, slide by slide, and returns only with a callback |
| `Extraction.ExtractXlsx` | src/parser_core.py:137-144 | the nested loop emits one line per row of every sheet and returns only with a callback |
| `Extraction.RunHandler` | src/parser_core.py:100-102 | running the handler, loops included, gives what `Handle` says |
| `Extraction.PdfLines` | src/parser_core.py:113-116 | the lines of a PDF's text are its pages' lines in order, with at least one line per page |
| `Extraction.BlankRowLine` | src/parser_core.py:142-143 | an XLSX row whose cells are all empty gives an empty line |
| `Extraction.RowLineFields` | src/parser_core.py:142-143 | splitting an XLSX line on spaces gives back the non-empty cells, when they hold no space |
| `Extraction.XlsxLines` | src/parser_core.py:137-144 | the XLSX text has one line per row, across all sheets, when no cell holds a newline |
| `Extraction.CsvRoundTrip` | src/parser_core.py:173 | splitting the CSV text on newlines, then on tabs, gives back the rows when no field holds a tab or newline |
| `Api.AllowedFile` | src/api.py:21-23 | an allowed name has at least two characters after its last dot, the shortest registered extension |
| `Api.NoDotRefused` | src/api.py:23 | a file name without a dot is refused |
| `Api.AllowedFileMeans` | src/api.py:19-23 | a name is allowed exactly when its text after the last dot, lower-cased, is a registered extension, whatever comes before that dot |
| `Api.AllowedAgreesWithDispatcher` | src/api.py:23 | unless its last dot leads it, a name passes the filter exactly when the dispatcher has a handler for its suffix |
| `Api.LeadingDotName` | src/api.py:23 | a name like ".pdf" can pass the filter, yet has no suffix for the dispatcher |
| `Api.TrailingDotRefused` | src/api.py:23 | "notes." is refused |
| `Api.ProcessUpload` | src/api.py:25-62 | the reply is 400 exactly when the request is refused, 200 exactly when it carries processed text, and otherwise 500 |
| `Api.RefusedBeforeSaving` | src/api.py:32-39 | a refused request gets its 400 message without the file being saved or extracted |
| `Api.OkMeans` | src/api.py:46-58 | the reply is 200 exactly when the dispatcher returns text not starting with "Error:"; the body is the saved name and the cleaned text |
| `Api.SilentHandlerFails` | src/api.py:46-62 | an upload for one of the eleven `None`-returning handlers gets a 500 `AttributeError` reply |
| `Api.PdfOrEpubCleaned` | src/api.py:46-62 | PDF and EPUB uploads whose library returns reach the cleaner, unless their text starts with "Error:" |
| `Api.HandlerFailureAnsweredOk` | src/api.py:46-58 | when a handler raises, the reply is 200 with the cleaned wrapped error message |
| `Api.UnsupportedSuffixFails` | src/api.py:46-62 | a saved name with no handler gets a 500 reply carrying the unsupported-format message |

## Left out

- The Qt desktop shell (`src/main.py`) is not part of this model: windows,
  drag and drop, translations, the worker thread, settings and counters.
- Flask is not modelled: request parsing, `jsonify`, the `/` route, and
  `app.run`. A request is reduced to the name of its `file` part, if any.
- `secure_filename` is a foreign library and is not modelled. The name the
  file is saved under is a free parameter of `Api.ProcessUpload`.
- Saving the upload and the `os.remove` in `finally` are file-system I/O and
  are not modelled. The saved path is taken to be a regular file, so an error
  while saving is not modelled.
- Path parsing is not modelled. The dispatcher receives the path's final
  component and a flag saying whether the path is a regular file.
- `Extraction.Suffix` follows the classic `Path.suffix` rule: the last dot
  must be neither the first nor the last character. Later Python versions
  also treat a trailing dot differently.
- The libraries behind the handlers are opaque "value or exception" results
  in `Extraction.Library`. A library that fails part-way is the same as one
  that raises at once.
- Looking up the handler function by name through `globals()` is replaced
  by the `Format` datatype.
- Extraction.ExtractPdf: counts the progress callbacks but does not model their
  percentages. `int(((i + 1) / total) * 100)` is float arithmetic.
- Extraction.ExtractEpub: counts the progress callbacks but does not model their
  percentages, for the same reason.
- A callback that raises is not modelled.
- `warnings.filterwarnings` in the EPUB handler is a global side effect and is
  not modelled.
- Unicode is reduced to fixed predicates. `str.strip`, `\s` and
  `str.split()` use the `str.isspace` character set. `str.isdigit` and `\d`
  accept ASCII digits only, while Python also accepts other Unicode digits.
- `str.lower` and `re.IGNORECASE` fold ASCII and Latin-1 capitals only.
  Other scripts, and multi-character lower-case forms, are not modelled.
- The concrete upload examples `"Report.PDF"` and `"a.tar.pdf"` are covered by
  `Api.AllowedFileMeans` rather than by literal evaluation.
- The pattern examples `"A B C D E F G H I J"` (ten words) and `"ÍNDICE"`
  (a non-ASCII capital) are covered by the definition of `Cleaner.IsTitle`
  rather than by literal evaluation.
