/**
 * `limpiar_y_estructurar_texto` (src/parser_core.py:22-80): the raw text is
 * split into lines, each line is dropped or turned into one emitted string
 * (with code fences opened and closed around runs of prompt lines), the
 * emitted strings are joined with newlines, four rewrites fix the spacing
 * and the result is stripped.
 *
 * The loop is the method `CleanAndStructure`; it is proved equal to the
 * function `Cleaned`, whose line pass is a left fold (`PiecesOf`,
 * `InCodeAfter`) over the lines, so that each loop iteration adds one step.
 */
module Cleaner {
  import opened Wrappers
  import opened Seqs
  import opened Strings
  import opened Rewrites

  // ---------------------------------------------------------------------------
  // Line classification (src/parser_core.py:27-36, 46, 49, 59, 63-64)
  // ---------------------------------------------------------------------------

  /** The nine noise phrases, matched case-insensitively anywhere in a line. */
  const NoisePhrases: seq<string> := [
    "copyright", "todos los derechos reservados", "aviso legal",
    "pol\U{00ED}tica de privacidad", "agencia de traducci\U{00F3}n", "traducciones profesionales",
    "ibidem group", "contacto", "icono cabecera"
  ]

  /** Whether `s` holds one of `phrases`, ignoring case. */
  predicate ContainsAnyIgnoringCase(s: string, phrases: seq<string>)
  {
    phrases != [] && (ContainsIgnoringCase(s, phrases[0]) || ContainsAnyIgnoringCase(s, phrases[1..]))
  }

  predicate IsNoise(s: string)
  {
    ContainsAnyIgnoringCase(s, NoisePhrases)
  }

  /** A line is skipped when its stripped form is empty, holds a noise phrase,
      or is all digits (a page number). */
  predicate IsDropped(line: string): (b: bool)
    ensures AllSpace(line) ==> b
  {
    var s := Strip(line);
    s == [] || IsNoise(s) || IsDigits(s)
  }

  /** `^\s*(?:>>>|\$|#|~|\.\.\.)\s` on the unstripped line. None of the markers
      starts with whitespace, so the greedy `\s*` can only end at the first
      non-whitespace character. */
  predicate IsPromptLine(line: string): (b: bool)
    ensures b ==> !MatchesTitlePattern(Strip(line)) && !MatchesListPattern(Strip(line))
  {
    var r := line[LeadingSpace(line)..];
    (|r| >= 4 && r[0] == '>' && r[1] == '>' && r[2] == '>' && IsSpace(r[3])) ||
    (|r| >= 4 && r[0] == '.' && r[1] == '.' && r[2] == '.' && IsSpace(r[3])) ||
    (|r| >= 2 && (r[0] == '$' || r[0] == '#' || r[0] == '~') && IsSpace(r[1]))
  }

  /** `^\s*[A-Z\s]{5,50}\s*$`: every character is a capital or whitespace, and
      some stretch of 5 to 50 characters covers everything but leading and
      trailing whitespace, which holds exactly when the string has at least 5
      characters and its stripped form at most 50. */
  predicate MatchesTitlePattern(s: string)
  {
    (forall i | 0 <= i < |s| :: IsUpperAscii(s[i]) || IsSpace(s[i])) &&
    5 <= |s| && |Strip(s)| <= 50
  }

  /** A title also has fewer than ten words (`len(s.split()) < 10`). */
  predicate IsTitle(s: string): (b: bool)
    ensures b ==> !MatchesListPattern(s)
  {
    MatchesTitlePattern(s) && |Words(s)| < 10
  }

  predicate IsBullet(c: char)
  {
    c == '-' || c == '*' || c == '\U{2022}'
  }

  /** Number of digits at the front of `s` (how far a greedy `\d+` reaches). */
  function LeadingDigits(s: string): (n: nat)
    ensures n <= |s|
    ensures forall i | 0 <= i < n :: IsDigit(s[i])
    ensures n < |s| ==> !IsDigit(s[n])
  {
    if s == [] || !IsDigit(s[0]) then 0 else 1 + LeadingDigits(s[1..])
  }

  /** `^\s*[-*•]\s+|^\s*\d+\.\s+`: a bullet, or digits and a dot, then whitespace. */
  predicate MatchesListPattern(s: string): (b: bool)
    ensures b ==> |s| >= 2 && !MatchesTitlePattern(s)
  {
    var r := s[LeadingSpace(s)..];
    var d := LeadingDigits(r);
    (|r| >= 2 && IsBullet(r[0]) && IsSpace(r[1])) ||
    (d >= 1 && d + 1 < |r| && r[d] == '.' && IsSpace(r[d + 1]))
  }

  /** `re.sub(r'^\s*[-*•]', '-', s, 1)`: a leading bullet (and the whitespace
      before it) becomes `-`; anything else is left as it is. */
  function NormalizeBullet(s: string): (r: string)
    ensures LeadingSpace(s) < |s| && IsBullet(s[LeadingSpace(s)]) ==>
      r == "-" + s[LeadingSpace(s) + 1..]
    ensures !(LeadingSpace(s) < |s| && IsBullet(s[LeadingSpace(s)])) ==> r == s
  {
    var a := LeadingSpace(s);
    if a < |s| && IsBullet(s[a]) then "-" + s[a + 1..] else s
  }

  // ---------------------------------------------------------------------------
  // What the loop emits (src/parser_core.py:43-71)
  // ---------------------------------------------------------------------------

  const OpenFenceText: string := "\n```python"
  const CloseFenceText: string := "```\n"

  /** One entry of `lineas_procesadas`, by the branch that appended it. */
  datatype Piece =
    | OpenFence              // "\n```python", before the first line of a run of prompt lines
    | CloseFence             // "```\n", after the last one
    | Prompt(line: string)   // a prompt line, unstripped
    | Heading(title: string) // a title, emitted as "## " + title + "\n"
    | ListItem(text: string) // a list item with its bullet normalised
    | Paragraph(text: string) // any other line, stripped

  function Render(p: Piece): string
  {
    match p
    case OpenFence => OpenFenceText
    case CloseFence => CloseFenceText
    case Prompt(line) => line
    case Heading(title) => "## " + title + "\n"
    case ListItem(text) => text
    case Paragraph(text) => text
  }

  /** The strings for a sequence of pieces, in order. */
  function RenderAll(ps: seq<Piece>): seq<string>
  {
    Map(Render, ps)
  }

  predicate IsFence(p: Piece)
  {
    p.OpenFence? || p.CloseFence?
  }

  /** What a line that is not dropped becomes; this does not depend on whether a
      code block is open. Prompt lines skip the title and list checks. */
  function ShapeOf(line: string): (p: Piece)
    ensures !IsFence(p)
    ensures p.Prompt? <==> IsPromptLine(line)
  {
    if IsPromptLine(line) then Prompt(line) else TextShape(Strip(line))
  }

  /** What the stripped form `s` of a line that is neither dropped nor a prompt
      line becomes: titles skip the list check. */
  function TextShape(s: string): (p: Piece)
    ensures !IsFence(p) && !p.Prompt?
  {
    if IsTitle(s) then Heading(s)
    else if MatchesListPattern(s) then ListItem(NormalizeBullet(s))
    else Paragraph(s)
  }

  /** How the loop sees one line: `None` when it is skipped, otherwise the
      piece it becomes. */
  function Classify(line: string): Option<Piece>
  {
    if IsDropped(line) then None else Some(ShapeOf(line))
  }

  /** Every line of a text, classified. */
  function Kinds(lines: seq<string>): seq<Option<Piece>>
  {
    Map(Classify, lines)
  }

  /** The classification of each line is at its position. */
  lemma KindAt(lines: seq<string>, i: nat)
    requires i < |lines|
    ensures Kinds(lines)[i] == Classify(lines[i])
  {
    MapAt(Classify, lines, i);
  }

  /** Classifications as `Classify` gives them: never a fence. */
  predicate NoFenceKinds(ks: seq<Option<Piece>>)
  {
    forall i | 0 <= i < |ks| :: ks[i].None? || !IsFence(ks[i].value)
  }

  /** The pieces one iteration appends for a line classified as `k`, given
      whether a code block is open. */
  function StepPieces(k: Option<Piece>, inCode: bool): seq<Piece>
  {
    match k
    case None => []
    case Some(p) =>
      if p.Prompt? then (if inCode then [] else [OpenFence]) + [p]
      else (if inCode then [CloseFence] else []) + [p]
  }

  /** `in_code_block` after one iteration. */
  function StepInCode(k: Option<Piece>, inCode: bool): bool
  {
    match k
    case None => inCode
    case Some(p) => p.Prompt?
  }

  /** `in_code_block` after the loop has seen lines classified as `ks`. */
  function InCodeAfter(ks: seq<Option<Piece>>): bool
  {
    if ks == [] then false
    else StepInCode(ks[|ks| - 1], InCodeAfter(ks[..|ks| - 1]))
  }

  /** The pieces appended while the loop sees lines classified as `ks`. */
  function PiecesOf(ks: seq<Option<Piece>>): seq<Piece>
  {
    if ks == [] then []
    else
      var init := ks[..|ks| - 1];
      PiecesOf(init) + StepPieces(ks[|ks| - 1], InCodeAfter(init))
  }

  /** The loop's pieces, plus the closing fence of a block still open at the end. */
  function LinePass(ks: seq<Option<Piece>>): seq<Piece>
  {
    PiecesOf(ks) + (if InCodeAfter(ks) then [CloseFence] else [])
  }

  /** `"\n".join(lineas_procesadas)` for the raw text. */
  function Structured(raw: string): string
  {
    Join(RenderAll(LinePass(Kinds(Split(raw, '\n')))), '\n')
  }

  /** The four rewrites of src/parser_core.py:75-78, in order. */
  function Respaced(text: string): string
  {
    PadAfterFences(PadBeforeFences(SpaceHeadings(CollapseNewlines(text))))
  }

  /** Together the four rewrites change only newlines. */
  lemma RespacedKeepsText(text: string)
    ensures DropNewlines(Respaced(text)) == DropNewlines(text)
  {
    var c := CollapseNewlines(text);
    SpaceHeadingsKeepsText(c, Copying);
    PadBeforeFencesKeepsText(SpaceHeadings(c));
    PadAfterFencesKeepsText(PadBeforeFences(SpaceHeadings(c)));
  }

  /** The result of `limpiar_y_estructurar_texto(raw)`. */
  function Cleaned(raw: string): string
  {
    Strip(Respaced(Structured(raw)))
  }

  // ---------------------------------------------------------------------------
  // The function as written: a loop over the lines, then four rewrites
  // ---------------------------------------------------------------------------

  /** One iteration of the loop (src/parser_core.py:44-68): the strings it
      appends to `lineas_procesadas` and the new `in_code_block`. */
  method ProcessLine(line: string, inCode: bool) returns (emitted: seq<string>, nowInCode: bool)
    ensures emitted == RenderAll(StepPieces(Classify(line), inCode))
    ensures nowInCode == StepInCode(Classify(line), inCode)
  {
    emitted := [];
    nowInCode := inCode;
    var clean := Strip(line);
    if clean == [] || IsNoise(clean) || IsDigits(clean) {
      // the line is skipped and the code block stays as it is
      SkippedEmitted(line, inCode);
    } else if IsPromptLine(line) {
      if !nowInCode {
        emitted := emitted + [OpenFenceText];
        nowInCode := true;
      }
      emitted := emitted + [line];
      PromptEmitted(line, inCode, emitted);
    } else {
      if nowInCode {
        emitted := emitted + [CloseFenceText];
        nowInCode := false;
      }
      var text;
      if IsTitle(clean) {
        text := "## " + clean + "\n";
      } else if MatchesListPattern(clean) {
        text := NormalizeBullet(clean);
      } else {
        text := clean;
      }
      emitted := emitted + [text];
      TextEmitted(line, inCode, text, emitted);
    }
  }

  /** A skipped line emits nothing and leaves the block as it is. */
  lemma SkippedEmitted(line: string, inCode: bool)
    requires IsDropped(line)
    ensures [] == RenderAll(StepPieces(Classify(line), inCode))
    ensures inCode == StepInCode(Classify(line), inCode)
  {
    assert Classify(line) == None;
  }

  /** A prompt line is emitted as it is, after an opening fence if no block is open. */
  lemma PromptEmitted(line: string, inCode: bool, emitted: seq<string>)
    requires !IsDropped(line) && IsPromptLine(line)
    requires emitted == (if inCode then [] else [OpenFenceText]) + [line]
    ensures emitted == RenderAll(StepPieces(Classify(line), inCode))
    ensures StepInCode(Classify(line), inCode)
  {
    assert Classify(line) == Some(Prompt(line));
    RenderPrompt(line, inCode);
  }

  /** Any other line is emitted as a heading, a list item or the stripped line,
      after a closing fence if a block is open. */
  lemma TextEmitted(line: string, inCode: bool, text: string, emitted: seq<string>)
    requires !IsDropped(line) && !IsPromptLine(line)
    requires var s := Strip(line);
      text == if IsTitle(s) then "## " + s + "\n" else if MatchesListPattern(s) then NormalizeBullet(s) else s
    requires emitted == (if inCode then [CloseFenceText] else []) + [text]
    ensures emitted == RenderAll(StepPieces(Classify(line), inCode))
    ensures !StepInCode(Classify(line), inCode)
  {
    var p := TextShape(Strip(line));
    assert Classify(line) == Some(p);
    assert text == Render(p);
    RenderText(p, inCode);
  }

  lemma RenderPrompt(line: string, inCode: bool)
    ensures RenderAll(StepPieces(Some(Prompt(line)), inCode)) ==
      (if inCode then [] else [OpenFenceText]) + [line]
  {
    if inCode {
      assert StepPieces(Some(Prompt(line)), inCode) == [Prompt(line)];
      MapOne(Render, Prompt(line));
    } else {
      assert StepPieces(Some(Prompt(line)), inCode) == [OpenFence, Prompt(line)];
      MapPair(Render, OpenFence, Prompt(line));
    }
  }

  lemma RenderText(p: Piece, inCode: bool)
    requires !p.Prompt?
    ensures RenderAll(StepPieces(Some(p), inCode)) ==
      (if inCode then [CloseFenceText] else []) + [Render(p)]
  {
    if inCode {
      assert StepPieces(Some(p), inCode) == [CloseFence, p];
      MapPair(Render, CloseFence, p);
    } else {
      assert StepPieces(Some(p), inCode) == [p];
      MapOne(Render, p);
    }
  }

  lemma RenderAllAppend(a: seq<Piece>, b: seq<Piece>)
    ensures RenderAll(a + b) == RenderAll(a) + RenderAll(b)
  {
    MapAppend(Render, a, b);
  }

  /** Extending the classifications the loop has seen by one adds one step. */
  lemma PrefixStep(ks: seq<Option<Piece>>, i: nat)
    requires i < |ks|
    ensures InCodeAfter(ks[..i + 1]) == StepInCode(ks[i], InCodeAfter(ks[..i]))
    ensures PiecesOf(ks[..i + 1]) == PiecesOf(ks[..i]) + StepPieces(ks[i], InCodeAfter(ks[..i]))
  {
    var p := ks[..i + 1];
    assert p[..|p| - 1] == ks[..i];
    assert p[|p| - 1] == ks[i];
  }

  /** What one more iteration adds to the strings emitted so far. */
  lemma RenderedStep(ks: seq<Option<Piece>>, i: nat)
    requires i < |ks|
    ensures InCodeAfter(ks[..i + 1]) == StepInCode(ks[i], InCodeAfter(ks[..i]))
    ensures RenderAll(PiecesOf(ks[..i + 1])) ==
      RenderAll(PiecesOf(ks[..i])) + RenderAll(StepPieces(ks[i], InCodeAfter(ks[..i])))
  {
    PrefixStep(ks, i);
    RenderAllAppend(PiecesOf(ks[..i]), StepPieces(ks[i], InCodeAfter(ks[..i])));
  }

  /** What one iteration of the loop in `StructureLines` does to its state. */
  lemma LoopStep(ks: seq<Option<Piece>>, i: nat, processed: seq<string>, inCode: bool,
                 emitted: seq<string>, nowInCode: bool)
    requires i < |ks|
    requires inCode == InCodeAfter(ks[..i]) && processed == RenderAll(PiecesOf(ks[..i]))
    requires emitted == RenderAll(StepPieces(ks[i], inCode)) && nowInCode == StepInCode(ks[i], inCode)
    ensures nowInCode == InCodeAfter(ks[..i + 1])
    ensures processed + emitted == RenderAll(PiecesOf(ks[..i + 1]))
  {
    RenderedStep(ks, i);
  }

  /** One more classification at the end adds one step. */
  lemma SnocStep(ks: seq<Option<Piece>>, k: Option<Piece>)
    ensures InCodeAfter(ks + [k]) == StepInCode(k, InCodeAfter(ks))
    ensures PiecesOf(ks + [k]) == PiecesOf(ks) + StepPieces(k, InCodeAfter(ks))
  {
    var p := ks + [k];
    assert p[..|p| - 1] == ks;
  }

  /** The loop over the lines (src/parser_core.py:40-68): what it has appended
      to `lineas_procesadas` and whether a code block is still open. */
  method ProcessLines(lines: seq<string>) returns (processed: seq<string>, inCode: bool)
    ensures processed == RenderAll(PiecesOf(Kinds(lines)))
    ensures inCode == InCodeAfter(Kinds(lines))
  {
    ghost var ks := Kinds(lines);
    processed := [];
    inCode := false;
    var i := 0;
    while i < |lines|
      invariant 0 <= i <= |lines|
      invariant inCode == InCodeAfter(ks[..i])
      invariant processed == RenderAll(PiecesOf(ks[..i]))
    {
      KindAt(lines, i);
      var emitted, nowInCode := ProcessLine(lines[i], inCode);
      LoopStep(ks, i, processed, inCode, emitted, nowInCode);
      processed := processed + emitted;
      inCode := nowInCode;
      i := i + 1;
    }
    assert ks[..|lines|] == ks;
  }

  /** The loop, then the closing of a block still open at the end
      (src/parser_core.py:40-71). */
  method StructureLines(lines: seq<string>) returns (processed: seq<string>)
    ensures processed == RenderAll(LinePass(Kinds(lines)))
  {
    var inCode;
    processed, inCode := ProcessLines(lines);
    RenderedClose(Kinds(lines));
    if inCode {
      processed := processed + [CloseFenceText];
    }
  }

  /** The closing fence added after the loop, if a block is still open. */
  lemma RenderedClose(ks: seq<Option<Piece>>)
    ensures InCodeAfter(ks) ==> RenderAll(LinePass(ks)) == RenderAll(PiecesOf(ks)) + [CloseFenceText]
    ensures !InCodeAfter(ks) ==> RenderAll(LinePass(ks)) == RenderAll(PiecesOf(ks))
  {
    RenderAllAppend(PiecesOf(ks), if InCodeAfter(ks) then [CloseFence] else []);
    assert PiecesOf(ks) + [] == PiecesOf(ks);
  }

  /** Cleans and structures `raw`; the result never starts or ends with whitespace. */
  method CleanAndStructure(raw: string) returns (text: string)
    ensures text == Cleaned(raw)
    ensures text == [] || (!IsSpace(text[0]) && !IsSpace(text[|text| - 1]))
  {
    var lines := Split(raw, '\n');
    var processed := StructureLines(lines);
    text := Join(processed, '\n');
    text := CollapseNewlines(text);
    text := SpaceHeadings(text);
    text := PadBeforeFences(text);
    text := PadAfterFences(text);
    text := Strip(text);
  }
}
