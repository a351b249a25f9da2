/**
 * The spacing of the text `limpiar_y_estructurar_texto` returns
 * (src/parser_core.py:73-80), and what single lines and short texts become.
 */
module CleanerSpacing {
  import opened Wrappers
  import opened Seqs
  import opened Strings
  import opened Rewrites
  import opened Cleaner
  import opened CleanerFacts

  // ---------------------------------------------------------------------------
  // Without code blocks there is never a run of three newlines
  // ---------------------------------------------------------------------------

  /** A line that is skipped, or becomes a piece other than a prompt line that
      renders without a fence. */
  predicate PlainKind(k: Option<Piece>)
  {
    k.None? || (!k.value.Prompt? && !IsFence(k.value) && NoFence(Render(k.value)))
  }

  /** Without prompt lines the loop opens no block and emits no fence: it emits
      exactly the pieces of the lines. */
  lemma {:induction false} NoPromptNoFence(ks: seq<Option<Piece>>)
    requires forall j | 0 <= j < |ks| :: PlainKind(ks[j])
    ensures !InCodeAfter(ks)
    ensures forall k | 0 <= k < |PiecesOf(ks)| :: !IsFence(PiecesOf(ks)[k]) && !PiecesOf(ks)[k].Prompt?
  {
    if ks != [] {
      var init := ks[..|ks| - 1];
      assert forall j | 0 <= j < |init| :: init[j] == ks[j];
      NoPromptNoFence(init);
    }
  }

  /** A line without a fence gives a piece without a fence. */
  lemma ShapeKeepsNoFence(line: string)
    requires !IsDropped(line) && !IsPromptLine(line)
    requires NoFence(line)
    ensures NoFence(Render(ShapeOf(line)))
  {
    var s := Strip(line);
    var a := LeadingSpace(line);
    NoThreeSlice(line, a, a + |s|, '`');
    assert s == line[a..a + |s|];
    NormalizeKeepsNoFence(s);
    NoThreeAround(s, '\n', [], '`');
    assert s + [] + "\n" == s + "\n";
    NoThreeAfterOther("## ", s + "\n", '`');
    assert "## " + (s + "\n") == "## " + s + "\n";
    RenderedShape(line);
  }

  /** A line that is neither dropped nor a prompt is emitted as a heading, a
      normalised list item or the stripped line. */
  lemma RenderedShape(line: string)
    requires !IsDropped(line) && !IsPromptLine(line)
    ensures var s := Strip(line);
      Render(ShapeOf(line)) in {"## " + s + "\n", NormalizeBullet(s), s}
  {
  }

  /** `normalize` makes no fence. */
  lemma NormalizeKeepsNoFence(s: string)
    requires NoFence(s)
    ensures NoFence(NormalizeBullet(s))
  {
    var a := LeadingSpace(s);
    if a < |s| && IsBullet(s[a]) {
      NoThreeSlice(s, a + 1, |s|, '`');
      assert s[a + 1..|s|] == s[a + 1..];
      NoThreeAfterOther("-", s[a + 1..], '`');
    }
  }

  /** Text whose surviving lines hold no prompt line and no three backticks in
      a row comes out without any run of three newlines: at most one blank line
      between paragraphs. Dropped lines may hold anything. */
  lemma NoCodeNoTripleNewline(raw: string)
    requires forall k | 0 <= k < |Split(raw, '\n')| ::
      IsDropped(Split(raw, '\n')[k]) || (!IsPromptLine(Split(raw, '\n')[k]) && NoFence(Split(raw, '\n')[k]))
    ensures NoTripleNewline(Cleaned(raw))
  {
    NoFenceStructured(raw);
    NoFenceNoTriple(Structured(raw));
    StripNoTriple(Respaced(Structured(raw)));
  }

  /** Stripping keeps a text free of runs of three newlines. */
  lemma StripNoTriple(h: string)
    requires NoTripleNewline(h)
    ensures NoTripleNewline(Strip(h))
  {
    var a := LeadingSpace(h);
    NoThreeSlice(h, a, a + |Strip(h)|, '\n');
  }

  /** When no surviving line is a prompt or holds a fence, the loop emits no
      fence. */
  lemma NoFenceStructured(raw: string)
    requires forall k | 0 <= k < |Split(raw, '\n')| ::
      IsDropped(Split(raw, '\n')[k]) || (!IsPromptLine(Split(raw, '\n')[k]) && NoFence(Split(raw, '\n')[k]))
    ensures NoFence(Structured(raw))
  {
    var lines := Split(raw, '\n');
    var ks := Kinds(lines);
    forall j | 0 <= j < |ks|
      ensures PlainKind(ks[j])
    {
      KindAt(lines, j);
      if !IsDropped(lines[j]) {
        ShapeKeepsNoFence(lines[j]);
      }
    }
    NoPromptNoFence(ks);
    var ps := LinePass(ks);
    assert ps == PiecesOf(ks);
    var rendered := RenderAll(ps);
    forall k | 0 <= k < |rendered|
      ensures NoFence(rendered[k])
    {
      NoFenceInPieces(ks, k);
      MapAt(Render, ps, k);
    }
    JoinNoThree(rendered, '\n', '`');
  }

  /** Without a fence the fence passes change nothing, so the rewrites leave
      no run of three newlines. */
  lemma NoFenceNoTriple(t: string)
    requires NoFence(t)
    ensures NoTripleNewline(Respaced(t))
  {
    var c := CollapseNewlines(t);
    CollapseKeepsNoFence(t, 0);
    var h := SpaceHeadings(c);
    SpaceHeadingsNoTriple(c, Copying);
    SpaceHeadingsKeepsNoFence(c, Copying);
    PadBeforeFencesIdentity(h);
    PadAfterFencesIdentity(h);
  }

  /** Every piece the loop emits for fence-free, prompt-free lines is
      fence-free. */
  lemma {:induction false} NoFenceInPieces(ks: seq<Option<Piece>>, k: nat)
    requires forall j | 0 <= j < |ks| :: PlainKind(ks[j])
    requires k < |PiecesOf(ks)|
    ensures NoFence(Render(PiecesOf(ks)[k]))
  {
    var init := ks[..|ks| - 1];
    assert forall j | 0 <= j < |init| :: init[j] == ks[j];
    NoPromptNoFence(init);
    if k < |PiecesOf(init)| {
      NoFenceInPieces(init, k);
    } else {
      assert PlainKind(ks[|ks| - 1]);
    }
  }

  // ---------------------------------------------------------------------------
  // Single lines and a prompt line followed by text
  // ---------------------------------------------------------------------------

  /** Newline-free text with no newline run to start from keeps no run after
      it either. */
  lemma {:induction false} NoTriplePlainThen(x: string, b: string)
    requires '\n' !in x
    requires NoTripleNewline(b)
    ensures NoTripleNewline(x + b)
  {
    if x != [] {
      assert x[0] in x;
      assert forall y | y in x[1..] :: y in x;
      NoTriplePlainThen(x[1..], b);
      assert x + b == [x[0]] + (x[1..] + b);
      NoThreeCons(x[0], x[1..] + b, '\n');
    } else {
      assert x + b == b;
    }
  }

  /** Text without newlines goes through the four rewrites unchanged, whatever
      backticks it holds: every pattern but the heading mark needs a newline. */
  lemma RespacedPlain(x: string)
    requires '\n' !in x
    ensures Respaced(x) == x
  {
    NoTriplePlainThen(x, []);
    assert x + [] == x;
    assert Newlines(0) + x == x;
    CollapseNewlinesIdentity(x, 0);
    SpaceHeadingsSkips(x, []);
    PadBeforeFencesSkips(x, []);
    PadAfterFencesPlain(x);
  }

  /** The loop on a single line that is neither dropped nor a prompt line. */
  lemma SingleLinePieces(line: string)
    requires '\n' !in line
    requires !IsDropped(line) && !IsPromptLine(line)
    ensures Structured(line) == Render(ShapeOf(line))
  {
    SplitOfPlain(line, '\n');
    var ks := Kinds([line]);
    KindAt([line], 0);
    assert ks == [Some(ShapeOf(line))];
    OneStep(ks[0]);
  }

  /** One line ended by a newline, without backticks, goes through the four
      rewrites unchanged: a heading mark needs a newline in front of it. */
  lemma RespacedLine(x: string)
    requires '\n' !in x && '`' !in x
    ensures Respaced(x + "\n") == x + "\n"
  {
    var y := x + "\n";
    NoTriplePlainThen(x, "\n");
    assert Newlines(0) + y == y;
    CollapseNewlinesIdentity(y, 0);
    SpaceHeadingsSkips(x, "\n");
    SpaceHeadingsLastLine([]);
    assert "\n" + [] == "\n";
    assert '`' !in y;
    PadBeforeFencesIdentity(y);
    PadAfterFencesIdentity(y);
  }

  /** A heading line alone: the rewrites leave it and the strip removes its
      trailing newline. */
  lemma HeadingAlone(line: string)
    requires '\n' !in line
    requires Strip(line) != [] && '`' !in Strip(line)
    ensures Strip(Respaced("## " + Strip(line) + "\n")) == "## " + Strip(line)
  {
    var s := Strip(line);
    StripKeepsOut(line, '\n');
    var x := "## " + s;
    assert '\n' !in x && '`' !in x;
    RespacedLine(x);
    StripAround([], x, "\n");
    assert [] + x + "\n" == x + "\n";
  }

  /** Trimmed text without newlines comes out as it is. */
  lemma TrimmedAlone(x: string)
    requires x != [] && !IsSpace(x[0]) && !IsSpace(x[|x| - 1])
    requires '\n' !in x
    ensures Strip(Respaced(x)) == x
  {
    RespacedPlain(x);
    StripOfTrimmed(x);
  }

  /** A single title line comes out as a `## ` heading of its stripped form. */
  lemma TitleLineBecomesHeading(line: string)
    requires '\n' !in line
    requires !IsDropped(line) && !IsPromptLine(line) && IsTitle(Strip(line))
    ensures Cleaned(line) == "## " + Strip(line)
  {
    SingleLinePieces(line);
    var s := Strip(line);
    TitleCharacters(s);
    HeadingAlone(line);
  }

  lemma TitleCharacters(s: string)
    requires MatchesTitlePattern(s)
    ensures s != [] && '`' !in s
  {
  }

  /** `normalize` on a trimmed list line: only a leading `*` or `•` changes. */
  lemma NormalizeTrimmed(s: string)
    requires |s| >= 2 && !IsSpace(s[0]) && !IsSpace(s[|s| - 1])
    requires '\n' !in s
    ensures NormalizeBullet(s) == if s[0] == '*' || s[0] == '\U{2022}' then "-" + s[1..] else s
    ensures var x := NormalizeBullet(s);
      x != [] && !IsSpace(x[0]) && !IsSpace(x[|x| - 1]) && '\n' !in x && ('`' in x <==> '`' in s)
  {
    assert LeadingSpace(s) == 0;
    if IsBullet(s[0]) {
      assert forall y | y in s[1..] :: y in s;
      if s[0] == '-' {
        assert "-" + s[1..] == s;
      }
    }
  }

  lemma ListPatternLength(s: string)
    requires MatchesListPattern(s)
    ensures |s| >= 2
  {
  }

  /** A single list line comes out stripped, with a leading `*` or `•` turned
      into `-`; a `-` item or a numbered item comes out as it is. */
  lemma ListLineNormalised(line: string)
    requires '\n' !in line
    requires !IsDropped(line) && !IsPromptLine(line)
    requires !IsTitle(Strip(line)) && MatchesListPattern(Strip(line))
    ensures var s := Strip(line);
      Cleaned(line) == if s[0] == '*' || s[0] == '\U{2022}' then "-" + s[1..] else s
  {
    SingleLinePieces(line);
    var s := Strip(line);
    StripKeepsOut(line, '\n');
    ListPatternLength(s);
    assert Render(ShapeOf(line)) == NormalizeBullet(s);
    ListAlone(line);
  }

  /** A stripped list line alone goes through the rewrites as `normalize` left it. */
  lemma ListAlone(line: string)
    requires var s := Strip(line); |s| >= 2 && '\n' !in s
    ensures var s := Strip(line);
      Strip(Respaced(NormalizeBullet(s))) == if s[0] == '*' || s[0] == '\U{2022}' then "-" + s[1..] else s
  {
    var s := Strip(line);
    NormalizeTrimmed(s);
    TrimmedAlone(NormalizeBullet(s));
  }

  /** A single line that is neither dropped, a prompt, a title nor a list item
      comes out stripped. */
  lemma PlainLineStripped(line: string)
    requires '\n' !in line
    requires !IsDropped(line) && !IsPromptLine(line)
    requires !IsTitle(Strip(line)) && !MatchesListPattern(Strip(line))
    ensures Cleaned(line) == Strip(line)
  {
    SingleLinePieces(line);
    assert Render(ShapeOf(line)) == Strip(line);
    StrippedAlone(line);
  }

  /** A line stripped of its whitespace goes through the rewrites unchanged. */
  lemma StrippedAlone(line: string)
    requires '\n' !in line && Strip(line) != []
    ensures Strip(Respaced(Strip(line))) == Strip(line)
  {
    StripKeepsOut(line, '\n');
    TrimmedAlone(Strip(line));
  }

  /** What the loop joins for a prompt line `c` followed by a text line `s`,
      nested so that each rewrite step peels one part off. */
  function FencedRaw(c: string, s: string): string
  {
    "\n" + ("```python" + ("\n" + (c + ("\n" + ("```" + ("\n" + ("\n" + s)))))))
  }

  /** The same after the newline before each fence is doubled. */
  function FencedPadded(c: string, s: string): string
  {
    "\n" + ("\n" + ("```python" + ("\n" + (c + ("\n" + ("\n" + ("```" + ("\n" + ("\n" + s)))))))))
  }

  /** The same after the newline after the closing fence is doubled. */
  function FencedFinal(c: string, s: string): string
  {
    "\n" + ("\n" + ("```python" + ("\n" + (c + ("\n" + ("\n" + ("```" + ("\n" + ("\n" + ("\n" + s))))))))))
  }

  lemma FencedRawFlat(c: string, s: string)
    ensures FencedRaw(c, s) == "\n```python\n" + c + "\n```\n\n" + s
  {
  }

  /** No run of three newlines and no heading: the first two passes keep it. */
  lemma FencedRawKept(c: string, s: string)
    requires c != [] && '\n' !in c
    requires !(|c| >= 3 && c[0] == '#' && c[1] == '#' && c[2] == ' ')
    requires s != [] && '\n' !in s
    ensures SpaceHeadings(CollapseNewlines(FencedRaw(c, s))) == FencedRaw(c, s)
  {
    assert c[0] in c && s[0] in s;
    var r4 := "\n" + s;
    var r3 := "\n" + r4;
    var r2 := "```" + r3;
    var r1' := "\n" + r2;
    var r1 := c + r1';
    var r0' := "\n" + r1;
    var r0 := "```python" + r0';
    var j := "\n" + r0;
    assert j == FencedRaw(c, s);

    NoTriplePlainThen(s, []);
    assert s + [] == s;
    NoThreeCons('\n', s, '\n');
    NoThreeCons('\n', r4, '\n');
    NoTriplePlainThen("```", r3);
    NoThreeCons('\n', r2, '\n');
    NoTriplePlainThen(c, r1');
    NoThreeCons('\n', r1, '\n');
    NoTriplePlainThen("```python", r0');
    NoThreeCons('\n', r0, '\n');
    assert Newlines(0) + j == j;
    CollapseNewlinesIdentity(j, 0);

    SpaceHeadingsLastLine(s);
    SpaceHeadingsNewline(r4);
    SpaceHeadingsSkips("```", r3);
    SpaceHeadingsNewline(r2);
    SpaceHeadingsSkips(c, r1');
    assert r1[0] == c[0];
    assert |c| >= 2 ==> r1[1] == c[1];
    assert |c| == 1 ==> r1[1] == '\n';
    assert |c| >= 3 ==> r1[2] == c[2];
    assert |c| == 2 ==> r1[2] == '\n';
    SpaceHeadingsNewline(r1);
    SpaceHeadingsSkips("```python", r0');
    SpaceHeadingsNewline(r0);
  }

  /** The third pass after the opening fence: the newline before the closing
      fence is doubled. */
  lemma FencedPadBeforeInner(c: string, s: string)
    requires c != [] && '\n' !in c && '`' !in c
    requires s != [] && '\n' !in s && '`' !in s
    ensures PadBeforeFences("\n" + (c + ("\n" + ("```" + ("\n" + ("\n" + s)))))) ==
      "\n" + (c + ("\n" + ("\n" + ("```" + ("\n" + ("\n" + s))))))
  {
    assert c[0] in c && s[0] in s;
    var r3 := "\n" + ("\n" + s);
    var r1' := "\n" + ("```" + r3);
    PadBeforeFencesIdentity(s);
    PadBeforeFencesNewline(s);
    PadBeforeFencesNewline("\n" + s);
    PadBeforeFencesAtFence(r3);
    PadBeforeFencesSkips(c, r1');
    PadBeforeFencesNewline(c + r1');
  }

  /** The third pass doubles the newline before both fences. */
  lemma FencedPadBefore(c: string, s: string)
    requires c != [] && '\n' !in c && '`' !in c
    requires s != [] && '\n' !in s && '`' !in s
    ensures PadBeforeFences(FencedRaw(c, s)) == FencedPadded(c, s)
  {
    var r0' := "\n" + (c + ("\n" + ("```" + ("\n" + ("\n" + s)))));
    FencedPadBeforeInner(c, s);
    PadBeforeFencesSkips("python", r0');
    assert "```python" + r0' == "```" + ("python" + r0');
    PadBeforeFencesAtFence("python" + r0');
    assert "\n" + ("\n" + ("```" + ("python" + PadBeforeFences(r0')))) ==
      "\n" + ("\n" + ("```python" + PadBeforeFences(r0')));
  }

  /** The fourth pass doubles the newline after the closing fence only: the
      opening fence is followed by its language tag. */
  lemma FencedPadAfter(c: string, s: string)
    requires '`' !in c && '`' !in s
    ensures PadAfterFences(FencedPadded(c, s)) == FencedFinal(c, s)
  {
    var tail := "\n" + s;
    PadAfterFencesIdentity(tail);
    PadAfterFencesAtFence(tail);
    var r := "```" + ("\n" + tail);
    PadAfterFencesSkips("\n", r);
    PadAfterFencesSkips("\n", "\n" + r);
    PadAfterFencesSkips(c, "\n" + ("\n" + r));
    PadAfterFencesSkips("\n", c + ("\n" + ("\n" + r)));
    var q := "\n" + (c + ("\n" + ("\n" + r)));
    PadAfterFencesOpening(q);
    PadAfterFencesSkips("\n", "```python" + q);
    PadAfterFencesSkips("\n", "\n" + ("```python" + q));
  }

  lemma FencedFinalStrip(c: string, s: string)
    requires s != [] && !IsSpace(s[|s| - 1])
    ensures Strip(FencedFinal(c, s)) == "```python\n" + c + "\n\n```\n\n\n" + s
  {
    var out := "```python\n" + c + "\n\n```\n\n\n" + s;
    assert FencedFinal(c, s) == "\n\n" + out + [];
    assert out[|out| - 1] == s[|s| - 1];
    StripAround("\n\n", out, []);
  }

  /** The rewrites on a code block of one line followed by one line of text:
      the padding before and after the closing fence adds up to three
      newlines, which the earlier collapse can no longer remove. */
  lemma FencedThenText(c: string, s: string)
    requires c != [] && '\n' !in c && '`' !in c
    requires !(|c| >= 3 && c[0] == '#' && c[1] == '#' && c[2] == ' ')
    requires s != [] && '\n' !in s && '`' !in s && !IsSpace(s[|s| - 1])
    ensures Strip(Respaced(FencedRaw(c, s))) == "```python\n" + c + "\n\n```\n\n\n" + s
  {
    FencedRawKept(c, s);
    FencedPadBefore(c, s);
    FencedPadAfter(c, s);
    FencedFinalStrip(c, s);
  }

  lemma JoinFour(a: string, b: string, c: string, d: string, sep: char)
    ensures Join([a, b, c, d], sep) == a + [sep] + (b + [sep] + (c + [sep] + d))
  {
    assert [a, b, c, d][1..] == [b, c, d];
    assert [b, c, d][1..] == [c, d];
    assert [c, d][1..] == [d];
    assert Join([d], sep) == d;
    assert Join([c, d], sep) == c + [sep] + d;
    assert Join([b, c, d], sep) == b + [sep] + (c + [sep] + d);
  }

  /** A prompt line is not empty and does not start with `## `. */
  lemma PromptNotHeading(c: string)
    requires IsPromptLine(c)
    ensures c != [] && !(|c| >= 3 && c[0] == '#' && c[1] == '#' && c[2] == ' ')
  {
  }

  /** The loop on a single line. */
  lemma OneStep(k: Option<Piece>)
    ensures PiecesOf([k]) == StepPieces(k, false)
    ensures InCodeAfter([k]) == StepInCode(k, false)
  {
    assert [k][..0] == [];
  }

  /** The pieces the loop emits for two lines, given its two steps. */
  lemma TwoSteps(k1: Option<Piece>, k2: Option<Piece>)
    ensures PiecesOf([k1, k2]) == StepPieces(k1, false) + StepPieces(k2, StepInCode(k1, false))
    ensures InCodeAfter([k1, k2]) == StepInCode(k2, StepInCode(k1, false))
  {
    assert [k1, k2][..1] == [k1];
    OneStep(k1);
  }

  /** Two lines, classified. */
  lemma KindsOfTwo(c: string, t: string)
    ensures Kinds([c, t]) == [Classify(c), Classify(t)]
  {
    KindAt([c, t], 0);
    KindAt([c, t], 1);
  }

  /** The pieces the loop emits for a prompt line followed by a text line. */
  lemma PromptThenTextPieces(c: string, t: string)
    requires !IsDropped(c) && IsPromptLine(c)
    requires !IsDropped(t) && !IsPromptLine(t)
    requires !IsTitle(Strip(t)) && !MatchesListPattern(Strip(t))
    ensures LinePass(Kinds([c, t])) == [OpenFence, Prompt(c), CloseFence, Paragraph(Strip(t))]
  {
    KindsOfTwo(c, t);
    assert Classify(c) == Some(Prompt(c));
    assert Classify(t) == Some(Paragraph(Strip(t)));
    PromptThenParagraph(Prompt(c), Paragraph(Strip(t)));
  }

  /** A prompt line, then a line that is not one: the block opened for the
      first is closed before the second. */
  lemma PromptThenParagraph(p: Piece, q: Piece)
    requires p.Prompt? && !q.Prompt?
    ensures LinePass([Some(p), Some(q)]) == [OpenFence, p, CloseFence, q]
  {
    TwoSteps(Some(p), Some(q));
  }

  /** What the loop joins for a prompt line followed by a text line. */
  lemma PromptThenTextStructured(c: string, t: string)
    requires '\n' !in c && '\n' !in t
    requires !IsDropped(c) && IsPromptLine(c)
    requires !IsDropped(t) && !IsPromptLine(t)
    requires !IsTitle(Strip(t)) && !MatchesListPattern(Strip(t))
    ensures Structured(c + "\n" + t) == FencedRaw(c, Strip(t))
  {
    TwoLines(c, t);
    PromptThenTextPieces(c, t);
    FencedJoin(c, Strip(t));
  }

  lemma FencedJoin(c: string, s: string)
    ensures Join(RenderAll([OpenFence, Prompt(c), CloseFence, Paragraph(s)]), '\n') == FencedRaw(c, s)
  {
    assert [OpenFence, Prompt(c), CloseFence, Paragraph(s)] == [OpenFence, Prompt(c)] + [CloseFence, Paragraph(s)];
    MapAppend(Render, [OpenFence, Prompt(c)], [CloseFence, Paragraph(s)]);
    MapPair(Render, OpenFence, Prompt(c));
    MapPair(Render, CloseFence, Paragraph(s));
    assert RenderAll([OpenFence, Prompt(c), CloseFence, Paragraph(s)]) == [OpenFenceText, c, CloseFenceText, s];
    JoinFour(OpenFenceText, c, CloseFenceText, s, '\n');
  }

  lemma TwoLines(c: string, t: string)
    requires '\n' !in c && '\n' !in t
    ensures Split(c + "\n" + t, '\n') == [c, t]
  {
    SplitAppend(c, t, '\n');
    SplitOfPlain(t, '\n');
    assert c + "\n" + t == c + ['\n'] + t;
  }

  /** A prompt line followed by an ordinary line: the prompt line is fenced as
      Python, and the closing fence ends up with a blank line before it and two
      after it, a run of three newlines. */
  lemma PromptThenText(c: string, t: string)
    requires '\n' !in c && '\n' !in t && '`' !in c && '`' !in t
    requires !IsDropped(c) && IsPromptLine(c)
    requires !IsDropped(t) && !IsPromptLine(t)
    requires !IsTitle(Strip(t)) && !MatchesListPattern(Strip(t))
    ensures Cleaned(c + "\n" + t) == "```python\n" + c + "\n\n```\n\n\n" + Strip(t)
  {
    PromptThenTextStructured(c, t);
    PromptNotHeading(c);
    StripKeepsOut(t, '\n');
    StripKeepsOut(t, '`');
    FencedThenText(c, Strip(t));
    assert Cleaned(c + "\n" + t) == Strip(Respaced(FencedRaw(c, Strip(t))));
  }

  // ---------------------------------------------------------------------------
  // Ordinary text: only dropping and stripping take effect
  // ---------------------------------------------------------------------------

  /** A line of text that none of the special cases touches: not a prompt, a
      title or a list item, not starting with `## ` once stripped, and without
      three backticks in a row. */
  predicate OrdinaryLine(line: string)
  {
    var s := Strip(line);
    !IsPromptLine(line) && !IsTitle(s) && !MatchesListPattern(s)
    && !(|s| >= 3 && s[0] == '#' && s[1] == '#' && s[2] == ' ')
    && NoFence(line)
  }

  /** A line the four rewrites leave alone once it is joined with others. */
  predicate QuietLine(x: string)
  {
    x != [] && '\n' !in x && !(|x| >= 3 && x[0] == '#' && x[1] == '#' && x[2] == ' ') && NoFence(x)
  }

  /** Text whose surviving lines are all ordinary cleans to those lines,
      stripped and joined by newlines: the loop emits each stripped line and
      the rewrites find nothing to change. */
  lemma OrdinaryTextCleaned(raw: string)
    requires forall line | line in Split(raw, '\n') :: IsDropped(line) || OrdinaryLine(line)
    ensures Cleaned(raw) == Join(Map(Strip, Survivors(Split(raw, '\n'))), '\n')
  {
    var lines := Split(raw, '\n');
    var sv := Survivors(lines);
    StrippedQuiet(lines);
    var j := Join(Map(Strip, sv), '\n');
    QuietCleaned(Map(Strip, sv));
    OrdinaryStructured(raw);
    assert Cleaned(raw) == Strip(Respaced(j));
  }

  /** The surviving lines of ordinary text, stripped, are quiet and trimmed. */
  lemma StrippedQuiet(lines: seq<string>)
    requires forall line | line in lines :: IsDropped(line) || OrdinaryLine(line)
    requires forall k | 0 <= k < |lines| :: '\n' !in lines[k]
    ensures forall k | 0 <= k < |Survivors(lines)| ::
      var q := Map(Strip, Survivors(lines))[k]; q != [] && QuietLine(q) && !IsSpace(q[0]) && !IsSpace(q[|q| - 1])
  {
    var sv := Survivors(lines);
    forall k | 0 <= k < |sv|
      ensures var q := Map(Strip, sv)[k]; q != [] && QuietLine(q) && !IsSpace(q[0]) && !IsSpace(q[|q| - 1])
    {
      assert sv[k] in lines;
      MapAt(Strip, sv, k);
      StrippedQuietLine(sv[k]);
    }
  }

  lemma StrippedQuietLine(line: string)
    requires !IsDropped(line) && OrdinaryLine(line) && '\n' !in line
    ensures var q := Strip(line); q != [] && QuietLine(q) && !IsSpace(q[0]) && !IsSpace(q[|q| - 1])
  {
    var q := Strip(line);
    StripKeepsOut(line, '\n');
    var a := LeadingSpace(line);
    NoThreeSlice(line, a, a + |q|, '`');
  }

  /** Quiet trimmed lines joined by newlines come through the rewrites and the
      final strip unchanged. */
  lemma QuietCleaned(qs: seq<string>)
    requires forall k | 0 <= k < |qs| :: qs[k] != [] && QuietLine(qs[k]) && !IsSpace(qs[k][0]) && !IsSpace(qs[k][|qs[k]| - 1])
    ensures Strip(Respaced(Join(qs, '\n'))) == Join(qs, '\n')
  {
    var j := Join(qs, '\n');
    if qs == [] {
      assert j == [];
      assert Respaced(j) == j;
    } else {
      QuietRespaced(qs);
      JoinLast(qs, '\n');
      assert j[0] == qs[0][0];
      StripOfTrimmed(j);
    }
  }

  /** Quiet lines joined by newlines come through the four rewrites unchanged. */
  lemma QuietRespaced(qs: seq<string>)
    requires |qs| >= 1
    requires forall k | 0 <= k < |qs| :: QuietLine(qs[k])
    ensures Respaced(Join(qs, '\n')) == Join(qs, '\n')
  {
    var j := Join(qs, '\n');
    QuietJoin(qs);
    assert Newlines(0) + j == j;
    CollapseNewlinesIdentity(j, 0);
    var c := CollapseNewlines(j);
    assert c == j;
    var h := SpaceHeadings(c);
    assert h == j;
    JoinNoThree(qs, '\n', '`');
    PadBeforeFencesIdentity(j);
    PadAfterFencesIdentity(j);
  }

  /** For ordinary text the loop emits exactly the stripped surviving lines. */
  lemma OrdinaryStructured(raw: string)
    requires forall line | line in Split(raw, '\n') :: IsDropped(line) || OrdinaryLine(line)
    ensures Structured(raw) == Join(Map(Strip, Survivors(Split(raw, '\n'))), '\n')
  {
    var lines := Split(raw, '\n');
    var ks := Kinds(lines);
    var sv := Survivors(lines);
    forall j | 0 <= j < |ks|
      ensures PlainKind(ks[j])
    {
      KindAt(lines, j);
      if !IsDropped(lines[j]) {
        assert lines[j] in lines;
        ShapeKeepsNoFence(lines[j]);
      }
    }
    NoPromptNoFence(ks);
    assert LinePass(ks) == PiecesOf(ks) + [];
    assert PiecesOf(ks) + [] == PiecesOf(ks);
    ContentInOrder(lines);
    ContentOfFenceFree(PiecesOf(ks));
    var ps := Shapes(sv);
    assert LinePass(ks) == ps;
    var rendered := RenderAll(ps);
    var qs := Map(Strip, sv);
    assert |rendered| == |qs|;
    forall k | 0 <= k < |qs|
      ensures rendered[k] == qs[k]
    {
      MapAt(Render, ps, k);
      MapAt(Strip, sv, k);
      assert sv[k] in lines;
    }
    assert rendered == qs;
  }

  /** Without fences, dropping the fences changes nothing. */
  lemma {:induction false} ContentOfFenceFree(ps: seq<Piece>)
    requires forall k | 0 <= k < |ps| :: !IsFence(ps[k])
    ensures Content(ps) == ps
  {
    if ps != [] {
      ContentOfFenceFree(ps[1..]);
      assert [ps[0]] + ps[1..] == ps;
    }
  }

  /** Quiet lines joined by newlines hold no run of three newlines and no `\n## `:
      the collapse and the heading pass leave them alone. */
  lemma {:induction false} QuietJoin(qs: seq<string>)
    requires |qs| >= 1
    requires forall k | 0 <= k < |qs| :: QuietLine(qs[k])
    ensures NoTripleNewline(Join(qs, '\n'))
    ensures SpaceHeadings(Join(qs, '\n')) == Join(qs, '\n')
  {
    var p := qs[0];
    if |qs| == 1 {
      NoTriplePlainThen(p, []);
      assert p + [] == p;
      SpaceHeadingsSkips(p, []);
    } else {
      var rest := qs[1..];
      var j := Join(rest, '\n');
      QuietJoin(rest);
      assert StartsWith(j, rest[0]);
      assert j[0] == rest[0][0];
      NoThreeCons('\n', j, '\n');
      assert Join(qs, '\n') == p + ("\n" + j);
      NoTriplePlainThen(p, "\n" + j);
      assert |rest[0]| >= 3 ==> j[..3] == rest[0][..3];
      SpaceHeadingsSkips(p, "\n" + j);
      SpaceHeadingsNewline(j);
    }
  }

  /** A join ends with the end of its last piece. */
  lemma {:induction false} JoinLast(ss: seq<string>, sep: char)
    requires |ss| >= 1 && ss[|ss| - 1] != []
    ensures var j := Join(ss, sep); var l := ss[|ss| - 1]; j != [] && j[|j| - 1] == l[|l| - 1]
  {
    if |ss| >= 2 {
      JoinLast(ss[1..], sep);
    }
  }
}
