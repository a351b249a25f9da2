/**
 * What `limpiar_y_estructurar_texto` (src/parser_core.py:22-80) guarantees,
 * stated about the functions the loop of `Cleaner.CleanAndStructure` is
 * proved equal to: the fences it emits balance, the surviving lines come out
 * in order and each in the shape its classification gives, dropped lines
 * change nothing, and the spacing of the final text.
 */
module CleanerFacts {
  import opened Wrappers
  import opened Seqs
  import opened Strings
  import opened Rewrites
  import opened Cleaner

  // ---------------------------------------------------------------------------
  // Fences
  // ---------------------------------------------------------------------------

  /** Reads emitted pieces with a fence either open or closed: an opening fence
      only when closed, a closing fence only when open, prompt lines only
      inside a block and every other line only outside one. `None` as soon as
      a piece breaks this; otherwise whether a block is open at the end. */
  function FenceWalk(ps: seq<Piece>, open: bool): Option<bool>
  {
    if ps == [] then Some(open)
    else
      var p := ps[0];
      if p.OpenFence? then (if open then None else FenceWalk(ps[1..], true))
      else if p.CloseFence? then (if open then FenceWalk(ps[1..], false) else None)
      else if p.Prompt? then (if open then FenceWalk(ps[1..], true) else None)
      else (if open then None else FenceWalk(ps[1..], false))
  }

  lemma {:induction false} FenceWalkAppend(a: seq<Piece>, b: seq<Piece>, open: bool)
    ensures FenceWalk(a + b, open) ==
      (match FenceWalk(a, open) case None => None case Some(o) => FenceWalk(b, o))
  {
    if a == [] {
      assert a + b == b;
    } else {
      assert (a + b)[0] == a[0];
      assert (a + b)[1..] == a[1..] + b;
      FenceWalkAppend(a[1..], b, true);
      FenceWalkAppend(a[1..], b, false);
    }
  }

  /** One iteration keeps the pieces well fenced. */
  lemma StepFenced(k: Option<Piece>, open: bool)
    requires k.None? || !IsFence(k.value)
    ensures FenceWalk(StepPieces(k, open), open) == Some(StepInCode(k, open))
  {
    if k.Some? {
      var p := k.value;
      var step := StepPieces(k, open);
      assert FenceWalk([p], p.Prompt?) == Some(p.Prompt?);
      if p.Prompt? && !open {
        assert step[1..] == [p];
      } else if !p.Prompt? && open {
        assert step[1..] == [p];
      }
    }
  }

  /** While the loop runs, its pieces are well fenced and `in_code_block` says
      whether a block is open. */
  lemma {:induction false} PiecesFenced(ks: seq<Option<Piece>>)
    requires NoFenceKinds(ks)
    ensures FenceWalk(PiecesOf(ks), false) == Some(InCodeAfter(ks))
  {
    if ks != [] {
      var init := ks[..|ks| - 1];
      var k := ks[|ks| - 1];
      assert NoFenceKinds(init) by {
        forall i | 0 <= i < |init| ensures init[i].None? || !IsFence(init[i].value) {
          assert init[i] == ks[i];
        }
      }
      PiecesFenced(init);
      FenceWalkAppend(PiecesOf(init), StepPieces(k, InCodeAfter(init)), false);
      StepFenced(k, InCodeAfter(init));
    }
  }

  /** `Classify` never yields a fence. */
  lemma KindsNoFence(lines: seq<string>)
    ensures NoFenceKinds(Kinds(lines))
  {
    forall i | 0 <= i < |lines|
      ensures Kinds(lines)[i].None? || !IsFence(Kinds(lines)[i].value)
    {
      KindAt(lines, i);
    }
  }

  /** The emitted pieces are well fenced and no block is left open: openers
      and closers alternate, starting with an opener and ending with a closer,
      prompt lines are all inside blocks and every other line outside. */
  lemma LinePassFenced(lines: seq<string>)
    ensures FenceWalk(LinePass(Kinds(lines)), false) == Some(false)
  {
    var ks := Kinds(lines);
    KindsNoFence(lines);
    PiecesFenced(ks);
    FenceWalkAppend(PiecesOf(ks), if InCodeAfter(ks) then [CloseFence] else [], false);
  }

  // ---------------------------------------------------------------------------
  // Surviving lines
  // ---------------------------------------------------------------------------

  /** The lines that are not dropped, in input order. */
  function Survivors(lines: seq<string>): (r: seq<string>)
    ensures |r| <= |lines|
    ensures forall k | 0 <= k < |r| :: !IsDropped(r[k])
    ensures forall x | x in r :: x in lines
  {
    if lines == [] then []
    else
      var line := lines[|lines| - 1];
      Survivors(lines[..|lines| - 1]) + (if IsDropped(line) then [] else [line])
  }

  /** Each line's shape, in order. */
  function Shapes(lines: seq<string>): (r: seq<Piece>)
    ensures |r| == |lines|
    ensures forall k | 0 <= k < |lines| :: r[k] == ShapeOf(lines[k])
  {
    seq(|lines|, k requires 0 <= k < |lines| => ShapeOf(lines[k]))
  }

  lemma ShapesSnoc(ls: seq<string>, x: string)
    ensures Shapes(ls + [x]) == Shapes(ls) + [ShapeOf(x)]
  {
  }

  /** The pieces of the lines that are not skipped are the shapes of the
      surviving lines. */
  lemma {:induction false} PresentOfKinds(lines: seq<string>)
    ensures Present(Kinds(lines)) == Shapes(Survivors(lines))
  {
    if lines != [] {
      var init := lines[..|lines| - 1];
      var line := lines[|lines| - 1];
      var ks := Kinds(lines);
      assert ks[..|ks| - 1] == Kinds(init);
      PresentOfKinds(init);
      if !IsDropped(line) {
        ShapesSnoc(Survivors(init), line);
      }
    }
  }

  /** A code block is open after the loop exactly when the last line that was
      not skipped is a prompt line. */
  lemma {:induction false} InCodeIffLastPresentIsPrompt(ks: seq<Option<Piece>>)
    ensures InCodeAfter(ks) <==> (var s := Present(ks); s != [] && s[|s| - 1].Prompt?)
  {
    if ks != [] {
      InCodeIffLastPresentIsPrompt(ks[..|ks| - 1]);
    }
  }

  /** A code block is open after the loop exactly when the last surviving line
      is a prompt line: dropped lines neither open nor close one. */
  lemma InCodeIffLastSurvivorIsPrompt(lines: seq<string>)
    ensures InCodeAfter(Kinds(lines)) <==>
      (var s := Survivors(lines); s != [] && IsPromptLine(s[|s| - 1]))
  {
    InCodeIffLastPresentIsPrompt(Kinds(lines));
    PresentOfKinds(lines);
  }

  /** The pieces that are not fences, in order. */
  function Content(ps: seq<Piece>): (r: seq<Piece>)
    ensures forall k | 0 <= k < |r| :: !IsFence(r[k])
  {
    if ps == [] then [] else (if IsFence(ps[0]) then [] else [ps[0]]) + Content(ps[1..])
  }

  lemma {:induction false} ContentAppend(a: seq<Piece>, b: seq<Piece>)
    ensures Content(a + b) == Content(a) + Content(b)
  {
    if a == [] {
      assert a + b == b;
    } else {
      assert (a + b)[0] == a[0];
      assert (a + b)[1..] == a[1..] + b;
      ContentAppend(a[1..], b);
    }
  }

  /** One iteration emits, apart from fences, the line's piece if it is not skipped. */
  lemma StepContent(k: Option<Piece>, open: bool)
    requires k.None? || !IsFence(k.value)
    ensures Content(StepPieces(k, open)) == (if k.None? then [] else [k.value])
  {
    if k.Some? {
      var p := k.value;
      var step := StepPieces(k, open);
      assert Content([p]) == [p];
      if p.Prompt? && !open {
        assert step[1..] == [p];
      } else if !p.Prompt? && open {
        assert step[1..] == [p];
      }
    }
  }

  lemma {:induction false} ContentOfPieces(ks: seq<Option<Piece>>)
    requires NoFenceKinds(ks)
    ensures Content(PiecesOf(ks)) == Present(ks)
  {
    if ks != [] {
      var init := ks[..|ks| - 1];
      var k := ks[|ks| - 1];
      assert NoFenceKinds(init) by {
        forall i | 0 <= i < |init| ensures init[i].None? || !IsFence(init[i].value) {
          assert init[i] == ks[i];
        }
      }
      ContentOfPieces(init);
      ContentAppend(PiecesOf(init), StepPieces(k, InCodeAfter(init)));
      StepContent(k, InCodeAfter(init));
    }
  }

  /** Apart from the fences, the loop emits exactly one piece per surviving
      line, in input order, each shaped by its own classification alone. */
  lemma ContentInOrder(lines: seq<string>)
    ensures Content(LinePass(Kinds(lines))) == Shapes(Survivors(lines))
  {
    var ks := Kinds(lines);
    KindsNoFence(lines);
    ContentOfPieces(ks);
    PresentOfKinds(lines);
    ContentAppend(PiecesOf(ks), if InCodeAfter(ks) then [CloseFence] else []);
    assert Content([CloseFence]) == [];
    assert PiecesOf(ks) + [] == PiecesOf(ks);
  }

  // ---------------------------------------------------------------------------
  // Dropped lines
  // ---------------------------------------------------------------------------

  /** The left fold depends on what it has seen only through the pieces emitted
      so far and whether a block is open: two prefixes that agree on both agree
      after any continuation. */
  lemma {:induction false} SameStateAppend(p: seq<Option<Piece>>, q: seq<Option<Piece>>, r: seq<Option<Piece>>)
    requires PiecesOf(p) == PiecesOf(q) && InCodeAfter(p) == InCodeAfter(q)
    ensures PiecesOf(p + r) == PiecesOf(q + r)
    ensures InCodeAfter(p + r) == InCodeAfter(q + r)
  {
    if r == [] {
      assert p + r == p;
      assert q + r == q;
    } else {
      var init := r[..|r| - 1];
      var x := r[|r| - 1];
      SameStateAppend(p, q, init);
      SnocAssoc(p, r);
      SnocAssoc(q, r);
      SnocStep(p + init, x);
      SnocStep(q + init, x);
    }
  }

  lemma SnocAssoc<T>(p: seq<T>, r: seq<T>)
    requires r != []
    ensures p + r == (p + r[..|r| - 1]) + [r[|r| - 1]]
  {
    assert r == r[..|r| - 1] + [r[|r| - 1]];
  }

  /** A skipped line anywhere changes nothing the loop emits: it does not
      close an open block either. */
  lemma SkipInvisible(before: seq<Option<Piece>>, after: seq<Option<Piece>>)
    ensures PiecesOf(before + [None] + after) == PiecesOf(before + after)
    ensures InCodeAfter(before + [None] + after) == InCodeAfter(before + after)
  {
    SnocStep(before, None);
    assert PiecesOf(before) + [] == PiecesOf(before);
    SameStateAppend(before + [None], before, after);
  }

  /** The lines of two texts joined around a line `d` without newlines. */
  lemma SplitAround(above: string, d: string, below: string)
    requires '\n' !in d
    ensures Split(above + "\n" + d + "\n" + below, '\n') ==
      Split(above, '\n') + [d] + Split(below, '\n')
  {
    assert above + "\n" + d + "\n" + below == above + ['\n'] + (d + ['\n'] + below);
    SplitConcat(above, d + ['\n'] + below, '\n');
    SplitAppend(d, below, '\n');
  }

  /** The lines of two texts joined with a newline. */
  lemma SplitJoined(above: string, below: string)
    ensures Split(above + "\n" + below, '\n') == Split(above, '\n') + Split(below, '\n')
  {
    assert above + "\n" + below == above + ['\n'] + below;
    SplitConcat(above, below, '\n');
  }

  /** Classifying lines around a dropped one. */
  lemma KindsAround(a: seq<string>, d: string, b: seq<string>)
    requires IsDropped(d)
    ensures Kinds(a + [d] + b) == Kinds(a) + [None] + Kinds(b)
    ensures Kinds(a + b) == Kinds(a) + Kinds(b)
  {
    MapAppend(Classify, a + [d], b);
    MapAppend(Classify, a, [d]);
    MapAppend(Classify, a, b);
    KindAt([d], 0);
  }

  /** A dropped line between two others vanishes from the result: for
      instance a page number alone on its line. */
  lemma DroppedLineVanishes(above: string, d: string, below: string)
    requires '\n' !in d && IsDropped(d)
    ensures Cleaned(above + "\n" + d + "\n" + below) == Cleaned(above + "\n" + below)
  {
    var a := Split(above, '\n');
    var b := Split(below, '\n');
    SplitAround(above, d, below);
    SplitJoined(above, below);
    KindsAround(a, d, b);
    SkipInvisible(Kinds(a), Kinds(b));
  }

  /** When every line is skipped, the loop emits nothing. */
  lemma {:induction false} AllSkippedEmitsNothing(ks: seq<Option<Piece>>)
    requires forall k | 0 <= k < |ks| :: ks[k].None?
    ensures PiecesOf(ks) == [] && !InCodeAfter(ks)
  {
    if ks != [] {
      var init := ks[..|ks| - 1];
      assert forall k | 0 <= k < |init| :: init[k] == ks[k];
      AllSkippedEmitsNothing(init);
    }
  }

  /** Input whose every line is dropped (empty, noise, page numbers) cleans to
      the empty string. */
  lemma AllDroppedGivesEmpty(raw: string)
    requires forall k | 0 <= k < |Split(raw, '\n')| :: IsDropped(Split(raw, '\n')[k])
    ensures Cleaned(raw) == ""
  {
    var lines := Split(raw, '\n');
    var ks := Kinds(lines);
    forall k | 0 <= k < |ks|
      ensures ks[k].None?
    {
      KindAt(lines, k);
    }
    AllSkippedEmitsNothing(ks);
    assert Structured(raw) == "";
  }

  /** Each line of a whitespace-only text is whitespace only. */
  lemma {:induction false} SplitOfBlank(s: string)
    requires AllSpace(s)
    ensures forall k | 0 <= k < |Split(s, '\n')| :: AllSpace(Split(s, '\n')[k])
  {
    if s != [] {
      SplitOfBlank(s[1..]);
    }
  }

  /** Empty or whitespace-only input cleans to the empty string. */
  lemma BlankGivesEmpty(raw: string)
    requires AllSpace(raw)
    ensures Cleaned(raw) == ""
  {
    SplitOfBlank(raw);
    var lines := Split(raw, '\n');
    forall k | 0 <= k < |lines|
      ensures IsDropped(lines[k])
    {
      StripOfBlank(lines[k]);
    }
    AllDroppedGivesEmpty(raw);
  }
}
