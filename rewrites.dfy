/**
 * The four global rewrites that finish `limpiar_y_estructurar_texto`
 * (src/parser_core.py:75-78), each written as the left-to-right scan that
 * `re.sub` performs: at each position the pattern is tried, a match is
 * replaced and scanning resumes after it, otherwise one character is copied.
 * Matches therefore never overlap, and what one match consumed is not seen
 * again by the same pass.
 */
module Rewrites {
  import opened Strings


  /** No three newlines in a row anywhere in `s`. */
  predicate NoTripleNewline(s: string)
  {
    NoThreeInRow(s, '\n')
  }

  /** No fence, three backticks in a row, anywhere in `s`. */
  predicate NoFence(s: string)
  {
    NoThreeInRow(s, '`')
  }

  /** `s` with every newline removed: the part of a text that none of the
      four passes changes. */
  function DropNewlines(s: string): string
  {
    if s == [] then [] else (if s[0] == '\n' then [] else [s[0]]) + DropNewlines(s[1..])
  }

  lemma {:induction false} DropNewlinesAppend(a: string, b: string)
    ensures DropNewlines(a + b) == DropNewlines(a) + DropNewlines(b)
  {
    if a == [] {
      assert a + b == b;
    } else {
      var h := if a[0] == '\n' then [] else [a[0]];
      calc {
        DropNewlines(a + b);
        { assert (a + b)[0] == a[0]; assert (a + b)[1..] == a[1..] + b; }
        h + DropNewlines(a[1..] + b);
        { DropNewlinesAppend(a[1..], b); }
        h + (DropNewlines(a[1..]) + DropNewlines(b));
        (h + DropNewlines(a[1..])) + DropNewlines(b);
      }
    }
  }

  /** Removing the newlines of a string made of newlines leaves nothing. */
  lemma {:induction false} DropNewlinesOfNewlines(s: string)
    requires forall i | 0 <= i < |s| :: s[i] == '\n'
    ensures DropNewlines(s) == []
  {
    if s != [] {
      DropNewlinesOfNewlines(s[1..]);
    }
  }

  /** `n` newlines. */
  function Newlines(n: nat): (r: string)
    ensures |r| == n
    ensures forall i | 0 <= i < n :: r[i] == '\n'
  {
    seq(n, _ => '\n')
  }

  // ---------------------------------------------------------------------------
  // Pass 1 (src/parser_core.py:75): re.sub(r'\n{3,}', '\n\n', text)
  // ---------------------------------------------------------------------------

  /** What a run of `n` newlines becomes: two when it has three or more. */
  function RunText(n: nat): (r: string)
    ensures |r| <= 2 && forall i | 0 <= i < |r| :: r[i] == '\n'
    ensures n > 0 ==> r != []
  {
    if n >= 3 then "\n\n" else Newlines(n)
  }

  /** The scan over the rest `s` of the text, `run` newlines having just been
      read and not yet written: a run is written out, shortened to two newlines
      when it has three or more, once the first character after it (or the end
      of the text) is reached; every other character is copied. */
  function CollapseFrom(s: string, run: nat): (r: string)
    ensures run == 0 && s != [] ==> r != [] && r[0] == s[0]
    ensures run > 0 ==> r != [] && r[0] == '\n'
    decreases |s|, run
  {
    if s != [] && s[0] == '\n' then CollapseFrom(s[1..], run + 1)
    else if run > 0 then RunText(run) + CollapseFrom(s, 0)
    else if s == [] then []
    else [s[0]] + CollapseFrom(s[1..], 0)
  }

  /** The whole pass: every maximal run of three or more newlines becomes
      exactly two; shorter runs and all other characters are copied. */
  function CollapseNewlines(s: string): (r: string)
    ensures NoTripleNewline(r)
    ensures DropNewlines(r) == DropNewlines(s)
  {
    CollapseNewlinesNoTriple(s, 0);
    CollapseNewlinesKeepsText(s, 0);
    CollapseFrom(s, 0)
  }

  /** The result never holds three newlines in a row. */
  lemma {:induction false} CollapseNewlinesNoTriple(s: string, run: nat)
    ensures NoTripleNewline(CollapseFrom(s, run))
    decreases |s|, run
  {
    if s != [] && s[0] == '\n' {
      CollapseNewlinesNoTriple(s[1..], run + 1);
    } else if run > 0 {
      CollapseNewlinesNoTriple(s, 0);
      var r := RunText(run);
      assert NoTripleNewline(r);
      NoTripleAppend(r, CollapseFrom(s, 0));
    } else if s != [] {
      CollapseNewlinesNoTriple(s[1..], 0);
      NoThreeCons(s[0], CollapseFrom(s[1..], 0), '\n');
    }
  }

  /** One more newline read: the run grows by one, and stays below three. */
  lemma RunGrows(s: string, run: nat)
    requires s != [] && s[0] == '\n'
    requires run <= 2 && NoTripleNewline(Newlines(run) + s)
    ensures Newlines(run + 1) + s[1..] == Newlines(run) + s
    ensures run + 1 <= 2
  {
    var t := Newlines(run) + s;
    assert Newlines(run + 1) == Newlines(run) + "\n";
    assert s == "\n" + s[1..];
    assert t[run] == s[0];
    assert |t| >= 3 ==> !(t[0] == '\n' && t[1] == '\n' && t[2] == '\n');
  }

  /** A run of fewer than three newlines ends: it is written as it was read. */
  lemma RunEnds(s: string, run: nat)
    requires run <= 2 && NoTripleNewline(Newlines(run) + s)
    ensures NoTripleNewline(Newlines(0) + s) && Newlines(0) + s == s
    ensures RunText(run) == Newlines(run)
  {
    var t := Newlines(run) + s;
    NoThreeSlice(t, run, |t|, '\n');
    assert t[run..|t|] == s;
    assert Newlines(0) + s == s;
  }

  /** A character other than a newline is copied. */
  lemma CopyStep(s: string)
    requires s != [] && NoTripleNewline(Newlines(0) + s)
    ensures NoTripleNewline(Newlines(0) + s[1..]) && Newlines(0) + s[1..] == s[1..]
    ensures [s[0]] + s[1..] == s
  {
    assert Newlines(0) + s == s;
    NoThreeSlice(s, 1, |s|, '\n');
    assert s[1..|s|] == s[1..];
    assert Newlines(0) + s[1..] == s[1..];
  }

  /** A text that already has no run of three newlines is left unchanged, so the
      pass is idempotent. Stated for the scan with a run of fewer than three
      newlines pending, which the text must not extend to three. */
  lemma {:induction false} CollapseNewlinesIdentity(s: string, run: nat)
    requires run <= 2 && NoTripleNewline(Newlines(run) + s)
    ensures CollapseFrom(s, run) == Newlines(run) + s
    decreases |s|, run
  {
    if s != [] && s[0] == '\n' {
      RunGrows(s, run);
      CollapseNewlinesIdentity(s[1..], run + 1);
    } else if run > 0 {
      RunEnds(s, run);
      CollapseNewlinesIdentity(s, 0);
    } else if s != [] {
      CopyStep(s);
      CollapseNewlinesIdentity(s[1..], 0);
    }
  }

  /** Newlines in front of a text do not count once newlines are dropped. */
  lemma DropNewlinesAfterRun(a: string, b: string)
    requires forall i | 0 <= i < |a| :: a[i] == '\n'
    ensures DropNewlines(a + b) == DropNewlines(b)
  {
    DropNewlinesAppend(a, b);
    DropNewlinesOfNewlines(a);
  }

  /** The pass only removes newlines. */
  lemma {:induction false} CollapseNewlinesKeepsText(s: string, run: nat)
    ensures DropNewlines(CollapseFrom(s, run)) == DropNewlines(s)
    decreases |s|, run
  {
    if s != [] && s[0] == '\n' {
      CollapseNewlinesKeepsText(s[1..], run + 1);
    } else if run > 0 {
      CollapseNewlinesKeepsText(s, 0);
      DropNewlinesAfterRun(RunText(run), CollapseFrom(s, 0));
    } else if s != [] {
      CollapseNewlinesKeepsText(s[1..], 0);
      DropNewlinesAppend([s[0]], CollapseFrom(s[1..], 0));
    }
  }

  /** Text that ends in a character other than a newline is scanned on its own:
      every run it holds ends inside it. */
  lemma {:induction false} CollapseSplitsAfter(x: string, rest: string, run: nat)
    requires x != [] && x[|x| - 1] != '\n'
    ensures CollapseFrom(x + rest, run) == CollapseFrom(x, run) + CollapseFrom(rest, 0)
    decreases |x|, run
  {
    var s := x + rest;
    assert s[0] == x[0];
    if x[0] == '\n' {
      assert s[1..] == x[1..] + rest;
      CollapseSplitsAfter(x[1..], rest, run + 1);
    } else if run > 0 {
      CollapseSplitsAfter(x, rest, 0);
    } else {
      assert s[1..] == x[1..] + rest;
      if |x| == 1 {
        assert x[1..] + rest == rest;
      } else {
        CollapseSplitsAfter(x[1..], rest, 0);
      }
    }
  }

  /** A run of `k` newlines, after `run` newlines already read, ended by a
      character other than a newline or by the end of the text. */
  lemma {:induction false} CollapseRun(k: nat, run: nat, z: string)
    requires z == [] || z[0] != '\n'
    ensures CollapseFrom(Newlines(k) + z, run) == RunText(run + k) + CollapseFrom(z, 0)
    decreases k
  {
    if k == 0 {
      assert Newlines(0) + z == z;
      assert Newlines(0) == [];
    } else {
      var s := Newlines(k) + z;
      assert s[0] == '\n';
      assert s[1..] == Newlines(k - 1) + z;
      CollapseRun(k - 1, run + 1, z);
    }
  }

  /** The value of the pass around one run of newlines: a run of three or more
      becomes exactly two newlines, a shorter run is kept, and the text on
      either side is collapsed on its own. */
  lemma CollapseNewlinesRun(x: string, k: nat, z: string)
    requires x == [] || x[|x| - 1] != '\n'
    requires z == [] || z[0] != '\n'
    ensures CollapseNewlines(x + Newlines(k) + z) ==
      CollapseNewlines(x) + (if k >= 3 then "\n\n" else Newlines(k)) + CollapseNewlines(z)
  {
    CollapseRun(k, 0, z);
    if x == [] {
      assert x + Newlines(k) + z == Newlines(k) + z;
    } else {
      assert x + Newlines(k) + z == x + (Newlines(k) + z);
      CollapseSplitsAfter(x, Newlines(k) + z, 0);
    }
  }

  /** When the scan is not inside a run, the first character written is the
      first read, and after a character other than a newline the second is
      the second read. */
  lemma CollapsePair(s: string)
    requires s != [] && s[0] != '\n'
    ensures var u := CollapseFrom(s, 0); |u| >= 2 ==> |s| >= 2 && u[1] == s[1]
  {
    if |s| >= 2 {
      assert s[1..] != [];
    }
  }

  /** The collapse makes no fence. */
  lemma {:induction false} CollapseKeepsNoFence(s: string, run: nat)
    requires NoFence(s)
    ensures NoFence(CollapseFrom(s, run))
    decreases |s|, run
  {
    if s != [] {
      NoThreeSlice(s, 1, |s|, '`');
      assert s[1..|s|] == s[1..];
    }
    if s != [] && s[0] == '\n' {
      CollapseKeepsNoFence(s[1..], run + 1);
    } else if run > 0 {
      CollapseKeepsNoFence(s, 0);
      var r := RunText(run);
      assert forall i | 0 <= i < |r| :: r[i] != '`';
      NoThreeAfterOther(r, CollapseFrom(s, 0), '`');
    } else if s != [] {
      var u := CollapseFrom(s[1..], 0);
      CollapseKeepsNoFence(s[1..], 0);
      if |s| >= 2 && |u| >= 2 && u[0] == '`' && u[1] == '`' {
        CollapsePair(s[1..]);
      }
      NoThreeCons(s[0], u, '`');
    }
  }

  // ---------------------------------------------------------------------------
  // Pass 2 (src/parser_core.py:76): re.sub(r'(\n## .*?)\n+', r'\1\n\n', text)
  // ---------------------------------------------------------------------------

  /** `\n## ` starts at the front of `s`. */
  predicate HeadingMarkAt(s: string)
  {
    |s| >= 4 && s[0] == '\n' && s[1] == '#' && s[2] == '#' && s[3] == ' '
  }

  /** Where the left-to-right scan stands: copying text between matches, inside
      the line of a match (the lazy `.*?`, which cannot cross a newline), or
      inside the newlines that end it (the greedy `\n+`). */
  datatype HeadingScan = Copying | InHeadingLine | InNewlineRun

  /** The scan from state `at` over the rest `s` of the text. A `\n## ` is
      written out as soon as it is seen: if its line is never ended by a
      newline there is no match, and the text is then copied unchanged, which is
      the same output. The newlines ending a matched line are replaced by exactly
      two, and the scan resumes at the first character after them, so what one
      match consumed is never the start of another. */
  function SpaceHeadingsFrom(s: string, at: HeadingScan): (r: string)
    ensures at.Copying? && s != [] ==> r != [] && r[0] == s[0]
    ensures at.InNewlineRun? ==> |r| >= 2 && r[0] == '\n' && r[1] == '\n'
    decreases |s|, if at.InNewlineRun? then 1 else 0
  {
    match at
    case Copying =>
      if s == [] then []
      else if HeadingMarkAt(s) then "\n## " + SpaceHeadingsFrom(s[4..], InHeadingLine)
      else [s[0]] + SpaceHeadingsFrom(s[1..], Copying)
    case InHeadingLine =>
      if s == [] then []
      else if s[0] == '\n' then SpaceHeadingsFrom(s[1..], InNewlineRun)
      else [s[0]] + SpaceHeadingsFrom(s[1..], InHeadingLine)
    case InNewlineRun =>
      if s != [] && s[0] == '\n' then SpaceHeadingsFrom(s[1..], InNewlineRun)
      else "\n\n" + SpaceHeadingsFrom(s, Copying)
  }

  /** The whole pass: the scan started in front of the text. */
  function SpaceHeadings(s: string): string
  {
    SpaceHeadingsFrom(s, Copying)
  }

  /** A character other than a newline cannot start a match and is copied. */
  lemma SpaceHeadingsCons(c: char, rest: string)
    requires c != '\n'
    ensures SpaceHeadings([c] + rest) == [c] + SpaceHeadings(rest)
  {
    assert ([c] + rest)[1..] == rest;
  }

  /** Text without newlines cannot start a match and is copied as it is. */
  lemma {:induction false} SpaceHeadingsSkips(x: string, rest: string)
    requires '\n' !in x
    ensures SpaceHeadings(x + rest) == x + SpaceHeadings(rest)
  {
    if x == [] {
      assert x + rest == rest;
    } else {
      assert x[0] in x;
      assert forall y | y in x[1..] :: y in x;
      SpaceHeadingsSkips(x[1..], rest);
      ConsAppend(x, rest);
      SpaceHeadingsCons(x[0], x[1..] + rest);
      ConsAppend(x, SpaceHeadings(rest));
    }
  }

  /** A newline that does not start `\n## ` is copied. */
  lemma SpaceHeadingsNewline(rest: string)
    requires !(|rest| >= 3 && rest[0] == '#' && rest[1] == '#' && rest[2] == ' ')
    ensures SpaceHeadings("\n" + rest) == "\n" + SpaceHeadings(rest)
  {
    assert ("\n" + rest)[1..] == rest;
  }

  /** Inside a heading line, text without newlines is copied. */
  lemma {:induction false} HeadingLineSkips(x: string, rest: string)
    requires '\n' !in x
    ensures SpaceHeadingsFrom(x + rest, InHeadingLine) == x + SpaceHeadingsFrom(rest, InHeadingLine)
  {
    if x == [] {
      assert x + rest == rest;
    } else {
      assert x[0] in x;
      assert forall y | y in x[1..] :: y in x;
      HeadingLineSkips(x[1..], rest);
      ConsAppend(x, rest);
      assert (x + rest)[1..] == x[1..] + rest;
      ConsAppend(x, SpaceHeadingsFrom(rest, InHeadingLine));
    }
  }

  /** The last line of a text is copied even when it starts with `## `: its
      `.*?\n+` finds no newline to end on. */
  lemma SpaceHeadingsLastLine(rest: string)
    requires '\n' !in rest
    ensures SpaceHeadings("\n" + rest) == "\n" + rest
  {
    var s := "\n" + rest;
    assert s[1..] == rest;
    if HeadingMarkAt(s) {
      var x := rest[3..];
      assert s[4..] == x;
      assert forall y | y in x :: y in rest;
      HeadingLineSkips(x, []);
      assert x + [] == x;
      assert "\n## " + x == s;
    } else {
      SpaceHeadingsSkips(rest, []);
      assert rest + [] == rest;
    }
  }

  /** `k` newlines and then text that does not start with one: the run ends and
      is replaced by two newlines. */
  lemma {:induction false} NewlineRunEnds(k: nat, z: string)
    requires z == [] || z[0] != '\n'
    ensures SpaceHeadingsFrom(Newlines(k) + z, InNewlineRun) == "\n\n" + SpaceHeadings(z)
  {
    if k == 0 {
      assert Newlines(k) + z == z;
    } else {
      var u := Newlines(k) + z;
      assert u[0] == '\n';
      assert u[1..] == Newlines(k - 1) + z;
      NewlineRunEnds(k - 1, z);
    }
  }

  /** A heading line reached through a newline and ended by `k >= 1` newlines is
      followed by exactly one blank line afterwards. */
  lemma HeadingPadded(x: string, k: nat, z: string)
    requires '\n' !in x && k >= 1
    requires z == [] || z[0] != '\n'
    ensures SpaceHeadings("\n## " + x + Newlines(k) + z) == "\n## " + x + "\n\n" + SpaceHeadings(z)
  {
    var u := Newlines(k - 1) + z;
    HeadingInput(x, k, z);
    MarkStep(x + ("\n" + u));
    HeadingLineSkips(x, "\n" + u);
    LineEndStep(u);
    NewlineRunEnds(k - 1, z);
    HeadingOutput(x, SpaceHeadings(z));
  }

  lemma HeadingInput(x: string, k: nat, z: string)
    requires k >= 1
    ensures "\n## " + x + Newlines(k) + z == "\n## " + (x + ("\n" + (Newlines(k - 1) + z)))
  {
    assert Newlines(k) == "\n" + Newlines(k - 1);
  }

  lemma HeadingOutput(x: string, y: string)
    ensures "\n## " + (x + ("\n\n" + y)) == "\n## " + x + "\n\n" + y
  {
  }

  /** `\n## ` is written out and the scan enters the heading line. */
  lemma MarkStep(m: string)
    ensures SpaceHeadings("\n## " + m) == "\n## " + SpaceHeadingsFrom(m, InHeadingLine)
  {
    assert ("\n## " + m)[4..] == m;
  }

  /** The newline ending a heading line starts the run of newlines. */
  lemma LineEndStep(u: string)
    ensures SpaceHeadingsFrom("\n" + u, InHeadingLine) == SpaceHeadingsFrom(u, InNewlineRun)
  {
    assert ("\n" + u)[1..] == u;
  }

  /** The match at one heading consumes the newlines in front of the next one, so
      a heading that immediately follows another is not padded (its own line
      keeps a single newline). */
  lemma ConsecutiveHeadings(x: string, y: string)
    requires '\n' !in x && '\n' !in y
    ensures SpaceHeadings("\n## " + x + "\n## " + y + "\n") == "\n## " + x + "\n\n## " + y + "\n"
  {
    var h := "## " + y;
    var z := h + "\n";
    calc {
      SpaceHeadings("\n## " + x + "\n## " + y + "\n");
      { assert Newlines(1) == "\n";
        assert "\n## " + x + "\n## " + y + "\n" == "\n## " + x + Newlines(1) + z; }
      SpaceHeadings("\n## " + x + Newlines(1) + z);
      { HeadingPadded(x, 1, z); }
      "\n## " + x + "\n\n" + SpaceHeadings(z);
      { assert forall i | 3 <= i < |h| :: h[i] == y[i - 3];
        SpaceHeadingsSkips(h, "\n");
        assert SpaceHeadings("\n") == "\n"; }
      "\n## " + x + "\n\n" + z;
      "\n## " + x + "\n\n## " + y + "\n";
    }
  }

  /** Without `\n## ` the pass changes nothing. */
  lemma {:induction false} SpaceHeadingsIdentity(s: string)
    requires forall i | 0 <= i < |s| :: !HeadingMarkAt(s[i..])
    ensures SpaceHeadings(s) == s
  {
    if s != [] {
      assert !HeadingMarkAt(s[0..]);
      assert s[0..] == s;
      assert forall i | 0 <= i < |s| - 1 :: s[1..][i..] == s[i + 1..];
      SpaceHeadingsIdentity(s[1..]);
      assert [s[0]] + s[1..] == s;
    }
  }

  /** The pass only adds or removes newlines, from whatever state the scan is in. */
  lemma {:induction false} SpaceHeadingsKeepsText(s: string, at: HeadingScan)
    ensures DropNewlines(SpaceHeadingsFrom(s, at)) == DropNewlines(s)
    decreases |s|, if at.InNewlineRun? then 1 else 0
  {
    match at
    case Copying =>
      if s == [] {
      } else if HeadingMarkAt(s) {
        SpaceHeadingsKeepsText(s[4..], InHeadingLine);
        DropNewlinesAppend("\n## ", SpaceHeadingsFrom(s[4..], InHeadingLine));
        assert s == "\n## " + s[4..];
        DropNewlinesAppend("\n## ", s[4..]);
      } else {
        SpaceHeadingsKeepsText(s[1..], Copying);
        DropNewlinesAppend([s[0]], SpaceHeadingsFrom(s[1..], Copying));
      }
    case InHeadingLine =>
      if s == [] {
      } else if s[0] == '\n' {
        SpaceHeadingsKeepsText(s[1..], InNewlineRun);
      } else {
        SpaceHeadingsKeepsText(s[1..], InHeadingLine);
        DropNewlinesAppend([s[0]], SpaceHeadingsFrom(s[1..], InHeadingLine));
      }
    case InNewlineRun =>
      if s != [] && s[0] == '\n' {
        SpaceHeadingsKeepsText(s[1..], InNewlineRun);
      } else {
        SpaceHeadingsKeepsText(s, Copying);
        DropNewlinesAppend("\n\n", SpaceHeadingsFrom(s, Copying));
      }
  }

  /** Two texts without triple newlines can be joined when the second does not
      start with a newline. */
  lemma NoTripleAppend(a: string, b: string)
    requires NoTripleNewline(a) && NoTripleNewline(b)
    requires b == [] || b[0] != '\n'
    ensures NoTripleNewline(a + b)
  {
    assert forall i | 0 <= i < |a| :: (a + b)[i] == a[i];
    assert forall i | |a| <= i < |a| + |b| :: (a + b)[i] == b[i - |a|];
  }

  /** A text without triple newlines stays so behind `\n## `, which ends in a
      space. */
  lemma NoTripleAfterMark(u: string)
    requires NoTripleNewline(u)
    ensures NoTripleNewline("\n## " + u)
  {
    var s := "\n## " + u;
    assert forall i | 4 <= i < |s| :: s[i] == u[i - 4];
  }

  /** When copying, the second character written is a newline only if the second
      character read is one (a match starting at the front puts `#` there). */
  lemma SecondOfSpaceHeadings(s: string)
    requires |SpaceHeadings(s)| >= 2
    ensures |s| >= 2
    ensures SpaceHeadings(s)[1] == '\n' ==> s[1] == '\n'
  {
    if !HeadingMarkAt(s) {
      assert SpaceHeadings(s)[1..] == SpaceHeadings(s[1..]);
    }
  }

  /** Padding headings never creates a run of three newlines, from whatever
      state the scan is in. */
  lemma {:induction false} SpaceHeadingsNoTriple(s: string, at: HeadingScan)
    requires NoTripleNewline(s)
    ensures NoTripleNewline(SpaceHeadingsFrom(s, at))
    decreases |s|, if at.InNewlineRun? then 1 else 0
  {
    if s != [] {
      NoThreeSlice(s, 1, |s|, '\n');
      assert s[1..|s|] == s[1..];
    }
    match at
    case Copying =>
      if s == [] {
      } else if HeadingMarkAt(s) {
        NoThreeSlice(s, 4, |s|, '\n');
        assert s[4..|s|] == s[4..];
        SpaceHeadingsNoTriple(s[4..], InHeadingLine);
        NoTripleAfterMark(SpaceHeadingsFrom(s[4..], InHeadingLine));
      } else {
        var u := SpaceHeadingsFrom(s[1..], Copying);
        SpaceHeadingsNoTriple(s[1..], Copying);
        if |u| >= 2 {
          SecondOfSpaceHeadings(s[1..]);
          assert !(s[0] == '\n' && s[1] == '\n' && s[2] == '\n');
        }
        NoThreeCons(s[0], u, '\n');
      }
    case InHeadingLine =>
      if s == [] {
      } else if s[0] == '\n' {
        SpaceHeadingsNoTriple(s[1..], InNewlineRun);
      } else {
        SpaceHeadingsNoTriple(s[1..], InHeadingLine);
        NoThreeCons(s[0], SpaceHeadingsFrom(s[1..], InHeadingLine), '\n');
      }
    case InNewlineRun =>
      if s != [] && s[0] == '\n' {
        SpaceHeadingsNoTriple(s[1..], InNewlineRun);
      } else {
        SpaceHeadingsNoTriple(s, Copying);
        NoTripleAppend("\n\n", SpaceHeadingsFrom(s, Copying));
      }
  }

  /** Outside a run of newlines, the scan writes first what it reads first, and
      after a character other than a newline it writes the second character
      read. */
  lemma SpaceHeadingsFront(s: string, at: HeadingScan)
    requires s != [] && !at.InNewlineRun?
    ensures var u := SpaceHeadingsFrom(s, at); u != [] && u[0] == s[0]
    ensures var u := SpaceHeadingsFrom(s, at); s[0] != '\n' && |u| >= 2 ==> |s| >= 2 && u[1] == s[1]
  {
    if at.InHeadingLine? && s[0] != '\n' && |s| >= 2 {
      SpaceHeadingsFront(s[1..], InHeadingLine);
    }
  }

  /** The heading pass makes no fence, from whatever state the scan is in. */
  lemma {:induction false} SpaceHeadingsKeepsNoFence(s: string, at: HeadingScan)
    requires NoFence(s)
    ensures NoFence(SpaceHeadingsFrom(s, at))
    decreases |s|, if at.InNewlineRun? then 1 else 0
  {
    if s != [] {
      NoThreeSlice(s, 1, |s|, '`');
      assert s[1..|s|] == s[1..];
    }
    match at
    case Copying =>
      if s == [] {
      } else if HeadingMarkAt(s) {
        NoThreeSlice(s, 4, |s|, '`');
        assert s[4..|s|] == s[4..];
        SpaceHeadingsKeepsNoFence(s[4..], InHeadingLine);
        NoThreeAfterOther("\n## ", SpaceHeadingsFrom(s[4..], InHeadingLine), '`');
      } else {
        var u := SpaceHeadingsFrom(s[1..], Copying);
        SpaceHeadingsKeepsNoFence(s[1..], Copying);
        if |s| >= 2 && |u| >= 2 && u[0] == '`' && u[1] == '`' {
          SpaceHeadingsFront(s[1..], Copying);
        }
        NoThreeCons(s[0], u, '`');
      }
    case InHeadingLine =>
      if s == [] {
      } else if s[0] == '\n' {
        SpaceHeadingsKeepsNoFence(s[1..], InNewlineRun);
      } else {
        var u := SpaceHeadingsFrom(s[1..], InHeadingLine);
        SpaceHeadingsKeepsNoFence(s[1..], InHeadingLine);
        if |s| >= 2 && |u| >= 2 && u[0] == '`' && u[1] == '`' {
          SpaceHeadingsFront(s[1..], InHeadingLine);
        }
        NoThreeCons(s[0], u, '`');
      }
    case InNewlineRun =>
      if s != [] && s[0] == '\n' {
        SpaceHeadingsKeepsNoFence(s[1..], InNewlineRun);
      } else {
        SpaceHeadingsKeepsNoFence(s, Copying);
        NoThreeAfterOther("\n\n", SpaceHeadingsFrom(s, Copying), '`');
      }
  }

  // ---------------------------------------------------------------------------
  // Pass 3 (src/parser_core.py:77): re.sub(r'\n(```)', r'\n\n\1', text)
  // ---------------------------------------------------------------------------

  /** A newline followed by three backticks starts at the front of `s`. */
  predicate NewlineFenceAt(s: string)
  {
    |s| >= 4 && s[0] == '\n' && s[1] == '`' && s[2] == '`' && s[3] == '`'
  }

  /** Every newline directly before a fence is doubled. */
  function PadBeforeFences(s: string): (r: string)
    ensures s != [] ==> r != [] && r[0] == s[0]
  {
    if s == [] then []
    else if NewlineFenceAt(s) then "\n\n```" + PadBeforeFences(s[4..])
    else [s[0]] + PadBeforeFences(s[1..])
  }

  /** Text without newlines is copied as it is. */
  lemma {:induction false} PadBeforeFencesSkips(x: string, rest: string)
    requires '\n' !in x
    ensures PadBeforeFences(x + rest) == x + PadBeforeFences(rest)
  {
    if x == [] {
      assert x + rest == rest;
    } else {
      assert x[0] in x;
      assert (x + rest)[0] == x[0];
      assert (x + rest)[1..] == x[1..] + rest;
      PadBeforeFencesSkips(x[1..], rest);
      assert [x[0]] + x[1..] == x;
    }
  }

  /** A newline before three backticks gets a second newline. */
  lemma PadBeforeFencesAtFence(rest: string)
    ensures PadBeforeFences("\n" + ("```" + rest)) == "\n" + ("\n" + ("```" + PadBeforeFences(rest)))
  {
    var s := "\n" + ("```" + rest);
    assert NewlineFenceAt(s);
    assert s[4..] == rest;
    assert "\n\n```" + PadBeforeFences(rest) == "\n" + ("\n" + ("```" + PadBeforeFences(rest)));
  }

  /** Any other newline is copied. */
  lemma PadBeforeFencesNewline(rest: string)
    requires !(|rest| >= 3 && rest[0] == '`' && rest[1] == '`' && rest[2] == '`')
    ensures PadBeforeFences("\n" + rest) == "\n" + PadBeforeFences(rest)
  {
    assert ("\n" + rest)[1..] == rest;
  }

  /** Without a fence the pass changes nothing. */
  lemma {:induction false} PadBeforeFencesIdentity(s: string)
    requires NoFence(s)
    ensures PadBeforeFences(s) == s
  {
    if s != [] {
      assert |s| >= 4 ==> !(s[1] == '`' && s[2] == '`' && s[3] == '`');
      NoThreeSlice(s, 1, |s|, '`');
      assert s[1..|s|] == s[1..];
      PadBeforeFencesIdentity(s[1..]);
      assert [s[0]] + s[1..] == s;
    }
  }

  /** The pass only adds newlines. */
  lemma {:induction false} PadBeforeFencesKeepsText(s: string)
    ensures DropNewlines(PadBeforeFences(s)) == DropNewlines(s)
  {
    if s != [] {
      if NewlineFenceAt(s) {
        PadBeforeFencesKeepsText(s[4..]);
        DropNewlinesAppend("\n\n```", PadBeforeFences(s[4..]));
        DropNewlinesAppend(s[..4], s[4..]);
        assert s[..4] + s[4..] == s;
        assert s[..4] == "\n```";
      } else {
        PadBeforeFencesKeepsText(s[1..]);
        DropNewlinesAppend([s[0]], PadBeforeFences(s[1..]));
      }
    }
  }

  // ---------------------------------------------------------------------------
  // Pass 4 (src/parser_core.py:78): re.sub(r'(```)\n', r'\1\n\n', text)
  // ---------------------------------------------------------------------------

  /** Three backticks followed by a newline start at the front of `s`. */
  predicate FenceNewlineAt(s: string)
  {
    |s| >= 4 && s[0] == '`' && s[1] == '`' && s[2] == '`' && s[3] == '\n'
  }

  /** Every newline directly after a fence is doubled. */
  function PadAfterFences(s: string): (r: string)
    ensures s != [] ==> r != [] && r[0] == s[0]
  {
    if s == [] then []
    else if FenceNewlineAt(s) then "```\n\n" + PadAfterFences(s[4..])
    else [s[0]] + PadAfterFences(s[1..])
  }

  /** Text without backticks is copied as it is. */
  lemma {:induction false} PadAfterFencesSkips(x: string, rest: string)
    requires '`' !in x
    ensures PadAfterFences(x + rest) == x + PadAfterFences(rest)
  {
    if x == [] {
      assert x + rest == rest;
    } else {
      assert x[0] in x;
      assert (x + rest)[0] == x[0];
      assert (x + rest)[1..] == x[1..] + rest;
      PadAfterFencesSkips(x[1..], rest);
      assert [x[0]] + x[1..] == x;
    }
  }

  /** Three backticks before a newline get a second newline. */
  lemma PadAfterFencesAtFence(rest: string)
    ensures PadAfterFences("```" + ("\n" + rest)) == "```" + ("\n" + ("\n" + PadAfterFences(rest)))
  {
    var s := "```" + ("\n" + rest);
    assert FenceNewlineAt(s);
    assert s[4..] == rest;
    assert "```\n\n" + PadAfterFences(rest) == "```" + ("\n" + ("\n" + PadAfterFences(rest)));
  }

  /** An opening fence with a language tag is not followed by a newline and is copied. */
  lemma PadAfterFencesOpening(rest: string)
    ensures PadAfterFences("```python" + rest) == "```python" + PadAfterFences(rest)
  {
    PadAfterFencesPrefix("```python", rest);
  }

  /** A line that does not end in a backtick can end no fence, so it is copied
      as it is, backticks and all. */
  lemma {:induction false} PadAfterFencesPrefix(x: string, rest: string)
    requires '\n' !in x
    requires x != [] ==> x[|x| - 1] != '`'
    ensures PadAfterFences(x + rest) == x + PadAfterFences(rest)
  {
    if x == [] {
      assert x + rest == rest;
    } else {
      var s := x + rest;
      assert !FenceNewlineAt(s) by {
        if |x| >= 4 {
          assert s[3] == x[3] && x[3] in x;
        } else if |s| >= 4 {
          assert s[|x| - 1] == x[|x| - 1];
        }
      }
      assert s[1..] == x[1..] + rest;
      assert forall c | c in x[1..] :: c in x;
      PadAfterFencesPrefix(x[1..], rest);
      assert [x[0]] + x[1..] == x;
    }
  }

  /** Without a fence the pass changes nothing. */
  lemma {:induction false} PadAfterFencesIdentity(s: string)
    requires NoFence(s)
    ensures PadAfterFences(s) == s
  {
    if s != [] {
      assert |s| >= 3 ==> !(s[0] == '`' && s[1] == '`' && s[2] == '`');
      NoThreeSlice(s, 1, |s|, '`');
      assert s[1..|s|] == s[1..];
      PadAfterFencesIdentity(s[1..]);
      assert [s[0]] + s[1..] == s;
    }
  }

  /** Without a newline there is nothing to pad: the pass changes nothing,
      whatever backticks the text holds. */
  lemma {:induction false} PadAfterFencesPlain(s: string)
    requires '\n' !in s
    ensures PadAfterFences(s) == s
  {
    if s != [] {
      assert |s| >= 4 ==> s[3] in s;
      assert forall c | c in s[1..] :: c in s;
      PadAfterFencesPlain(s[1..]);
      assert [s[0]] + s[1..] == s;
    }
  }

  /** The pass only adds newlines. */
  lemma {:induction false} PadAfterFencesKeepsText(s: string)
    ensures DropNewlines(PadAfterFences(s)) == DropNewlines(s)
  {
    if s != [] {
      if FenceNewlineAt(s) {
        PadAfterFencesKeepsText(s[4..]);
        DropNewlinesAppend("```\n\n", PadAfterFences(s[4..]));
        DropNewlinesAppend(s[..4], s[4..]);
        assert s[..4] + s[4..] == s;
        assert s[..4] == "```\n";
        assert DropNewlines("```\n") == "```";
        assert DropNewlines("```\n\n") == "```";
      } else {
        PadAfterFencesKeepsText(s[1..]);
        DropNewlinesAppend([s[0]], PadAfterFences(s[1..]));
      }
    }
  }
}
