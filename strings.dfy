/**
 * The Python `str` primitives the parser relies on, over `seq<char>`:
 * `str.isspace` (which is also what `\s` matches in `re`), `str.strip`,
 * `str.split(sep)`, `sep.join(...)`, `str.split()` with no argument,
 * `str.isdigit`, `str.lower`, `str.startswith`, and the case-insensitive
 * search that `re.search(phrase, s, re.IGNORECASE)` performs for a phrase
 * without metacharacters.
 */
module Strings {

  /** `str.isspace()` for one character: the Unicode whitespace characters
      (tab to carriage return, the four information separators, space, NEL,
      no-break space, ogham space, the en/em spaces, line and paragraph
      separators, narrow no-break space, medium mathematical space and the
      ideographic space). `\s` in a `str` pattern matches the same set. */
  predicate IsSpace(c: char)
  {
    ('\U{0009}' <= c <= '\U{000D}') || ('\U{001C}' <= c <= '\U{0020}') ||
    c == '\U{0085}' || c == '\U{00A0}' || c == '\U{1680}' ||
    ('\U{2000}' <= c <= '\U{200A}') || c == '\U{2028}' || c == '\U{2029}' ||
    c == '\U{202F}' || c == '\U{205F}' || c == '\U{3000}'
  }

  /** `[0-9]`: the digits that `str.isdigit` and `\d` accept (ASCII only in this model). */
  predicate IsDigit(c: char)
  {
    '0' <= c <= '9'
  }

  /** `[A-Z]` without `re.IGNORECASE`: the ASCII capital letters. */
  predicate IsUpperAscii(c: char)
  {
    'A' <= c <= 'Z'
  }

  predicate AllSpace(s: string)
  {
    forall i | 0 <= i < |s| :: IsSpace(s[i])
  }

  predicate NoSpace(s: string)
  {
    forall i | 0 <= i < |s| :: !IsSpace(s[i])
  }

  /** `s.isdigit()`: at least one character, and every character a digit. */
  predicate IsDigits(s: string)
  {
    |s| > 0 && forall i | 0 <= i < |s| :: IsDigit(s[i])
  }

  /** `s.startswith(p)`. */
  predicate StartsWith(s: string, p: string)
  {
    |p| <= |s| && s[..|p|] == p
  }

  /** Lower-casing of one character, as `str.lower` and `re.IGNORECASE` do it for
      the ASCII and Latin-1 capitals (the multiplication sign U+00D7 has no case). */
  function LowerChar(c: char): (d: char)
    ensures IsUpperAscii(c) ==> d as int == c as int + 32
    ensures '\U{00C0}' <= c <= '\U{00DE}' && c != '\U{00D7}' ==> d as int == c as int + 32
    ensures !IsUpperAscii(c) && !('\U{00C0}' <= c <= '\U{00DE}' && c != '\U{00D7}') ==> d == c
    ensures IsSpace(d) <==> IsSpace(c)
  {
    if IsUpperAscii(c) || ('\U{00C0}' <= c <= '\U{00DE}' && c != '\U{00D7}') then
      (c as int + 32) as char
    else
      c
  }

  /** `s.lower()`. */
  function Lower(s: string): (r: string)
    ensures |r| == |s|
    ensures forall i | 0 <= i < |s| :: r[i] == LowerChar(s[i])
  {
    seq(|s|, i requires 0 <= i < |s| => LowerChar(s[i]))
  }

  /** A capital letter that `str.lower` changes in this model. */
  predicate IsCapital(c: char)
  {
    IsUpperAscii(c) || ('\U{00C0}' <= c <= '\U{00DE}' && c != '\U{00D7}')
  }

  /** No capital survives lower-casing: each moves 32 code points up to its
      lower-case form, and every other character is kept. */
  lemma LowerLeavesNoCapital(s: string)
    ensures forall i | 0 <= i < |s| :: !IsCapital(Lower(s)[i])
    ensures forall i | 0 <= i < |s| && IsCapital(s[i]) :: Lower(s)[i] as int == s[i] as int + 32
    ensures forall i | 0 <= i < |s| && !IsCapital(s[i]) :: Lower(s)[i] == s[i]
  {
  }

  /** Lower-casing twice is lower-casing once. */
  lemma LowerIdempotent(s: string)
    ensures Lower(Lower(s)) == Lower(s)
  {
    LowerLeavesNoCapital(s);
    LowerLeavesNoCapital(Lower(s));
  }

  /** Number of whitespace characters at the front of `s`. */
  function LeadingSpace(s: string): (n: nat)
    ensures n <= |s|
    ensures forall i | 0 <= i < n :: IsSpace(s[i])
    ensures n < |s| ==> !IsSpace(s[n])
  {
    if s == [] || !IsSpace(s[0]) then 0 else 1 + LeadingSpace(s[1..])
  }

  /** Number of whitespace characters at the back of `s`. */
  function TrailingSpace(s: string): (n: nat)
    ensures n <= |s|
    ensures forall i | |s| - n <= i < |s| :: IsSpace(s[i])
    ensures n < |s| ==> !IsSpace(s[|s| - n - 1])
  {
    if s == [] || !IsSpace(s[|s| - 1]) then 0 else 1 + TrailingSpace(s[..|s| - 1])
  }

  /** `s.strip()`: the text between the leading and the trailing whitespace.
      It neither starts nor ends with whitespace, and everything of `s` after it
      is whitespace (everything before it is, by `LeadingSpace`). */
  function Strip(s: string): (r: string)
    ensures r == [] || (!IsSpace(r[0]) && !IsSpace(r[|r| - 1]))
    ensures LeadingSpace(s) + |r| <= |s|
    ensures r == s[LeadingSpace(s)..LeadingSpace(s) + |r|]
    ensures forall i | LeadingSpace(s) + |r| <= i < |s| :: IsSpace(s[i])
  {
    var a := LeadingSpace(s);
    if a == |s| then [] else s[a..|s| - TrailingSpace(s)]
  }

  /** A string that neither starts nor ends with whitespace is its own `strip()`. */
  lemma StripOfTrimmed(s: string)
    requires s == [] || (!IsSpace(s[0]) && !IsSpace(s[|s| - 1]))
    ensures Strip(s) == s
  {
  }

  /** A string made only of whitespace strips to the empty string. */
  lemma StripOfBlank(s: string)
    requires AllSpace(s)
    ensures Strip(s) == []
  {
  }

  /** Whitespace around a trimmed string is exactly what `strip()` removes. */
  lemma StripAround(w1: string, x: string, w2: string)
    requires AllSpace(w1) && AllSpace(w2)
    requires x != [] && !IsSpace(x[0]) && !IsSpace(x[|x| - 1])
    ensures Strip(w1 + x + w2) == x
  {
    var s := w1 + x + w2;
    var a := LeadingSpace(s);
    assert s[|w1|] == x[0];
    assert a == |w1|;
    var r := Strip(s);
    assert s[|w1| + |x| - 1] == x[|x| - 1];
    assert |r| == |x|;
    assert s[|w1|..|w1| + |x|] == x;
  }

  /** A character absent from `s` is absent from `s.strip()`. */
  lemma StripKeepsOut(s: string, c: char)
    requires c !in s
    ensures c !in Strip(s)
  {
    var r := Strip(s);
    forall i | 0 <= i < |r|
      ensures r[i] != c
    {
      assert r[i] == s[LeadingSpace(s) + i];
    }
  }

  /** Appending to a non-empty sequence, seen from its first element. */
  lemma ConsAppend<T>(x: seq<T>, y: seq<T>)
    requires x != []
    ensures x + y == [x[0]] + (x[1..] + y)
  {
    assert x == [x[0]] + x[1..];
  }

  /** `sep.join(ss)` for a one-character separator. */
  function Join(ss: seq<string>, sep: char): (r: string)
    ensures |ss| >= 1 ==> StartsWith(r, ss[0])
  {
    if |ss| == 0 then []
    else if |ss| == 1 then ss[0]
    else ss[0] + [sep] + Join(ss[1..], sep)
  }

  /** `s.split(sep)` for a one-character separator: never empty, and no piece
      contains the separator. */
  function Split(s: string, sep: char): (r: seq<string>)
    ensures |r| >= 1
    ensures forall k | 0 <= k < |r| :: sep !in r[k]
  {
    if s == [] then [[]]
    else
      var rest := Split(s[1..], sep);
      if s[0] == sep then [[]] + rest
      else [[s[0]] + rest[0]] + rest[1..]
  }

  /** Joining what `split` produced gives back the original string. */
  lemma {:induction false} JoinSplit(s: string, sep: char)
    ensures Join(Split(s, sep), sep) == s
  {
    if s != [] {
      var rest := Split(s[1..], sep);
      JoinSplit(s[1..], sep);
      if s[0] == sep {
        JoinSeparated(rest, sep);
      } else {
        JoinGlue(s[0], rest, sep);
      }
      assert s == [s[0]] + s[1..];
    }
  }

  /** An empty piece in front of others puts a separator in front of their join. */
  lemma JoinSeparated(rest: seq<string>, sep: char)
    requires |rest| >= 1
    ensures Join([[]] + rest, sep) == [sep] + Join(rest, sep)
  {
    var u := [[]] + rest;
    assert u[0] == [] && u[1..] == rest;
  }

  /** A character glued to the first piece comes first in the join. */
  lemma JoinGlue(c: char, rest: seq<string>, sep: char)
    requires |rest| >= 1
    ensures Join([[c] + rest[0]] + rest[1..], sep) == [c] + Join(rest, sep)
  {
    var u := [[c] + rest[0]] + rest[1..];
    assert u[0] == [c] + rest[0] && u[1..] == rest[1..];
  }

  /** Splitting a join of separator-free pieces gives back the pieces. */
  lemma {:induction false} SplitJoin(ss: seq<string>, sep: char)
    requires |ss| >= 1
    requires forall k | 0 <= k < |ss| :: sep !in ss[k]
    ensures Split(Join(ss, sep), sep) == ss
  {
    if |ss| == 1 {
      SplitOfPlain(ss[0], sep);
    } else {
      SplitJoin(ss[1..], sep);
      SplitAppend(ss[0], Join(ss[1..], sep), sep);
      assert [ss[0]] + ss[1..] == ss;
    }
  }

  /** The pieces of every string of `ss`, one string after the other. */
  function SplitEach(ss: seq<string>, sep: char): seq<string>
  {
    if ss == [] then [] else Split(ss[0], sep) + SplitEach(ss[1..], sep)
  }

  /** Splitting a join gives the pieces of each joined string in order: the
      lines of a newline-joined text are the lines of its parts. */
  lemma {:induction false} SplitOfJoin(ss: seq<string>, sep: char)
    requires |ss| >= 1
    ensures Split(Join(ss, sep), sep) == SplitEach(ss, sep)
  {
    if |ss| == 1 {
      assert ss[1..] == [];
    } else {
      SplitOfJoin(ss[1..], sep);
      SplitConcat(ss[0], Join(ss[1..], sep), sep);
    }
  }

  /** Splitting never introduces a character; joining introduces only the separator. */
  lemma {:induction false} SplitKeepsOut(s: string, sep: char, c: char)
    requires c !in s
    ensures forall k | 0 <= k < |Split(s, sep)| :: c !in Split(s, sep)[k]
  {
    if s != [] {
      assert forall x | x in s[1..] :: x in s;
      SplitKeepsOut(s[1..], sep, c);
    }
  }

  lemma {:induction false} JoinKeepsOut(ss: seq<string>, sep: char, c: char)
    requires c != sep
    requires forall k | 0 <= k < |ss| :: c !in ss[k]
    ensures c !in Join(ss, sep)
  {
    if |ss| > 1 {
      JoinKeepsOut(ss[1..], sep, c);
    }
  }

  /** A string without the separator splits into itself alone. */
  lemma {:induction false} SplitOfPlain(s: string, sep: char)
    requires sep !in s
    ensures Split(s, sep) == [s]
  {
    if s != [] {
      SplitOfPlain(s[1..], sep);
      assert [s[0]] + s[1..] == s;
    }
  }

  /** Splitting `a + [sep] + b`, where `a` has no separator, peels `a` off. */
  lemma {:induction false} SplitAppend(a: string, b: string, sep: char)
    requires sep !in a
    ensures Split(a + [sep] + b, sep) == [a] + Split(b, sep)
  {
    if a == [] {
      assert [] + [sep] + b == [sep] + b;
      assert ([sep] + b)[1..] == b;
    } else {
      SplitAppend(a[1..], b, sep);
      assert (a + [sep] + b)[1..] == a[1..] + [sep] + b;
      assert [a[0]] + a[1..] == a;
    }
  }

  /** Splitting at one separator splits the two sides independently. */
  lemma {:induction false} SplitConcat(a: string, b: string, sep: char)
    ensures Split(a + [sep] + b, sep) == Split(a, sep) + Split(b, sep)
  {
    if a == [] {
      assert a + [sep] + b == [sep] + b;
      SplitCons(sep, b, sep);
    } else {
      SplitConcat(a[1..], b, sep);
      SplitConcatStep(a, b, sep);
    }
  }

  /** The step of `SplitConcat` for a non-empty `a`, from the claim for `a[1..]`. */
  lemma SplitConcatStep(a: string, b: string, sep: char)
    requires a != []
    requires Split(a[1..] + [sep] + b, sep) == Split(a[1..], sep) + Split(b, sep)
    ensures Split(a + [sep] + b, sep) == Split(a, sep) + Split(b, sep)
  {
    var s := a + [sep] + b;
    assert s[0] == a[0];
    assert s[1..] == a[1..] + [sep] + b;
    GlueStep(a[0], sep, Split(a[1..], sep), Split(b, sep));
  }

  /** One character in front of the pieces `left + right`, as `Split` adds it. */
  lemma GlueStep(c: char, sep: char, left: seq<string>, right: seq<string>)
    requires |left| >= 1
    ensures (if c == sep then [[]] + (left + right) else [[c] + (left + right)[0]] + (left + right)[1..]) ==
      (if c == sep then [[]] + left else [[c] + left[0]] + left[1..]) + right
  {
    if c != sep {
      GlueFirst(c, left, right);
    }
  }

  /** How `Split` treats one more character in front. */
  lemma SplitCons(c: char, t: string, sep: char)
    ensures Split([c] + t, sep) ==
      if c == sep then [[]] + Split(t, sep)
      else [[c] + Split(t, sep)[0]] + Split(t, sep)[1..]
  {
    assert ([c] + t)[0] == c;
    assert ([c] + t)[1..] == t;
  }

  /** Gluing a character to the first piece commutes with appending pieces. */
  lemma GlueFirst(c: char, left: seq<string>, right: seq<string>)
    requires |left| >= 1
    ensures [[c] + (left + right)[0]] + (left + right)[1..] ==
      ([[c] + left[0]] + left[1..]) + right
  {
    assert (left + right)[1..] == left[1..] + right;
  }

  /** `len(s.split(sep)) == s.count(sep) + 1`. */
  function Count(s: string, c: char): nat
  {
    if s == [] then 0 else (if s[0] == c then 1 else 0) + Count(s[1..], c)
  }

  lemma {:induction false} SplitLength(s: string, sep: char)
    ensures |Split(s, sep)| == Count(s, sep) + 1
  {
    if s != [] {
      SplitLength(s[1..], sep);
    }
  }

  /** `s.split()` with no argument: the maximal runs of non-whitespace, in order. */
  function Words(s: string): (r: seq<string>)
    ensures s != [] && !IsSpace(s[0]) ==> |r| > 0
  {
    if s == [] then []
    else if IsSpace(s[0]) then Words(s[1..])
    else
      var rest := Words(s[1..]);
      if |s| > 1 && !IsSpace(s[1]) then [[s[0]] + rest[0]] + rest[1..]
      else [[s[0]]] + rest
  }

  /** Every word is non-empty and holds no whitespace, and text that starts
      with a non-whitespace character starts its first word. */
  lemma {:induction false} WordsShape(s: string)
    ensures forall k | 0 <= k < |Words(s)| :: Words(s)[k] != [] && NoSpace(Words(s)[k])
    ensures s != [] && !IsSpace(s[0]) ==> Words(s)[0][0] == s[0]
  {
    if s != [] {
      WordsShape(s[1..]);
    }
  }

  /** Number of word starts in `s`: non-whitespace characters whose predecessor
      is whitespace (`afterSpace` stands for the character before `s`). */
  function WordStarts(s: string, afterSpace: bool): nat
  {
    if s == [] then 0
    else (if afterSpace && !IsSpace(s[0]) then 1 else 0) + WordStarts(s[1..], IsSpace(s[0]))
  }

  /** `len(s.split())` counts the places where a word begins. */
  lemma {:induction false} WordsCount(s: string)
    ensures |Words(s)| == WordStarts(s, true)
  {
    if s != [] {
      WordsCount(s[1..]);
    }
  }

  /** The words, concatenated, are `s` with its whitespace removed. */
  function RemoveSpace(s: string): string
  {
    if s == [] then [] else (if IsSpace(s[0]) then [] else [s[0]]) + RemoveSpace(s[1..])
  }

  function Concat(ss: seq<string>): string
  {
    if ss == [] then [] else ss[0] + Concat(ss[1..])
  }

  lemma {:induction false} WordsConcat(s: string)
    ensures Concat(Words(s)) == RemoveSpace(s)
  {
    if s != [] {
      WordsConcat(s[1..]);
      var rest := Words(s[1..]);
      if !IsSpace(s[0]) && |s| > 1 && !IsSpace(s[1]) {
        assert Concat(rest) == rest[0] + Concat(rest[1..]);
        assert ([[s[0]] + rest[0]] + rest[1..])[1..] == rest[1..];
      } else if !IsSpace(s[0]) {
        assert ([[s[0]]] + rest)[1..] == rest;
      }
    }
  }

  /** Characters compare equal under `re.IGNORECASE` when their lower-case forms do. */
  predicate SameIgnoringCase(a: char, b: char)
  {
    LowerChar(a) == LowerChar(b)
  }

  /** `p` matches the front of `s`, character by character, ignoring case. */
  predicate PrefixIgnoringCase(p: string, s: string)
  {
    p == [] || (s != [] && SameIgnoringCase(s[0], p[0]) && PrefixIgnoringCase(p[1..], s[1..]))
  }

  predicate MatchesAt(s: string, i: int, p: string)
  {
    0 <= i && i + |p| <= |s| && forall j | 0 <= j < |p| :: SameIgnoringCase(s[i + j], p[j])
  }

  /** `re.search(p, s, re.IGNORECASE) is not None` for a phrase `p` without
      metacharacters, as a scan from the left. */
  predicate ContainsIgnoringCase(s: string, p: string): (b: bool)
    ensures b ==> |p| <= |s|
    ensures p == [] ==> b
  {
    if |s| < |p| then false
    else PrefixIgnoringCase(p, s) || ContainsIgnoringCase(s[1..], p)
  }

  /** Matching the front means matching at position 0. */
  lemma {:induction false} PrefixIgnoringCaseMeans(p: string, s: string)
    ensures PrefixIgnoringCase(p, s) <==> MatchesAt(s, 0, p)
  {
    if p != [] && s != [] {
      PrefixIgnoringCaseMeans(p[1..], s[1..]);
      if MatchesAt(s, 0, p) {
        assert forall j | 0 <= j < |p| - 1 :: s[1..][j] == s[j + 1] && p[1..][j] == p[j + 1];
      }
    }
  }

  /** A match in `s[1..]` is a match in `s` one position further on. */
  lemma MatchesShift(s: string, i: int, p: string)
    requires s != [] && 0 <= i
    ensures MatchesAt(s[1..], i, p) <==> MatchesAt(s, i + 1, p)
  {
    if i + |p| <= |s| - 1 {
      var r := s[1..];
      if MatchesAt(r, i, p) {
        forall j | 0 <= j < |p|
          ensures SameIgnoringCase(s[i + 1 + j], p[j])
        {
          assert r[i + j] == s[i + 1 + j];
        }
      }
      if MatchesAt(s, i + 1, p) {
        forall j | 0 <= j < |p|
          ensures SameIgnoringCase(r[i + j], p[j])
        {
          assert r[i + j] == s[i + 1 + j];
        }
      }
    }
  }

  /** The scan finds the phrase exactly when it occurs somewhere in `s`. */
  lemma {:induction false} ContainsIgnoringCaseMeans(s: string, p: string)
    ensures ContainsIgnoringCase(s, p) <==> exists i :: MatchesAt(s, i, p)
  {
    if |s| >= |p| && s == [] {
      PrefixIgnoringCaseMeans(p, s);
    } else if |s| >= |p| {
      PrefixIgnoringCaseMeans(p, s);
      ContainsIgnoringCaseMeans(s[1..], p);
      forall i | MatchesAt(s[1..], i, p)
        ensures MatchesAt(s, i + 1, p)
      {
        MatchesShift(s, i, p);
      }
      forall i | MatchesAt(s, i, p) && i != 0
        ensures MatchesAt(s[1..], i - 1, p)
      {
        MatchesShift(s, i - 1, p);
      }
    } else {
      assert forall i :: !MatchesAt(s, i, p);
    }
  }

  // ---------------------------------------------------------------------------
  // Runs of three equal characters
  // ---------------------------------------------------------------------------

  /** No three copies of `c` in a row anywhere in `s`. */
  predicate NoThreeInRow(s: string, c: char)
  {
    forall i | 0 <= i < |s| - 2 :: !(s[i] == c && s[i + 1] == c && s[i + 2] == c)
  }

  /** A character put in front that does not complete a run of three. */
  lemma NoThreeCons(x: char, u: string, c: char)
    requires NoThreeInRow(u, c)
    requires !(x == c && |u| >= 2 && u[0] == c && u[1] == c)
    ensures NoThreeInRow([x] + u, c)
  {
    assert forall i | 1 <= i < |u| + 1 :: ([x] + u)[i] == u[i - 1];
  }

  /** No run in a string means none in any piece of it. */
  lemma NoThreeSlice(s: string, a: nat, b: nat, c: char)
    requires a <= b <= |s|
    requires NoThreeInRow(s, c)
    ensures NoThreeInRow(s[a..b], c)
  {
    var r := s[a..b];
    forall i | 0 <= i < |r| - 2
      ensures !(r[i] == c && r[i + 1] == c && r[i + 2] == c)
    {
      assert r[i] == s[a + i] && r[i + 1] == s[a + i + 1] && r[i + 2] == s[a + i + 2];
    }
  }

  /** A prefix without `c` cannot take part in a run. */
  lemma NoThreeAfterOther(p: string, u: string, c: char)
    requires c !in p
    requires NoThreeInRow(u, c)
    ensures NoThreeInRow(p + u, c)
  {
    var s := p + u;
    forall i | 0 <= i < |s| - 2
      ensures !(s[i] == c && s[i + 1] == c && s[i + 2] == c)
    {
      if i < |p| {
        assert s[i] == p[i] && p[i] in p;
      } else {
        assert s[i] == u[i - |p|] && s[i + 1] == u[i + 1 - |p|] && s[i + 2] == u[i + 2 - |p|];
      }
    }
  }

  /** Two strings without a run, glued by a character other than `c`. */
  lemma NoThreeAround(a: string, x: char, b: string, c: char)
    requires NoThreeInRow(a, c) && NoThreeInRow(b, c) && x != c
    ensures NoThreeInRow(a + [x] + b, c)
  {
    var s := a + [x] + b;
    forall i | 0 <= i < |s| - 2
      ensures !(s[i] == c && s[i + 1] == c && s[i + 2] == c)
    {
      if i + 2 < |a| {
        assert s[i] == a[i] && s[i + 1] == a[i + 1] && s[i + 2] == a[i + 2];
      } else if i <= |a| {
        assert s[|a|] == x;
      } else {
        assert s[i] == b[i - |a| - 1] && s[i + 1] == b[i - |a|] && s[i + 2] == b[i - |a| + 1];
      }
    }
  }

  /** Joining pieces without a run, with a separator other than `c`, makes none. */
  lemma {:induction false} JoinNoThree(ss: seq<string>, sep: char, c: char)
    requires sep != c
    requires forall k | 0 <= k < |ss| :: NoThreeInRow(ss[k], c)
    ensures NoThreeInRow(Join(ss, sep), c)
  {
    if |ss| > 1 {
      JoinNoThree(ss[1..], sep, c);
      NoThreeAround(ss[0], sep, Join(ss[1..], sep), c);
    }
  }

  /** Every piece of a join without a run has none either. */
  lemma {:induction false} JoinPiecesNoThree(ss: seq<string>, sep: char, c: char)
    requires NoThreeInRow(Join(ss, sep), c)
    ensures forall k | 0 <= k < |ss| :: NoThreeInRow(ss[k], c)
  {
    if |ss| > 1 {
      var j := Join(ss, sep);
      var t := Join(ss[1..], sep);
      assert j == ss[0] + [sep] + t;
      NoThreeSlice(j, 0, |ss[0]|, c);
      assert j[0..|ss[0]|] == ss[0];
      NoThreeSlice(j, |ss[0]| + 1, |j|, c);
      assert j[|ss[0]| + 1..|j|] == t;
      JoinPiecesNoThree(ss[1..], sep, c);
      forall k | 1 <= k < |ss|
        ensures NoThreeInRow(ss[k], c)
      {
        assert ss[k] == ss[1..][k - 1];
      }
    }
  }

  /** The lines of a string without a run have none either. */
  lemma SplitNoThree(s: string, sep: char, c: char)
    requires NoThreeInRow(s, c)
    ensures forall k | 0 <= k < |Split(s, sep)| :: NoThreeInRow(Split(s, sep)[k], c)
  {
    JoinSplit(s, sep);
    JoinPiecesNoThree(Split(s, sep), sep, c);
  }

  /** A string without `c` has no run of it. */
  lemma NoThreeWithout(s: string, c: char)
    requires c !in s
    ensures NoThreeInRow(s, c)
  {
    assert forall i | 0 <= i < |s| :: s[i] in s;
  }

  /** Index of the last occurrence of `c` in `s`, or -1 when there is none
      (`s.rfind(c)`). */
  function LastIndexOf(s: string, c: char): (k: int)
    ensures -1 <= k < |s|
    ensures k >= 0 ==> s[k] == c
    ensures forall j | k < j < |s| :: s[j] != c
  {
    if s == [] then -1
    else if s[|s| - 1] == c then |s| - 1
    else LastIndexOf(s[..|s| - 1], c)
  }
}
