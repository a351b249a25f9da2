/**
 * Generic sequence helpers shared by the line pass and the extractors:
 * mapping a function over a sequence, concatenating a sequence of
 * sequences, and keeping the values that are present in a sequence of
 * options. Each is defined element by element from the back, the way a
 * loop that appends builds it.
 */
module Seqs {
  import opened Wrappers

  /** `f` applied to every element of `xs`, in order. */
  function Map<A, B>(f: A -> B, xs: seq<A>): (ys: seq<B>)
    ensures |ys| == |xs|
  {
    if xs == [] then [] else Map(f, xs[..|xs| - 1]) + [f(xs[|xs| - 1])]
  }

  lemma {:induction false} MapAt<A, B>(f: A -> B, xs: seq<A>, i: nat)
    requires i < |xs|
    ensures Map(f, xs)[i] == f(xs[i])
  {
    if i < |xs| - 1 {
      MapAt(f, xs[..|xs| - 1], i);
    }
  }

  lemma {:induction false} MapAppend<A, B>(f: A -> B, a: seq<A>, b: seq<A>)
    ensures Map(f, a + b) == Map(f, a) + Map(f, b)
  {
    if b == [] {
      assert a + b == a;
    } else {
      var u := a + b;
      assert u[..|u| - 1] == a + b[..|b| - 1];
      assert u[|u| - 1] == b[|b| - 1];
      MapAppend(f, a, b[..|b| - 1]);
    }
  }

  lemma MapSnoc<A, B>(f: A -> B, xs: seq<A>, x: A)
    ensures Map(f, xs + [x]) == Map(f, xs) + [f(x)]
  {
    assert (xs + [x])[..|xs|] == xs;
  }

  /** One more element of `xs` after `done`, as a loop over `xs` sees it. */
  lemma MapPrefixStep<A, B>(f: A -> B, done: seq<A>, xs: seq<A>, j: nat)
    requires j < |xs|
    ensures Map(f, done + xs[..j + 1]) == Map(f, done + xs[..j]) + [f(xs[j])]
  {
    assert done + xs[..j + 1] == (done + xs[..j]) + [xs[j]];
    MapSnoc(f, done + xs[..j], xs[j]);
  }

  lemma MapOne<A, B>(f: A -> B, x: A)
    ensures Map(f, [x]) == [f(x)]
  {
    assert [x][..0] == [];
  }

  lemma MapPair<A, B>(f: A -> B, x: A, y: A)
    ensures Map(f, [x, y]) == [f(x), f(y)]
  {
    assert [x, y][..1] == [x];
    MapOne(f, x);
  }

  /** The sequences of `xss` one after the other. */
  function Flatten<T>(xss: seq<seq<T>>): seq<T>
  {
    if xss == [] then [] else Flatten(xss[..|xss| - 1]) + xss[|xss| - 1]
  }

  lemma FlattenSnoc<T>(xss: seq<seq<T>>, xs: seq<T>)
    ensures Flatten(xss + [xs]) == Flatten(xss) + xs
  {
    assert (xss + [xs])[..|xss|] == xss;
  }

  lemma FlattenPrefixStep<T>(xss: seq<seq<T>>, i: nat)
    requires i < |xss|
    ensures Flatten(xss[..i + 1]) == Flatten(xss[..i]) + xss[i]
  {
    assert xss[..i + 1] == xss[..i] + [xss[i]];
    FlattenSnoc(xss[..i], xss[i]);
  }

  /** The values of the `Some` elements of `xs`, in order. */
  function Present<T>(xs: seq<Option<T>>): (ys: seq<T>)
    ensures |ys| <= |xs|
  {
    if xs == [] then []
    else
      var last := xs[|xs| - 1];
      Present(xs[..|xs| - 1]) + (if last.Some? then [last.value] else [])
  }

  lemma PresentSnoc<T>(xs: seq<Option<T>>, x: Option<T>)
    ensures Present(xs + [x]) == Present(xs) + (if x.Some? then [x.value] else [])
  {
    assert (xs + [x])[..|xs|] == xs;
  }

  /** One more element of `xs` after `done`, as a loop over `xs` sees it. */
  lemma PresentPrefixStep<T>(done: seq<Option<T>>, xs: seq<Option<T>>, j: nat)
    requires j < |xs|
    ensures Present(done + xs[..j + 1])
      == Present(done + xs[..j]) + (if xs[j].Some? then [xs[j].value] else [])
  {
    assert done + xs[..j + 1] == (done + xs[..j]) + [xs[j]];
    PresentSnoc(done + xs[..j], xs[j]);
  }

  lemma {:induction false} PresentAppend<T>(a: seq<Option<T>>, b: seq<Option<T>>)
    ensures Present(a + b) == Present(a) + Present(b)
  {
    if b == [] {
      assert a + b == a;
    } else {
      var u := a + b;
      assert u[..|u| - 1] == a + b[..|b| - 1];
      PresentAppend(a, b[..|b| - 1]);
    }
  }

  /** `Present` keeps exactly the values that occur in `xs`. */
  lemma {:induction false} PresentMembers<T>(xs: seq<Option<T>>, v: T)
    ensures v in Present(xs) <==> Some(v) in xs
  {
    if xs != [] {
      var init := xs[..|xs| - 1];
      PresentMembers(init, v);
      assert xs == init + [xs[|xs| - 1]];
    }
  }

  /** With nothing present, nothing is kept. */
  lemma {:induction false} PresentOfNone<T>(xs: seq<Option<T>>)
    requires forall i | 0 <= i < |xs| :: xs[i].None?
    ensures Present(xs) == []
  {
    if xs != [] {
      PresentOfNone(xs[..|xs| - 1]);
    }
  }
}
