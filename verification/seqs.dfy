/** Picking the elements of a sequence that a mask of flags marks. This is
    the shape of the `if let Some(..) { push(..) }` chains the program uses
    to build statement text and its parameter list side by side: two
    selections under the same mask line up element for element. */
module Seqs {

  /** The elements of `xs` whose flag in `mask` is set, in order. */
  function Select<T>(xs: seq<T>, mask: seq<bool>): (r: seq<T>)
    requires |xs| == |mask|
    ensures |r| <= |xs|
  {
    if |xs| == 0 then []
    else (if mask[0] then [xs[0]] else []) + Select(xs[1..], mask[1..])
  }

  /** A set last flag selects the last element last. */
  lemma {:induction false} SelectLast<T>(xs: seq<T>, mask: seq<bool>)
    requires |xs| == |mask| > 0 && mask[|mask| - 1]
    ensures |Select(xs, mask)| > 0 && Select(xs, mask)[|Select(xs, mask)| - 1] == xs[|xs| - 1]
    decreases |xs|
  {
    if |xs| > 1 {
      SelectLast(xs[1..], mask[1..]);
    }
  }

  /** Nothing is selected exactly when no flag is set. */
  lemma {:induction false} SelectEmpty<T>(xs: seq<T>, mask: seq<bool>)
    requires |xs| == |mask|
    ensures |Select(xs, mask)| == 0 <==> forall k :: 0 <= k < |mask| ==> !mask[k]
    decreases |xs|
  {
    if |xs| > 0 {
      SelectEmpty(xs[1..], mask[1..]);
      assert forall k :: 1 <= k < |mask| ==> mask[k] == mask[1..][k - 1];
    }
  }

  /** Elementwise pairs of two sequences of one length. */
  function Zip<T, U>(xs: seq<T>, ys: seq<U>): (r: seq<(T, U)>)
    requires |xs| == |ys|
    ensures |r| == |xs|
    ensures forall i :: 0 <= i < |r| ==> r[i] == (xs[i], ys[i])
  {
    if |xs| == 0 then [] else [(xs[0], ys[0])] + Zip(xs[1..], ys[1..])
  }

  /** No element occurs twice. */
  predicate Distinct<T(==)>(xs: seq<T>) {
    forall i, j :: 0 <= i < j < |xs| ==> xs[i] != xs[j]
  }

  /** Everything selected comes from `xs`. */
  lemma {:induction false} SelectedFrom<T>(xs: seq<T>, mask: seq<bool>, x: T)
    requires |xs| == |mask| && x in Select(xs, mask)
    ensures x in xs
    decreases |xs|
  {
    var h := if mask[0] then [xs[0]] else [];
    assert Select(xs, mask) == h + Select(xs[1..], mask[1..]);
    if x !in h {
      SelectedFrom(xs[1..], mask[1..], x);
    }
  }

  /** For distinct elements, an element is selected iff its flag is set. */
  lemma {:induction false} SelectedIffMarked<T>(xs: seq<T>, mask: seq<bool>, k: nat)
    requires |xs| == |mask| && k < |xs| && Distinct(xs)
    ensures xs[k] in Select(xs, mask) <==> mask[k]
    decreases |xs|
  {
    var h := if mask[0] then [xs[0]] else [];
    var rest := Select(xs[1..], mask[1..]);
    assert Select(xs, mask) == h + rest;
    if k == 0 {
      if xs[0] in rest {
        SelectedFrom(xs[1..], mask[1..], xs[0]);
      }
    } else {
      assert xs[1..][k - 1] == xs[k];
      assert mask[1..][k - 1] == mask[k];
      assert xs[k] != xs[0];
      SelectedIffMarked(xs[1..], mask[1..], k - 1);
    }
  }

  /** Selecting pairs is pairing the selections: two selections under one
      mask line up, the i-th of one belonging with the i-th of the other. */
  lemma {:induction false} SelectZip<T, U>(xs: seq<T>, ys: seq<U>, mask: seq<bool>)
    requires |xs| == |ys| == |mask|
    ensures |Select(xs, mask)| == |Select(ys, mask)|
    ensures Select(Zip(xs, ys), mask) == Zip(Select(xs, mask), Select(ys, mask))
    decreases |xs|
  {
    if |xs| > 0 {
      SelectZip(xs[1..], ys[1..], mask[1..]);
      assert Zip(xs, ys)[1..] == Zip(xs[1..], ys[1..]);
      var a := Select(xs[1..], mask[1..]);
      var b := Select(ys[1..], mask[1..]);
      if mask[0] {
        var l := [xs[0]] + a;
        var r := [ys[0]] + b;
        assert Select(xs, mask) == l && Select(ys, mask) == r;
        assert l[1..] == a && r[1..] == b;
        assert Zip(l, r) == [(xs[0], ys[0])] + Zip(a, b);
      } else {
        assert Select(xs, mask) == a && Select(ys, mask) == b;
      }
    }
  }

  /** Two selections under one mask, the second followed by one more
      element, line up pair by pair. */
  lemma SelectedWithTail<T, U>(xs: seq<T>, ys: seq<U>, mask: seq<bool>, extra: U)
    requires |xs| == |ys| == |mask|
    ensures var a := Select(xs, mask);
            var b := Select(ys, mask) + [extra];
            && |b| == |a| + 1
            && Zip(a, b[..|a|]) == Select(Zip(xs, ys), mask)
  {
    SelectZip(xs, ys, mask);
    var b := Select(ys, mask) + [extra];
    assert b[..|Select(ys, mask)|] == Select(ys, mask);
  }
}
