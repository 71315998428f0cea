/** Counting flags, as `App.set` does over the panels, and the "every
    group filled" scan of the multi-input panels. */
module Counting {

  /** The number of `true` entries. */
  function Count(bs: seq<bool>): (n: nat)
    ensures n <= |bs|
  {
    if bs == [] then 0
    else Count(bs[..|bs| - 1]) + (if bs[|bs| - 1] then 1 else 0)
  }

  /** The count is zero exactly when no entry is `true`. */
  lemma {:induction false} CountZero(bs: seq<bool>)
    ensures Count(bs) == 0 <==> forall i :: 0 <= i < |bs| ==> !bs[i]
  {
    if bs != [] {
      var n := |bs|;
      CountZero(bs[..n - 1]);
      assert forall i :: 0 <= i < n - 1 ==> bs[..n - 1][i] == bs[i];
    }
  }

  /** Counting a concatenation adds the counts. */
  lemma {:induction false} CountAppend(a: seq<bool>, b: seq<bool>)
    ensures Count(a + b) == Count(a) + Count(b)
    decreases |b|
  {
    if b == [] {
      assert a + b == a;
    } else {
      var b' := b[..|b| - 1];
      assert (a + b)[..|a + b| - 1] == a + b';
      CountAppend(a, b');
    }
  }

  /** When every entry is `true` the count is the length. */
  lemma {:induction false} CountAll(bs: seq<bool>)
    requires forall i :: 0 <= i < |bs| ==> bs[i]
    ensures Count(bs) == |bs|
  {
    if bs != [] {
      CountAll(bs[..|bs| - 1]);
    }
  }

  /** Overwriting one entry changes the count by the difference of the two
      entries; in particular marking a `false` entry `true` adds one. */
  lemma {:induction false} CountUpdate(bs: seq<bool>, k: nat, b: bool)
    requires k < |bs|
    ensures Count(bs[k := b]) == Count(bs) - (if bs[k] then 1 else 0) + (if b then 1 else 0)
  {
    assert bs == bs[..k] + [bs[k]] + bs[k + 1..];
    assert bs[k := b] == bs[..k] + [b] + bs[k + 1..];
    CountAppend(bs[..k] + [bs[k]], bs[k + 1..]);
    CountAppend(bs[..k], [bs[k]]);
    CountAppend(bs[..k] + [b], bs[k + 1..]);
    CountAppend(bs[..k], [b]);
    assert Count([b]) == (if b then 1 else 0) by {
      assert [b][..0] == [];
    }
    assert Count([bs[k]]) == (if bs[k] then 1 else 0) by {
      assert [bs[k]][..0] == [];
    }
  }

  /** A sequence whose only `true` entry is at `c` counts one. */
  lemma {:induction false} CountOneHot(bs: seq<bool>, c: nat)
    requires c < |bs|
    requires forall i :: 0 <= i < |bs| ==> (bs[i] <==> i == c)
    ensures Count(bs) == 1
  {
    var n := |bs|;
    if c == n - 1 {
      CountZero(bs[..n - 1]);
    } else {
      CountOneHot(bs[..n - 1], c);
    }
  }

  /** Every entry is non-zero. */
  predicate AllNonZero(lengths: seq<nat>) {
    forall i :: 0 <= i < |lengths| ==> lengths[i] > 0
  }

  /** What the scan below decides: the last entry exists and is non-zero. */
  predicate LastIsNonZero(lengths: seq<nat>) {
    |lengths| > 0 && lengths[|lengths| - 1] > 0
  }

  /** The jQuery `.each` scan of the `textMulti` and `radioMulti` handlers:
      `pass` is overwritten with "this one is filled" for every input (or
      radio group) in turn, and the bare `return` inside the callback does
      not stop the scan, so only the last entry decides. */
  method LastNonZero(lengths: seq<nat>) returns (pass: bool)
    ensures pass <==> LastIsNonZero(lengths)
  {
    pass := false;
    var i := 0;
    while i < |lengths|
      invariant 0 <= i <= |lengths|
      invariant pass <==> i > 0 && lengths[i - 1] > 0
    {
      pass := lengths[i] > 0;  // a falsy `pass` only ends this callback, not the scan
      i := i + 1;
    }
  }

  /** What the scan was evidently meant to check implies what it checks,
      but not conversely: `[0, 1]` (first input empty) passes the scan. */
  lemma LastNonZeroIsWeakerThanAll(lengths: seq<nat>)
    ensures |lengths| > 0 && AllNonZero(lengths) ==> LastIsNonZero(lengths)
    ensures var w: seq<nat> := [0, 1]; !AllNonZero(w) && LastIsNonZero(w)
  {
    var w: seq<nat> := [0, 1];
    assert w[0] == 0;
  }
}
