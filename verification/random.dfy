/**
  The two services of Python's `random` module the generator uses, with the
  random stream made explicit.

  The random stream is the list of values it returns, in call order; a call past
  the end of the list reads 0. Every run makes finitely many calls, so every run
  of the real stream is the run of some list. `randbelow(n)` reduces the next
  value into `[0, n)`, so every in-range answer is available to it.

  `random.choice` spends one call; `random.shuffle` is CPython's Fisher-Yates
  pass, which walks `i` from the last index down to 1 and swaps position `i`
  with position `randbelow(i + 1)`.
 */
module Random {

  type Draws = seq<nat>

  /** The value of the next call. */
  function Head(ds: Draws): nat {
    if |ds| == 0 then 0 else ds[0]
  }

  /** The random stream after one call. */
  function Tail(ds: Draws): Draws {
    if |ds| == 0 then [] else ds[1..]
  }

  /** The random stream after `n` calls. */
  function Drop(ds: Draws, n: nat): (r: Draws)
    ensures |r| == if n <= |ds| then |ds| - n else 0
    ensures n <= |ds| ==> ds == ds[..n] + r
  {
    if n <= |ds| then ds[n..] else []
  }

  /** Consecutive stretches of the random stream can be regrouped freely. */
  lemma AppendAssoc(a: Draws, b: Draws, c: Draws)
    ensures (a + b) + c == a + (b + c)
  {
  }

  /** `randbelow(n)`: an index in range, and exactly the drawn value when that is in range. */
  function Below(ds: Draws, n: nat): (i: nat)
    requires n > 0
    ensures i < n
    ensures Head(ds) < n ==> i == Head(ds)
  {
    Head(ds) % n
  }

  /** `random.choice(xs)`: an element of `xs`, picked by one call. */
  function Choice<T>(xs: seq<T>, ds: Draws): (x: T)
    requires |xs| > 0
    ensures exists i :: 0 <= i < |xs| && xs[i] == x
    ensures Head(ds) < |xs| ==> x == xs[Head(ds)]
  {
    xs[Below(ds, |xs|)]
  }

  /** The position of some occurrence of `x` in `xs`. */
  function IndexOf<T(==)>(xs: seq<T>, x: T): (i: nat)
    requires x in xs
    ensures i < |xs| && xs[i] == x
  {
    if xs[0] == x then 0 else 1 + IndexOf(xs[1..], x)
  }

  /** `random.choice` can pick any element: one draw chooses it. */
  lemma ChoiceReaches<T>(xs: seq<T>, x: T, rest: Draws) returns (d: nat)
    requires x in xs
    ensures d < |xs|
    ensures Choice(xs, [d] + rest) == x
    ensures Tail([d] + rest) == rest
  {
    d := IndexOf(xs, x);
    assert Head([d] + rest) == d;
  }

  /** Exchange of the elements at `i` and `j`. */
  function Swap<T>(xs: seq<T>, i: nat, j: nat): (ys: seq<T>)
    requires i < |xs| && j < |xs|
    ensures |ys| == |xs|
    ensures ys[i] == xs[j] && ys[j] == xs[i]
    ensures forall m :: 0 <= m < |xs| && m != i && m != j ==> ys[m] == xs[m]
  {
    xs[i := xs[j]][j := xs[i]]
  }

  /** A swap only reorders. */
  lemma SwapPermutes<T>(xs: seq<T>, i: nat, j: nat)
    requires i < |xs| && j < |xs|
    ensures multiset(Swap(xs, i, j)) == multiset(xs)
  {
  }

  /** The Fisher-Yates steps for indices `i` down to 1. */
  function ShuffleFrom<T>(xs: seq<T>, i: nat, ds: Draws): (ys: seq<T>)
    requires i < |xs|
    ensures |ys| == |xs|
    decreases i
  {
    if i == 0 then xs
    else ShuffleFrom(Swap(xs, i, Below(ds, i + 1)), i - 1, Tail(ds))
  }

  /** `random.shuffle(xs)`: a reordering of `xs` (see `ShufflePermutes`). */
  function Shuffle<T>(xs: seq<T>, ds: Draws): (ys: seq<T>)
    ensures |ys| == |xs|
  {
    if |xs| <= 1 then xs else ShuffleFrom(xs, |xs| - 1, ds)
  }

  /** The Fisher-Yates steps only reorder. */
  lemma {:induction false} ShuffleFromPermutes<T>(xs: seq<T>, i: nat, ds: Draws)
    requires i < |xs|
    ensures multiset(ShuffleFrom(xs, i, ds)) == multiset(xs)
    decreases i
  {
    if i > 0 {
      var j := Below(ds, i + 1);
      SwapPermutes(xs, i, j);
      ShuffleFromPermutes(Swap(xs, i, j), i - 1, Tail(ds));
      assert ShuffleFrom(xs, i, ds) == ShuffleFrom(Swap(xs, i, j), i - 1, Tail(ds));
    }
  }

  /** `random.shuffle` keeps every element, with its multiplicity: whatever the draws,
      the result is a rearrangement of the input. */
  lemma ShufflePermutes<T>(xs: seq<T>, ds: Draws)
    ensures multiset(Shuffle(xs, ds)) == multiset(xs)
  {
    if |xs| > 1 {
      ShuffleFromPermutes(xs, |xs| - 1, ds);
    }
  }

  /** Removing equal last elements keeps two multisets equal. */
  lemma MultisetCancelLast<T>(a: seq<T>, b: seq<T>)
    requires |a| > 0 && |b| > 0 && a[|a| - 1] == b[|b| - 1]
    requires multiset(a) == multiset(b)
    ensures multiset(a[..|a| - 1]) == multiset(b[..|b| - 1])
  {
    var x := a[|a| - 1];
    assert a == a[..|a| - 1] + [x];
    assert b == b[..|b| - 1] + [x];
    assert multiset(a[..|a| - 1]) == multiset(a) - multiset{x};
    assert multiset(b[..|b| - 1]) == multiset(b) - multiset{x};
  }

  /** A swap inside the first `n` positions is a swap of that prefix and leaves the rest alone. */
  lemma SwapInPrefix<T>(xs: seq<T>, i: nat, j: nat, n: nat)
    requires i < n && j < n && n <= |xs|
    ensures Swap(xs, i, j)[..n] == Swap(xs[..n], i, j)
    ensures Swap(xs, i, j)[n..] == xs[n..]
  {
  }

  /** One Fisher-Yates step toward a target: swapping the target's element at `i`
      into place leaves the prefix before `i` a rearrangement of the target's.
      The bounds are written `i - 1 + 1` to match `ShuffleFromReaches` at `i - 1`. */
  lemma SwapTowardTarget<T>(xs: seq<T>, ys: seq<T>, i: nat) returns (j: nat)
    requires 0 < i < |xs| == |ys|
    requires multiset(xs[..i + 1]) == multiset(ys[..i + 1])
    requires xs[i + 1..] == ys[i + 1..]
    ensures j <= i
    ensures multiset(Swap(xs, i, j)[..i - 1 + 1]) == multiset(ys[..i - 1 + 1])
    ensures Swap(xs, i, j)[i - 1 + 1..] == ys[i - 1 + 1..]
  {
    var pre := xs[..i + 1];
    assert ys[i] in multiset(pre) by {
      assert ys[..i + 1][i] == ys[i];
    }
    j := IndexOf(pre, ys[i]);
    var xs' := Swap(xs, i, j);
    SwapInPrefix(xs, i, j, i + 1);
    var pre' := xs'[..i + 1];
    assert multiset(pre') == multiset(ys[..i + 1]);
    assert pre'[i] == ys[i];
    MultisetCancelLast(pre', ys[..i + 1]);
    assert pre'[..i] == xs'[..i];
    assert ys[..i + 1][..i] == ys[..i];
    assert xs'[i..] == [xs'[i]] + xs'[i + 1..];
    assert ys[i..] == [ys[i]] + ys[i + 1..];
  }

  /** Fisher-Yates can reach every arrangement: for a target that agrees with `xs`
      past index `i` and is a rearrangement of `xs` up to `i`, some `i` draws
      make the remaining steps produce exactly that target. */
  lemma {:induction false} ShuffleFromReaches<T>(xs: seq<T>, ys: seq<T>, i: nat) returns (ds: Draws)
    requires i < |xs| == |ys|
    requires multiset(xs[..i + 1]) == multiset(ys[..i + 1])
    requires xs[i + 1..] == ys[i + 1..]
    ensures |ds| == i
    ensures ShuffleFrom(xs, i, ds) == ys
    decreases i
  {
    if i == 0 {
      ds := [];
      FirstRearranged(xs, ys);
    } else {
      var j := SwapTowardTarget(xs, ys, i);
      var xs' := Swap(xs, i, j);
      var ds' := ShuffleFromReaches(xs', ys, i - 1);
      ds := [j] + ds';
      ShuffleFromStep(xs, i, j, ds');
    }
  }

  /** One Fisher-Yates step: a first call of value `j <= i` swaps `i` with `j`. */
  lemma ShuffleFromStep<T>(xs: seq<T>, i: nat, j: nat, ds: Draws)
    requires 0 < i < |xs| && j <= i
    ensures ShuffleFrom(xs, i, [j] + ds) == ShuffleFrom(Swap(xs, i, j), i - 1, ds)
  {
    assert Below([j] + ds, i + 1) == j && Tail([j] + ds) == ds;
  }

  /** With only the first position left to place, a rearrangement is already in place. */
  lemma FirstRearranged<T>(xs: seq<T>, ys: seq<T>)
    requires 0 < |xs| == |ys|
    requires multiset(xs[..1]) == multiset(ys[..1])
    requires xs[1..] == ys[1..]
    ensures ShuffleFrom(xs, 0, []) == ys
  {
    SingletonRearranged(xs[..1], ys[..1]);
    assert xs == xs[..1] + xs[1..] && ys == ys[..1] + ys[1..];
  }

  /** `random.shuffle` can produce every rearrangement of its input, and nothing else
      (see `ShufflePermutes`). */
  lemma ShuffleReaches<T>(xs: seq<T>, ys: seq<T>) returns (ds: Draws)
    requires multiset(xs) == multiset(ys)
    ensures Shuffle(xs, ds) == ys
  {
    assert |xs| == |ys| by {
      assert |xs| == |multiset(xs)| && |ys| == |multiset(ys)|;
    }
    if |xs| <= 1 {
      ds := [];
      ShortShuffleReaches(xs, ys);
    } else {
      var n := |xs| - 1;
      assert multiset(xs[..n + 1]) == multiset(ys[..n + 1]) && xs[n + 1..] == ys[n + 1..] by {
        assert xs[..n + 1] == xs && ys[..n + 1] == ys;
      }
      ds := ShuffleFromReaches(xs, ys, n);
      ShuffleUnfold(xs, ds);
    }
  }

  /** Shuffling fewer than two elements leaves them, which is their only arrangement. */
  lemma ShortShuffleReaches<T>(xs: seq<T>, ys: seq<T>)
    requires |xs| == |ys| <= 1
    requires multiset(xs) == multiset(ys)
    ensures Shuffle(xs, []) == ys
  {
    if |xs| == 1 {
      SingletonRearranged(xs, ys);
    }
  }

  /** A shuffle of two or more elements is the full Fisher-Yates pass. */
  lemma ShuffleUnfold<T>(xs: seq<T>, ds: Draws)
    requires |xs| > 1
    ensures Shuffle(xs, ds) == ShuffleFrom(xs, |xs| - 1, ds)
  {
  }

  /** The only rearrangement of a one-element sequence is itself. */
  lemma SingletonRearranged<T>(xs: seq<T>, ys: seq<T>)
    requires |xs| == 1 && |ys| == 1
    requires multiset(xs) == multiset(ys)
    ensures xs == ys
  {
    assert xs == [xs[0]] && ys == [ys[0]];
    assert ys[0] in multiset(xs);
  }
}
