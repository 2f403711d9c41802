/** The batching both loops of the upload handler use: for `i` in
    `range(0, len(xs), size)` the batch is `xs[i : i + size]`. */
module Batching {

  /** The batches `range(0, |xs|, size)` and slicing produce, in order. */
  function Batches<T>(xs: seq<T>, size: nat): (r: seq<seq<T>>)
    requires size > 0
    ensures forall k :: 0 <= k < |r| ==> 0 < |r[k]| <= size
    decreases |xs|
  {
    if xs == [] then []
    else if |xs| <= size then [xs]
    else [xs[..size]] + Batches(xs[size..], size)
  }

  /** The concatenation of a sequence of sequences. */
  function Flatten<T>(xss: seq<seq<T>>): seq<T> {
    if xss == [] then [] else xss[0] + Flatten(xss[1..])
  }

  lemma {:induction false} FlattenAppend<T>(a: seq<seq<T>>, b: seq<seq<T>>)
    ensures Flatten(a + b) == Flatten(a) + Flatten(b)
  {
    if a != [] {
      assert (a + b)[1..] == a[1..] + b;
      FlattenAppend(a[1..], b);
    } else {
      assert a + b == b;
    }
  }

  /** Concatenating the batches gives back the input, in order. */
  lemma {:induction false} FlattenBatches<T>(xs: seq<T>, size: nat)
    requires size > 0
    ensures Flatten(Batches(xs, size)) == xs
    decreases |xs|
  {
    if xs != [] && |xs| > size {
      FlattenBatches(xs[size..], size);
      assert xs == xs[..size] + xs[size..];
    }
  }

  /** There are ceil(|xs| / size) batches: the fewest that hold |xs|
      elements at `size` apiece. */
  lemma {:induction false} BatchCount<T>(xs: seq<T>, size: nat)
    requires size > 0
    ensures var n := |Batches(xs, size)|; (n - 1) * size < |xs| <= n * size
    ensures |Batches(xs, size)| == (|xs| + size - 1) / size
    decreases |xs|
  {
    var n := |Batches(xs, size)|;
    if |xs| > size {
      BatchCount(xs[size..], size);
      assert (n - 1) * size == (n - 2) * size + size;
      assert n * size == (n - 1) * size + size;
    }
    CeilingDivision(|xs|, size, n);
  }

  /** A count `q` with (q - 1) * d < x <= q * d is the ceiling of x / d. */
  lemma CeilingDivision(x: nat, d: nat, q: nat)
    requires d > 0 && (q - 1) * d < x <= q * d
    ensures q == (x + d - 1) / d
  {
    assert (q - 1) * d == q * d - d;
    var q', r' := (x + d - 1) / d, (x + d - 1) % d;
    assert x + d - 1 == q' * d + r' && 0 <= r' < d;
    if q' > q {
      MulMonotone(q + 1, q', d);
    } else if q' < q {
      MulMonotone(q' + 1, q, d);
    }
  }

  lemma {:induction false} MulMonotone(a: nat, b: nat, d: nat)
    requires a <= b
    ensures a * d <= b * d
    decreases b - a
  {
    if a < b {
      MulMonotone(a, b - 1, d);
      assert (b - 1) * d + d == b * d;
    }
  }

  /** The batch number `k` starts at element `k * size`, as `range` steps,
      and holds `xs[k * size : k * size + size]`. */
  lemma {:induction false} BatchAt<T>(xs: seq<T>, size: nat, k: nat)
    requires size > 0 && k < |Batches(xs, size)|
    ensures k * size < |xs|
    ensures Batches(xs, size)[k] ==
      xs[k * size..if k * size + size < |xs| then k * size + size else |xs|]
    decreases |xs|
  {
    if k > 0 {
      var rest := xs[size..];
      assert Batches(xs, size)[k] == Batches(rest, size)[k - 1];
      BatchAt(rest, size, k - 1);
      var lo := (k - 1) * size;
      assert k * size == lo + size;
      var hi := if lo + size < |rest| then lo + size else |rest|;
      assert rest[lo..hi] == xs[lo + size..hi + size];
    }
  }

  /** The remainder of `xs` from position `i`; empty once `i` has passed the
      end, as a `range` step can make it. */
  function From<T>(xs: seq<T>, i: nat): seq<T> {
    if i < |xs| then xs[i..] else []
  }

  /** Unfolds one step of the batching loop at position `i`: the next batch
      is the slice `xs[i : i + size]`, and the rest starts `size` later. */
  lemma BatchesStep<T>(xs: seq<T>, size: nat, i: nat)
    requires size > 0 && i < |xs|
    ensures Batches(From(xs, i), size) ==
      [xs[i..if i + size < |xs| then i + size else |xs|]] + Batches(From(xs, i + size), size)
  {
    var rest := xs[i..];
    if |rest| > size {
      assert rest[..size] == xs[i..i + size];
      assert rest[size..] == xs[i + size..];
    } else {
      assert rest == xs[i..|xs|];
      assert From(xs, i + size) == [];
    }
  }

  /** The batching loop's state after one more step: the batches taken so
      far, then the slice at `i`, then the batches of what remains after
      it, are still all the batches. */
  lemma BatchesNext<T>(xs: seq<T>, size: nat, i: nat, done: seq<seq<T>>)
    requires size > 0 && i < |xs|
    requires done + Batches(From(xs, i), size) == Batches(xs, size)
    ensures (done + [xs[i..if i + size < |xs| then i + size else |xs|]]) + Batches(From(xs, i + size), size)
      == Batches(xs, size)
  {
    BatchesStep(xs, size, i);
  }

  /** The batches before batch `j` hold a proper prefix of the input: a
      loop stopped at batch `j` has not covered everything. */
  lemma BatchesBeforeArePrefix<T>(xs: seq<T>, size: nat, j: nat)
    requires size > 0 && j < |Batches(xs, size)|
    ensures Flatten(Batches(xs, size)[..j]) < xs
  {
    var batches := Batches(xs, size);
    FlattenBatches(xs, size);
    assert batches == batches[..j] + batches[j..];
    FlattenAppend(batches[..j], batches[j..]);
    var rest := Flatten(batches[j..]);
    assert rest == batches[j] + Flatten(batches[j + 1..]);
    assert xs == Flatten(batches[..j]) + rest && |rest| > 0;
  }
}
