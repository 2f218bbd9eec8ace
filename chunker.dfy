/**
 * `slicer` and `count` (pipeline/core.py): batches of a sequence for bounded
 * concurrency, and the number of items a generator yields.
 */
module Chunker {

  /**
   * The tuples `slicer(xs, n)` yields: `n` items at a time in order, the last
   * one possibly shorter; nothing at all when `n` is 0 (`islice(it, 0)` is empty).
   */
  function Chunks<T>(xs: seq<T>, n: nat): seq<seq<T>>
    decreases |xs|
  {
    if n == 0 || xs == [] then []
    else if |xs| <= n then [xs]
    else [xs[..n]] + Chunks(xs[n..], n)
  }

  function Flatten<T>(css: seq<seq<T>>): seq<T>
    decreases |css|
  {
    if css == [] then [] else css[0] + Flatten(css[1..])
  }

  lemma {:induction false} FlattenConcat<T>(a: seq<seq<T>>, b: seq<seq<T>>)
    ensures Flatten(a + b) == Flatten(a) + Flatten(b)
    decreases |a|
  {
    if a != [] {
      assert (a + b)[1..] == a[1..] + b;
      FlattenConcat(a[1..], b);
    } else {
      assert a + b == b;
    }
  }

  /** Concatenating the batches in order gives back the input. */
  lemma {:induction false} ChunksFlatten<T>(xs: seq<T>, n: nat)
    requires n > 0
    ensures Flatten(Chunks(xs, n)) == xs
    decreases |xs|
  {
    if xs != [] && |xs| > n {
      ChunksFlatten(xs[n..], n);
      assert xs == xs[..n] + xs[n..];
    } else if xs != [] {
      assert Flatten([xs]) == xs + Flatten([]);
    }
  }

  /** Every batch is non-empty and holds at most `n` items; all but the last hold exactly `n`. */
  lemma {:induction false} ChunksShape<T>(xs: seq<T>, n: nat)
    ensures forall i :: 0 <= i < |Chunks(xs, n)| ==> 0 < |Chunks(xs, n)[i]| <= n
    ensures forall i :: 0 <= i < |Chunks(xs, n)| - 1 ==> |Chunks(xs, n)[i]| == n
    decreases |xs|
  {
    if n > 0 && |xs| > n {
      ChunksShape(xs[n..], n);
      var c := Chunks(xs, n);
      assert c == [xs[..n]] + Chunks(xs[n..], n);
      forall i | 1 <= i < |c| ensures c[i] == Chunks(xs[n..], n)[i - 1] { }
    }
  }

  /** `x / n` with the quotient pinned by its bounds. */
  lemma DivideBy(x: int, n: int, q: int)
    requires n > 0 && n * q <= x < n * (q + 1)
    ensures x / n == q
  {
    var d := x / n;
    assert x == n * d + x % n && 0 <= x % n < n;
    if d > q {
      MulMonotone(n, q + 1, d);
    } else if d < q {
      MulMonotone(n, d + 1, q);
    }
  }

  lemma MulMonotone(n: int, a: int, b: int)
    requires n > 0 && a <= b
    ensures n * a <= n * b
  {
    var k := b - a;
    assert n * b == n * a + n * k;
  }

  /** There are as many batches as `n` goes into the input length, rounded up. */
  lemma {:induction false} ChunksCount<T>(xs: seq<T>, n: nat)
    requires n > 0
    ensures |Chunks(xs, n)| == (|xs| + n - 1) / n
    decreases |xs|
  {
    if xs == [] {
      DivideBy(n - 1, n, 0);
    } else if |xs| <= n {
      DivideBy(|xs| + n - 1, n, 1);
    } else {
      var m := |xs[n..]|;
      ChunksCount(xs[n..], n);
      var q := (m + n - 1) / n;
      assert n * q <= m + n - 1 < n * (q + 1);
      DivideBy(|xs| + n - 1, n, q + 1);
    }
  }

  /**
   * `slicer(iterable, n)`: repeatedly takes up to `n` items from one shared
   * iterator and stops at the first empty take.
   */
  method Slicer<T>(xs: seq<T>, n: nat) returns (chunks: seq<seq<T>>)
    ensures chunks == Chunks(xs, n)
  {
    chunks := [];
    var pos := 0;
    while true
      invariant 0 <= pos <= |xs|
      invariant chunks + Chunks(xs[pos..], n) == Chunks(xs, n)
      decreases |xs| - pos
    {
      var take := if n < |xs| - pos then n else |xs| - pos;
      var chunk := xs[pos..pos + take];
      if chunk == [] {
        return;
      }
      var rest := xs[pos..];
      if |rest| <= n {
        assert chunk == rest;
        assert Chunks(rest, n) == [chunk];
        assert xs[pos + take..] == [];
      } else {
        assert chunk == rest[..n];
        assert rest[n..] == xs[pos + take..];
      }
      chunks := chunks + [chunk];
      pos := pos + take;
    }
  }

  /** `sum(1 for _ in iter)`: what `count` returns for an iterator without `len`. */
  function Count<T>(xs: seq<T>): nat
    decreases |xs|
  {
    if xs == [] then 0 else 1 + Count(xs[1..])
  }

  /** Both branches of `count` agree: summing ones gives the length. */
  lemma {:induction false} CountIsLength<T>(xs: seq<T>)
    ensures Count(xs) == |xs|
    decreases |xs|
  {
    if xs != [] {
      CountIsLength(xs[1..]);
    }
  }
}
