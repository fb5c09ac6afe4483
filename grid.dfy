/**
 * Nested loops of the form "for each x of xs, for each s of sizes, emit f(x, s)":
 * the sequence they emit, its length, where each pair lands in it, and, when what is
 * emitted is an archive write, how many entries the archive ends up with.
 */
module Grid {
  import opened Archive

  /** What the inner loop emits for one x: f(x, s) for each s, in order. */
  function Row<X, S, W>(x: X, sizes: seq<S>, f: (X, S) -> W): seq<W>
  {
    if sizes == [] then []
    else Row(x, sizes[..|sizes| - 1], f) + [f(x, sizes[|sizes| - 1])]
  }

  /** What both loops emit: the rows of xs, one after the other. */
  function Product<X, S, W>(xs: seq<X>, sizes: seq<S>, f: (X, S) -> W): seq<W>
  {
    if xs == [] then []
    else Product(xs[..|xs| - 1], sizes, f) + Row(xs[|xs| - 1], sizes, f)
  }

  /** The inner loop after k + 1 sizes: the row after k sizes and one more element. */
  lemma {:induction false} RowExtend<X, S, W>(x: X, sizes: seq<S>, f: (X, S) -> W, k: nat)
    requires k < |sizes|
    ensures Row(x, sizes[..k + 1], f) == Row(x, sizes[..k], f) + [f(x, sizes[k])]
  {
    assert sizes[..k + 1][..k] == sizes[..k];
  }

  /** The outer loop after i + 1 xs: what it emitted after i xs and one more row. */
  lemma {:induction false} ProductExtend<X, S, W>(xs: seq<X>, sizes: seq<S>, f: (X, S) -> W, i: nat)
    requires i < |xs|
    ensures Product(xs[..i + 1], sizes, f) == Product(xs[..i], sizes, f) + Row(xs[i], sizes, f)
  {
    assert xs[..i + 1][..i] == xs[..i];
  }

  lemma {:induction false} RowLength<X, S, W>(x: X, sizes: seq<S>, f: (X, S) -> W)
    ensures |Row(x, sizes, f)| == |sizes|
  {
    if sizes != [] {
      RowLength(x, sizes[..|sizes| - 1], f);
    }
  }

  lemma {:induction false} RowAt<X, S, W>(x: X, sizes: seq<S>, f: (X, S) -> W, j: nat)
    requires j < |sizes|
    ensures |Row(x, sizes, f)| == |sizes| && Row(x, sizes, f)[j] == f(x, sizes[j])
  {
    var m := |sizes| - 1;
    RowLength(x, sizes, f);
    RowLength(x, sizes[..m], f);
    if j < m {
      RowAt(x, sizes[..m], f, j);
      assert sizes[..m][j] == sizes[j];
    }
  }

  lemma {:induction false} ProductLength<X, S, W>(xs: seq<X>, sizes: seq<S>, f: (X, S) -> W)
    ensures |Product(xs, sizes, f)| == |xs| * |sizes|
  {
    if xs != [] {
      var n := |xs| - 1;
      ProductLength(xs[..n], sizes, f);
      RowLength(xs[n], sizes, f);
      assert (n + 1) * |sizes| == n * |sizes| + |sizes|;
    }
  }

  /**
   * The emitted sequence has |xs|·|sizes| elements, and the one for the i-th x and the
   * j-th size sits at position i·|sizes| + j.
   */
  lemma {:induction false} ProductAt<X, S, W>(xs: seq<X>, sizes: seq<S>, f: (X, S) -> W, i: nat, j: nat)
    requires i < |xs| && j < |sizes|
    ensures |Product(xs, sizes, f)| == |xs| * |sizes|
    ensures i * |sizes| + j < |xs| * |sizes|
    ensures Product(xs, sizes, f)[i * |sizes| + j] == f(xs[i], sizes[j])
  {
    var n, m := |xs| - 1, |sizes|;
    ProductLength(xs, sizes, f);
    ProductLength(xs[..n], sizes, f);
    RowAt(xs[n], sizes, f, j);
    IndexBound(i, j, n + 1, m);
    if i < n {
      IndexBound(i, j, n, m);
      ProductAt(xs[..n], sizes, f, i, j);
      assert xs[..n][i] == xs[i];
    }
  }

  /** Nothing is emitted when either loop has nothing to go over. */
  lemma {:induction false} ProductEmpty<X, S, W>(xs: seq<X>, sizes: seq<S>, f: (X, S) -> W)
    requires xs == [] || sizes == []
    ensures Product(xs, sizes, f) == []
  {
    ProductLength(xs, sizes, f);
  }

  /** Every element of the emitted sequence is f of some pair, the one its position encodes. */
  lemma {:induction false} Locate<X, S, W>(xs: seq<X>, sizes: seq<S>, f: (X, S) -> W, p: nat)
    returns (i: nat, j: nat)
    requires p < |Product(xs, sizes, f)|
    ensures i < |xs| && j < |sizes| && p == i * |sizes| + j
    ensures Product(xs, sizes, f)[p] == f(xs[i], sizes[j])
  {
    ProductLength(xs, sizes, f);
    i, j := DivBound(p, |sizes|, |xs|);
    ProductAt(xs, sizes, f, i, j);
  }

  /** Position i·m + j of an n × m grid lies inside it. */
  lemma IndexBound(i: nat, j: nat, n: nat, m: nat)
    requires i < n && j < m
    ensures i * m + j < n * m
  {
    MulMonotone(i + 1, n, m);
    assert (i + 1) * m == i * m + m;
  }

  lemma MulMonotone(a: nat, b: nat, m: nat)
    requires a <= b
    ensures a * m <= b * m
  {
    var d: nat := b - a;
    assert b * m == a * m + d * m;
  }

  lemma MulCancel(m: nat, a: nat, b: nat)
    requires a * m < b * m
    ensures a < b
  {
  }

  /** A position p of an n × m grid is row p / m, column p % m. */
  lemma DivBound(p: nat, m: nat, n: nat) returns (q: nat, r: nat)
    requires p < n * m
    ensures q < n && r < m && p == q * m + r
  {
    assert m != 0;
    q, r := p / m, p % m;
    assert q * m <= p;
    MulCancel(m, q, n);
  }

  /** No two elements of xs have the same key. */
  ghost predicate DistinctOn<X, K>(xs: seq<X>, key: X -> K)
  {
    forall a, b :: 0 <= a < |xs| && 0 <= b < |xs| && a != b ==> key(xs[a]) != key(xs[b])
  }

  ghost predicate Distinct<S>(ss: seq<S>)
  {
    forall a, b :: 0 <= a < |ss| && 0 <= b < |ss| && a != b ==> ss[a] != ss[b]
  }

  /** The path f writes for (x, s) is determined by, and determines, key(x) and s. */
  ghost predicate PathsIdentify<X(!new), S(!new), B, K>(f: (X, S) -> Write<B>, key: X -> K)
  {
    forall x, s, x', s' :: f(x, s).path == f(x', s').path <==> key(x) == key(x') && s == s'
  }

  /** Two different positions of the emitted sequence have different paths. */
  lemma {:induction false} PositionsApart<X(!new), S(!new), B, K>(xs: seq<X>, sizes: seq<S>, f: (X, S) -> Write<B>,
                                                                   key: X -> K, p: nat, q: nat)
    requires PathsIdentify(f, key) && DistinctOn(xs, key) && Distinct(sizes)
    requires p < q < |Product(xs, sizes, f)|
    ensures Product(xs, sizes, f)[p].path != Product(xs, sizes, f)[q].path
  {
    var i, j := Locate(xs, sizes, f, p);
    var i', j' := Locate(xs, sizes, f, q);
    if i != i' {
      assert key(xs[i]) != key(xs[i']);
    } else {
      assert j != j';
      assert sizes[j] != sizes[j'];
    }
  }

  /** Distinct keys and distinct sizes give writes with pairwise different paths. */
  lemma {:induction false} ProductDistinct<X(!new), S(!new), B, K>(xs: seq<X>, sizes: seq<S>, f: (X, S) -> Write<B>, key: X -> K)
    requires PathsIdentify(f, key) && DistinctOn(xs, key) && Distinct(sizes)
    ensures DistinctPaths(Product(xs, sizes, f))
  {
    var ws := Product(xs, sizes, f);
    forall p, q | 0 <= p < q < |ws| ensures ws[p].path != ws[q].path {
      PositionsApart(xs, sizes, f, key, p, q);
    }
  }

  /**
   * Conversely, with at least one x and one size, pairwise different paths need
   * pairwise different keys and pairwise different sizes.
   */
  lemma {:induction false} DistinctNeedsKeys<X(!new), S(!new), B, K>(xs: seq<X>, sizes: seq<S>, f: (X, S) -> Write<B>, key: X -> K)
    requires xs != [] && sizes != [] && PathsIdentify(f, key)
    requires DistinctPaths(Product(xs, sizes, f))
    ensures DistinctOn(xs, key) && Distinct(sizes)
  {
    forall a, b | 0 <= a < |xs| && 0 <= b < |xs| && a != b ensures key(xs[a]) != key(xs[b]) {
      if a < b {
        KeysApart(xs, sizes, f, key, a, b);
      } else {
        KeysApart(xs, sizes, f, key, b, a);
      }
    }
    forall a, b | 0 <= a < |sizes| && 0 <= b < |sizes| && a != b ensures sizes[a] != sizes[b] {
      if a < b {
        SizesApart(xs, sizes, f, key, a, b);
      } else {
        SizesApart(xs, sizes, f, key, b, a);
      }
    }
  }

  lemma {:induction false} KeysApart<X(!new), S(!new), B, K>(xs: seq<X>, sizes: seq<S>, f: (X, S) -> Write<B>,
                                                              key: X -> K, a: nat, b: nat)
    requires a < b < |xs| && sizes != [] && PathsIdentify(f, key)
    requires DistinctPaths(Product(xs, sizes, f))
    ensures key(xs[a]) != key(xs[b])
  {
    var m := |sizes|;
    ProductAt(xs, sizes, f, a, 0);
    ProductAt(xs, sizes, f, b, 0);
    MulMonotone(a + 1, b, m);
    assert f(xs[a], sizes[0]).path != f(xs[b], sizes[0]).path;
  }

  lemma {:induction false} SizesApart<X(!new), S(!new), B, K>(xs: seq<X>, sizes: seq<S>, f: (X, S) -> Write<B>,
                                                               key: X -> K, a: nat, b: nat)
    requires xs != [] && a < b < |sizes| && PathsIdentify(f, key)
    requires DistinctPaths(Product(xs, sizes, f))
    ensures sizes[a] != sizes[b]
  {
    ProductAt(xs, sizes, f, 0, a);
    ProductAt(xs, sizes, f, 0, b);
    assert f(xs[0], sizes[a]).path != f(xs[0], sizes[b]).path;
  }

  /**
   * With at least one x and one size, the emitted writes have pairwise different paths
   * exactly when the keys of xs are pairwise different and so are the sizes.
   */
  lemma {:induction false} ProductDistinctIff<X(!new), S(!new), B, K>(xs: seq<X>, sizes: seq<S>, f: (X, S) -> Write<B>, key: X -> K)
    requires xs != [] && sizes != [] && PathsIdentify(f, key)
    ensures DistinctPaths(Product(xs, sizes, f)) <==> DistinctOn(xs, key) && Distinct(sizes)
  {
    if DistinctOn(xs, key) && Distinct(sizes) {
      ProductDistinct(xs, sizes, f, key);
    }
    if DistinctPaths(Product(xs, sizes, f)) {
      DistinctNeedsKeys(xs, sizes, f, key);
    }
  }

  /** With distinct keys and distinct sizes the archive holds one entry per pair. */
  lemma {:induction false} ProductEntries<X(!new), S(!new), B, K>(xs: seq<X>, sizes: seq<S>, f: (X, S) -> Write<B>, key: X -> K)
    requires PathsIdentify(f, key) && DistinctOn(xs, key) && Distinct(sizes)
    ensures |Contents(Product(xs, sizes, f))| == |xs| * |sizes|
  {
    ProductLength(xs, sizes, f);
    ProductDistinct(xs, sizes, f, key);
    EntryCount(Product(xs, sizes, f));
  }

  /**
   * Two xs with the same key write the same paths, so the later one's writes replace the
   * earlier one's and the archive holds fewer entries than there are pairs.
   */
  lemma {:induction false} ProductCollision<X(!new), S(!new), B, K>(xs: seq<X>, sizes: seq<S>, f: (X, S) -> Write<B>,
                                                        key: X -> K, a: nat, b: nat)
    requires PathsIdentify(f, key) && sizes != []
    requires a < b < |xs| && key(xs[a]) == key(xs[b])
    ensures |Contents(Product(xs, sizes, f))| < |xs| * |sizes|
  {
    var ws := Product(xs, sizes, f);
    ProductLength(xs, sizes, f);
    ProductDistinctIff(xs, sizes, f, key);
    EntryCount(ws);
  }
}
