/** The structural helpers of NeuralNetworks/code/src/Utils.cpp: `Transpose`,
    `Zeros` for a vector and for a matrix, and the re-indexing step of
    `Shuffle`. None of them does arithmetic on the elements, so matrices are
    sequences of rows of any element type, and a `float` written as zero is
    the real 0.0. */
module MatrixUtils {

  /** A non-empty matrix whose rows all have the length of the first. */
  predicate Rectangular<T>(m: seq<seq<T>>) {
    |m| > 0 && forall i :: 0 <= i < |m| ==> |m[i]| == |m[0]|
  }

  /** The transpose of a rectangular matrix: one row per column of `m`. */
  function Transposed<T>(m: seq<seq<T>>): seq<seq<T>>
    requires Rectangular(m)
  {
    seq(|m[0]|, j requires 0 <= j < |m[0]| => seq(|m|, i requires 0 <= i < |m| => m[i][j]))
  }

  /** `std::vector::resize`: the first `n` elements are kept, and copies of
      `fill` are appended when the vector grows. */
  function Resize<T>(v: seq<T>, n: nat, fill: T): (r: seq<T>)
    ensures |r| == n
    ensures forall k :: 0 <= k < n ==> r[k] == if k < |v| then v[k] else fill
  {
    if n <= |v| then v[..n] else v + seq(n - |v|, _ => fill)
  }

  /** `Transpose(matrix, result)`: `result` is resized to `cols` rows of
      `rows` entries (new entries are `fill`, the value `resize` inserts) and
      then every entry is overwritten, so what `result` held before does not
      matter. */
  method Transpose<T>(matrix: seq<seq<T>>, given: seq<seq<T>>, fill: T) returns (result: seq<seq<T>>)
    requires Rectangular(matrix)
    ensures |result| == |matrix[0]|
    ensures forall j :: 0 <= j < |result| ==> |result[j]| == |matrix|
    ensures forall i, j :: 0 <= i < |matrix| && 0 <= j < |matrix[0]| ==> result[j][i] == matrix[i][j]
    ensures result == Transposed(matrix)
  {
    var rows := |matrix|;
    var cols := |matrix[0]|;
    result := Resize(given, cols, []);
    var i := 0;
    while i < cols
      invariant 0 <= i <= cols && |result| == cols
      invariant forall k :: 0 <= k < i ==> |result[k]| == rows
    {
      result := result[i := Resize(result[i], rows, fill)];
      i := i + 1;
    }
    i := 0;
    while i < rows
      invariant 0 <= i <= rows
      invariant |result| == cols && forall k :: 0 <= k < cols ==> |result[k]| == rows
      invariant forall a, b :: 0 <= a < i && 0 <= b < cols ==> result[b][a] == matrix[a][b]
    {
      var j := 0;
      while j < cols
        invariant 0 <= j <= cols
        invariant |result| == cols && forall k :: 0 <= k < cols ==> |result[k]| == rows
        invariant forall a, b :: 0 <= a < i && 0 <= b < cols ==> result[b][a] == matrix[a][b]
        invariant forall b :: 0 <= b < j ==> result[b][i] == matrix[i][b]
      {
        result := result[j := result[j][i := matrix[i][j]]];
        j := j + 1;
      }
      i := i + 1;
    }
    EqualsTransposed(matrix, result);
  }

  /** A matrix of the transposed shape holding the transposed entries is the
      transpose. */
  lemma EqualsTransposed<T>(m: seq<seq<T>>, r: seq<seq<T>>)
    requires Rectangular(m)
    requires |r| == |m[0]| && forall j :: 0 <= j < |r| ==> |r[j]| == |m|
    requires forall i, j :: 0 <= i < |m| && 0 <= j < |m[0]| ==> r[j][i] == m[i][j]
    ensures r == Transposed(m)
  {
    var t := Transposed(m);
    forall j | 0 <= j < |r|
      ensures r[j] == t[j]
    {
      forall i | 0 <= i < |m|
        ensures r[j][i] == t[j][i]
      {
      }
    }
  }

  /** The transpose of a rectangular matrix with at least one column is
      rectangular again, and transposing it back gives the matrix. */
  lemma TransposeTwice<T>(m: seq<seq<T>>)
    requires Rectangular(m) && |m[0]| > 0
    ensures Rectangular(Transposed(m))
    ensures Transposed(Transposed(m)) == m
  {
    var t := Transposed(m);
    assert |t| == |m[0]| && forall j :: 0 <= j < |t| ==> |t[j]| == |m|;
    var tt := Transposed(t);
    assert |tt| == |m|;
    forall i | 0 <= i < |m|
      ensures tt[i] == m[i]
    {
      assert |tt[i]| == |m[i]|;
      forall j | 0 <= j < |m[i]|
        ensures tt[i][j] == m[i][j]
      {
        assert tt[i][j] == t[j][i];
      }
    }
  }

  /** `Zeros(vector)`: every element becomes 0; the length is that of the
      array and does not change. */
  method Zeros(v: array<real>)
    modifies v
    ensures forall k :: 0 <= k < v.Length ==> v[k] == 0.0
  {
    var k := 0;
    while k < v.Length
      invariant 0 <= k <= v.Length
      invariant forall a :: 0 <= a < k ==> v[a] == 0.0
    {
      v[k] := 0.0;
      k := k + 1;
    }
  }

  /** `Zeros(matrix)`: `Zeros` on every row; the rows themselves stay the
      same objects, and so their number and lengths. */
  method ZerosMatrix(m: array<array<real>>)
    modifies set k | 0 <= k < m.Length :: m[k]
    ensures forall i, j :: 0 <= i < m.Length && 0 <= j < m[i].Length ==> m[i][j] == 0.0
  {
    var i := 0;
    while i < m.Length
      invariant 0 <= i <= m.Length
      invariant forall a, j :: 0 <= a < i && 0 <= j < m[a].Length ==> m[a][j] == 0.0
    {
      Zeros(m[i]);
      i := i + 1;
    }
  }

  // ---------------------------------------------------------------------
  // Shuffle

  /** What `std::iota` writes into `indices`: 0, 1, ..., n - 1. */
  function Iota(n: nat): (s: seq<nat>)
    ensures |s| == n && forall k :: 0 <= k < n ==> s[k] == k
  {
    seq(n, k => k)
  }

  /** `std::shuffle` leaves `indices` a reordering of 0, ..., n - 1. */
  predicate IsPermutation(indices: seq<nat>, n: nat) {
    multiset(indices) == multiset(Iota(n))
  }

  /** The elements of `s` picked in the order `indices` gives. */
  function Permuted<T>(s: seq<T>, indices: seq<nat>): (r: seq<T>)
    requires forall k :: 0 <= k < |indices| ==> indices[k] < |s|
    ensures |r| == |indices|
  {
    seq(|indices|, k requires 0 <= k < |indices| => s[indices[k]])
  }

  /** A reordering of 0, ..., n - 1 has n entries, all below n. */
  lemma PermutationInRange(indices: seq<nat>, n: nat)
    requires IsPermutation(indices, n)
    ensures |indices| == n
    ensures forall k :: 0 <= k < |indices| ==> indices[k] < n
  {
    assert |multiset(indices)| == |multiset(Iota(n))|;
    forall k | 0 <= k < |indices|
      ensures indices[k] < n
    {
      assert indices[k] in multiset(indices);
      assert indices[k] in Iota(n);
    }
  }

  lemma PermutedAppend<T>(s: seq<T>, a: seq<nat>, b: seq<nat>)
    requires forall k :: 0 <= k < |a| ==> a[k] < |s|
    requires forall k :: 0 <= k < |b| ==> b[k] < |s|
    ensures Permuted(s, a + b) == Permuted(s, a) + Permuted(s, b)
  {
  }

  lemma MultisetCancel<T>(x: T, m: multiset<T>, n: multiset<T>)
    requires multiset{x} + m == multiset{x} + n
    ensures m == n
  {
    forall y
      ensures m[y] == n[y]
    {
      assert (multiset{x} + m)[y] == (multiset{x} + n)[y];
    }
  }

  lemma MultisetSplit<T>(u: seq<T>, x: T, v: seq<T>)
    ensures multiset(u + [x] + v) == multiset{x} + multiset(u + v)
  {
    assert multiset(u + [x] + v) == multiset(u) + multiset{x} + multiset(v);
    assert multiset(u + v) == multiset(u) + multiset(v);
  }

  /** Picking by `u`, then `x`, then `v` picks `s[x]` and what picking by
      `u` then `v` picks. */
  lemma PermutedSplit<T>(s: seq<T>, u: seq<nat>, x: nat, v: seq<nat>)
    requires x < |s|
    requires forall k :: 0 <= k < |u| ==> u[k] < |s|
    requires forall k :: 0 <= k < |v| ==> v[k] < |s|
    ensures multiset(Permuted(s, u + [x] + v)) == multiset{s[x]} + multiset(Permuted(s, u + v))
  {
    PermutedAppend(s, u, [x]);
    PermutedAppend(s, u + [x], v);
    PermutedAppend(s, u, v);
    assert Permuted(s, [x]) == [s[x]];
    MultisetSplit(Permuted(s, u), s[x], Permuted(s, v));
  }

  /** Picking by two index sequences with the same entries picks the same
      elements, in some order. */
  lemma {:induction false} PermutedMultiset<T>(s: seq<T>, a: seq<nat>, b: seq<nat>)
    requires forall k :: 0 <= k < |a| ==> a[k] < |s|
    requires forall k :: 0 <= k < |b| ==> b[k] < |s|
    requires multiset(a) == multiset(b)
    ensures multiset(Permuted(s, a)) == multiset(Permuted(s, b))
    decreases |a|
  {
    if a != [] {
      var x := a[0];
      var p := Locate(a, b);
      var u, v := b[..p], b[p + 1..];
      PermutedMultiset(s, a[1..], u + v);
      PermutedSplit(s, [], x, a[1..]);
      assert [] + [x] + a[1..] == a && [] + a[1..] == a[1..];
      PermutedSplit(s, u, x, v);
    } else {
      assert |b| == |multiset(b)| == |multiset(a)| == 0;
    }
  }

  /** Where the first entry of `a` sits in `b`, when both have the same
      entries; the rest of `a` has the entries of `b` without it. */
  lemma Locate<T>(a: seq<T>, b: seq<T>) returns (p: nat)
    requires a != [] && multiset(a) == multiset(b)
    ensures p < |b| && b[p] == a[0] && b == b[..p] + [a[0]] + b[p + 1..]
    ensures multiset(a[1..]) == multiset(b[..p] + b[p + 1..])
  {
    var x := a[0];
    assert x in multiset(b);
    p :| 0 <= p < |b| && b[p] == x;
    var u, v := b[..p], b[p + 1..];
    assert b == u + [x] + v;
    assert a == [] + [x] + a[1..];
    MultisetSplit([], x, a[1..]);
    MultisetSplit(u, x, v);
    assert [] + a[1..] == a[1..];
    MultisetCancel(x, multiset(a[1..]), multiset(u + v));
  }

  lemma PermutedIota<T>(s: seq<T>)
    ensures Permuted(s, Iota(|s|)) == s
  {
  }

  /** Re-indexing by a reordering keeps the multiset of elements. */
  lemma PermutedKeepsElements<T>(s: seq<T>, indices: seq<nat>)
    requires IsPermutation(indices, |s|)
    ensures forall k :: 0 <= k < |indices| ==> indices[k] < |s|
    ensures multiset(Permuted(s, indices)) == multiset(s)
  {
    PermutationInRange(indices, |s|);
    PermutedMultiset(s, indices, Iota(|s|));
    PermutedIota(s);
  }

  /** The feature rows paired with their labels. */
  function Pairs<F, L>(features: seq<F>, labels: seq<L>): (p: seq<(F, L)>)
    requires |labels| >= |features|
    ensures |p| == |features|
  {
    seq(|features|, k requires 0 <= k < |features| => (features[k], labels[k]))
  }

  /** Shuffling both sequences with the same indices shuffles the pairs:
      every row keeps its label, and the multiset of (row, label) pairs is the
      same before and after. */
  lemma ShuffleKeepsPairs<F, L>(features: seq<F>, labels: seq<L>, indices: seq<nat>)
    requires |labels| >= |features| && IsPermutation(indices, |features|)
    ensures forall k :: 0 <= k < |indices| ==> indices[k] < |features|
    ensures Pairs(Permuted(features, indices), Permuted(labels, indices))
         == Permuted(Pairs(features, labels), indices)
    ensures multiset(Pairs(Permuted(features, indices), Permuted(labels, indices)))
         == multiset(Pairs(features, labels))
  {
    PermutationInRange(indices, |features|);
    PermutedKeepsElements(Pairs(features, labels), indices);
  }

  /** The labels after the first `n` are not touched, and the first `n` are
      reordered, so the multiset of all labels is kept. */
  lemma ShuffleKeepsLabels(labels: seq<nat>, n: nat, indices: seq<nat>)
    requires |labels| >= n && IsPermutation(indices, n)
    ensures forall k :: 0 <= k < |indices| ==> indices[k] < |labels|
    ensures multiset(Permuted(labels, indices) + labels[n..]) == multiset(labels)
  {
    PermutationInRange(indices, n);
    assert Permuted(labels, indices) == Permuted(labels[..n], indices);
    PermutedKeepsElements(labels[..n], indices);
    assert labels == labels[..n] + labels[n..];
  }

  /** The copy-back loop of `Shuffle(inputFeatures, labels)`: with `indices`
      the reordering `std::shuffle` produced, row `i` becomes the old row
      `indices[i]` and label `i` the old label `indices[i]`; labels past the
      number of rows stay as they were. */
  method Shuffle(features: array<seq<real>>, labels: array<nat>, indices: seq<nat>)
    requires IsPermutation(indices, features.Length)
    requires labels.Length >= features.Length
    modifies features, labels
    ensures forall k :: 0 <= k < |indices| ==> indices[k] < features.Length
    ensures features[..] == Permuted(old(features[..]), indices)
    ensures labels[..] == Permuted(old(labels[..]), indices) + old(labels[features.Length..])
  {
    var n := features.Length;
    PermutationInRange(indices, n);
    var tempFeatures := features[..];
    var tempLabels := labels[..];
    var i := 0;
    while i < n
      invariant 0 <= i <= n
      invariant forall k :: 0 <= k < i ==> features[k] == tempFeatures[indices[k]]
      invariant forall k :: 0 <= k < i ==> labels[k] == tempLabels[indices[k]]
      invariant forall k :: n <= k < labels.Length ==> labels[k] == tempLabels[k]
    {
      features[i] := tempFeatures[indices[i]];
      labels[i] := tempLabels[indices[i]];
      i := i + 1;
    }
    assert labels[..] == labels[..n] + labels[n..];
  }
}
