/** The XOR checksum benchmark of SIMD/src/CheckSum.cpp: the XOR of every
    byte of a buffer, computed three ways (byte by byte, four bytes at a time
    in an unsigned int, sixteen bytes at a time in an SSE register) and
    compared. The buffer is the array `str`; its length is the constant `N`
    of the program. */
module CheckSum {

  /** The number of timed repetitions. */
  const NIter: int := 100

  /** The XOR of the bytes of `s`, from 0 and in order. */
  function XorFold(s: seq<bv8>): (x: bv8)
    ensures |s| == 1 ==> x == s[0]
    decreases |s|
  {
    if s == [] then 0 else XorFold(s[..|s| - 1]) ^ s[|s| - 1]
  }

  /** Lane-wise XOR of two registers of the same width. */
  function XorLanes(a: seq<bv8>, b: seq<bv8>): (c: seq<bv8>)
    requires |a| == |b|
    ensures |c| == |a| && forall k :: 0 <= k < |c| ==> c[k] == a[k] ^ b[k]
  {
    seq(|a|, k requires 0 <= k < |a| => a[k] ^ b[k])
  }

  function Zeros(n: nat): (z: seq<bv8>)
    ensures |z| == n && forall k :: 0 <= k < n ==> z[k] == 0
  {
    seq(n, _ => 0)
  }

  // ---------------------------------------------------------------------
  // Facts about the fold

  lemma {:induction false} XorFoldAppend(a: seq<bv8>, b: seq<bv8>)
    ensures XorFold(a + b) == XorFold(a) ^ XorFold(b)
    decreases |b|
  {
    if b == [] {
      assert a + b == a;
    } else {
      var init := b[..|b| - 1];
      assert (a + b)[..|a + b| - 1] == a + init;
      XorFoldAppend(a, init);
    }
  }

  lemma XorFoldStep(s: seq<bv8>, i: nat, k: nat)
    requires i + k <= |s|
    ensures XorFold(s[..i + k]) == XorFold(s[..i]) ^ XorFold(s[i..i + k])
  {
    assert s[..i + k] == s[..i] + s[i..i + k];
    XorFoldAppend(s[..i], s[i..i + k]);
  }

  /** Folding a lane-wise XOR is the XOR of the two folds. */
  lemma {:induction false} XorFoldLanes(a: seq<bv8>, b: seq<bv8>)
    requires |a| == |b|
    ensures XorFold(XorLanes(a, b)) == XorFold(a) ^ XorFold(b)
    decreases |a|
  {
    if a != [] {
      var n := |a| - 1;
      assert XorLanes(a, b)[..n] == XorLanes(a[..n], b[..n]);
      XorFoldLanes(a[..n], b[..n]);
    }
  }

  lemma {:induction false} XorFoldZeros(n: nat)
    ensures XorFold(Zeros(n)) == 0
    decreases n
  {
    if n > 0 {
      assert Zeros(n)[..n - 1] == Zeros(n - 1);
      XorFoldZeros(n - 1);
    }
  }

  // ---------------------------------------------------------------------
  // An unsigned int seen as its four bytes in memory

  /** `static_cast<unsigned int>(c)`: the byte becomes the least significant
      byte of the word, which is the first byte in memory on a little-endian
      machine and the last on a big-endian one; the other three are zero. */
  function Widened(c: bv8, little: bool): (w: seq<bv8>)
    ensures |w| == 4
  {
    if little then [c, 0, 0, 0] else [0, 0, 0, c]
  }

  lemma XorFoldOne(x: bv8)
    ensures XorFold([x]) == x
  {
    assert [x][..0] == [];
  }

  lemma XorFoldTwo(x: bv8, y: bv8)
    ensures XorFold([x, y]) == x ^ y
  {
    assert [x, y][..1] == [x];
    XorFoldOne(x);
  }

  lemma XorFoldThree(x: bv8, y: bv8, z: bv8)
    ensures XorFold([x, y, z]) == x ^ y ^ z
  {
    assert [x, y, z][..2] == [x, y];
    XorFoldTwo(x, y);
  }

  lemma XorFoldFour(x0: bv8, x1: bv8, x2: bv8, x3: bv8)
    ensures XorFold([x0, x1, x2, x3]) == x0 ^ x1 ^ x2 ^ x3
  {
    assert [x0, x1, x2, x3][..3] == [x0, x1, x2];
    XorFoldThree(x0, x1, x2);
  }

  /** Folding the bytes of a widened byte gives the byte back, whatever the
      byte order. */
  lemma XorFoldWidened(c: bv8, little: bool)
    ensures XorFold(Widened(c, little)) == c
  {
    if little {
      XorFoldFour(c, 0, 0, 0);
    } else {
      XorFoldFour(0, 0, 0, c);
    }
  }

  /** One step of the word loop: `memcpy` of the four bytes at `i` and
      `isum ^= v` keep the fold of the accumulator equal to the XOR of the
      bytes consumed so far. */
  lemma WordStep(s: seq<bv8>, i: nat, isum: seq<bv8>)
    requires i + 4 <= |s| && |isum| == 4
    requires XorFold(isum) == XorFold(s[..i])
    ensures XorFold(XorLanes(isum, s[i..i + 4])) == XorFold(s[..i + 4])
  {
    XorFoldLanes(isum, s[i..i + 4]);
    XorFoldStep(s, i, 4);
  }

  /** One step of the tail loop, likewise. */
  lemma TailStep(s: seq<bv8>, i: nat, isum: seq<bv8>, little: bool)
    requires i < |s| && |isum| == 4
    requires XorFold(isum) == XorFold(s[..i])
    ensures XorFold(XorLanes(isum, Widened(s[i], little))) == XorFold(s[..i + 1])
  {
    XorFoldLanes(isum, Widened(s[i], little));
    XorFoldWidened(s[i], little);
    assert s[..i + 1][..i] == s[..i];
  }

  // ---------------------------------------------------------------------
  // The three computations

  /** `Sum<unsigned char>(data, N)`: the XOR of the first `n` bytes, 0 when
      there are none. */
  method Sum(data: array<bv8>, n: int) returns (sum: bv8)
    requires n <= data.Length
    ensures sum == XorFold(data[..if n > 0 then n else 0])
  {
    sum := 0;
    var i := 0;
    while i < n
      invariant 0 <= i <= if n > 0 then n else 0
      invariant sum == XorFold(data[..i])
    {
      assert data[..i + 1][..i] == data[..i];
      sum := sum ^ data[i];
      i := i + 1;
    }
  }

  /** The `temp ^= bytes[j]` loop over the bytes of an accumulator. */
  method FoldBytes(bytes: seq<bv8>) returns (temp: bv8)
    requires |bytes| >= 1
    ensures temp == XorFold(bytes)
  {
    temp := bytes[0];
    assert bytes[..1][..0] == [];
    var j := 1;
    while j < |bytes|
      invariant 1 <= j <= |bytes|
      invariant temp == XorFold(bytes[..j])
    {
      assert bytes[..j + 1][..j] == bytes[..j];
      temp := temp ^ bytes[j];
      j := j + 1;
    }
    assert bytes[..j] == bytes;
  }

  /** One pass of the integer version: whole four-byte words while
      `i < N - 3`, then the remaining `N % 4` bytes one at a time, then the
      fold of the accumulator's four bytes. `little` is the byte order of the
      machine. Every byte enters the accumulator exactly once, so the result
      is the XOR of the whole buffer however the bytes are laid out. */
  method IntPass(str: array<bv8>, little: bool) returns (temp: bv8)
    ensures temp == XorFold(str[..])
  {
    var n := str.Length;
    var isum := Zeros(4);
    XorFoldZeros(4);
    var i := 0;
    while i < n - 3
      invariant 0 <= i <= n && i % 4 == 0
      invariant |isum| == 4
      invariant XorFold(isum) == XorFold(str[..i])
    {
      var v := str[i..i + 4];
      WordStep(str[..], i, isum);
      assert str[..][i..i + 4] == v;
      isum := XorLanes(isum, v);
      i := i + 4;
    }
    assert i == n - n % 4;
    i := n - n % 4;
    while i < n
      invariant 0 <= i <= n
      invariant |isum| == 4
      invariant XorFold(isum) == XorFold(str[..i])
    {
      TailStep(str[..], i, isum, little);
      isum := XorLanes(isum, Widened(str[i], little));
      i := i + 1;
    }
    assert str[..i] == str[..];
    temp := FoldBytes(isum);
  }

  /** The start of every word that the loop `for (i = 0; i < N - 3; i += 4)`
      copies, from `i` on. */
  function WordStarts(i: nat, n: nat): (starts: seq<nat>)
    decreases n - i
  {
    if i < n - 3 then [i] + WordStarts(i + 4, n) else []
  }

  /** The word loop copies exactly the `N / 4` whole words, at 0, 4, 8, ...,
      and stops at `N - N % 4`, where the tail loop begins: between them the
      two loops visit every byte exactly once. */
  lemma {:induction false} WordStartsCover(j: nat, n: nat)
    requires j <= n / 4
    ensures |WordStarts(4 * j, n)| == n / 4 - j
    ensures forall k :: 0 <= k < n / 4 - j ==> WordStarts(4 * j, n)[k] == 4 * (j + k)
    ensures 4 * (n / 4) == n - n % 4
    decreases n / 4 - j
  {
    if j < n / 4 {
      assert 4 * j < n - 3;
      var rest := WordStarts(4 * (j + 1), n);
      assert 4 * j + 4 == 4 * (j + 1);
      WordStartsCover(j + 1, n);
      assert WordStarts(4 * j, n) == [4 * j] + rest;
      forall k | 1 <= k < n / 4 - j
        ensures WordStarts(4 * j, n)[k] == 4 * (j + k)
      {
        assert WordStarts(4 * j, n)[k] == rest[k - 1];
      }
    } else {
      assert !(4 * j < n - 3);
    }
  }

  /** The start of every sixteen-byte load that the block loop
      `for (i = 0; i < N; i += 16)` issues, from `i` on. */
  function BlockStarts(i: nat, n: nat): (starts: seq<nat>)
    decreases n - i
  {
    if i < n then [i] + BlockStarts(i + 16, n) else []
  }

  /** Every sixteen-byte load starting at one of `starts` ends inside a
      buffer of `n` bytes. */
  predicate LoadsInBounds(starts: seq<nat>, n: nat) {
    forall k :: 0 <= k < |starts| ==> starts[k] + 16 <= n
  }

  lemma LoadsInBoundsCons(i: nat, rest: seq<nat>, n: nat)
    ensures LoadsInBounds([i] + rest, n) <==> i + 16 <= n && LoadsInBounds(rest, n)
  {
    var starts := [i] + rest;
    if LoadsInBounds(rest, n) && i + 16 <= n {
      forall k | 0 <= k < |starts|
        ensures starts[k] + 16 <= n
      {
        if k > 0 {
          assert starts[k] == rest[k - 1];
        }
      }
    }
    if LoadsInBounds(starts, n) {
      assert starts[0] == i;
      forall k | 0 <= k < |rest|
        ensures rest[k] + 16 <= n
      {
        assert rest[k] == starts[k + 1];
      }
    }
  }

  /** Every load of the block loop stays inside the buffer exactly when the
      length is a multiple of 16. */
  lemma {:induction false} BlockStartsInBounds(i: nat, n: nat)
    requires i % 16 == 0
    ensures LoadsInBounds(BlockStarts(i, n), n) <==> (i >= n || n % 16 == 0)
    decreases n - i
  {
    if i < n {
      BlockStartsInBounds(i + 16, n);
      LoadsInBoundsCons(i, BlockStarts(i + 16, n), n);
      if i + 16 > n {
        ModOffset(i, n - i);
        assert i + (n - i) == n && (n - i) % 16 == n - i;
      } else {
        ModOffset(i, 16);
      }
    }
  }

  lemma ModOffset(i: nat, r: nat)
    requires i % 16 == 0 && r <= 16
    ensures (i + r) % 16 == r % 16
  {
    var q := i / 16;
    assert i == 16 * q;
    assert i + r == 16 * q + r;
  }

  /** A length divisible by 4, as the comment on `N` asks for, is not
      enough: with 4 bytes the first load reads sixteen. */
  lemma BlockLoadOverreadsAtFour()
    ensures 4 % 4 == 0 && BlockStarts(0, 4) == [0] && !LoadsInBounds(BlockStarts(0, 4), 4)
  {
    assert BlockStarts(16, 4) == [];
    assert BlockStarts(0, 4)[0] + 16 > 4;
  }

  /** One pass of the SSE version as written: sixteen-byte blocks XORed into
      a sixteen-lane register, then the fold of the register's bytes. It
      stays in bounds only for a length that is a multiple of 16. */
  method SimdPass(str: array<bv8>) returns (temp: bv8)
    requires str.Length % 16 == 0
    ensures temp == XorFold(str[..])
  {
    var n := str.Length;
    var vsum := Zeros(16);
    XorFoldZeros(16);
    var i := 0;
    while i < n
      invariant 0 <= i <= n && i % 16 == 0
      invariant |vsum| == 16
      invariant XorFold(vsum) == XorFold(str[..i])
    {
      var v := str[i..i + 16];
      XorFoldLanes(vsum, v);
      XorFoldStep(str[..], i, 16);
      vsum := XorLanes(vsum, v);
      i := i + 16;
    }
    assert str[..i] == str[..];
    temp := FoldBytes(vsum);
  }

  /** The SSE version with the remaining `N % 16` bytes handled one at a time
      as the integer version does, into the register's first byte: in bounds
      and equal to the scalar result for every length. */
  method SimdPassWithTail(str: array<bv8>) returns (temp: bv8)
    ensures temp == XorFold(str[..])
  {
    var n := str.Length;
    var vsum := Zeros(16);
    XorFoldZeros(16);
    var i := 0;
    while i < n - 15
      invariant 0 <= i <= n && i % 16 == 0
      invariant |vsum| == 16
      invariant XorFold(vsum) == XorFold(str[..i])
    {
      var v := str[i..i + 16];
      XorFoldLanes(vsum, v);
      XorFoldStep(str[..], i, 16);
      vsum := XorLanes(vsum, v);
      i := i + 16;
    }
    assert i == n - n % 16;
    while i < n
      invariant 0 <= i <= n
      invariant |vsum| == 16
      invariant XorFold(vsum) == XorFold(str[..i])
    {
      var low := [str[i]] + Zeros(15);
      assert low[1..] == Zeros(15);
      XorFoldFirst(str[i], 15);
      XorFoldLanes(vsum, low);
      assert str[..i + 1][..i] == str[..i];
      vsum := XorLanes(vsum, low);
      i := i + 1;
    }
    assert str[..i] == str[..];
    temp := FoldBytes(vsum);
  }

  lemma {:induction false} XorFoldFirst(c: bv8, n: nat)
    ensures XorFold([c] + Zeros(n)) == c
    decreases n
  {
    if n == 0 {
      assert ([c] + Zeros(0))[..0] == [];
    } else {
      assert ([c] + Zeros(n))[..n] == [c] + Zeros(n - 1);
      XorFoldFirst(c, n - 1);
    }
  }

  // ---------------------------------------------------------------------
  // The timed sections and the final comparison

  /** `for (ii = 0; ii < NIter; ii++) sumS = Sum(str, N);` */
  method ScalarSection(str: array<bv8>, nIter: int) returns (sumS: bv8)
    ensures sumS == if nIter > 0 then XorFold(str[..]) else 0
  {
    sumS := 0;
    var ii := 0;
    while ii < nIter
      invariant ii >= 0 && (ii <= nIter || ii == 0)
      invariant sumS == if ii > 0 then XorFold(str[..]) else 0
    {
      sumS := Sum(str, str.Length);
      assert str[..str.Length] == str[..];
      ii := ii + 1;
    }
  }

  /** The integer section: every repetition starts from a zero accumulator,
      and the value of repetition 0 is the one kept. */
  method IntSection(str: array<bv8>, nIter: int, little: bool) returns (sumI: bv8)
    ensures sumI == if nIter > 0 then XorFold(str[..]) else 0
  {
    sumI := 0;
    var ii := 0;
    while ii < nIter
      invariant ii >= 0 && (ii <= nIter || ii == 0)
      invariant sumI == if ii > 0 then XorFold(str[..]) else 0
    {
      var temp := IntPass(str, little);
      if ii == 0 {
        sumI := temp;
      }
      ii := ii + 1;
    }
  }

  /** The SSE section: with `asWritten` the block loop of the program, which
      needs a length that is a multiple of 16; otherwise the corrected pass. */
  method SimdSection(str: array<bv8>, nIter: int, asWritten: bool) returns (sumV: bv8)
    requires asWritten ==> str.Length % 16 == 0
    ensures sumV == if nIter > 0 then XorFold(str[..]) else 0
  {
    sumV := 0;
    var ii := 0;
    while ii < nIter
      invariant ii >= 0 && (ii <= nIter || ii == 0)
      invariant sumV == if ii > 0 then XorFold(str[..]) else 0
    {
      var temp;
      if asWritten {
        temp := SimdPass(str);
      } else {
        temp := SimdPassWithTail(str);
      }
      if ii == 0 {
        sumV := temp;
      }
      ii := ii + 1;
    }
  }

  /** The three sections and the test `sumV == sumS && sumI == sumS`, which
      always holds: for every length with the corrected SSE pass, and for
      lengths that are multiples of 16 with the pass as written. */
  method CheckSums(str: array<bv8>, little: bool, asWritten: bool) returns (sumS: bv8, sumV: bv8, sumI: bv8, same: bool)
    requires asWritten ==> str.Length % 16 == 0
    ensures sumS == XorFold(str[..])
    ensures same && sumV == sumS && sumI == sumS
  {
    sumS := ScalarSection(str, NIter);
    sumV := SimdSection(str, NIter, asWritten);
    sumI := IntSection(str, NIter, little);
    same := sumV == sumS && sumI == sumS;
  }

  /** The buffer length of the program. */
  const N: int := 4000000

  /** The program as written, on its own buffer length: every load of the
      SSE loop stays in the buffer and the three results agree. */
  method Benchmark(str: array<bv8>, little: bool) returns (sumS: bv8, same: bool)
    requires str.Length == N
    ensures LoadsInBounds(BlockStarts(0, N), N)
    ensures sumS == XorFold(str[..]) && same
  {
    assert N % 16 == 0;
    BlockStartsInBounds(0, N);
    var sumV, sumI;
    sumS, sumV, sumI, same := CheckSums(str, little, true);
  }
}
