/** Python's `zip(*columns)` and the fixed-size slicing `s[i:i + n]` over
    `range(0, len(s), n)`, with the facts the decoder and the CSV writer need about them. */
module Seqs {

  /** The length of the shortest of several sequences. */
  function MinLength<T>(cols: seq<seq<T>>): (m: nat)
    requires |cols| > 0
    ensures forall c :: 0 <= c < |cols| ==> m <= |cols[c]|
    ensures exists c :: 0 <= c < |cols| && m == |cols[c]|
  {
    if |cols| == 1 then |cols[0]|
    else
      var m' := MinLength(cols[1..]);
      assert forall c :: 1 <= c < |cols| ==> cols[1..][c - 1] == cols[c];
      if |cols[0]| <= m' then |cols[0]| else m'
  }

  /** `zip(*cols)`: the i-th result holds the i-th element of every input, in input
      order. It stops at the shortest input and is empty when there are no inputs. */
  function Zip<T>(cols: seq<seq<T>>): (r: seq<seq<T>>)
    ensures |r| == (if cols == [] then 0 else MinLength(cols))
    ensures forall i :: 0 <= i < |r| ==> |r[i]| == |cols|
    ensures forall i, c :: 0 <= i < |r| && 0 <= c < |cols| ==> r[i][c] == cols[c][i]
  {
    if cols == [] then []
    else
      var m := MinLength(cols);
      seq(m, i requires 0 <= i < m => seq(|cols|, c requires 0 <= c < |cols| => cols[c][i]))
  }

  /** The slices `s[i:i + n]` for `i` in `range(0, len(s), n)`: consecutive blocks of
      `n` elements, the last one possibly shorter. */
  function Chunks<T>(s: seq<T>, n: nat): seq<seq<T>>
    requires n > 0
    decreases |s|
  {
    if s == [] then []
    else if |s| <= n then [s]
    else [s[..n]] + Chunks(s[n..], n)
  }

  lemma MulFacts(k: int, n: int)
    ensures (k - 1) * n == k * n - n
    ensures 0 * n == 0 && 1 * n == n
  {
  }

  /** Where the `j`-th value of channel `i` sits among values interleaved `n` at a time:
      `i + j * n`, counted out one stride at a time. */
  function Position(i: nat, j: nat, n: nat): nat
    decreases j
  {
    if j == 0 then i else Position(i, j - 1, n) + n
  }

  lemma {:induction false} PositionValue(i: nat, j: nat, n: nat)
    ensures Position(i, j, n) == i + j * n
  {
    if j > 0 {
      PositionValue(i, j - 1, n);
      MulFacts(j, n);
    }
  }

  /** For `|s| == k * n + r` (written `Position(r, k, n)`) with `r < n` there are `k`
      blocks, and one more when `r > 0`. */
  lemma {:induction false} ChunksLength<T>(s: seq<T>, n: nat, k: nat, r: nat)
    requires n > 0 && r < n && |s| == Position(r, k, n)
    ensures |Chunks(s, n)| == k + (if r > 0 then 1 else 0)
    decreases k
  {
    if k == 0 {
    } else if k == 1 && r == 0 {
      assert |s| == n;
    } else {
      assert |s| > n;
      ChunksLength(s[n..], n, k - 1, r);
    }
  }

  /** Element `i` of block `j` is `s[i + j*n]`. */
  lemma {:induction false} ChunkElement<T>(s: seq<T>, n: nat, k: nat, r: nat, j: nat, i: nat)
    requires n > 0 && r < n && |s| == Position(r, k, n)
    requires j <= k && i < n && (j == k ==> i < r)
    ensures j < |Chunks(s, n)| && i < |Chunks(s, n)[j]|
    ensures Position(i, j, n) < |s| && Chunks(s, n)[j][i] == s[Position(i, j, n)]
    decreases j
  {
    if j == 0 {
      if k == 0 {
        assert |s| == r;
      }
    } else {
      assert |s| > n;
      var rest := s[n..];
      ChunkElement(rest, n, k - 1, r, j - 1, i);
      assert Chunks(s, n)[j] == Chunks(rest, n)[j - 1];
    }
  }

  lemma ZipChunkElement<T>(s: seq<T>, n: nat, k: nat, r: nat, i: nat, j: nat)
    requires n > 0 && r < n && |s| == k * n + r
    requires i < |Zip(Chunks(s, n))| && j < |Zip(Chunks(s, n))[i]|
    ensures Position(i, j, n) < |s| && Zip(Chunks(s, n))[i][j] == s[Position(i, j, n)]
  {
    ZipChunksLengths(s, n, k, r);
    PositionValue(r, k, n);
    ChunkElement(s, n, k, r, j, i);
  }

  /** Transposing the blocks of `s` (`zip(*chunks)`): for `|s| == k * n + r` with `r < n`
      the result has `n` sequences of length `k` when `r == 0` (none when `s` is empty),
      and `r` sequences of length `k + 1` otherwise; its sequence `i` is
      `s[i], s[i + n], s[i + 2n], ...`. */
  lemma {:induction false} ZipChunks<T>(s: seq<T>, n: nat, k: nat, r: nat)
    requires n > 0 && r < n && |s| == k * n + r
    ensures |Zip(Chunks(s, n))| == (if r > 0 then r else if k > 0 then n else 0)
    ensures forall i :: 0 <= i < |Zip(Chunks(s, n))| ==>
              |Zip(Chunks(s, n))[i]| == k + (if r > 0 then 1 else 0)
    ensures forall i, j :: 0 <= i < |Zip(Chunks(s, n))| && 0 <= j < |Zip(Chunks(s, n))[i]| ==>
              Position(i, j, n) < |s| && Zip(Chunks(s, n))[i][j] == s[Position(i, j, n)]
  {
    ZipChunksLengths(s, n, k, r);
    ZipChunksElements(s, n, k, r);
  }

  /** For `|s| == k * n` the transposed blocks are `n` sequences of `k` elements. */
  lemma ZipChunksExact<T>(s: seq<T>, n: nat, k: nat)
    requires n > 0 && k > 0 && |s| == k * n
    ensures |Zip(Chunks(s, n))| == n
    ensures forall i :: 0 <= i < n ==> |Zip(Chunks(s, n))[i]| == k
    ensures forall i, j :: 0 <= i < n && 0 <= j < k ==>
              Position(i, j, n) < |s| && Zip(Chunks(s, n))[i][j] == s[Position(i, j, n)]
  {
    assert |s| == k * n + 0;
    ZipChunks(s, n, k, 0);
  }

  lemma ZipChunksLengths<T>(s: seq<T>, n: nat, k: nat, r: nat)
    requires n > 0 && r < n && |s| == k * n + r
    ensures |Zip(Chunks(s, n))| == (if r > 0 then r else if k > 0 then n else 0)
    ensures forall i :: 0 <= i < |Zip(Chunks(s, n))| ==>
              |Zip(Chunks(s, n))[i]| == k + (if r > 0 then 1 else 0)
  {
    PositionValue(r, k, n);
    ChunksLength(s, n, k, r);
    ChunksMinLength(s, n, k, r);
  }

  lemma ZipChunksElements<T>(s: seq<T>, n: nat, k: nat, r: nat)
    requires n > 0 && r < n && |s| == k * n + r
    ensures forall i, j :: 0 <= i < |Zip(Chunks(s, n))| && 0 <= j < |Zip(Chunks(s, n))[i]| ==>
              Position(i, j, n) < |s| && Zip(Chunks(s, n))[i][j] == s[Position(i, j, n)]
  {
    var z := Zip(Chunks(s, n));
    forall i, j | 0 <= i < |z| && 0 <= j < |z[i]|
      ensures Position(i, j, n) < |s| && z[i][j] == s[Position(i, j, n)]
    {
      ZipChunkElement(s, n, k, r, i, j);
    }
  }

  /** The shortest block has `n` elements, or `r` when there is a partial block. */
  lemma {:induction false} ChunksMinLength<T>(s: seq<T>, n: nat, k: nat, r: nat)
    requires n > 0 && r < n && |s| == Position(r, k, n)
    ensures Chunks(s, n) != [] ==> MinLength(Chunks(s, n)) == if r > 0 then r else n
    decreases k
  {
    if k == 0 || (k == 1 && r == 0) {
      if s != [] {
        assert Chunks(s, n) == [s];
      }
    } else {
      assert |s| > n;
      var rest := s[n..];
      var cr := Chunks(rest, n);
      ChunksMinLength(rest, n, k - 1, r);
      assert Chunks(s, n) == [s[..n]] + cr;
      MinLengthCons(s[..n], cr);
    }
  }

  lemma MinLengthCons<T>(x: seq<T>, rest: seq<seq<T>>)
    requires rest != []
    ensures MinLength([x] + rest) == if |x| <= MinLength(rest) then |x| else MinLength(rest)
  {
    assert ([x] + rest)[1..] == rest;
  }

  /** Sequences of sequences with the same lengths have the same shortest length. */
  lemma {:induction false} MinLengthSameShape<T, U>(a: seq<seq<T>>, b: seq<seq<U>>)
    requires |a| == |b| > 0
    requires forall c :: 0 <= c < |a| ==> |a[c]| == |b[c]|
    ensures MinLength(a) == MinLength(b)
  {
    if |a| > 1 {
      MinLengthSameShape(a[1..], b[1..]);
    }
  }

  /** Applying `f` to every element before or after slicing gives the same blocks. */
  lemma {:induction false} ChunksMap<T, U>(s: seq<T>, n: nat, f: T -> U)
    requires n > 0
    ensures |Chunks(Map(s, f), n)| == |Chunks(s, n)|
    ensures forall c :: 0 <= c < |Chunks(s, n)| ==> Chunks(Map(s, f), n)[c] == Map(Chunks(s, n)[c], f)
    decreases |s|
  {
    if |s| > n {
      assert Map(s, f)[n..] == Map(s[n..], f);
      assert Map(s, f)[..n] == Map(s[..n], f);
      ChunksMap(s[n..], n, f);
    }
  }

  /** `[f(x) for x in s]`. */
  function Map<T, U>(s: seq<T>, f: T -> U): (r: seq<U>)
    ensures |r| == |s| && forall k :: 0 <= k < |s| ==> r[k] == f(s[k])
  {
    seq(|s|, k requires 0 <= k < |s| => f(s[k]))
  }
}
