/**
 Causal attention: rfsn_v10/attention_reference.py, for one batch element and one head, in
 exact arithmetic.

 The score of a query against a key is a parameter, instantiated by the scaled dot product
 at the end.  The exponential is any non-negative function with ex(0) = 1 that vanishes at
 and below some -u: all the proofs need of exp is that masked scores underflow.
 */
module Attention {
  import opened Arithmetic

  type Vec = seq<real>
  type Matrix = seq<Vec>

  const MASKED: real := -1000000000.0

  datatype Head = Head(dim: nat, score: (Vec, Vec) -> real, ex: real -> real) {
    ghost predicate Ok() {
      ex(0.0) == 1.0 && forall x :: ex(x) >= 0.0
    }

    ghost predicate Underflows(u: real) {
      u > 0.0 && Ok() && forall x :: x <= -u ==> ex(x) == 0.0
    }
  }

  // ---------------------------------------------------------------------------
  // Vectors
  // ---------------------------------------------------------------------------

  function Dot(x: Vec, y: Vec): real
    requires |x| == |y|
    decreases |x|
  {
    if x == [] then 0.0
    else Dot(x[..|x| - 1], y[..|y| - 1]) + x[|x| - 1] * y[|y| - 1]
  }

  function Sum(x: Vec): real
    decreases |x|
  {
    if x == [] then 0.0 else Sum(x[..|x| - 1]) + x[|x| - 1]
  }

  function RowMax(x: Vec): (m: real)
    requires x != []
    ensures m in x && forall j :: 0 <= j < |x| ==> x[j] <= m
    decreases |x|
  {
    if |x| == 1 then x[0]
    else
      var front := RowMax(x[..|x| - 1]);
      if x[|x| - 1] > front then x[|x| - 1] else front
  }

  function Fill(c: real, n: nat): (y: Vec)
    ensures |y| == n && forall j :: 0 <= j < n ==> y[j] == c
  {
    seq(n, _ => c)
  }

  ghost predicate Width(m: Matrix, dim: nat) {
    forall j :: 0 <= j < |m| ==> |m[j]| == dim
  }

  function Column(v: Matrix, dim: nat, d: nat): (y: Vec)
    requires Width(v, dim) && d < dim
    ensures |y| == |v| && forall j :: 0 <= j < |v| ==> y[j] == v[j][d]
  {
    seq(|v|, j requires 0 <= j < |v| => v[j][d])
  }

  // ---------------------------------------------------------------------------
  // One query row
  // ---------------------------------------------------------------------------

  function ScoreRow(h: Head, qi: Vec, k: Matrix): (row: Vec)
    ensures |row| == |k| && forall j :: 0 <= j < |k| ==> row[j] == h.score(qi, k[j])
  {
    seq(|k|, j requires 0 <= j < |k| => h.score(qi, k[j]))
  }

  function Exponentials(h: Head, row: Vec, m: real): (e: Vec)
    ensures |e| == |row| && forall j :: 0 <= j < |row| ==> e[j] == h.ex(row[j] - m)
  {
    seq(|row|, j requires 0 <= j < |row| => h.ex(row[j] - m))
  }

  function Divided(e: Vec, z: real): (w: Vec)
    requires z != 0.0
    ensures |w| == |e| && forall j :: 0 <= j < |e| ==> w[j] == e[j] / z
  {
    seq(|e|, j requires 0 <= j < |e| => e[j] / z)
  }

  /** Subtract the maximum, exponentiate, divide by the sum. */
  function Softmax(h: Head, row: Vec): (w: Vec)
    requires row != [] && h.Ok()
    ensures |w| == |row|
  {
    var e := Exponentials(h, row, RowMax(row));
    ExponentialsPositive(h, row);
    Divided(e, Sum(e))
  }

  lemma ExponentialsPositive(h: Head, row: Vec)
    requires row != [] && h.Ok()
    ensures Sum(Exponentials(h, row, RowMax(row))) >= 1.0
  {
    var e := Exponentials(h, row, RowMax(row));
    var j :| 0 <= j < |row| && row[j] == RowMax(row);
    assert e[j] == 1.0;
    SumPositive(e);
  }

  lemma {:induction false} SumPositive(e: Vec)
    ensures (forall j :: 0 <= j < |e| ==> e[j] >= 0.0) ==> Sum(e) >= 0.0
    ensures (forall j :: 0 <= j < |e| ==> e[j] >= 0.0) && 1.0 in e ==> Sum(e) >= 1.0
    decreases |e|
  {
    if e != [] {
      SumPositive(e[..|e| - 1]);
      if 1.0 in e && e[|e| - 1] != 1.0 {
        var j :| 0 <= j < |e| && e[j] == 1.0;
        assert e[..|e| - 1][j] == 1.0;
      }
    }
  }

  /** The weights times the values. */
  function Mix(w: Vec, v: Matrix, dim: nat): (o: Vec)
    requires |w| == |v| && Width(v, dim)
    ensures |o| == dim && forall d :: 0 <= d < dim ==> o[d] == Dot(w, Column(v, dim, d))
  {
    seq(dim, d requires 0 <= d < dim => Dot(w, Column(v, dim, d)))
  }

  /** Keys and values a query can attend to at all. */
  ghost predicate KV(h: Head, k: Matrix, v: Matrix) {
    |k| == |v| && k != [] && Width(v, h.dim)
  }

  /** Attention of one query over all the given keys and values, without a mask. */
  function Attend(h: Head, qi: Vec, k: Matrix, v: Matrix): Vec
    requires h.Ok() && KV(h, k, v)
  {
    Mix(Softmax(h, ScoreRow(h, qi, k)), v, h.dim)
  }

  /** The scores of query i of a block of tq queries: those beyond i + (T_k - T_q) are replaced. */
  function MaskedRow(row: Vec, i: nat, tq: nat): (r: Vec)
    ensures |r| == |row|
    ensures forall j :: 0 <= j < |row| ==> r[j] == if j <= i + (|row| - tq) then row[j] else MASKED
  {
    seq(|row|, j requires 0 <= j < |row| => if j <= i + (|row| - tq) then row[j] else MASKED)
  }

  function MaskedAttend(h: Head, qi: Vec, k: Matrix, v: Matrix, i: nat, tq: nat): Vec
    requires h.Ok() && KV(h, k, v)
  {
    Mix(Softmax(h, MaskedRow(ScoreRow(h, qi, k), i, tq)), v, h.dim)
  }

  /** Query i of a block of tq queries, as the NumPy path treats it: no mask when it is alone. */
  function QueryRow(h: Head, qi: Vec, k: Matrix, v: Matrix, i: nat, tq: nat): Vec
    requires h.Ok() && KV(h, k, v)
  {
    if tq > 1 then MaskedAttend(h, qi, k, v, i, tq) else Attend(h, qi, k, v)
  }

  // ---------------------------------------------------------------------------
  // Padding with masked scores changes nothing
  // ---------------------------------------------------------------------------

  lemma {:induction false} SumZeros(x: Vec, n: nat)
    ensures Sum(x + Fill(0.0, n)) == Sum(x)
    decreases n
  {
    if n == 0 {
      assert x + Fill(0.0, n) == x;
    } else {
      SumZeros(x, n - 1);
      assert (x + Fill(0.0, n))[..|x| + n - 1] == x + Fill(0.0, n - 1);
    }
  }

  lemma {:induction false} DotZeros(w: Vec, x: Vec, y: Vec)
    requires |w| == |x|
    ensures Dot(w + Fill(0.0, |y|), x + y) == Dot(w, x)
    decreases |y|
  {
    if y == [] {
      assert w + Fill(0.0, 0) == w && x + y == x;
    } else {
      var n := |y|;
      DotZeros(w, x, y[..n - 1]);
      assert (w + Fill(0.0, n))[..|w| + n - 1] == w + Fill(0.0, n - 1);
      assert (x + y)[..|x| + n - 1] == x + y[..n - 1];
    }
  }

  lemma MaxUnique(x: Vec, y: Vec)
    requires x != [] && y != []
    requires RowMax(x) in y && forall j :: 0 <= j < |y| ==> y[j] <= RowMax(x)
    ensures RowMax(y) == RowMax(x)
  {
  }

  lemma ExponentialsPadded(h: Head, row: Vec, n: nat, m: real, u: real)
    requires h.Underflows(u) && m >= MASKED + u
    ensures Exponentials(h, row + Fill(MASKED, n), m) == Exponentials(h, row, m) + Fill(0.0, n)
  {
    assert h.ex(MASKED - m) == 0.0;
  }

  lemma DividedZeros(e: Vec, n: nat, z: real)
    requires z != 0.0
    ensures Divided(e + Fill(0.0, n), z) == Divided(e, z) + Fill(0.0, n)
  {
  }

  lemma SoftmaxPadded(h: Head, row: Vec, n: nat, u: real)
    requires row != [] && h.Underflows(u) && RowMax(row) >= MASKED + u
    ensures Softmax(h, row + Fill(MASKED, n)) == Softmax(h, row) + Fill(0.0, n)
  {
    var padded, m := row + Fill(MASKED, n), RowMax(row);
    var e := Exponentials(h, row, m);
    assert m in padded && forall j :: 0 <= j < |padded| ==> padded[j] <= m;
    MaxUnique(row, padded);
    ExponentialsPadded(h, row, n, m, u);
    SumZeros(e, n);
    ExponentialsPositive(h, row);
    DividedZeros(e, n, Sum(e));
  }

  lemma ColumnSplit(v: Matrix, dim: nat, n: nat, d: nat)
    requires Width(v, dim) && n <= |v| && d < dim
    ensures Column(v, dim, d) == Column(v[..n], dim, d) + Column(v[n..], dim, d)
  {
  }

  lemma MixPadded(w: Vec, v: Matrix, n: nat, dim: nat)
    requires n <= |v| && |w| == n && Width(v, dim)
    ensures Mix(w + Fill(0.0, |v| - n), v, dim) == Mix(w, v[..n], dim)
  {
    forall d | 0 <= d < dim
      ensures Mix(w + Fill(0.0, |v| - n), v, dim)[d] == Mix(w, v[..n], dim)[d]
    {
      ColumnSplit(v, dim, n, d);
      DotZeros(w, Column(v[..n], dim, d), Column(v[n..], dim, d));
    }
  }

  // ---------------------------------------------------------------------------
  // Rows are causal
  // ---------------------------------------------------------------------------

  /** Some key has a score that does not underflow against the mask. */
  ghost predicate Visible(h: Head, qi: Vec, k: Matrix, u: real) {
    exists j :: 0 <= j < |k| && h.score(qi, k[j]) >= MASKED + u
  }

  lemma ScorePrefix(h: Head, qi: Vec, k: Matrix, n: nat)
    requires n <= |k|
    ensures ScoreRow(h, qi, k[..n]) == ScoreRow(h, qi, k)[..n]
  {
  }

  /** The first keys and values, up to and including the position of query i. */
  ghost predicate Seen(k: Matrix, v: Matrix, i: nat, tq: nat, ks: Matrix, vs: Matrix) {
    && |k| == |v| && i < tq <= i + |k|
    && ks == k[..i + (|k| - tq) + 1] && vs == v[..i + (|k| - tq) + 1]
  }

  lemma MaskedRowIsPadded(h: Head, qi: Vec, k: Matrix, i: nat, tq: nat, ks: Matrix, u: real)
    requires i < tq <= i + |k| && ks == k[..i + (|k| - tq) + 1] && Visible(h, qi, ks, u)
    ensures MaskedRow(ScoreRow(h, qi, k), i, tq) == ScoreRow(h, qi, ks) + Fill(MASKED, |k| - |ks|)
    ensures RowMax(ScoreRow(h, qi, ks)) >= MASKED + u
  {
    ScorePrefix(h, qi, k, |ks|);
    var j :| 0 <= j < |ks| && h.score(qi, ks[j]) >= MASKED + u;
    assert ScoreRow(h, qi, ks)[j] >= MASKED + u;
  }

  lemma MaskedRowAttends(h: Head, qi: Vec, k: Matrix, v: Matrix, i: nat, tq: nat, ks: Matrix, vs: Matrix, u: real)
    requires KV(h, k, v) && h.Underflows(u) && Seen(k, v, i, tq, ks, vs) && Visible(h, qi, ks, u)
    ensures MaskedAttend(h, qi, k, v, i, tq) == Attend(h, qi, ks, vs)
  {
    var seen := ScoreRow(h, qi, ks);
    MaskedRowIsPadded(h, qi, k, i, tq, ks, u);
    SoftmaxPadded(h, seen, |k| - |ks|, u);
    MixPadded(Softmax(h, seen), v, |ks|, h.dim);
  }

  lemma SeenAll(k: Matrix, v: Matrix, ks: Matrix, vs: Matrix)
    requires Seen(k, v, 0, 1, ks, vs)
    ensures ks == k && vs == v
  {
  }

  /** Output row i is plain attention over the first i + (T_k - T_q) + 1 keys and values, if
      that is at least one, in the masked and in the one-token path alike. */
  lemma RowIsCausal(h: Head, qi: Vec, k: Matrix, v: Matrix, i: nat, tq: nat, ks: Matrix, vs: Matrix, u: real)
    requires KV(h, k, v) && h.Underflows(u) && Seen(k, v, i, tq, ks, vs) && Visible(h, qi, ks, u)
    ensures QueryRow(h, qi, k, v, i, tq) == Attend(h, qi, ks, vs)
  {
    if tq == 1 {
      SeenAll(k, v, ks, vs);
    } else {
      MaskedRowAttends(h, qi, k, v, i, tq, ks, vs, u);
    }
  }

  /** A row is determined by its query and the keys and values up to its own position: two
      blocks of any sizes that agree on those give the same row, whatever comes later. */
  lemma NoFutureLeak(h: Head, qi: Vec, k: Matrix, v: Matrix, i: nat, tq: nat, k': Matrix, v': Matrix, i': nat, tq': nat,
                     ks: Matrix, vs: Matrix, u: real)
    requires KV(h, k, v) && KV(h, k', v') && h.Underflows(u)
    requires Seen(k, v, i, tq, ks, vs) && Seen(k', v', i', tq', ks, vs) && Visible(h, qi, ks, u)
    ensures QueryRow(h, qi, k, v, i, tq) == QueryRow(h, qi, k', v', i', tq')
  {
    RowIsCausal(h, qi, k, v, i, tq, ks, vs, u);
    RowIsCausal(h, qi, k', v', i', tq', ks, vs, u);
  }

  // ---------------------------------------------------------------------------
  // Prefill against chunks and decoding
  // ---------------------------------------------------------------------------

  ghost predicate Shapes(h: Head, q: Matrix, k: Matrix, v: Matrix) {
    |k| == |v| && Width(v, h.dim) && (q != [] ==> k != [])
  }

  /** The output of one block of queries. */
  function CausalAttention(h: Head, q: Matrix, k: Matrix, v: Matrix): (o: Matrix)
    requires h.Ok() && Shapes(h, q, k, v)
    ensures |o| == |q|
  {
    seq(|q|, i requires 0 <= i < |q| => QueryRow(h, q[i], k, v, i, |q|))
  }

  function Total(sizes: seq<nat>): nat {
    if sizes == [] then 0 else sizes[0] + Total(sizes[1..])
  }

  /** The queries from start to end, with all keys and values there are by then. */
  function OneChunk(h: Head, q: Matrix, k: Matrix, v: Matrix, start: nat, end: nat): Matrix
    requires h.Ok() && Shapes(h, q, k, v) && |q| == |k| && start <= end <= |q|
  {
    CausalAttention(h, q[start..end], k[..end], v[..end])
  }

  /** Consecutive pieces of the given sizes, joined. */
  function Joined(piece: (nat, nat) -> Matrix, start: nat, sizes: seq<nat>): Matrix
    decreases |sizes|
  {
    if sizes == [] then []
    else piece(start, start + sizes[0]) + Joined(piece, start + sizes[0], sizes[1..])
  }

  ghost predicate ArePieces(piece: (nat, nat) -> Matrix, whole: Matrix) {
    forall a: nat, b: nat :: a <= b <= |whole| ==> piece(a, b) == whole[a..b]
  }

  lemma {:induction false} JoinedIsSlice(piece: (nat, nat) -> Matrix, whole: Matrix, start: nat, sizes: seq<nat>)
    requires start + Total(sizes) == |whole|
    requires ArePieces(piece, whole)
    ensures Joined(piece, start, sizes) == whole[start..]
    decreases |sizes|
  {
    if sizes == [] {
      assert whole[start..] == [];
    } else {
      var end := start + sizes[0];
      JoinedIsSlice(piece, whole, end, sizes[1..]);
      assert whole[start..] == whole[start..end] + whole[end..];
    }
  }

  function Chunk(h: Head, q: Matrix, k: Matrix, v: Matrix): (nat, nat) -> Matrix
    requires h.Ok() && Shapes(h, q, k, v) && |q| == |k|
  {
    (start: nat, end: nat) => if start <= end <= |q| then OneChunk(h, q, k, v, start, end) else []
  }

  /** A sequence fed in consecutive chunks of the given sizes. */
  function Chunked(h: Head, q: Matrix, k: Matrix, v: Matrix, start: nat, sizes: seq<nat>): Matrix
    requires h.Ok() && Shapes(h, q, k, v) && |q| == |k| && start + Total(sizes) == |q|
  {
    Joined(Chunk(h, q, k, v), start, sizes)
  }

  /** Every query of the whole sequence sees some key that does not underflow. */
  ghost predicate AllVisible(h: Head, q: Matrix, k: Matrix, u: real)
    requires |q| == |k|
  {
    forall i :: 0 <= i < |q| ==> VisibleAt(h, q, k, i, u)
  }

  ghost predicate VisibleAt(h: Head, q: Matrix, k: Matrix, i: nat, u: real)
    requires i < |q| == |k|
  {
    Visible(h, q[i], k[..i + 1], u)
  }

  lemma SeenInChunk(k: Matrix, v: Matrix, start: nat, end: nat, i: nat, ke: Matrix, ve: Matrix, ks: Matrix, vs: Matrix)
    requires |k| == |v| && start + i < end <= |k| && ke == k[..end] && ve == v[..end]
    requires ks == k[..start + i + 1] && vs == v[..start + i + 1]
    ensures Seen(ke, ve, i, end - start, ks, vs) && Seen(k, v, start + i, |k|, ks, vs)
  {
  }

  lemma ChunkRow(h: Head, qi: Vec, k: Matrix, v: Matrix, start: nat, end: nat, ke: Matrix, ve: Matrix, i: nat, u: real)
    requires KV(h, k, v) && h.Underflows(u) && start + i < end <= |k| && Visible(h, qi, k[..start + i + 1], u)
    requires ke == k[..end] && ve == v[..end]
    ensures KV(h, ke, ve)
    ensures QueryRow(h, qi, ke, ve, i, end - start) == QueryRow(h, qi, k, v, start + i, |k|)
  {
    var ks, vs := k[..start + i + 1], v[..start + i + 1];
    SeenInChunk(k, v, start, end, i, ke, ve, ks, vs);
    NoFutureLeak(h, qi, ke, ve, i, end - start, k, v, start + i, |k|, ks, vs, u);
  }

  lemma BlockRow(h: Head, q: Matrix, k: Matrix, v: Matrix, i: nat)
    requires h.Ok() && Shapes(h, q, k, v) && i < |q|
    ensures KV(h, k, v) && CausalAttention(h, q, k, v)[i] == QueryRow(h, q[i], k, v, i, |q|)
  {
  }

  lemma ChunkElement(h: Head, q: Matrix, k: Matrix, v: Matrix, start: nat, end: nat, qs: Matrix, ke: Matrix, ve: Matrix, i: nat, u: real)
    requires Shapes(h, q, k, v) && |q| == |k| && h.Underflows(u) && start + i < end <= |q|
    requires Visible(h, q[start + i], k[..start + i + 1], u)
    requires qs == q[start..end] && ke == k[..end] && ve == v[..end]
    ensures Shapes(h, qs, ke, ve) && CausalAttention(h, qs, ke, ve)[i] == CausalAttention(h, q, k, v)[start + i]
  {
    assert |qs| == end - start && qs[i] == q[start + i];
    ChunkRow(h, qs[i], k, v, start, end, ke, ve, i, u);
    BlockRow(h, qs, ke, ve, i);
    BlockRow(h, q, k, v, start + i);
  }

  lemma SliceByElements(part: Matrix, whole: Matrix, start: nat, end: nat)
    requires start <= end <= |whole| && |part| == end - start
    requires forall i :: 0 <= i < |part| ==> part[i] == whole[start + i]
    ensures part == whole[start..end]
  {
  }

  lemma ChunkIsSlice(h: Head, q: Matrix, k: Matrix, v: Matrix, start: nat, end: nat, u: real)
    requires Shapes(h, q, k, v) && |q| == |k| && h.Underflows(u) && AllVisible(h, q, k, u)
    requires start <= end <= |q|
    ensures OneChunk(h, q, k, v, start, end) == CausalAttention(h, q, k, v)[start..end]
  {
    var qs, ke, ve := q[start..end], k[..end], v[..end];
    var part, whole := CausalAttention(h, qs, ke, ve), CausalAttention(h, q, k, v);
    forall i | 0 <= i < end - start
      ensures part[i] == whole[start + i]
    {
      assert VisibleAt(h, q, k, start + i, u);
      ChunkElement(h, q, k, v, start, end, qs, ke, ve, i, u);
    }
    SliceByElements(part, whole, start, end);
  }

  /** Feeding a sequence in any consecutive chunks, down to one token at a time through the
      path without a mask, gives the rows of one prefill. */
  lemma ChunksArePrefill(h: Head, q: Matrix, k: Matrix, v: Matrix, start: nat, sizes: seq<nat>, u: real)
    requires Shapes(h, q, k, v) && |q| == |k| && start + Total(sizes) == |q|
    requires h.Underflows(u) && AllVisible(h, q, k, u)
    ensures Chunked(h, q, k, v, start, sizes) == CausalAttention(h, q, k, v)[start..]
  {
    ChunksArePieces(h, q, k, v, u);
    JoinedIsSlice(Chunk(h, q, k, v), CausalAttention(h, q, k, v), start, sizes);
  }

  lemma ChunksArePieces(h: Head, q: Matrix, k: Matrix, v: Matrix, u: real)
    requires Shapes(h, q, k, v) && |q| == |k| && h.Underflows(u) && AllVisible(h, q, k, u)
    ensures ArePieces(Chunk(h, q, k, v), CausalAttention(h, q, k, v))
  {
    forall a: nat, b: nat | a <= b <= |q|
      ensures Chunk(h, q, k, v)(a, b) == CausalAttention(h, q, k, v)[a..b]
    {
      ChunkIsSlice(h, q, k, v, a, b, u);
    }
  }

  // ---------------------------------------------------------------------------
  // What the weights are
  // ---------------------------------------------------------------------------

  lemma DivideAdd(x: real, y: real, z: real)
    requires z != 0.0
    ensures (x + y) / z == x / z + y / z
  {
  }

  lemma {:induction false} SumDivided(e: Vec, z: real)
    requires z != 0.0
    ensures Sum(Divided(e, z)) == Sum(e) / z
    decreases |e|
  {
    if e != [] {
      SumDivided(e[..|e| - 1], z);
      assert Divided(e, z)[..|e| - 1] == Divided(e[..|e| - 1], z);
      DivideAdd(Sum(e[..|e| - 1]), e[|e| - 1], z);
    }
  }

  lemma DivideFacts(x: real, z: real)
    requires x >= 0.0 && z > 0.0
    ensures x / z >= 0.0 && z / z == 1.0
  {
  }

  /** Softmax weights are a probability distribution. */
  lemma SoftmaxIsDistribution(h: Head, row: Vec)
    requires row != [] && h.Ok()
    ensures Sum(Softmax(h, row)) == 1.0
    ensures forall j :: 0 <= j < |row| ==> Softmax(h, row)[j] >= 0.0
  {
    var e := Exponentials(h, row, RowMax(row));
    ExponentialsPositive(h, row);
    SumDivided(e, Sum(e));
    forall j | 0 <= j < |row|
      ensures Softmax(h, row)[j] >= 0.0
    {
      DivideFacts(e[j], Sum(e));
    }
    DivideFacts(1.0, Sum(e));
  }

  lemma QuotientRatio(w: real, w': real, x: real, x': real, z: real)
    requires z != 0.0 && w == x / z && w' == x' / z
    ensures w * x' == w' * x
  {
  }

  lemma QuotientBack(w: real, x: real, z: real)
    requires z != 0.0 && w == x / z
    ensures w * z == x
  {
  }

  lemma QuotientSum(x: real, y: real, w: real, z: real)
    requires z != 0.0
    ensures x / z + w / z * y == (x + w * y) / z
  {
  }

  ghost predicate IsMax(row: Vec, m: real) {
    m in row && forall j :: 0 <= j < |row| ==> row[j] <= m
  }

  /** The exponentials of a row of scores after its maximum m is subtracted. */
  ghost predicate AreExponentials(row: Vec, m: real, ex: real -> real, e: Vec) {
    |e| == |row| && IsMax(row, m) && forall j :: 0 <= j < |row| ==> e[j] == ex(row[j] - m)
  }

  /** o is the mean of x, weighted by e. */
  ghost predicate IsMean(o: real, e: Vec, x: Vec)
    requires |e| == |x|
  {
    Sum(e) >= 1.0 && o * Sum(e) == Dot(e, x)
  }

  /** Each coordinate of o is the mean of that coordinate of the values, weighted by e. */
  ghost predicate IsAverage(o: Vec, e: Vec, v: Matrix, dim: nat)
    requires |e| == |v| && Width(v, dim)
  {
    |o| == dim && forall d :: 0 <= d < dim ==> IsMean(o[d], e, Column(v, dim, d))
  }

  lemma {:induction false} DotDivided(e: Vec, x: Vec, z: real)
    requires |e| == |x| && z != 0.0
    ensures Dot(Divided(e, z), x) == Dot(e, x) / z
    decreases |e|
  {
    if e != [] {
      var n := |e| - 1;
      DotDivided(e[..n], x[..n], z);
      assert Divided(e, z)[..n] == Divided(e[..n], z);
      QuotientSum(Dot(e[..n], x[..n]), x[n], e[n], z);
    }
  }

  lemma MaxIs(row: Vec, m: real)
    requires row != [] && IsMax(row, m)
    ensures RowMax(row) == m
  {
    var j :| 0 <= j < |row| && row[j] == m;
  }

  lemma ExponentialsAre(h: Head, row: Vec, m: real, e: Vec)
    requires AreExponentials(row, m, h.ex, e)
    ensures e == Exponentials(h, row, m)
  {
  }

  lemma SoftmaxIs(h: Head, row: Vec, m: real, e: Vec)
    requires h.Ok() && row != [] && AreExponentials(row, m, h.ex, e)
    ensures Sum(e) >= 1.0 && Softmax(h, row) == Divided(e, Sum(e))
  {
    ExponentialsPositive(h, row);
    MaxIs(row, m);
    ExponentialsAre(h, row, m, e);
  }

  /** The weights w are in the ratio of the numbers e. */
  ghost predicate Proportional(w: Vec, e: Vec) {
    |w| == |e| && forall i, j :: 0 <= i < |e| && 0 <= j < |e| ==> w[i] * e[j] == w[j] * e[i]
  }

  lemma DividedProportional(w: Vec, e: Vec, z: real)
    requires z != 0.0 && w == Divided(e, z)
    ensures Proportional(w, e)
  {
    forall i, j | 0 <= i < |e| && 0 <= j < |e|
      ensures w[i] * e[j] == w[j] * e[i]
    {
      QuotientRatio(w[i], w[j], e[i], e[j], z);
    }
  }

  /** Softmax weights are in the ratio of the exponentials of the scores. */
  lemma SoftmaxRatio(h: Head, row: Vec, m: real, e: Vec)
    requires h.Ok() && row != [] && AreExponentials(row, m, h.ex, e)
    ensures Proportional(Softmax(h, row), e)
  {
    SoftmaxIs(h, row, m, e);
    DividedProportional(Softmax(h, row), e, Sum(e));
  }

  lemma DividedMean(w: Vec, e: Vec, x: Vec)
    requires Sum(e) >= 1.0 && w == Divided(e, Sum(e)) && |e| == |x|
    ensures IsMean(Dot(w, x), e, x)
  {
    DotDivided(e, x, Sum(e));
    QuotientBack(Dot(w, x), Dot(e, x), Sum(e));
  }

  lemma MixIsAverage(h: Head, row: Vec, v: Matrix, m: real, e: Vec)
    requires h.Ok() && |row| == |v| && row != [] && Width(v, h.dim) && AreExponentials(row, m, h.ex, e)
    ensures IsAverage(Mix(Softmax(h, row), v, h.dim), e, v, h.dim)
  {
    SoftmaxIs(h, row, m, e);
    DividedMixIsAverage(Softmax(h, row), e, v, h.dim);
  }

  lemma DividedMixIsAverage(w: Vec, e: Vec, v: Matrix, dim: nat)
    requires Sum(e) >= 1.0 && w == Divided(e, Sum(e)) && |e| == |v| && Width(v, dim)
    ensures IsAverage(Mix(w, v, dim), e, v, dim)
  {
    forall d | 0 <= d < dim
      ensures IsMean(Mix(w, v, dim)[d], e, Column(v, dim, d))
    {
      DividedMean(w, e, Column(v, dim, d));
    }
  }

  /** The scores of query i: scaled dot products, replaced by the mask at the positions after
      the query's own unless it is the only query. */
  ghost predicate AreScores(row: Vec, q: Matrix, k: Matrix, scale: real, dim: nat, i: nat)
    requires i < |q| && Width(q, dim) && Width(k, dim)
  {
    && |row| == |k|
    && forall j :: 0 <= j < |k| ==>
         row[j] == if |q| > 1 && j > i + (|k| - |q|) then -1000000000.0 else Dot(q[i], k[j]) * scale
  }

  /** Row i of the output is the average of all values, weighted by the exponentials of the scores. */
  lemma OutputIsAverage(h: Head, q: Matrix, k: Matrix, v: Matrix, scale: real, i: nat, row: Vec, m: real, e: Vec)
    requires h.Ok() && h.score == ScaledDot(scale) && Shapes(h, q, k, v) && Width(q, h.dim) && Width(k, h.dim)
    requires i < |q| && AreScores(row, q, k, scale, h.dim, i) && AreExponentials(row, m, h.ex, e)
    ensures IsAverage(CausalAttention(h, q, k, v)[i], e, v, h.dim)
  {
    if |q| > 1 {
      assert row == MaskedRow(ScoreRow(h, q[i], k), i, |q|);
    } else {
      assert row == ScoreRow(h, q[i], k);
    }
    MixIsAverage(h, row, v, m, e);
  }

  function Products(w: Vec, x: Vec): (p: Vec)
    requires |w| == |x|
    ensures |p| == |w| && forall j :: 0 <= j < |p| ==> p[j] == w[j] * x[j]
    decreases |w|
  {
    if w == [] then [] else Products(w[..|w| - 1], x[..|x| - 1]) + [w[|w| - 1] * x[|x| - 1]]
  }

  lemma {:induction false} DotIsSum(w: Vec, x: Vec)
    requires |w| == |x|
    ensures Dot(w, x) == Sum(Products(w, x))
    decreases |w|
  {
    if w != [] {
      var n := |w| - 1;
      DotIsSum(w[..n], x[..n]);
      assert Products(w, x)[..n] == Products(w[..n], x[..n]);
    }
  }

  lemma {:induction false} SumMonotone(x: Vec, y: Vec)
    requires |x| == |y| && forall j :: 0 <= j < |x| ==> x[j] <= y[j]
    ensures Sum(x) <= Sum(y)
    decreases |x|
  {
    if x != [] {
      SumMonotone(x[..|x| - 1], y[..|y| - 1]);
    }
  }

  lemma ProductLe(w: real, x: real, y: real, p: real, q: real)
    requires w >= 0.0 && x <= y && p == w * x && q == w * y
    ensures p <= q
  {
    RealMonotone(w, x, y);
  }

  lemma ProductsMonotone(w: Vec, x: Vec, y: Vec, p: Vec, q: Vec)
    requires |w| == |x| == |y| == |p| == |q|
    requires forall j :: 0 <= j < |w| ==> w[j] >= 0.0 && x[j] <= y[j] && p[j] == w[j] * x[j] && q[j] == w[j] * y[j]
    ensures forall j :: 0 <= j < |w| ==> p[j] <= q[j]
  {
    forall j | 0 <= j < |w|
      ensures p[j] <= q[j]
    {
      ProductLe(w[j], x[j], y[j], p[j], q[j]);
    }
  }

  lemma DotMonotone(w: Vec, x: Vec, y: Vec)
    requires |w| == |x| == |y|
    requires forall j :: 0 <= j < |w| ==> w[j] >= 0.0 && x[j] <= y[j]
    ensures Dot(w, x) <= Dot(w, y)
  {
    DotIsSum(w, x);
    DotIsSum(w, y);
    ProductsMonotone(w, x, y, Products(w, x), Products(w, y));
    SumMonotone(Products(w, x), Products(w, y));
  }

  lemma {:induction false} DotConstant(w: Vec, c: real)
    ensures Dot(w, Fill(c, |w|)) == c * Sum(w)
    decreases |w|
  {
    if w != [] {
      var n := |w| - 1;
      assert Fill(c, |w|)[..n] == Fill(c, n);
      DotConstant(w[..n], c);
      Distribute(c, Sum(w[..n]), w[n]);
    }
  }

  lemma DotBounds(w: Vec, x: Vec, lo: real, hi: real)
    requires |w| == |x|
    requires forall j :: 0 <= j < |w| ==> w[j] >= 0.0 && lo <= x[j] <= hi
    ensures lo * Sum(w) <= Dot(w, x) <= hi * Sum(w)
  {
    DotMonotone(w, Fill(lo, |w|), x);
    DotMonotone(w, x, Fill(hi, |w|));
    DotConstant(w, lo);
    DotConstant(w, hi);
  }

  lemma MixBounds(w: Vec, v: Matrix, dim: nat, d: nat, lo: real, hi: real)
    requires |w| == |v| && Width(v, dim) && d < dim && Sum(w) == 1.0
    requires forall j :: 0 <= j < |w| ==> w[j] >= 0.0 && lo <= v[j][d] <= hi
    ensures lo <= Mix(w, v, dim)[d] <= hi
  {
    DotBounds(w, Column(v, dim, d), lo, hi);
  }

  lemma AttendBounds(h: Head, qi: Vec, k: Matrix, v: Matrix, d: nat, lo: real, hi: real)
    requires h.Ok() && KV(h, k, v) && d < h.dim
    requires forall j :: 0 <= j < |v| ==> lo <= v[j][d] <= hi
    ensures lo <= Attend(h, qi, k, v)[d] <= hi
  {
    var w := Softmax(h, ScoreRow(h, qi, k));
    SoftmaxIsDistribution(h, ScoreRow(h, qi, k));
    MixBounds(w, v, h.dim, d, lo, hi);
  }

  /** An output lies between the values it may see: a bound on the values at positions up to
      the query's own bounds its output, whatever the later values are. */
  lemma OutputWithinSeenValues(h: Head, qi: Vec, k: Matrix, v: Matrix, i: nat, tq: nat, ks: Matrix, vs: Matrix,
                               d: nat, lo: real, hi: real, u: real)
    requires KV(h, k, v) && h.Underflows(u) && Seen(k, v, i, tq, ks, vs) && Visible(h, qi, ks, u)
    requires d < h.dim && forall j :: 0 <= j < |vs| ==> lo <= v[j][d] <= hi
    ensures lo <= QueryRow(h, qi, k, v, i, tq)[d] <= hi
  {
    RowIsCausal(h, qi, k, v, i, tq, ks, vs, u);
    AttendBounds(h, qi, ks, vs, d, lo, hi);
  }

  // ---------------------------------------------------------------------------
  // Rows that may see nothing
  // ---------------------------------------------------------------------------

  lemma {:induction false} SumOfOnes(n: nat)
    ensures Sum(Fill(1.0, n)) == n as real
    decreases n
  {
    if n > 0 {
      assert Fill(1.0, n)[..n - 1] == Fill(1.0, n - 1);
      SumOfOnes(n - 1);
    }
  }

  lemma EqualScores(h: Head, c: real, n: nat)
    requires h.Ok() && n > 0
    ensures Softmax(h, Fill(c, n)) == Fill(1.0 / n as real, n)
  {
    var row := Fill(c, n);
    assert RowMax(row) == c;
    assert Exponentials(h, row, c) == Fill(1.0, n);
    SumOfOnes(n);
  }

  /** With more queries than keys the first rows have nothing they may see, and the mask then
      does the opposite of its purpose: such a row is the plain average of all values, the
      later ones included. */
  lemma RowWithoutHistoryLeaks(h: Head, qi: Vec, k: Matrix, v: Matrix, i: nat, tq: nat)
    requires h.Ok() && KV(h, k, v) && i + |k| < tq
    ensures QueryRow(h, qi, k, v, i, tq) == Mix(Fill(1.0 / |k| as real, |k|), v, h.dim)
  {
    assert MaskedRow(ScoreRow(h, qi, k), i, tq) == Fill(MASKED, |k|);
    EqualScores(h, MASKED, |k|);
  }

  /** How many keys and values query i of tq may see, of tk. */
  function Allowed(i: nat, tq: nat, tk: nat): (n: nat)
    requires i < tq
    ensures n <= tk
  {
    if i + tk >= tq then i + tk - tq + 1 else 0
  }

  /** Two sequences of tk keys and values that agree on those query i may see, one of which it
      does see if there is any. */
  ghost predicate SameSeen(h: Head, qi: Vec, k: Matrix, v: Matrix, k': Matrix, v': Matrix, i: nat, tq: nat, tk: nat, u: real)
    requires i < tq
  {
    && KV(h, k, v) && KV(h, k', v') && |k| == |k'| == tk
    && var n := Allowed(i, tq, tk);
       k[..n] == k'[..n] && v[..n] == v'[..n] && (n > 0 ==> Visible(h, qi, k[..n], u))
  }

  /** The output of query i does not depend on keys and values it may not see. */
  ghost predicate IgnoresUnseen(h: Head, qi: Vec, i: nat, tq: nat, tk: nat, u: real)
    requires h.Ok() && i < tq
  {
    forall k, v, k', v' :: SameSeen(h, qi, k, v, k', v', i, tq, tk, u) ==>
      QueryRow(h, qi, k, v, i, tq) == QueryRow(h, qi, k', v', i, tq)
  }

  /** The mask keeps its promise for a row exactly when there is something the row may see. */
  lemma IgnoresUnseenIff(h: Head, qi: Vec, i: nat, tq: nat, tk: nat, u: real)
    requires h.Underflows(u) && h.dim > 0 && i < tq && tk > 0
    ensures IgnoresUnseen(h, qi, i, tq, tk, u) <==> i + tk >= tq
  {
    if i + tk >= tq {
      forall k, v, k', v' | SameSeen(h, qi, k, v, k', v', i, tq, tk, u)
        ensures QueryRow(h, qi, k, v, i, tq) == QueryRow(h, qi, k', v', i, tq)
      {
        var n := Allowed(i, tq, tk);
        NoFutureLeak(h, qi, k, v, i, tq, k', v', i, tq, k[..n], v[..n], u);
      }
    } else {
      UnseenMatters(h, qi, i, tq, tk, u);
    }
  }

  function Rows(c: real, dim: nat, n: nat): (m: Matrix)
    ensures |m| == n && Width(m, dim) && forall j :: 0 <= j < n ==> m[j] == Fill(c, dim)
  {
    seq(n, _ => Fill(c, dim))
  }

  /** A row that may see nothing repeats whatever constant the values hold. */
  lemma ConstantValues(h: Head, qi: Vec, k: Matrix, c: real, i: nat, tq: nat)
    requires h.Ok() && h.dim > 0 && k != [] && i + |k| < tq
    ensures QueryRow(h, qi, k, Rows(c, h.dim, |k|), i, tq)[0] == c
  {
    RowWithoutHistoryLeaks(h, qi, k, Rows(c, h.dim, |k|), i, tq);
    AverageWeights(h, |k|);
    MixBounds(Fill(1.0 / |k| as real, |k|), Rows(c, h.dim, |k|), h.dim, 0, c, c);
  }

  lemma AverageWeights(h: Head, n: nat)
    requires h.Ok() && n > 0
    ensures Sum(Fill(1.0 / n as real, n)) == 1.0
    ensures 1.0 / n as real >= 0.0
  {
    EqualScores(h, 0.0, n);
    SoftmaxIsDistribution(h, Fill(0.0, n));
    assert Fill(1.0 / n as real, n)[0] >= 0.0;
  }

  lemma UnseenMatters(h: Head, qi: Vec, i: nat, tq: nat, tk: nat, u: real)
    requires h.Ok() && h.dim > 0 && tk > 0 && i + tk < tq
    ensures !IgnoresUnseen(h, qi, i, tq, tk, u)
  {
    var k, v, v' := Rows(0.0, h.dim, tk), Rows(0.0, h.dim, tk), Rows(1.0, h.dim, tk);
    ConstantValues(h, qi, k, 0.0, i, tq);
    ConstantValues(h, qi, k, 1.0, i, tq);
    assert SameSeen(h, qi, k, v, k, v', i, tq, tk, u);
  }

  // ---------------------------------------------------------------------------
  // The two back ends
  // ---------------------------------------------------------------------------

  function MlxScore(score: real, mask: real): real {
    score * mask + (1.0 - mask) * MASKED
  }

  /** The MLX mask is arithmetic: scores times the mask plus the rest times the constant. */
  function MlxMaskedRow(row: Vec, i: nat, tq: nat): (r: Vec)
    ensures |r| == |row|
  {
    seq(|row|, j requires 0 <= j < |row| => MlxScore(row[j], if j <= i + (|row| - tq) then 1.0 else 0.0))
  }

  lemma MlxMaskIsMask(row: Vec, i: nat, tq: nat)
    ensures MlxMaskedRow(row, i, tq) == MaskedRow(row, i, tq)
  {
    forall j | 0 <= j < |row|
      ensures MlxMaskedRow(row, i, tq)[j] == MaskedRow(row, i, tq)[j]
    {
    }
  }

  function MlxRow(h: Head, qi: Vec, k: Matrix, v: Matrix, i: nat, tq: nat): Vec
    requires h.Ok() && KV(h, k, v)
  {
    if tq == 1 then Attend(h, qi, k, v)
    else Mix(Softmax(h, MlxMaskedRow(ScoreRow(h, qi, k), i, tq)), v, h.dim)
  }

  /** The MLX path of one block of queries; its one-token path is the fused kernel, plain attention. */
  function MlxAttention(h: Head, q: Matrix, k: Matrix, v: Matrix): (o: Matrix)
    requires h.Ok() && Shapes(h, q, k, v)
    ensures |o| == |q|
  {
    seq(|q|, i requires 0 <= i < |q| => MlxRow(h, q[i], k, v, i, |q|))
  }

  lemma MlxRowAgrees(h: Head, qi: Vec, k: Matrix, v: Matrix, i: nat, tq: nat)
    requires h.Ok() && KV(h, k, v) && tq >= 1
    ensures MlxRow(h, qi, k, v, i, tq) == QueryRow(h, qi, k, v, i, tq)
  {
    MlxMaskIsMask(ScoreRow(h, qi, k), i, tq);
  }

  /** Both back ends compute the same output. */
  lemma BackendsAgree(h: Head, q: Matrix, k: Matrix, v: Matrix)
    requires h.Ok() && Shapes(h, q, k, v)
    ensures MlxAttention(h, q, k, v) == CausalAttention(h, q, k, v)
  {
    forall i | 0 <= i < |q|
      ensures MlxAttention(h, q, k, v)[i] == CausalAttention(h, q, k, v)[i]
    {
      MlxRowAgrees(h, q[i], k, v, i, |q|);
    }
  }

  function Shifted(row: Vec, m: real): (r: Vec)
    ensures |r| == |row| && forall j :: 0 <= j < |row| ==> r[j] == row[j] - m
  {
    seq(|row|, j requires 0 <= j < |row| => row[j] - m)
  }

  /** The score the source uses. */
  function ScaledDot(scale: real): (Vec, Vec) -> real {
    (x, y) => if |x| == |y| then Dot(x, y) * scale else 0.0
  }

  /** The NumPy path, with `scores` and `weights` updated as it goes. */
  method CausalAttentionNumpy(q: Matrix, k: Matrix, v: Matrix, scale: real, ex: real -> real, dim: nat) returns (out: Matrix)
    requires Width(q, dim) && Width(k, dim)
    requires var h := Head(dim, ScaledDot(scale), ex); h.Ok() && Shapes(h, q, k, v)
    ensures out == CausalAttention(Head(dim, ScaledDot(scale), ex), q, k, v)
    ensures |out| == |q|
    ensures forall i, row, m, e :: 0 <= i < |q| && AreScores(row, q, k, scale, dim, i) && AreExponentials(row, m, ex, e) ==>
              IsAverage(out[i], e, v, dim)
  {
    var h := Head(dim, ScaledDot(scale), ex);
    var scores := seq(|q|, i requires 0 <= i < |q| => ScoreRow(h, q[i], k));
    if |q| > 1 {
      scores := seq(|q|, i requires 0 <= i < |q| => MaskedRow(scores[i], i, |q|));
    }
    ghost var masked := scores;
    scores := seq(|q|, i requires 0 <= i < |q| => Shifted(scores[i], RowMax(scores[i])));
    var weights := seq(|q|, i requires 0 <= i < |q| => Exponentials(h, scores[i], 0.0));
    forall i | 0 <= i < |q|
      ensures weights[i] == Exponentials(h, masked[i], RowMax(masked[i])) && Sum(weights[i]) >= 1.0
    {
      assert weights[i] == Exponentials(h, masked[i], RowMax(masked[i]));
      ExponentialsPositive(h, masked[i]);
    }
    weights := seq(|q|, i requires 0 <= i < |q| => Divided(weights[i], Sum(weights[i])));
    out := seq(|q|, i requires 0 <= i < |q| => Mix(weights[i], v, dim));
    forall i | 0 <= i < |q|
      ensures out[i] == CausalAttention(h, q, k, v)[i]
    {
      assert weights[i] == Softmax(h, masked[i]);
    }
    forall i, row, m, e | 0 <= i < |q| && AreScores(row, q, k, scale, dim, i) && AreExponentials(row, m, ex, e)
      ensures IsAverage(out[i], e, v, dim)
    {
      OutputIsAverage(h, q, k, v, scale, i, row, m, e);
    }
  }
}
