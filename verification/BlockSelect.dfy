/**
 Block selection of benchmarks/validate_production_model.py: which cached tokens stay active when
 only a share of the blocks is kept. Ratios and quotients are exact reals.
 */
module BlockSelect {
  import opened Arithmetic
  import opened Sequences

  // ---------------------------------------------------------------------------
  // Ranges and sorted sets
  // ---------------------------------------------------------------------------

  /** Python's range(lo, hi). */
  function Range(lo: int, hi: int): (r: seq<int>)
    ensures |r| == if lo < hi then hi - lo else 0
    ensures forall k :: 0 <= k < |r| ==> r[k] == lo + k
    decreases if lo < hi then hi - lo else 0
  {
    if lo >= hi then [] else Range(lo, hi - 1) + [hi - 1]
  }

  lemma RangeMembers(lo: int, hi: int, x: int)
    ensures x in Range(lo, hi) <==> lo <= x < hi
  {
    if lo <= x < hi {
      assert Range(lo, hi)[x - lo] == x;
    }
  }

  lemma RangeJoin(a: int, b: int, c: int)
    requires a <= b <= c
    ensures Range(a, b) + Range(b, c) == Range(a, c)
  {
  }

  ghost predicate Increasing(s: seq<int>) {
    forall i, j :: 0 <= i < j < |s| ==> s[i] < s[j]
  }

  function InsertSorted(s: seq<int>, x: int): seq<int> {
    if s == [] then [x]
    else if x < s[0] then [x] + s
    else if x == s[0] then s
    else [s[0]] + InsertSorted(s[1..], x)
  }

  /** Python's sorted(set(s)). */
  function SortedSet(s: seq<int>): seq<int> {
    if s == [] then [] else InsertSorted(SortedSet(s[1..]), s[0])
  }

  lemma {:induction false} InsertKeepsIncreasing(s: seq<int>, x: int)
    requires Increasing(s)
    ensures Increasing(InsertSorted(s, x))
    ensures forall y :: y in InsertSorted(s, x) <==> y == x || y in s
    decreases |s|
  {
    if s != [] && x > s[0] {
      var rest := InsertSorted(s[1..], x);
      InsertKeepsIncreasing(s[1..], x);
      assert forall y :: y in s <==> y == s[0] || y in s[1..];
      forall j | 0 <= j < |rest|
        ensures s[0] < rest[j]
      {
        assert rest[j] in rest;
      }
    }
  }

  lemma {:induction false} SortedSetIncreasing(s: seq<int>)
    ensures Increasing(SortedSet(s)) && forall y :: y in SortedSet(s) <==> y in s
    decreases |s|
  {
    if s != [] {
      SortedSetIncreasing(s[1..]);
      InsertKeepsIncreasing(SortedSet(s[1..]), s[0]);
      assert forall y :: y in s <==> y == s[0] || y in s[1..];
    }
  }

  /** An increasing sequence is determined by its members. */
  lemma {:induction false} IncreasingUnique(s: seq<int>, t: seq<int>)
    requires Increasing(s) && Increasing(t) && forall x :: x in s <==> x in t
    ensures s == t
    decreases |s|
  {
    assert (s != [] ==> s[0] in s) && (t != [] ==> t[0] in t);
    if s != [] {
      assert s[0] == t[0];
      forall x
        ensures x in s[1..] <==> x in t[1..]
      {
        assert x in s <==> x == s[0] || x in s[1..];
        assert x in t <==> x == t[0] || x in t[1..];
        assert s[0] !in s[1..] && t[0] !in t[1..];
      }
      IncreasingUnique(s[1..], t[1..]);
    }
  }

  // ---------------------------------------------------------------------------
  // How many blocks
  // ---------------------------------------------------------------------------

  function Min(a: int, b: int): int { if b < a then b else a }
  function Max(a: int, b: int): int { if b > a then b else a }

  function Ceil(x: real): (n: int)
    ensures n as real >= x && n as real < x + 1.0
  {
    -(-x).Floor
  }

  function NumBlocks(length: int, blockSize: int): (n: int)
    requires blockSize >= 1
    ensures n >= 1
  {
    Max(1, Ceil(length as real / blockSize as real))
  }

  function ActiveBlocks(n: int, ratio: real): int {
    Max(1, Ceil(n as real * ratio))
  }

  function SinkBlocks(n: int, sink: int): int {
    Max(0, Min(sink, n))
  }

  /** The number of blocks selected of n. */
  function SelectedBlocks(n: int, ratio: real, sink: int, recent: int): int {
    Min(n, Max(ActiveBlocks(n, ratio), SinkBlocks(n, sink) + Max(0, recent)))
  }

  lemma CastProduct(a: int, b: int)
    ensures (a * b) as real == a as real * b as real
  {
  }

  /** a and c / b compare as a * b and c do. */
  lemma CompareQuotient(a: int, b: int, c: int)
    requires b >= 1
    ensures a as real >= c as real / b as real <==> a * b >= c
  {
    var x, y, q := a as real, b as real, c as real / b as real;
    assert q * y == c as real;
    CastProduct(a, b);
    if x >= q {
      RealMonotone(y, q, x);
    } else {
      RealStrict(y, x, q);
    }
  }

  /** The last block starts before the end of the sequence, and the blocks cover it. */
  lemma BlocksCover(length: int, blockSize: int)
    requires blockSize >= 1 && length >= 1
    ensures var n := NumBlocks(length, blockSize); (n - 1) * blockSize < length <= n * blockSize
  {
    var n := Ceil(length as real / blockSize as real);
    CompareQuotient(n, blockSize, length);
    CompareQuotient(n - 1, blockSize, length);
    CompareQuotient(0, blockSize, length);
  }

  // ---------------------------------------------------------------------------
  // Which blocks
  // ---------------------------------------------------------------------------

  /** The first s blocks and the last t of n. */
  ghost predicate Holds(list: seq<int>, s: int, t: int, n: int) {
    && 0 <= s && 0 <= t && s + t <= n && |list| == s + t
    && (forall x :: x in list <==> 0 <= x < s || n - t <= x < n)
    && forall i, j :: 0 <= i < j < |list| ==> list[i] != list[j]
  }

  /** The first s blocks and the last t of n, in order. */
  function Blocks(s: int, t: int, n: int): seq<int> {
    Range(0, s) + Range(n - t, n)
  }

  lemma SortedIsBlocks(list: seq<int>, s: int, t: int, n: int)
    requires Holds(list, s, t, n)
    ensures SortedSet(list) == Blocks(s, t, n)
  {
    SortedSetIncreasing(list);
    var b := Blocks(s, t, n);
    forall x
      ensures x in b <==> x in list
    {
      RangeMembers(0, s, x);
      RangeMembers(n - t, n, x);
    }
    IncreasingUnique(SortedSet(list), b);
  }

  lemma HoldsSink(list: seq<int>, s: int, n: int)
    requires Holds(list, s, 0, n) && s < n
    ensures Holds(list + [s], s + 1, 0, n)
  {
    var now := list + [s];
    assert s !in list && now[|list|] == s;
    forall x
      ensures x in now <==> 0 <= x < s + 1
    {
      assert x in now <==> x in list || x == s;
    }
  }

  lemma HoldsNext(list: seq<int>, s: int, t: int, n: int)
    requires Holds(list, s, t, n)
    ensures forall x :: 0 <= x < n ==> (x in list <==> x < s || x >= n - t)
    ensures s + t < n ==> Holds(list + [n - 1 - t], s, t + 1, n)
  {
    if s + t < n {
      var now := list + [n - 1 - t];
      assert n - 1 - t !in list;
      assert now[|list|] == n - 1 - t;
      forall x
        ensures x in now <==> 0 <= x < s || n - (t + 1) <= x < n
      {
        assert x in now <==> x in list || x == n - 1 - t;
      }
    }
  }

  // ---------------------------------------------------------------------------
  // Which tokens
  // ---------------------------------------------------------------------------

  function BlockTokens(b: int, blockSize: int, length: int): seq<int> {
    Range(b * blockSize, Min(length, (b + 1) * blockSize))
  }

  /** The pieces of each of xs, one after the other. */
  function Flatten(piece: int -> seq<int>, xs: seq<int>): seq<int> {
    if xs == [] then [] else Flatten(piece, xs[..|xs| - 1]) + piece(xs[|xs| - 1])
  }

  lemma {:induction false} FlattenConcat(piece: int -> seq<int>, x: seq<int>, y: seq<int>)
    ensures Flatten(piece, x + y) == Flatten(piece, x) + Flatten(piece, y)
    decreases |y|
  {
    if y == [] {
      assert x + y == x;
    } else {
      var front, last := y[..|y| - 1], y[|y| - 1];
      assert y == front + [last] && x + y == (x + front) + [last];
      FlattenConcat(piece, x, front);
      FlattenSnoc(piece, front, last);
      FlattenSnoc(piece, x + front, last);
      Associate(Flatten(piece, x), Flatten(piece, front), piece(last));
    }
  }

  lemma FlattenSnoc(piece: int -> seq<int>, xs: seq<int>, x: int)
    ensures Flatten(piece, xs + [x]) == Flatten(piece, xs) + piece(x)
  {
    assert (xs + [x])[..|xs|] == xs;
  }

  function Piece(blockSize: int, length: int): int -> seq<int> {
    b => BlockTokens(b, blockSize, length)
  }

  function Tokens(blocks: seq<int>, blockSize: int, length: int): seq<int> {
    Flatten(Piece(blockSize, length), blocks)
  }

  /** Piece k runs from its cut to the next one. */
  ghost predicate EndsWhereNextStarts(piece: int -> seq<int>, cut: int -> int, k: int) {
    cut(k) <= cut(k + 1) && piece(k) == Range(cut(k), cut(k + 1))
  }

  ghost predicate LieEndToEnd(piece: int -> seq<int>, cut: int -> int) {
    forall k :: EndsWhereNextStarts(piece, cut, k)
  }

  /** Pieces that lie end to end join up. */
  lemma {:induction false} FlattenRun(piece: int -> seq<int>, cut: int -> int, a: int, b: int)
    requires a <= b && LieEndToEnd(piece, cut)
    ensures cut(a) <= cut(b) && Flatten(piece, Range(a, b)) == Range(cut(a), cut(b))
    decreases b - a
  {
    if a < b {
      var r := Range(a, b);
      assert r[..|r| - 1] == Range(a, b - 1) && r[|r| - 1] == b - 1;
      FlattenRun(piece, cut, a, b - 1);
      assert EndsWhereNextStarts(piece, cut, b - 1);
      RangeJoin(cut(a), cut(b - 1), cut(b));
    }
  }

  /** Where block k starts, or the end of the sequence if that comes first. */
  function Cut(blockSize: int, length: int): int -> int {
    k => Min(k * blockSize, length)
  }

  lemma BlockIsPiece(k: int, blockSize: int, length: int)
    requires blockSize >= 1
    ensures EndsWhereNextStarts(Piece(blockSize, length), Cut(blockSize, length), k)
  {
    var start := k * blockSize;
    assert (k + 1) * blockSize == start + blockSize;
  }

  /** The tokens of the first s blocks and of the last t. */
  function Kept(s: int, t: int, n: int, blockSize: int, length: int): seq<int> {
    Range(0, Min(s * blockSize, length)) + Range(Min((n - t) * blockSize, length), length)
  }

  /** The tokens that stay active: those of the first blocks and those from some block to the
      end. */
  function Selection(length: int, ratio: real, blockSize: int, sink: int, recent: int): seq<int>
    requires blockSize >= 1
  {
    if length < 1 then [length - 1]
    else
      var n := NumBlocks(length, blockSize);
      var s := SinkBlocks(n, sink);
      Kept(s, SelectedBlocks(n, ratio, sink, recent) - s, n, blockSize, length)
  }

  lemma CountBounds(n: int, ratio: real, sink: int, recent: int)
    requires n >= 1
    ensures 0 <= SinkBlocks(n, sink) <= SelectedBlocks(n, ratio, sink, recent) <= n
    ensures SelectedBlocks(n, ratio, sink, recent) >= 1
  {
  }

  /** The pieces from a up to b join up to the stretch between their cuts. */
  ghost predicate JoinsUp(piece: int -> seq<int>, cut: int -> int, a: int, b: int) {
    Flatten(piece, Range(a, b)) == Range(cut(a), cut(b))
  }

  lemma FlattenBlocks(piece: int -> seq<int>, cut: int -> int, s: int, t: int, n: int)
    requires JoinsUp(piece, cut, 0, s) && JoinsUp(piece, cut, n - t, n)
    ensures Flatten(piece, Blocks(s, t, n)) == Range(cut(0), cut(s)) + Range(cut(n - t), cut(n))
  {
    FlattenConcat(piece, Range(0, s), Range(n - t, n));
  }

  lemma RunJoinsUp(piece: int -> seq<int>, cut: int -> int, a: int, b: int)
    requires a <= b && LieEndToEnd(piece, cut)
    ensures JoinsUp(piece, cut, a, b)
  {
    FlattenRun(piece, cut, a, b);
  }

  lemma BlocksLieEndToEnd(blockSize: int, length: int)
    requires blockSize >= 1
    ensures LieEndToEnd(Piece(blockSize, length), Cut(blockSize, length))
  {
    forall k
      ensures EndsWhereNextStarts(Piece(blockSize, length), Cut(blockSize, length), k)
    {
      BlockIsPiece(k, blockSize, length);
    }
  }

  /** The tokens of the first and last blocks are the first and the last tokens. */
  lemma TokensOfBlocks(s: int, t: int, n: int, blockSize: int, length: int)
    requires 0 <= s && 0 <= t && blockSize >= 1
    ensures var cut := Cut(blockSize, length);
            Tokens(Blocks(s, t, n), blockSize, length) == Range(cut(0), cut(s)) + Range(cut(n - t), cut(n))
  {
    var piece, cut := Piece(blockSize, length), Cut(blockSize, length);
    BlocksLieEndToEnd(blockSize, length);
    RunJoinsUp(piece, cut, 0, s);
    RunJoinsUp(piece, cut, n - t, n);
    FlattenBlocks(piece, cut, s, t, n);
  }

  lemma CutEnds(n: int, blockSize: int, length: int)
    requires 0 <= length <= n * blockSize
    ensures Cut(blockSize, length)(0) == 0 && Cut(blockSize, length)(n) == length
  {
    assert 0 * blockSize == 0;
  }

  lemma SelectionNotEmpty(length: int, blockSize: int, s: int, t: int, n: int)
    requires blockSize >= 1 && length >= 1 && n == NumBlocks(length, blockSize)
    requires 0 <= s && 0 <= t && 1 <= s + t <= n
    ensures Kept(s, t, n, blockSize, length) != []
  {
    BlocksCover(length, blockSize);
    if s >= 1 {
      MulMonotone(1, s, blockSize);
    } else {
      MulMonotone(n - t, n - 1, blockSize);
    }
  }

  lemma {:induction false} NoTokens(blocks: seq<int>, blockSize: int, length: int)
    requires length < 1 && (forall k :: 0 <= k < |blocks| ==> blocks[k] == 0)
    ensures Tokens(blocks, blockSize, length) == []
    decreases |blocks|
  {
    if blocks != [] {
      NoTokens(blocks[..|blocks| - 1], blockSize, length);
      assert BlockTokens(0, blockSize, length) == [];
    }
  }

  /** The first half of `_block_select_indices`: reserve sink and recent blocks, then fill up
      with the latest others. */
  method SelectBlocks(n: int, active: int, sink: int, recent: int) returns (selected: seq<int>)
    requires n >= 1
    ensures var s := SinkBlocks(n, sink); Holds(selected, s, Min(n, Max(active, s + Max(0, recent))) - s, n)
  {
    ghost var s := SinkBlocks(n, sink);
    var reserved: seq<int> := [];
    var idx := 0;
    while idx < Min(sink, n)
      invariant 0 <= idx <= s && Holds(reserved, idx, 0, n)
    {
      HoldsSink(reserved, idx, n);
      reserved := reserved + [idx];
      idx := idx + 1;
    }

    var offset := 0;
    while offset < recent
      invariant 0 <= offset <= Max(0, recent) && Holds(reserved, s, Min(offset, n - s), n)
    {
      idx := n - 1 - offset;
      HoldsNext(reserved, s, Min(offset, n - s), n);
      if idx >= 0 && idx !in reserved {
        reserved := reserved + [idx];
      }
      offset := offset + 1;
    }
    ghost var t0 := Min(Max(0, recent), n - s);

    selected := [];
    var i := 0;
    while i < |reserved|
      invariant 0 <= i <= |reserved| && selected == reserved[..i]
    {
      if reserved[i] !in selected {
        selected := selected + [reserved[i]];
      }
      i := i + 1;
    }
    assert selected == reserved;

    ghost var t := t0;
    idx := n - 1;
    while idx > -1
      invariant -1 <= idx <= n - 1 && t0 <= t && Holds(selected, s, t, n)
      invariant t == t0 || s + t <= active
      invariant n - 1 - idx <= t || s + t == n
    {
      if |selected| >= active {
        break;
      }
      HoldsNext(selected, s, t, n);
      if idx !in selected {
        selected := selected + [idx];
        t := t + 1;
      }
      idx := idx - 1;
    }
  }

  /** The second half: the tokens of the selected blocks. */
  method TokenIndices(blocks: seq<int>, blockSize: int, length: int) returns (tokens: seq<int>)
    ensures tokens == Tokens(blocks, blockSize, length)
  {
    tokens := [];
    var i := 0;
    while i < |blocks|
      invariant 0 <= i <= |blocks| && tokens == Tokens(blocks[..i], blockSize, length)
    {
      var start := blocks[i] * blockSize;
      var end := Min(length, (blocks[i] + 1) * blockSize);
      assert blocks[..i + 1][..i] == blocks[..i];
      tokens := tokens + Range(start, end);
      i := i + 1;
    }
    assert blocks[..i] == blocks;
  }

  lemma TokensAreKept(s: int, t: int, n: int, blockSize: int, length: int)
    requires blockSize >= 1 && length >= 1 && n == NumBlocks(length, blockSize)
    requires 0 <= s && 0 <= t && 1 <= s + t <= n
    ensures Tokens(Blocks(s, t, n), blockSize, length) == Kept(s, t, n, blockSize, length) != []
  {
    BlocksCover(length, blockSize);
    TokensOfBlocks(s, t, n, blockSize, length);
    CutEnds(n, blockSize, length);
    SelectionNotEmpty(length, blockSize, s, t, n);
  }

  lemma TokensOfNothing(s: int, t: int, n: int, blockSize: int, length: int)
    requires blockSize >= 1 && length < 1 && n == NumBlocks(length, blockSize)
    requires 0 <= s && 0 <= t && s + t <= n
    ensures Tokens(Blocks(s, t, n), blockSize, length) == []
  {
    NoBlocks(length, blockSize);
    NoTokens(Blocks(s, t, n), blockSize, length);
  }

  lemma NoBlocks(length: int, blockSize: int)
    requires blockSize >= 1 && length < 1
    ensures NumBlocks(length, blockSize) == 1
  {
    CompareQuotient(0, blockSize, length);
  }

  /** `_block_select_indices` */
  method BlockSelectIndices(length: int, ratio: real, blockSize: int, sink: int, recent: int) returns (tokens: seq<int>)
    requires blockSize >= 1
    ensures tokens == Selection(length, ratio, blockSize, sink, recent)
    ensures length < 1 ==> tokens == [length - 1]
  {
    var n := NumBlocks(length, blockSize);
    var selected := SelectBlocks(n, ActiveBlocks(n, ratio), sink, recent);
    ghost var s := SinkBlocks(n, sink);
    ghost var t := SelectedBlocks(n, ratio, sink, recent) - s;
    SortedIsBlocks(selected, s, t, n);
    tokens := TokenIndices(SortedSet(selected), blockSize, length);
    CountBounds(n, ratio, sink, recent);
    if length >= 1 {
      TokensAreKept(s, t, n, blockSize, length);
    } else {
      TokensOfNothing(s, t, n, blockSize, length);
    }
    if tokens == [] {
      tokens := [length - 1];
    }
  }

  // ---------------------------------------------------------------------------
  // What the selection is
  // ---------------------------------------------------------------------------

  lemma KeptIsIncreasing(s: int, t: int, n: int, blockSize: int, length: int)
    requires blockSize >= 1 && length >= 1 && 0 <= s && 0 <= t && s + t <= n
    ensures var r := Kept(s, t, n, blockSize, length);
            Increasing(r) && forall k :: 0 <= k < |r| ==> 0 <= r[k] < length
  {
    MulMonotone(s, n - t, blockSize);
    MulMonotone(0, s, blockSize);
    IncreasingRanges(Min(s * blockSize, length), Min((n - t) * blockSize, length), length);
  }

  lemma IncreasingRanges(a: int, b: int, c: int)
    requires 0 <= a <= b <= c
    ensures var r := Range(0, a) + Range(b, c); Increasing(r) && forall k :: 0 <= k < |r| ==> 0 <= r[k] < c
  {
  }

  /** Indices come strictly increasing, inside the sequence, and never none. */
  lemma SelectionIsIncreasing(length: int, ratio: real, blockSize: int, sink: int, recent: int)
    requires blockSize >= 1 && length >= 1
    ensures var r := Selection(length, ratio, blockSize, sink, recent);
            r != [] && Increasing(r) && forall k :: 0 <= k < |r| ==> 0 <= r[k] < length
  {
    var n := NumBlocks(length, blockSize);
    var s, count := SinkBlocks(n, sink), SelectedBlocks(n, ratio, sink, recent);
    CountBounds(n, ratio, sink, recent);
    SelectionNotEmpty(length, blockSize, s, count - s, n);
    KeptIsIncreasing(s, count - s, n, blockSize, length);
  }

  lemma BlockSide(x: int, b: int, k: int, blockSize: int)
    requires blockSize >= 1 && b * blockSize <= x < (b + 1) * blockSize
    ensures x < k * blockSize <==> b < k
  {
    if b < k {
      MulMonotone(b + 1, k, blockSize);
    } else {
      MulMonotone(k, b, blockSize);
    }
  }

  lemma KeptByBlock(s: int, t: int, n: int, blockSize: int, length: int, x: int, b: int)
    requires blockSize >= 1 && 0 <= x < length && b * blockSize <= x < (b + 1) * blockSize
    ensures x in Kept(s, t, n, blockSize, length) <==> b < s || b >= n - t
  {
    RangeMembers(0, Min(s * blockSize, length), x);
    RangeMembers(Min((n - t) * blockSize, length), length, x);
    BlockSide(x, b, s, blockSize);
    BlockSide(x, b, n - t, blockSize);
  }

  /** A token is selected exactly when its block is one of the sink blocks or one of the last
      ones that fill up the count. */
  lemma SelectionByBlock(length: int, ratio: real, blockSize: int, sink: int, recent: int, x: int, b: int)
    requires blockSize >= 1 && 0 <= x < length && b * blockSize <= x < (b + 1) * blockSize
    ensures var n := NumBlocks(length, blockSize);
            var s, count := SinkBlocks(n, sink), SelectedBlocks(n, ratio, sink, recent);
            x in Selection(length, ratio, blockSize, sink, recent) <==> b < s || b >= n - (count - s)
  {
    var n := NumBlocks(length, blockSize);
    var s, count := SinkBlocks(n, sink), SelectedBlocks(n, ratio, sink, recent);
    KeptByBlock(s, count - s, n, blockSize, length, x, b);
  }

  /** c blocks satisfy the request: they are all there are, or they reach the share asked for and
      cover the sinks and the recent blocks. */
  ghost predicate Satisfies(n: int, ratio: real, sink: int, recent: int, c: int) {
    || c == n
    || (&& c >= 1 && c as real >= n as real * ratio
        && c >= (if sink < 0 then 0 else if sink < n then sink else n) + (if recent < 0 then 0 else recent))
  }

  lemma CeilIsLeast(x: real, c: int)
    ensures c as real >= x <==> c >= Ceil(x)
  {
    if c as real >= x {
      assert (Ceil(x) - 1) as real < x;
    }
  }

  /** No fewer blocks satisfy the request than are selected. */
  lemma FewestBlocks(n: int, ratio: real, sink: int, recent: int)
    requires n >= 1
    ensures Satisfies(n, ratio, sink, recent, SelectedBlocks(n, ratio, sink, recent))
    ensures forall c :: Satisfies(n, ratio, sink, recent, c) ==> c >= SelectedBlocks(n, ratio, sink, recent)
  {
    CeilIsLeast(n as real * ratio, SelectedBlocks(n, ratio, sink, recent));
    forall c | Satisfies(n, ratio, sink, recent, c)
      ensures c >= SelectedBlocks(n, ratio, sink, recent)
    {
      CeilIsLeast(n as real * ratio, c);
    }
  }

  lemma FullCount(n: int, ratio: real, sink: int, recent: int)
    requires n >= 1 && ratio >= 1.0
    ensures SelectedBlocks(n, ratio, sink, recent) == n
  {
    RealMonotone(n as real, 1.0, ratio);
    assert Ceil(n as real * ratio) as real >= n as real;
  }

  /** A ratio of one or more keeps the whole sequence. */
  lemma FullRatioKeepsAll(length: int, ratio: real, blockSize: int, sink: int, recent: int)
    requires blockSize >= 1 && length >= 1 && ratio >= 1.0
    ensures Selection(length, ratio, blockSize, sink, recent) == Range(0, length)
  {
    var n := NumBlocks(length, blockSize);
    var s := SinkBlocks(n, sink);
    FullCount(n, ratio, sink, recent);
    MulMonotone(0, s, blockSize);
    RangeJoin(0, Min(s * blockSize, length), length);
  }

  lemma CountGrows(n: int, ratio: real, ratio2: real, sink: int, recent: int)
    requires n >= 1 && ratio <= ratio2
    ensures SelectedBlocks(n, ratio, sink, recent) <= SelectedBlocks(n, ratio2, sink, recent)
  {
    RealMonotone(n as real, ratio, ratio2);
    ActiveGrows(n, ratio, ratio2, n as real * ratio, n as real * ratio2);
  }

  lemma ActiveGrows(n: int, ratio: real, ratio2: real, x: real, y: real)
    requires x == n as real * ratio && y == n as real * ratio2 && x <= y
    ensures ActiveBlocks(n, ratio) <= ActiveBlocks(n, ratio2)
  {
    CeilMonotone(x, y);
  }

  lemma CeilMonotone(x: real, y: real)
    requires x <= y
    ensures Ceil(x) <= Ceil(y)
  {
    assert (Ceil(x) - 1) as real < Ceil(y) as real;
  }

  lemma KeptGrows(s: int, t: int, t2: int, n: int, blockSize: int, length: int, x: int)
    requires t <= t2 && blockSize >= 1 && x in Kept(s, t, n, blockSize, length)
    ensures x in Kept(s, t2, n, blockSize, length)
  {
    MulMonotone(n - t2, n - t, blockSize);
    RangeMembers(Min((n - t) * blockSize, length), length, x);
    RangeMembers(Min((n - t2) * blockSize, length), length, x);
  }

  lemma MoreBlocksKept(n: int, ratio: real, ratio2: real, blockSize: int, sink: int, recent: int, length: int, x: int,
                       s: int, count: int, count2: int)
    requires n >= 1 && blockSize >= 1 && ratio <= ratio2 && x in Kept(s, count - s, n, blockSize, length)
    requires count == SelectedBlocks(n, ratio, sink, recent) && count2 == SelectedBlocks(n, ratio2, sink, recent)
    ensures x in Kept(s, count2 - s, n, blockSize, length)
  {
    assert count <= count2 by {
      CountGrows(n, ratio, ratio2, sink, recent);
    }
    KeptGrows(s, count - s, count2 - s, n, blockSize, length, x);
  }

  lemma SelectionIsKept(length: int, ratio: real, blockSize: int, sink: int, recent: int) returns (n: int, s: int, count: int)
    requires blockSize >= 1 && length >= 1
    ensures n == NumBlocks(length, blockSize) && s == SinkBlocks(n, sink) && count == SelectedBlocks(n, ratio, sink, recent)
    ensures Selection(length, ratio, blockSize, sink, recent) == Kept(s, count - s, n, blockSize, length)
  {
    n := NumBlocks(length, blockSize);
    s, count := SinkBlocks(n, sink), SelectedBlocks(n, ratio, sink, recent);
  }

  /** A larger ratio never drops a token. */
  lemma SelectionGrows(length: int, ratio: real, ratio2: real, blockSize: int, sink: int, recent: int, x: int)
    requires blockSize >= 1 && ratio <= ratio2 && x in Selection(length, ratio, blockSize, sink, recent)
    ensures x in Selection(length, ratio2, blockSize, sink, recent)
  {
    if length >= 1 {
      var n, s, count := SelectionIsKept(length, ratio, blockSize, sink, recent);
      var n2, s2, count2 := SelectionIsKept(length, ratio2, blockSize, sink, recent);
      MoreBlocksKept(n, ratio, ratio2, blockSize, sink, recent, length, x, s, count, count2);
    }
  }
}
