/** The overlapping chunk generator of memory/chunking.py. */
module Chunking {
  import opened Arithmetic
  import opened Sequences
  import opened Wrappers

  // ---------------------------------------------------------------------------
  // Slices and the loop
  // ---------------------------------------------------------------------------

  /** A Python slice bound: negative ones count from the end, and all are clipped. */
  function Bound(length: nat, x: int): (b: nat)
    ensures b <= length
  {
    if x < 0 then (if x + length < 0 then 0 else x + length)
    else if x > length then length else x
  }

  /** Python's s[lo:hi]. */
  function Slice(s: string, lo: int, hi: int): string {
    var a, b := Bound(|s|, lo), Bound(|s|, hi);
    if a < b then s[a..b] else ""
  }

  /** A slice that counts from the end, and one that runs past it. */
  lemma SliceFromEnd(s: string, lo: int, hi: int)
    requires -|s| <= lo <= hi < 0
    ensures Slice(s, lo, hi) == s[|s| + lo..|s| + hi]
    ensures Slice(s, lo + |s|, |s| - hi) == s[|s| + lo..]
  {
  }

  /** Where the generator stands after k chunks: the next start, or None once it has ended. */
  function StartAfter(length: nat, size: int, overlap: int, k: nat): Option<int>
    decreases k
  {
    if k == 0 then (if 0 < length then Some(0) else None)
    else
      match StartAfter(length, size, overlap, k - 1)
      case None => None
      case Some(start) =>
        var end := start + size;
        if end - overlap < end && end - overlap < length then Some(end - overlap) else None
  }

  /** The generator ends on this input. */
  ghost predicate Ends(length: nat, size: int, overlap: int) {
    exists k: nat :: StartAfter(length, size, overlap, k).None?
  }

  /** A caller can tell: the text is empty, or there is no overlap, or the chunks advance. */
  predicate Advances(length: nat, size: int, overlap: int) {
    length == 0 || overlap <= 0 || overlap < size
  }

  /** With an overlap as large as the chunk, the start never moves forward. */
  lemma {:induction false} StuckAtStart(length: nat, size: int, overlap: int, k: nat)
    requires !Advances(length, size, overlap)
    ensures StartAfter(length, size, overlap, k).Some? && StartAfter(length, size, overlap, k).value <= 0
    decreases k
  {
    if k > 0 {
      StuckAtStart(length, size, overlap, k - 1);
    }
  }

  lemma {:induction false} MovesForward(length: nat, size: int, overlap: int, k: nat)
    requires 0 < overlap < size
    ensures var s := StartAfter(length, size, overlap, k); s.Some? ==> s.value >= k
    decreases k
  {
    if k > 0 {
      MovesForward(length, size, overlap, k - 1);
    }
  }

  /** The generator ends exactly when the text is empty, the overlap is not positive, or the
      overlap is smaller than the chunk. */
  lemma EndsIff(length: nat, size: int, overlap: int)
    ensures Ends(length, size, overlap) <==> Advances(length, size, overlap)
  {
    if Advances(length, size, overlap) {
      if length == 0 {
        assert StartAfter(length, size, overlap, 0).None?;
      } else if overlap <= 0 {
        assert StartAfter(length, size, overlap, 1).None?;
      } else {
        MovesForward(length, size, overlap, length);
        BelowLength(length, size, overlap, length);
      }
    } else if k: nat :| StartAfter(length, size, overlap, k).None? {
      StuckAtStart(length, size, overlap, k);
      assert false;
    }
  }

  lemma BelowLength(length: nat, size: int, overlap: int, k: nat)
    ensures var s := StartAfter(length, size, overlap, k); s.Some? ==> s.value < length
  {
  }

  // ---------------------------------------------------------------------------
  // The chunks
  // ---------------------------------------------------------------------------

  /** f at start and at every stride after it, below the length. */
  function Stepped<T>(f: int -> T, length: nat, stride: nat, start: nat): seq<T>
    requires stride > 0
    decreases length - start
  {
    if start >= length then [] else [f(start)] + Stepped(f, length, stride, start + stride)
  }

  function ChunkAt(text: string, size: int): int -> string {
    start => Slice(text, start, start + size)
  }

  /** The chunks generated from a start on: one, or one every size - overlap characters. */
  function ChunksFrom(text: string, size: int, overlap: int, start: nat): seq<string>
    requires Advances(|text|, size, overlap)
  {
    if start >= |text| then []
    else if overlap <= 0 then [ChunkAt(text, size)(start)]
    else Stepped(ChunkAt(text, size), |text|, size - overlap, start)
  }

  function Chunks(text: string, size: int, overlap: int): seq<string>
    requires Advances(|text|, size, overlap)
  {
    ChunksFrom(text, size, overlap, 0)
  }

  /** `chunk_text`, collecting what it yields. */
  method ChunkText(text: string, size: int, overlap: int) returns (chunks: seq<string>)
    requires Advances(|text|, size, overlap)
    ensures chunks == Chunks(text, size, overlap)
  {
    chunks := [];
    var start := 0;
    ghost var goal, rest := Chunks(text, size, overlap), Chunks(text, size, overlap);
    assert chunks + rest == goal;
    while start < |text|
      invariant 0 <= start && rest == ChunksFrom(text, size, overlap, start)
      invariant chunks + rest == goal
      decreases |text| - start
    {
      var end := start + size;
      var chunk := Slice(text, start, end);
      ghost var later := FirstChunk(text, size, overlap, start, chunk);
      Associate(chunks, [chunk], later);
      chunks, rest := chunks + [chunk], later;
      start := end - overlap;
      if start >= end {
        break;
      }
    }
    assert rest == [];
    assert chunks + rest == chunks;
  }

  lemma FirstChunk(text: string, size: int, overlap: int, start: nat, chunk: string) returns (later: seq<string>)
    requires Advances(|text|, size, overlap) && start < |text| && chunk == Slice(text, start, start + size)
    ensures ChunksFrom(text, size, overlap, start) == [chunk] + later
    ensures later == if overlap <= 0 then [] else ChunksFrom(text, size, overlap, start + size - overlap)
  {
    if overlap <= 0 {
      later := [];
    } else {
      later := ChunksFrom(text, size, overlap, start + size - overlap);
      FirstAndLater(ChunkAt(text, size), |text|, size - overlap, start);
    }
  }

  lemma FirstAndLater<T>(f: int -> T, length: nat, stride: nat, start: nat)
    requires stride > 0 && start < length
    ensures Stepped(f, length, stride, start) == [f(start)] + Stepped(f, length, stride, start + stride)
  {
  }

  // ---------------------------------------------------------------------------
  // What the chunks are
  // ---------------------------------------------------------------------------

  /** x / d rounded up. */
  function CeilDiv(x: int, d: int): int
    requires d > 0
  {
    (x + d - 1) / d
  }

  lemma CeilDivStep(x: int, d: int)
    requires d > 0
    ensures CeilDiv(x, d) == CeilDiv(x - d, d) + 1
    ensures -d < x <= 0 ==> CeilDiv(x, d) == 0
  {
    var y := x - 1;
    DivModUnique(y + d, d, y / d + 1, y % d);
    if -d < x <= 0 {
      DivModUnique(x + d - 1, d, 0, x + d - 1);
    }
  }

  /** Of each chunk the first stride characters, joined. */
  function Join(chunks: seq<string>, stride: int): string {
    if chunks == [] then "" else Slice(chunks[0], 0, stride) + Join(chunks[1..], stride)
  }

  lemma SliceSplit(text: string, start: nat, d: nat, size: nat)
    requires 0 < d < size && start < |text|
    ensures Slice(Slice(text, start, start + size), 0, d) + Slice(text, start + d, |text|) == Slice(text, start, |text|)
  {
    var c := Slice(text, start, start + size);
    assert c == text[start..Bound(|text|, start + size)];
    if start + d < |text| {
      assert Slice(c, 0, d) == text[start..start + d];
      assert text[start..start + d] + text[start + d..] == text[start..];
    } else {
      assert Slice(c, 0, d) == c == text[start..];
    }
  }

  /** There is one element per stride. */
  lemma {:induction false} SteppedCount<T>(f: int -> T, length: nat, stride: nat, start: nat)
    requires stride > 0 && start < length + stride
    ensures |Stepped(f, length, stride, start)| == CeilDiv(length - start, stride)
    decreases length - start
  {
    CeilDivStep(length - start, stride);
    if start < length {
      SteppedCount(f, length, stride, start + stride);
    }
  }

  function Strides(k: nat, stride: nat): nat {
    if k == 0 then 0 else stride + Strides(k - 1, stride)
  }

  lemma {:induction false} StridesIs(k: nat, stride: nat)
    ensures Strides(k, stride) == k * stride
    decreases k
  {
    if k > 0 {
      StridesIs(k - 1, stride);
      assert k * stride == (k - 1) * stride + stride;
    }
  }

  /** Element k is f, k strides on. */
  lemma {:induction false} SteppedAt<T>(f: int -> T, length: nat, stride: nat, start: nat, k: nat)
    requires stride > 0 && k < |Stepped(f, length, stride, start)|
    ensures start + Strides(k, stride) < length
    ensures Stepped(f, length, stride, start)[k] == f(start + Strides(k, stride))
    decreases k
  {
    if k > 0 {
      SteppedAt(f, length, stride, start + stride, k - 1);
    }
  }

  lemma JoinCons(c: string, later: seq<string>, stride: int)
    ensures Join([c] + later, stride) == Slice(c, 0, stride) + Join(later, stride)
  {
    assert ([c] + later)[1..] == later;
  }

  /** If what is left from s on is the first stride of the chunk at s and what is left from a
      stride later on, the chunks join to what is left. */
  lemma {:induction false} SteppedJoin(f: int -> string, left: int -> string, length: nat, stride: nat, start: nat)
    requires stride > 0
    requires forall s :: 0 <= s < length ==> Slice(f(s), 0, stride) + left(s + stride) == left(s)
    requires forall s :: s >= length ==> left(s) == ""
    ensures Join(Stepped(f, length, stride, start), stride) == left(start)
    decreases length - start
  {
    if start < length {
      SteppedJoin(f, left, length, stride, start + stride);
      JoinCons(f(start), Stepped(f, length, stride, start + stride), stride);
    }
  }

  /** What is left of a text from a position on. */
  function Left(text: string): int -> string {
    start => Slice(text, start, |text|)
  }

  lemma JoinedStrides(text: string, size: int, stride: nat)
    requires 0 < stride < size
    ensures Join(Stepped(ChunkAt(text, size), |text|, stride, 0), stride) == text
  {
    var f, left := ChunkAt(text, size), Left(text);
    forall s | 0 <= s < |text|
      ensures Slice(f(s), 0, stride) + left(s + stride) == left(s)
    {
      SliceSplit(text, s, stride, size);
    }
    NothingLeft(text);
    SteppedJoin(f, left, |text|, stride, 0);
  }

  lemma NothingLeft(text: string)
    ensures Left(text)(0) == text && forall s :: s >= |text| ==> Left(text)(s) == ""
  {
  }

  /** For an overlap between zero and the chunk size: as many chunks as strides fit in the
      text, rounded up, and their first strides joined give back the text. */
  lemma ChunksRebuildText(text: string, size: int, overlap: int)
    requires 0 < overlap < size
    ensures |Chunks(text, size, overlap)| == CeilDiv(|text|, size - overlap)
    ensures Join(Chunks(text, size, overlap), size - overlap) == text
  {
    SteppedCount(ChunkAt(text, size), |text|, size - overlap, 0);
    JoinedStrides(text, size, size - overlap);
  }

  /** Chunk k is the text from k strides on, as much of it as a chunk holds. */
  lemma ChunkIs(text: string, size: int, overlap: int, k: nat)
    requires 0 < overlap < size && k < |Chunks(text, size, overlap)|
    ensures var from := k * (size - overlap);
            0 <= from < |text| && Chunks(text, size, overlap)[k] == Slice(text, from, from + size)
  {
    SteppedAt(ChunkAt(text, size), |text|, size - overlap, 0, k);
    StridesIs(k, size - overlap);
  }

  /** The last `overlap` characters a chunk has after its stride. */
  function Shared(chunk: string, stride: int): string {
    Slice(chunk, stride, |chunk|)
  }

  /** next begins with what c has after its stride: `overlap` characters, or all of next. */
  predicate Overlaps(c: string, next: string, stride: int, overlap: int) {
    Shared(c, stride) <= next && (|Shared(c, stride)| == overlap || Shared(c, stride) == next)
  }

  lemma SlicesOverlap(text: string, from: nat, d: nat, size: nat, c: string, next: string)
    requires d < size && from + d < |text|
    requires c == Slice(text, from, from + size) && next == Slice(text, from + d, from + d + size)
    ensures Overlaps(c, next, d, size - d)
  {
    var e, e2 := Bound(|text|, from + size), Bound(|text|, from + d + size);
    assert c == text[from..e] && next == text[from + d..e2];
    assert Shared(c, d) == text[from + d..e];
    assert next[..e - (from + d)] == text[from + d..e];
  }

  /** Neighbouring chunks overlap. */
  lemma NeighboursOverlap(text: string, size: int, overlap: int, k: nat)
    requires 0 < overlap < size && k + 1 < |Chunks(text, size, overlap)|
    ensures Overlaps(Chunks(text, size, overlap)[k], Chunks(text, size, overlap)[k + 1], size - overlap, overlap)
  {
    var f, d := ChunkAt(text, size), size - overlap;
    var from := Strides(k, d);
    SteppedAt(f, |text|, d, 0, k);
    SteppedAt(f, |text|, d, 0, k + 1);
    SlicesOverlap(text, from, d, size, f(from), f(from + d));
  }

  /** Whenever the generator ends, its chunks give back the text exactly when the text is
      empty, the overlap is positive, or the text fits in one chunk: without an overlap only
      the first chunk is ever generated. */
  lemma LosslessIff(text: string, size: int, overlap: int)
    requires Advances(|text|, size, overlap)
    ensures Join(Chunks(text, size, overlap), size - overlap) == text <==>
            text == "" || overlap > 0 || |text| <= size
  {
    if text != "" && overlap > 0 {
      ChunksRebuildText(text, size, overlap);
    } else if text != "" {
      var first := Slice(text, 0, size);
      assert Chunks(text, size, overlap) == [first];
      assert Join([first], size - overlap) == Slice(first, 0, size - overlap) + "";
    }
  }
}
