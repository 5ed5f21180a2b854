/**
 Free-running against teacher-forced decoding: benchmarks/run_native_gate.py.

 A model with its cache is a deterministic machine: prefill yields a state and logits, one
 token moves to the next state and logits.  Tokens are chosen greedily; log-probabilities
 are the logits shifted by a normaliser, of which nothing is assumed.
 */
module Decoding {
  import opened Wrappers

  type Token = nat
  type Logits = seq<real>

  datatype Model<!S> = Model(
    prefill: seq<Token> -> (S, Logits),
    step: (S, Token) -> (S, Logits),
    normaliser: Logits -> real)

  /** A model yields at least one logit, always the same number of them. */
  ghost predicate Vocabulary<S(!new)>(m: Model<S>, vocab: nat) {
    && vocab > 0
    && (forall p :: |m.prefill(p).1| == vocab)
    && (forall s, t :: |m.step(s, t).1| == vocab)
  }

  // ---------------------------------------------------------------------------
  // Greedy choice
  // ---------------------------------------------------------------------------

  /** The first position of a largest element. */
  function ArgMax(x: Logits): (i: Token)
    requires x != []
    ensures i < |x| && (forall j :: 0 <= j < |x| ==> x[j] <= x[i]) && (forall j :: 0 <= j < i ==> x[j] < x[i])
    decreases |x|
  {
    var n := |x| - 1;
    if n == 0 then 0
    else
      var front := ArgMax(x[..n]);
      assert forall j :: 0 <= j < n ==> x[..n][j] == x[j];
      if x[n] > x[front] then n else front
  }

  function LogProbs<S>(m: Model<S>, x: Logits): (y: Logits)
    ensures |y| == |x| && forall j :: 0 <= j < |x| ==> y[j] == x[j] - m.normaliser(x)
  {
    seq(|x|, j requires 0 <= j < |x| => x[j] - m.normaliser(x))
  }

  /** Shifting all entries by one amount, as log-softmax does, does not move the choice. */
  lemma ArgMaxShift<S>(m: Model<S>, x: Logits)
    requires x != []
    ensures ArgMax(LogProbs(m, x)) == ArgMax(x)
  {
    var y := LogProbs(m, x);
    var i, j := ArgMax(x), ArgMax(y);
    assert x[j] <= x[i] && y[i] <= y[j];
  }

  // ---------------------------------------------------------------------------
  // Specification
  // ---------------------------------------------------------------------------

  /** State and logits after the prompt and some forced tokens. */
  function After<S>(m: Model<S>, prompt: seq<Token>, tokens: seq<Token>): (S, Logits)
    decreases |tokens|
  {
    if tokens == [] then m.prefill(prompt)
    else m.step(After(m, prompt, tokens[..|tokens| - 1]).0, tokens[|tokens| - 1])
  }

  lemma AfterNext<S>(m: Model<S>, prompt: seq<Token>, forced: seq<Token>, n: nat)
    requires n < |forced|
    ensures After(m, prompt, forced[..n + 1]) == m.step(After(m, prompt, forced[..n]).0, forced[n])
  {
    assert forced[..n + 1][..n] == forced[..n];
  }

  lemma AfterVocabulary<S(!new)>(m: Model<S>, prompt: seq<Token>, tokens: seq<Token>, vocab: nat)
    requires Vocabulary(m, vocab)
    ensures |After(m, prompt, tokens).1| == vocab
  {
  }

  /** The model's choice after a prefix. */
  function Choice<S(!new)>(m: Model<S>, prompt: seq<Token>, tokens: seq<Token>, ghost vocab: nat): Token
    requires Vocabulary(m, vocab)
  {
    AfterVocabulary(m, prompt, tokens, vocab);
    ArgMax(After(m, prompt, tokens).1)
  }

  /** tokens is what the model generates by itself: each is its choice after the ones before. */
  ghost predicate IsGreedy<S(!new)>(m: Model<S>, prompt: seq<Token>, tokens: seq<Token>, vocab: nat)
    requires Vocabulary(m, vocab)
  {
    forall t :: 0 <= t < |tokens| ==> tokens[t] == Choice(m, prompt, tokens[..t], vocab)
  }

  /** The cache is faithful: one more token through the cache does what a longer prefill does. */
  ghost predicate CacheIsFaithful<S(!new)>(m: Model<S>) {
    forall p, t :: m.step(m.prefill(p).0, t) == m.prefill(p + [t])
  }

  /** With a faithful cache, forcing tokens is prefilling the prompt and the tokens. */
  lemma {:induction false} AfterIsPrefill<S(!new)>(m: Model<S>, prompt: seq<Token>, tokens: seq<Token>)
    requires CacheIsFaithful(m)
    ensures After(m, prompt, tokens) == m.prefill(prompt + tokens)
    decreases |tokens|
  {
    if tokens == [] {
      assert prompt + [] == prompt;
    } else {
      var front, last := tokens[..|tokens| - 1], tokens[|tokens| - 1];
      AfterIsPrefill(m, prompt, front);
      assert (prompt + front) + [last] == prompt + tokens;
    }
  }

  /** With a faithful cache, what a model generates by itself is at each place the most likely token,
      the first of several, after a prefill of everything before. */
  lemma GreedyIsMostLikely<S(!new)>(m: Model<S>, prompt: seq<Token>, tokens: seq<Token>, vocab: nat, t: nat, j: Token)
    requires CacheIsFaithful(m) && Vocabulary(m, vocab) && IsGreedy(m, prompt, tokens, vocab) && t < |tokens| && j < vocab
    ensures var logits := m.prefill(prompt + tokens[..t]).1;
            tokens[t] < vocab && logits[j] <= logits[tokens[t]] && (j < tokens[t] ==> logits[j] < logits[tokens[t]])
  {
    AfterIsPrefill(m, prompt, tokens[..t]);
    AfterVocabulary(m, prompt, tokens[..t], vocab);
    assert tokens[t] == Choice(m, prompt, tokens[..t], vocab);
  }

  /** The rows a teacher-forced run over the given tokens records. */
  ghost predicate IsForced<S>(m: Model<S>, prompt: seq<Token>, forced: seq<Token>, rows: seq<Logits>) {
    && |rows| == |forced|
    && forall t :: 0 <= t < |rows| ==> rows[t] == LogProbs(m, After(m, prompt, forced[..t]).1)
  }

  // ---------------------------------------------------------------------------
  // The two loops
  // ---------------------------------------------------------------------------

  method GreedyDecode<S(!new)>(m: Model<S>, prompt: seq<Token>, maxTokens: nat, ghost vocab: nat) returns (tokens: seq<Token>)
    requires Vocabulary(m, vocab)
    ensures |tokens| == maxTokens && IsGreedy(m, prompt, tokens, vocab)
  {
    tokens := [];
    var (cache, logits) := m.prefill(prompt);
    var n := 0;
    while n < maxTokens
      invariant 0 <= n <= maxTokens && |tokens| == n
      invariant (cache, logits) == After(m, prompt, tokens)
      invariant |logits| == vocab
      invariant IsGreedy(m, prompt, tokens, vocab)
    {
      var token := ArgMax(LogProbs(m, logits));
      ArgMaxShift(m, logits);
      ghost var before := tokens;
      tokens := tokens + [token];
      assert tokens[..n] == before;
      assert forall t :: 0 <= t < n ==> tokens[..t] == before[..t];
      var next := m.step(cache, token);
      cache, logits := next.0, next.1;
      n := n + 1;
    }
  }

  method TeacherForced<S(!new)>(m: Model<S>, prompt: seq<Token>, forced: seq<Token>, ghost vocab: nat)
    returns (argmaxes: seq<Token>, rows: seq<Logits>)
    requires Vocabulary(m, vocab)
    ensures IsForced(m, prompt, forced, rows)
    ensures |argmaxes| == |forced|
    ensures forall t :: 0 <= t < |forced| ==> argmaxes[t] == Choice(m, prompt, forced[..t], vocab)
  {
    argmaxes, rows := [], [];
    var (cache, logits) := m.prefill(prompt);
    var n := 0;
    while n < |forced|
      invariant 0 <= n <= |forced| && |argmaxes| == n && |rows| == n
      invariant (cache, logits) == After(m, prompt, forced[..n])
      invariant |logits| == vocab
      invariant forall t :: 0 <= t < n ==> argmaxes[t] == Choice(m, prompt, forced[..t], vocab)
      invariant forall t :: 0 <= t < n ==> rows[t] == LogProbs(m, After(m, prompt, forced[..t]).1)
    {
      argmaxes := argmaxes + [ArgMax(logits)];
      rows := rows + [LogProbs(m, logits)];
      AfterNext(m, prompt, forced, n);
      var next := m.step(cache, forced[n]);
      cache, logits := next.0, next.1;
      n := n + 1;
    }
  }

  datatype Quality = MissingLogprobs | Compared(firstDivergentToken: Option<nat>, stepsCompared: nat)

  function Min(x: nat, y: nat): nat {
    if x <= y then x else y
  }

  /** The first position where two equally long sequences differ. */
  ghost predicate FirstDifference<T>(a: seq<T>, b: seq<T>, first: Option<nat>) {
    match first
    case None => a == b
    case Some(i) => i < |a| && i < |b| && a[..i] == b[..i] && a[i] != b[i]
  }

  /** The largest entry of a row truncated to a common vocabulary, as the comparison does. */
  function Top1(row: Logits, vocab: nat): (i: Token)
    requires row != [] && vocab > 0
    ensures i < vocab && i < |row|
    ensures forall j :: 0 <= j < vocab && j < |row| ==> row[j] <= row[i] && (j < i ==> row[j] < row[i])
  {
    var common := row[..Min(vocab, |row|)];
    assert forall j :: 0 <= j < |common| ==> common[j] == row[j];
    ArgMax(common)
  }

  /** An argmax is taken of every row, so none may be empty. */
  ghost predicate NoEmptyRow(rows: seq<Logits>) {
    forall t :: 0 <= t < |rows| ==> rows[t] != []
  }

  /** The choices of the first steps rows. */
  function Tops(rows: seq<Logits>, vocab: nat, steps: nat): (tops: seq<Token>)
    requires vocab > 0 && NoEmptyRow(rows) && steps <= |rows|
    ensures |tops| == steps && forall t :: 0 <= t < steps ==> tops[t] == Top1(rows[t], vocab)
  {
    seq(steps, t requires 0 <= t < steps => Top1(rows[t], vocab))
  }

  /** The first step, of those both traces have, where the largest entries differ. */
  ghost predicate IsFirstMismatch(dense: seq<Logits>, packed: seq<Logits>, vocab: nat, first: Option<nat>)
    requires vocab > 0 && NoEmptyRow(dense) && NoEmptyRow(packed)
  {
    var steps := Min(|dense|, |packed|);
    FirstDifference(Tops(dense, vocab, steps), Tops(packed, vocab, steps), first)
  }

  /** Rows of one vocabulary are compared whole. */
  lemma Top1Whole(row: Logits, vocab: nat)
    requires row != [] && |row| <= vocab
    ensures Top1(row, vocab) == ArgMax(row)
  {
    assert row[..Min(vocab, |row|)] == row;
  }

  /** Compares along the smaller of the two vocabularies, which the first rows give. */
  method ComputeLogitQuality(dense: seq<Logits>, packed: seq<Logits>) returns (quality: Quality)
    requires NoEmptyRow(dense) && NoEmptyRow(packed)
    ensures quality.MissingLogprobs? <==> dense == [] || packed == []
    ensures quality.Compared? ==> quality.stepsCompared == Min(|dense|, |packed|)
    ensures quality.Compared? ==>
              IsFirstMismatch(dense, packed, Min(|dense[0]|, |packed[0]|), quality.firstDivergentToken)
  {
    if dense == [] || packed == [] {
      return MissingLogprobs;
    }
    var steps := Min(|dense|, |packed|);
    var common := Min(|dense[0]|, |packed[0]|);
    ghost var d, p := Tops(dense, common, steps), Tops(packed, common, steps);
    var matches: seq<bool> := [];
    var t := 0;
    while t < steps
      invariant 0 <= t <= steps && |matches| == t
      invariant forall j :: 0 <= j < t ==> (matches[j] <==> d[j] == p[j])
    {
      matches := matches + [Top1(dense[t], common) == Top1(packed[t], common)];
      t := t + 1;
    }
    var first: Option<nat> := None;
    t := 0;
    while t < steps && first.None?
      invariant 0 <= t <= steps
      invariant first.None? ==> d[..t] == p[..t]
      invariant first.Some? ==> first.value < steps && d[first.value] != p[first.value] && d[..first.value] == p[..first.value]
      decreases steps - t, if first.None? then 1 else 0
    {
      if !matches[t] {
        first := Some(t);
      } else {
        assert d[..t + 1] == d[..t] + [d[t]] && p[..t + 1] == p[..t] + [p[t]];
        t := t + 1;
      }
    }
    assert first.None? ==> d == d[..steps] && p == p[..steps];
    return Compared(first, steps);
  }

  // ---------------------------------------------------------------------------
  // Free-running and teacher-forced divergence coincide
  // ---------------------------------------------------------------------------

  /** A model fed its own greedy tokens reproduces them as teacher-forced choices. */
  lemma SelfForcing<S(!new)>(m: Model<S>, prompt: seq<Token>, tokens: seq<Token>, rows: seq<Logits>, vocab: nat)
    requires Vocabulary(m, vocab) && IsGreedy(m, prompt, tokens, vocab) && IsForced(m, prompt, tokens, rows)
    ensures forall t :: 0 <= t < |tokens| ==> |rows[t]| == vocab && ArgMax(rows[t]) == tokens[t]
  {
    forall t | 0 <= t < |tokens|
      ensures |rows[t]| == vocab && ArgMax(rows[t]) == tokens[t]
    {
      AfterVocabulary(m, prompt, tokens[..t], vocab);
      ArgMaxShift(m, After(m, prompt, tokens[..t]).1);
    }
  }

  /** As long as the free-running packed tokens agree with the dense ones, the packed model
      forced along the dense tokens makes the same choice as when it runs free. */
  lemma ForcedChoice<S(!new)>(m: Model<S>, prompt: seq<Token>, own: seq<Token>, forced: seq<Token>, rows: seq<Logits>, t: nat, vocab: nat)
    requires Vocabulary(m, vocab) && IsGreedy(m, prompt, own, vocab) && IsForced(m, prompt, forced, rows)
    requires t < |own| == |forced| && own[..t] == forced[..t]
    ensures |rows[t]| == vocab && ArgMax(rows[t]) == own[t]
  {
    AfterVocabulary(m, prompt, forced[..t], vocab);
    ArgMaxShift(m, After(m, prompt, forced[..t]).1);
  }

  lemma {:induction false} AgreeUpTo(a: seq<Token>, b: seq<Token>, n: nat) returns (t: nat)
    requires n <= |a| && n <= |b|
    ensures t <= n && a[..t] == b[..t] && (t < n ==> a[t] != b[t])
    decreases n
  {
    if n == 0 {
      t := 0;
    } else {
      t := AgreeUpTo(a, b, n - 1);
      if t == n - 1 && a[t] == b[t] {
        assert a[..n] == a[..t] + [a[t]] && b[..n] == b[..t] + [b[t]];
        t := n;
      }
    }
  }

  /** If p follows b for as long as b follows a, then a and b first differ where a and p do. */
  lemma SameFirstDifference(a: seq<Token>, b: seq<Token>, p: seq<Token>, first: Option<nat>)
    requires |a| == |b| == |p| && FirstDifference(a, p, first)
    requires forall t :: 0 <= t < |a| && b[..t] == a[..t] ==> p[t] == b[t]
    ensures FirstDifference(a, b, first)
  {
    var t := AgreeUpTo(b, a, |a|);
    forall j | 0 <= j < |a| && j <= t
      ensures p[j] == b[j] && (j < t ==> b[j] == a[j])
    {
      assert b[..j] == b[..t][..j] == a[..t][..j] == a[..j];
      assert j < t ==> b[..t][j] == a[..t][j];
    }
    assert p[..t] == a[..t];
    DifferenceUnique(a, p, first, t);
    if t == |a| {
      assert a == a[..t] && b == b[..t];
    }
  }

  lemma DifferenceUnique(a: seq<Token>, p: seq<Token>, first: Option<nat>, t: nat)
    requires |a| == |p| && FirstDifference(a, p, first)
    requires t <= |a| && p[..t] == a[..t] && (t < |a| ==> p[t] != a[t])
    ensures first == if t == |a| then None else Some(t)
  {
    assert t == |a| ==> a == a[..t] && p == p[..t];
    assert forall j :: 0 <= j < t ==> p[..t][j] == p[j] && a[..t][j] == a[j];
    if first.Some? {
      assert forall j :: 0 <= j < first.value ==> p[..first.value][j] == p[j] && a[..first.value][j] == a[j];
    }
  }

  /** The rows of a model of one vocabulary choose whole. */
  lemma TopsWhole(rows: seq<Logits>, vocab: nat)
    requires vocab > 0 && forall t :: 0 <= t < |rows| ==> |rows[t]| == vocab
    ensures NoEmptyRow(rows) && forall t :: 0 <= t < |rows| ==> Tops(rows, vocab, |rows|)[t] == ArgMax(rows[t])
  {
    forall t | 0 <= t < |rows|
      ensures Tops(rows, vocab, |rows|)[t] == ArgMax(rows[t])
    {
      Top1Whole(rows[t], vocab);
    }
  }

  /** The first position where the packed model, running free, leaves the dense tokens is the
      first teacher-forced argmax mismatch along the dense tokens; the free-running sequences
      are equal exactly when there is no mismatch.  The two models, their caches and their
      normalisers are arbitrary. */
  lemma FirstDivergenceCoincides<S(!new), R(!new)>(
    dense: Model<S>, packed: Model<R>, prompt: seq<Token>,
    denseTokens: seq<Token>, packedTokens: seq<Token>,
    denseRows: seq<Logits>, packedRows: seq<Logits>, vocab: nat, first: Option<nat>)
    requires Vocabulary(dense, vocab) && Vocabulary(packed, vocab)
    requires |denseTokens| == |packedTokens|
    requires IsGreedy(dense, prompt, denseTokens, vocab) && IsGreedy(packed, prompt, packedTokens, vocab)
    requires IsForced(dense, prompt, denseTokens, denseRows) && IsForced(packed, prompt, denseTokens, packedRows)
    requires NoEmptyRow(denseRows) && NoEmptyRow(packedRows) && IsFirstMismatch(denseRows, packedRows, vocab, first)
    ensures FirstDifference(denseTokens, packedTokens, first)
    ensures first.None? <==> denseTokens == packedTokens
  {
    var n := |denseTokens|;
    RowsHaveWidth(dense, prompt, denseTokens, denseRows, vocab);
    RowsHaveWidth(packed, prompt, denseTokens, packedRows, vocab);
    SelfForcing(dense, prompt, denseTokens, denseRows, vocab);
    TopsWhole(denseRows, vocab);
    TopsWhole(packedRows, vocab);
    assert Tops(denseRows, vocab, n) == denseTokens;
    forall t | 0 <= t < n && packedTokens[..t] == denseTokens[..t]
      ensures Tops(packedRows, vocab, n)[t] == packedTokens[t]
    {
      ForcedChoice(packed, prompt, packedTokens, denseTokens, packedRows, t, vocab);
    }
    SameFirstDifference(denseTokens, packedTokens, Tops(packedRows, vocab, n), first);
  }

  /** The gate: dense runs free, packed runs free for as many tokens, both are forced along the
      dense tokens, and the reported index is the first token where the two free runs differ. */
  method NativeGate<S(!new), R(!new)>(dense: Model<S>, packed: Model<R>, prompt: seq<Token>, maxTokens: nat, ghost vocab: nat)
    returns (denseTokens: seq<Token>, packedTokens: seq<Token>, quality: Quality)
    requires Vocabulary(dense, vocab) && Vocabulary(packed, vocab)
    ensures |denseTokens| == |packedTokens| == maxTokens
    ensures IsGreedy(dense, prompt, denseTokens, vocab) && IsGreedy(packed, prompt, packedTokens, vocab)
    ensures quality.MissingLogprobs? <==> maxTokens == 0
    ensures quality.Compared? ==> FirstDifference(denseTokens, packedTokens, quality.firstDivergentToken)
    ensures quality.Compared? ==> (quality.firstDivergentToken.None? <==> denseTokens == packedTokens)
  {
    denseTokens := GreedyDecode(dense, prompt, maxTokens, vocab);
    var _, denseRows := TeacherForced(dense, prompt, denseTokens, vocab);
    packedTokens := GreedyDecode(packed, prompt, |denseTokens|, vocab);
    var _, packedRows := TeacherForced(packed, prompt, denseTokens, vocab);
    RowsHaveWidth(dense, prompt, denseTokens, denseRows, vocab);
    RowsHaveWidth(packed, prompt, denseTokens, packedRows, vocab);
    quality := ComputeLogitQuality(denseRows, packedRows);
    if quality.Compared? {
      FirstDivergenceCoincides(dense, packed, prompt, denseTokens, packedTokens, denseRows, packedRows, vocab,
                               quality.firstDivergentToken);
    }
  }

  lemma RowsHaveWidth<S(!new)>(m: Model<S>, prompt: seq<Token>, forced: seq<Token>, rows: seq<Logits>, vocab: nat)
    requires Vocabulary(m, vocab) && IsForced(m, prompt, forced, rows)
    ensures forall t :: 0 <= t < |rows| ==> |rows[t]| == vocab
  {
    forall t | 0 <= t < |rows|
      ensures |rows[t]| == vocab
    {
      AfterVocabulary(m, prompt, forced[..t], vocab);
    }
  }
}
