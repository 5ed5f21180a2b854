/**
 The Levenshtein distance of benchmarks/validate_generation_smoke.py.

 The reference notion is independent of the dynamic program: an edit is one insertion,
 deletion or replacement at a position of the current string, a script is a sequence of
 edits, and the distance is the length of a shortest script.  `Lev` is the textbook recursion;
 `LevIsDistance` shows it is the length of a shortest script and `EditDistance` that it is
 the last corner of the table the program fills row by row.
 */
module EditDistance {
  import opened Wrappers

  /** One edit of a string, at a position of the string it is applied to. */
  datatype Edit =
    | InsertAt(pos: nat, c: char)
    | DeleteAt(pos: nat)
    | ReplaceAt(pos: nat, c: char)

  /** The effect of one edit; None when its position does not exist. */
  function ApplyEdit(e: Edit, s: string): Option<string> {
    match e
    case InsertAt(p, c) => if p <= |s| then Some(s[..p] + [c] + s[p..]) else None
    case DeleteAt(p) => if p < |s| then Some(s[..p] + s[p + 1..]) else None
    case ReplaceAt(p, c) => if p < |s| then Some(s[..p] + [c] + s[p + 1..]) else None
  }

  /** Runs a script from its first edit to its last. */
  function RunScript(script: seq<Edit>, s: string): Option<string> {
    if script == [] then Some(s)
    else
      match ApplyEdit(script[0], s)
      case None => None
      case Some(t) => RunScript(script[1..], t)
  }

  ghost predicate Turns(script: seq<Edit>, a: string, b: string) {
    RunScript(script, a) == Some(b)
  }

  /** What the source calls the standard edit distance: some script of d edits turns a
      into b, and no script is shorter. */
  ghost predicate IsDistance(a: string, b: string, d: nat) {
    && (exists script :: Turns(script, a, b) && |script| == d)
    && (forall script :: Turns(script, a, b) ==> d <= |script|)
  }

  function Min(x: nat, y: nat): nat {
    if x <= y then x else y
  }

  function Max(x: nat, y: nat): nat {
    if x <= y then y else x
  }

  function Mismatch(x: char, y: char): nat {
    if x == y then 0 else 1
  }

  function Front(s: string): string
    requires s != ""
  {
    s[..|s| - 1]
  }

  function Last(s: string): char
    requires s != ""
  {
    s[|s| - 1]
  }

  /** The Levenshtein recursion on the last characters. */
  function Lev(a: string, b: string): nat
    decreases |a| + |b|
  {
    if a == "" then |b|
    else if b == "" then |a|
    else Min(Min(Lev(Front(a), b) + 1, Lev(a, Front(b)) + 1),
             Lev(Front(a), Front(b)) + Mismatch(Last(a), Last(b)))
  }

  // ---------------------------------------------------------------------------
  // Metric laws
  // ---------------------------------------------------------------------------

  /** Distance zero exactly for equal strings. */
  lemma {:induction false} LevZeroIffEqual(a: string, b: string)
    ensures Lev(a, b) == 0 <==> a == b
    decreases |a|
  {
    if a != "" && b != "" {
      LevZeroIffEqual(Front(a), Front(b));
      assert a == Front(a) + [Last(a)];
      assert b == Front(b) + [Last(b)];
    }
  }

  lemma {:induction false} LevSymmetric(a: string, b: string)
    ensures Lev(a, b) == Lev(b, a)
    decreases |a| + |b|
  {
    if a != "" && b != "" {
      LevSymmetric(Front(a), b);
      LevSymmetric(a, Front(b));
      LevSymmetric(Front(a), Front(b));
    }
  }

  /** The distance lies between the length difference and the longer length. */
  lemma {:induction false} LevBounds(a: string, b: string)
    ensures |a| - |b| <= Lev(a, b) && |b| - |a| <= Lev(a, b)
    ensures Lev(a, b) <= Max(|a|, |b|)
    decreases |a| + |b|
  {
    if a != "" && b != "" {
      LevBounds(Front(a), b);
      LevBounds(a, Front(b));
      LevBounds(Front(a), Front(b));
    }
  }

  /** A detour through a third string is never shorter. */
  lemma {:induction false} LevTriangle(a: string, b: string, c: string)
    ensures Lev(a, c) <= Lev(a, b) + Lev(b, c)
    decreases |a| + |b| + |c|
  {
    if a == "" {
      LevBounds(b, c);
    } else if c == "" {
      LevBounds(a, b);
    } else if b == "" {
      LevBounds(a, c);
    } else {
      LevTriangle(Front(a), b, c);
      LevTriangle(a, b, Front(c));
      LevTriangle(a, Front(b), c);
      LevTriangle(a, Front(b), Front(c));
      LevTriangle(Front(a), Front(b), c);
      LevTriangle(Front(a), Front(b), Front(c));
    }
  }

  // ---------------------------------------------------------------------------
  // Shortest edit scripts
  // ---------------------------------------------------------------------------

  /** A common continuation never costs anything. */
  lemma {:induction false} LevCommonSuffix(p: string, q: string, s: string)
    ensures Lev(p + s, q + s) <= Lev(p, q)
    decreases |s|
  {
    if s == "" {
      assert p + s == p && q + s == q;
    } else {
      LevCommonSuffix(p, q, Front(s));
      var x, y := p + s, q + s;
      assert Front(x) == p + Front(s) && Front(y) == q + Front(s);
      LevSameLast(x, y);
    }
  }

  lemma LevSameLast(a: string, b: string)
    requires a != "" && b != "" && Last(a) == Last(b)
    ensures Lev(a, b) <= Lev(Front(a), Front(b))
  {
  }

  /** The price of each of the three last steps. */
  lemma LevStep(a: string, b: string)
    ensures a != "" ==> Lev(a, b) <= Lev(Front(a), b) + 1
    ensures b != "" ==> Lev(a, b) <= Lev(a, Front(b)) + 1
    ensures a != "" && b != "" ==> Lev(a, b) <= Lev(Front(a), Front(b)) + Mismatch(Last(a), Last(b))
  {
  }

  lemma {:induction false} LevOneCharacter(p: string, x: string, y: string)
    requires |x| <= 1 && |y| <= 1
    ensures Lev(p + x, p + y) <= 1
  {
    LevZeroIffEqual(p, p);
    assert p + "" == p;
    if x == "" && y == "" {
    } else if x == "" {
      LevStep(p, p + y);
      assert Front(p + y) == p;
    } else if y == "" {
      LevStep(p + x, p);
      assert Front(p + x) == p;
    } else {
      LevStep(p + x, p + y);
      assert Front(p + x) == p && Front(p + y) == p;
    }
  }

  /** Exchanging a middle part of at most one character costs at most one. */
  lemma LevLocalChange(p: string, x: string, y: string, s: string)
    requires |x| <= 1 && |y| <= 1
    ensures Lev(p + x + s, p + y + s) <= 1
  {
    LevOneCharacter(p, x, y);
    LevCommonSuffix(p + x, p + y, s);
  }

  /** One edit moves a string by at most one. */
  lemma LevOneEdit(e: Edit, s: string)
    requires ApplyEdit(e, s).Some?
    ensures Lev(s, ApplyEdit(e, s).value) <= 1
  {
    match e {
      case InsertAt(i, c) => LevInsert(s, i, c);
      case DeleteAt(i) => LevDelete(s, i);
      case ReplaceAt(i, c) =>
        LevLocalChange(s[..i], [s[i]], [c], s[i + 1..]);
        assert s == s[..i] + [s[i]] + s[i + 1..];
    }
  }

  lemma LevInsert(s: string, i: nat, c: char)
    requires i <= |s|
    ensures Lev(s, s[..i] + [c] + s[i..]) <= 1
  {
    LevLocalChange(s[..i], "", [c], s[i..]);
    assert s == s[..i] + "" + s[i..];
  }

  lemma LevDelete(s: string, i: nat)
    requires i < |s|
    ensures Lev(s, s[..i] + s[i + 1..]) <= 1
  {
    var p, q := s[..i], s[i + 1..];
    LevLocalChange(p, [s[i]], "", q);
    SplitAt(s, i, p, q);
    NothingBetween(p, q);
  }

  lemma SplitAt(s: string, i: nat, p: string, q: string)
    requires i < |s| && p == s[..i] && q == s[i + 1..]
    ensures s == p + [s[i]] + q
  {
  }

  lemma NothingBetween(p: string, q: string)
    ensures p + "" + q == p + q
  {
  }

  /** No script is shorter than the distance. */
  lemma {:induction false} ScriptNeverBeats(script: seq<Edit>, a: string, b: string)
    requires Turns(script, a, b)
    ensures Lev(a, b) <= |script|
    decreases |script|
  {
    if script == [] {
      LevZeroIffEqual(a, b);
    } else {
      var t := ApplyEdit(script[0], a).value;
      LevOneEdit(script[0], a);
      ScriptNeverBeats(script[1..], t, b);
      LevTriangle(a, t, b);
    }
  }

  lemma {:induction false} RunScriptConcat(first: seq<Edit>, second: seq<Edit>, a: string, b: string)
    requires Turns(first, a, b)
    ensures RunScript(first + second, a) == RunScript(second, b)
    decreases |first|
  {
    if first == [] {
      assert first + second == second;
    } else {
      RunScriptConcat(first[1..], second, ApplyEdit(first[0], a).value, b);
      assert (first + second)[1..] == first[1..] + second;
    }
  }

  /** A script that works on a string works on the front of any longer one. */
  lemma {:induction false} RunScriptFrame(script: seq<Edit>, a: string, b: string, tail: string)
    requires Turns(script, a, b)
    ensures Turns(script, a + tail, b + tail)
    decreases |script|
  {
    if script != [] {
      var t := ApplyEdit(script[0], a).value;
      var p := script[0].pos;
      assert (a + tail)[..p] == a[..p];
      assert (a + tail)[p..] == a[p..] + tail;
      assert p < |a| ==> (a + tail)[p + 1..] == a[p + 1..] + tail;
      assert ApplyEdit(script[0], a + tail).value == t + tail;
      RunScriptFrame(script[1..], t, b, tail);
    }
  }

  /** A script of exactly the distance, read off the recursion. */
  ghost function OptimalScript(a: string, b: string): seq<Edit>
    decreases |a| + |b|
  {
    if a == "" && b == "" then []
    else if a == "" || (b != "" && Lev(a, b) == Lev(a, Front(b)) + 1) then
      OptimalScript(a, Front(b)) + [InsertAt(|b| - 1, Last(b))]
    else if b == "" || Lev(a, b) == Lev(Front(a), b) + 1 then
      [DeleteAt(|a| - 1)] + OptimalScript(Front(a), b)
    else if Last(a) == Last(b) then
      OptimalScript(Front(a), Front(b))
    else
      [ReplaceAt(|a| - 1, Last(b))] + OptimalScript(Front(a), Front(b))
  }

  lemma FrontAndLast(s: string)
    ensures s != "" ==> s == Front(s) + [Last(s)] && |Front(s)| == |s| - 1
  {
  }

  /** Some script attains the distance. */
  lemma {:induction false} ScriptAttains(a: string, b: string)
    ensures Turns(OptimalScript(a, b), a, b)
    ensures |OptimalScript(a, b)| == Lev(a, b)
    decreases |a| + |b|
  {
    FrontAndLast(a);
    FrontAndLast(b);
    if a == "" && b == "" {
    } else if a == "" || (b != "" && Lev(a, b) == Lev(a, Front(b)) + 1) {
      ScriptAttains(a, Front(b));
      InsertLast(OptimalScript(a, Front(b)), a, Front(b), Last(b));
    } else if b == "" || Lev(a, b) == Lev(Front(a), b) + 1 {
      ScriptAttains(Front(a), b);
      DeleteLast(OptimalScript(Front(a), b), Front(a), Last(a), b);
    } else {
      ScriptAttains(Front(a), Front(b));
      MatchLast(OptimalScript(Front(a), Front(b)), Front(a), Last(a), Front(b), Last(b));
    }
  }

  lemma {:induction false} InsertLast(script: seq<Edit>, a: string, b: string, y: char)
    requires Turns(script, a, b)
    ensures Turns(script + [InsertAt(|b|, y)], a, b + [y])
  {
    var last := [InsertAt(|b|, y)];
    RunScriptConcat(script, last, a, b);
    assert b[..|b|] + [y] + b[|b|..] == b + [y];
    assert RunScript(last[1..], b + [y]) == Some(b + [y]);
  }

  lemma {:induction false} DeleteLast(script: seq<Edit>, a: string, x: char, b: string)
    requires Turns(script, a, b)
    ensures Turns([DeleteAt(|a|)] + script, a + [x], b)
  {
    assert (a + [x])[..|a|] + (a + [x])[|a| + 1..] == a;
    assert ([DeleteAt(|a|)] + script)[1..] == script;
  }

  lemma {:induction false} MatchLast(script: seq<Edit>, a: string, x: char, b: string, y: char)
    requires Turns(script, a, b)
    ensures x == y ==> Turns(script, a + [x], b + [y])
    ensures Turns([ReplaceAt(|a|, y)] + script, a + [x], b + [y])
  {
    RunScriptFrame(script, a, b, [y]);
    assert (a + [x])[..|a|] + [y] + (a + [x])[|a| + 1..] == a + [y];
    assert ([ReplaceAt(|a|, y)] + script)[1..] == script;
  }

  /** The last corner of the table is the length of a shortest script. */
  lemma LevIsDistance(a: string, b: string)
    ensures IsDistance(a, b, Lev(a, b))
  {
    ScriptAttains(a, b);
    forall script | Turns(script, a, b)
      ensures Lev(a, b) <= |script|
    {
      ScriptNeverBeats(script, a, b);
    }
  }

  /** Shortest script lengths are unique, so they are what the table computes. */
  lemma DistanceUnique(a: string, b: string, d: nat)
    ensures IsDistance(a, b, d) <==> d == Lev(a, b)
  {
    LevIsDistance(a, b);
    if IsDistance(a, b, d) {
      var s1 :| Turns(s1, a, b) && |s1| == d;
      var s2 :| Turns(s2, a, b) && |s2| == Lev(a, b);
    }
  }

  // ---------------------------------------------------------------------------
  // The rolling-row program
  // ---------------------------------------------------------------------------

  lemma LevFromNeighbours(a: string, b: string, above: nat, left: nat, diagonal: nat)
    requires a != "" && b != ""
    requires above == Lev(Front(a), b) && left == Lev(a, Front(b)) && diagonal == Lev(Front(a), Front(b))
    ensures Lev(a, b) == Min(Min(above + 1, left + 1), diagonal + Mismatch(Last(a), Last(b)))
  {
  }

  /** One entry of the table from its three neighbours. */
  lemma CellValue(a: string, b: string, i: nat, j: nat, above: nat, left: nat, diagonal: nat)
    requires 0 < i <= |a| && 0 < j <= |b|
    requires above == Lev(a[..i - 1], b[..j]) && left == Lev(a[..i], b[..j - 1])
    requires diagonal == Lev(a[..i - 1], b[..j - 1])
    ensures Lev(a[..i], b[..j]) == Min(Min(above + 1, left + 1), diagonal + Mismatch(a[i - 1], b[j - 1]))
  {
    var p, q := a[..i], b[..j];
    assert Front(p) == a[..i - 1];
    assert Front(q) == b[..j - 1];
    assert Last(p) == a[i - 1] && Last(q) == b[j - 1];
    LevFromNeighbours(p, q, above, left, diagonal);
  }

  /** Row i of the table, up to some column: distances of a[..i] to the prefixes of b. */
  ghost predicate IsRow(row: seq<nat>, a: string, i: nat, b: string) {
    && i <= |a|
    && |row| <= |b| + 1
    && forall j :: 0 <= j < |row| ==> row[j] == Lev(a[..i], b[..j])
  }

  lemma RowExtends(row: seq<nat>, cell: nat, a: string, i: nat, b: string)
    requires |row| <= |b| && IsRow(row, a, i, b)
    requires cell == Lev(a[..i], b[..|row|])
    ensures IsRow(row + [cell], a, i, b)
  {
    var next := row + [cell];
    forall k | 0 <= k < |next|
      ensures next[k] == Lev(a[..i], b[..k])
    {
      assert k < |row| ==> next[k] == row[k];
    }
  }

  method EditDistance(a: string, b: string) returns (d: nat)
    ensures d == Lev(a, b)
  {
    if a == b {
      LevZeroIffEqual(a, b);
      return 0;
    }
    if a == "" {
      return |b|;
    }
    if b == "" {
      return |a|;
    }
    var prev: seq<nat> := seq(|b| + 1, j requires 0 <= j => j);
    var i := 0;
    while i < |a|
      invariant 0 <= i <= |a|
      invariant |prev| == |b| + 1
      invariant IsRow(prev, a, i, b)
    {
      i := i + 1;
      var curr: seq<nat> := [i];
      var j := 0;
      while j < |b|
        invariant 0 <= j <= |b|
        invariant |curr| == j + 1
        invariant IsRow(curr, a, i, b)
      {
        j := j + 1;
        var cell := Min(Min(prev[j] + 1, curr[j - 1] + 1), prev[j - 1] + Mismatch(a[i - 1], b[j - 1]));
        CellValue(a, b, i, j, prev[j], curr[j - 1], prev[j - 1]);
        RowExtends(curr, cell, a, i, b);
        curr := curr + [cell];
      }
      prev := curr;
    }
    assert a[..|a|] == a && b[..|b|] == b;
    d := prev[|prev| - 1];
  }

  // ---------------------------------------------------------------------------
  // The normalised distance
  // ---------------------------------------------------------------------------

  /** q is x over y. */
  ghost predicate IsFraction(q: real, x: nat, y: nat) {
    q * y as real == x as real
  }

  function Quotient(x: nat, y: nat): (q: real)
    requires x <= y && 0 < y
    ensures 0.0 <= q <= 1.0
    ensures q == 0.0 <==> x == 0
    ensures q == 1.0 <==> x == y
    ensures IsFraction(q, x, y)
  {
    var q := x as real / y as real;
    assert q * y as real == x as real;
    assert q > 1.0 ==> q * y as real > y as real;
    assert q < 0.0 ==> q * y as real < 0.0;
    q
  }

  /** The distance as a fraction of the longer length. */
  function Normalised(a: string, b: string): real {
    LevBounds(a, b);
    Quotient(Lev(a, b), Max(Max(|a|, |b|), 1))
  }

  /** The normalised distance is a symmetric fraction, zero exactly on equal strings and one
      exactly when the distance is as large as the longer string, which is not empty. */
  lemma NormalisedIsFraction(a: string, b: string)
    ensures 0.0 <= Normalised(a, b) <= 1.0
    ensures Normalised(a, b) == 0.0 <==> a == b
    ensures Normalised(a, b) == 1.0 <==> Lev(a, b) == Max(|a|, |b|) && (a != "" || b != "")
    ensures Normalised(a, b) == Normalised(b, a)
  {
    LevBounds(a, b);
    LevZeroIffEqual(a, b);
    LevSymmetric(a, b);
  }

  /** n times the normalised distance is the distance, n being the longer length, at least 1. */
  lemma NormalisedScales(a: string, b: string, n: nat)
    requires n >= 1 && n >= |a| && n >= |b| && (n == 1 || n == |a| || n == |b|)
    ensures IsFraction(Normalised(a, b), Lev(a, b), n)
  {
    LevBounds(a, b);
    assert Max(Max(|a|, |b|), 1) == n;
  }

  method NormalisedEditDistance(a: string, b: string) returns (r: real)
    ensures r == Normalised(a, b)
    ensures forall n: nat :: n >= 1 && n >= |a| && n >= |b| && (n == 1 || n == |a| || n == |b|) ==> IsFraction(r, Lev(a, b), n)
  {
    var dist := EditDistance(a, b);
    var denom := Max(Max(|a|, |b|), 1);
    r := dist as real / denom as real;
    LevBounds(a, b);
    forall n: nat | n >= 1 && n >= |a| && n >= |b| && (n == 1 || n == |a| || n == |b|)
      ensures IsFraction(r, Lev(a, b), n)
    {
      NormalisedScales(a, b, n);
    }
  }
}
