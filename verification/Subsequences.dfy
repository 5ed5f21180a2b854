/** Subsequences: what is left of a sequence after deleting some of its elements. */
module Subsequences {

  /** s is t with some elements deleted. */
  ghost predicate IsSubseq<T(!new)>(s: seq<T>, t: seq<T>)
    decreases |t|
  {
    || s == []
    || (t != [] && IsSubseq(s, t[..|t| - 1]))
    || (s != [] && t != [] && s[|s| - 1] == t[|t| - 1] && IsSubseq(s[..|s| - 1], t[..|t| - 1]))
  }

  lemma {:induction false} SubseqRefl<T(!new)>(s: seq<T>)
    ensures IsSubseq(s, s)
    decreases |s|
  {
    if s != [] {
      SubseqRefl(s[..|s| - 1]);
    }
  }

  lemma SubseqAppend<T(!new)>(s: seq<T>, t: seq<T>, x: T)
    requires IsSubseq(s, t)
    ensures IsSubseq(s + [x], t + [x])
  {
    assert (s + [x])[..|s|] == s && (t + [x])[..|t|] == t;
  }

  lemma {:induction false} SubseqLength<T(!new)>(s: seq<T>, t: seq<T>)
    requires IsSubseq(s, t)
    ensures |s| <= |t|
    ensures |s| == |t| ==> s == t
    decreases |t|
  {
    if s != [] {
      var u := t[..|t| - 1];
      if IsSubseq(s, u) {
        SubseqLength(s, u);
      } else {
        SubseqLength(s[..|s| - 1], u);
        assert s == s[..|s| - 1] + [s[|s| - 1]];
        assert t == u + [t[|t| - 1]];
      }
    }
  }

  lemma {:induction false} SubseqFront<T(!new)>(s: seq<T>, t: seq<T>)
    requires s != [] && IsSubseq(s, t)
    ensures IsSubseq(s[..|s| - 1], t)
    decreases |t|
  {
    var u := t[..|t| - 1];
    if IsSubseq(s, u) {
      SubseqFront(s, u);
    }
  }

  /** Deleting a stretch from the middle of a subsequence leaves a subsequence. */
  lemma {:induction false} SubseqDelete<T(!new)>(a: seq<T>, b: seq<T>, c: seq<T>, t: seq<T>)
    requires IsSubseq(a + b + c, t)
    ensures IsSubseq(a + c, t)
    decreases |t| + |b|
  {
    var s := a + b + c;
    if b == [] {
      assert s == a + c;
    } else if c == [] {
      SubseqFront(s, t);
      assert s[..|s| - 1] == a + b[..|b| - 1] + c;
      SubseqDelete(a, b[..|b| - 1], c, t);
    } else {
      var u, d := t[..|t| - 1], c[..|c| - 1];
      if IsSubseq(s, u) {
        SubseqDelete(a, b, c, u);
      } else {
        assert s[..|s| - 1] == a + b + d;
        SubseqDelete(a, b, d, u);
        assert (a + c)[..|a + c| - 1] == a + d;
      }
    }
  }

  /** The elements of s satisfying p, in order. */
  ghost function Keep<T(!new)>(s: seq<T>, p: T -> bool): seq<T>
    decreases |s|
  {
    if s == [] then []
    else
      var front := Keep(s[..|s| - 1], p);
      if p(s[|s| - 1]) then front + [s[|s| - 1]] else front
  }

  /** Order survives selection. */
  lemma {:induction false} SubseqKeep<T(!new)>(s: seq<T>, t: seq<T>, p: T -> bool)
    requires IsSubseq(s, t)
    ensures IsSubseq(Keep(s, p), Keep(t, p))
    decreases |t|
  {
    if s != [] {
      var u := t[..|t| - 1];
      if IsSubseq(s, u) {
        SubseqKeep(s, u, p);
        if p(t[|t| - 1]) {
          assert Keep(t, p)[..|Keep(u, p)|] == Keep(u, p);
        }
      } else {
        SubseqKeep(s[..|s| - 1], u, p);
        if p(t[|t| - 1]) {
          SubseqAppend(Keep(s[..|s| - 1], p), Keep(u, p), t[|t| - 1]);
        }
      }
    }
  }
}
