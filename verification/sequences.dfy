/** Order-preserving removal of every occurrence of one value from a sequence.
    This is the `forEach` + `if` + `push` pattern of the pin model: removing a
    path keeps the entries `!== path`, and building the view keeps the entries
    that are truthy, which for strings means the entries `!== ""`. */
module Sequences {

  /** The entries of `s` that differ from `v`, in their original order. */
  function Without<T(==,!new)>(s: seq<T>, v: T): (r: seq<T>)
    ensures |r| <= |s|
    ensures v !in r
    ensures forall x :: x in r <==> x in s && x != v
  {
    if |s| == 0 then []
    else Without(s[..|s| - 1], v) + (if s[|s| - 1] == v then [] else [s[|s| - 1]])
  }

  /** Appending one entry: it survives exactly when it differs from `v`. */
  lemma WithoutSnoc<T(!new)>(s: seq<T>, x: T, v: T)
    ensures Without(s + [x], v) == Without(s, v) + (if x == v then [] else [x])
  {
    assert (s + [x])[..|s|] == s;
  }

  /** Removal distributes over concatenation, so the relative order of the
      kept entries is the order they had in `s`. */
  lemma {:induction false} WithoutConcat<T(!new)>(a: seq<T>, b: seq<T>, v: T)
    ensures Without(a + b, v) == Without(a, v) + Without(b, v)
    decreases |b|
  {
    if |b| == 0 {
      assert a + b == a;
    } else {
      var b', x := b[..|b| - 1], b[|b| - 1];
      var kept := if x == v then [] else [x];
      assert b == b' + [x];
      assert a + b == (a + b') + [x];
      WithoutConcat(a, b', v);
      WithoutSnoc(a + b', x, v);
      WithoutSnoc(b', x, v);
      var wa, wb' := Without(a, v), Without(b', v);
      assert (wa + wb') + kept == wa + (wb' + kept);
    }
  }

  /** Every value other than `v` keeps its multiplicity (duplicates are kept);
      `v` itself is gone. */
  lemma {:induction false} WithoutCount<T(!new)>(s: seq<T>, v: T)
    ensures multiset(Without(s, v)) == multiset(s)[v := 0]
    decreases |s|
  {
    if |s| == 0 {
    } else {
      var s' := s[..|s| - 1];
      var x := s[|s| - 1];
      assert s == s' + [x];
      WithoutCount(s', v);
      WithoutSnoc(s', x, v);
      assert multiset(s) == multiset(s') + multiset{x};
    }
  }

  /** The number of kept entries is the length minus the occurrences of `v`. */
  lemma {:induction false} WithoutLength<T(!new)>(s: seq<T>, v: T)
    ensures |Without(s, v)| == |s| - multiset(s)[v]
    decreases |s|
  {
    if |s| == 0 {
    } else {
      var s' := s[..|s| - 1];
      var x := s[|s| - 1];
      assert s == s' + [x];
      WithoutLength(s', v);
      WithoutSnoc(s', x, v);
      assert multiset(s) == multiset(s') + multiset{x};
    }
  }

  /** Removing a value that does not occur changes nothing. */
  lemma {:induction false} WithoutAbsent<T(!new)>(s: seq<T>, v: T)
    requires v !in s
    ensures Without(s, v) == s
    decreases |s|
  {
    if |s| == 0 {
    } else {
      var s' := s[..|s| - 1];
      assert s == s' + [s[|s| - 1]];
      assert v !in s';
      WithoutAbsent(s', v);
    }
  }

  /** Removing twice is removing once. */
  lemma WithoutIdempotent<T(!new)>(s: seq<T>, v: T)
    ensures Without(Without(s, v), v) == Without(s, v)
  {
    WithoutAbsent(Without(s, v), v);
  }

  /** Removals of two values can be done in either order. */
  lemma {:induction false} WithoutCommute<T(!new)>(s: seq<T>, a: T, b: T)
    ensures Without(Without(s, a), b) == Without(Without(s, b), a)
    decreases |s|
  {
    if |s| == 0 {
    } else {
      var s' := s[..|s| - 1];
      var x := s[|s| - 1];
      assert s == s' + [x];
      WithoutCommute(s', a, b);
      WithoutSnoc(s', x, a);
      WithoutSnoc(s', x, b);
      var sa, sb := Without(s', a), Without(s', b);
      if x == a {
        assert Without(s, a) == sa;
      } else {
        assert Without(s, a) == sa + [x];
        WithoutSnoc(sa, x, b);
      }
      if x == b {
        assert Without(s, b) == sb;
      } else {
        assert Without(s, b) == sb + [x];
        WithoutSnoc(sb, x, a);
      }
    }
  }

  /** `t` is `s` with some entries deleted, the rest kept in order. */
  predicate Subsequence<T(==)>(t: seq<T>, s: seq<T>)
    decreases |s|
  {
    if |t| == 0 then true
    else if |s| == 0 then false
    else
      || (t[|t| - 1] == s[|s| - 1] && Subsequence(t[..|t| - 1], s[..|s| - 1]))
      || Subsequence(t, s[..|s| - 1])
  }

  /** What removal keeps is a subsequence of what it started from. */
  lemma {:induction false} WithoutSubsequence<T(!new)>(s: seq<T>, v: T)
    ensures Subsequence(Without(s, v), s)
    decreases |s|
  {
    if |s| == 0 {
    } else {
      var s' := s[..|s| - 1];
      var x := s[|s| - 1];
      var w := Without(s', v);
      WithoutSubsequence(s', v);
      if x == v {
        assert Without(s, v) == w;
      } else {
        assert Without(s, v) == w + [x];
        assert (w + [x])[..|w|] == w;
      }
    }
  }
}
