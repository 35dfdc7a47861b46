/** Instants that keep a minimum distance, and how many of them fit into a window. */
module Spacing {
  /** Consecutive instants are at least `gap` apart. */
  ghost predicate Spaced(s: seq<int>, gap: int) {
    forall i :: 0 < i < |s| ==> s[i] - s[i - 1] >= gap
  }

  /** How many instants lie in [a, b]. */
  function CountIn(s: seq<int>, a: int, b: int): nat {
    if s == [] then 0
    else CountIn(s[..|s| - 1], a, b) + (if a <= s[|s| - 1] <= b then 1 else 0)
  }

  lemma {:induction false} LastIsLatest(s: seq<int>, gap: int)
    requires gap > 0 && Spaced(s, gap) && s != []
    ensures forall k :: 0 <= k < |s| - 1 ==> s[k] <= s[|s| - 1] - gap
  {
    if |s| > 1 {
      var front := s[..|s| - 1];
      LastIsLatest(front, gap);
      assert forall k :: 0 <= k < |front| ==> s[k] == front[k];
    }
  }

  /** Instants up to `m` do not tell apart window ends from `m` on. */
  lemma {:induction false} CountSame(s: seq<int>, a: int, b: int, m: int)
    requires m <= b && forall k :: 0 <= k < |s| ==> s[k] <= m
    ensures CountIn(s, a, b) == CountIn(s, a, m) && (m < a ==> CountIn(s, a, b) == 0)
  {
    if s != [] {
      CountSame(s[..|s| - 1], a, b, m);
    }
  }

  /** The least distance between the first and the last of `n` instants. */
  function Span(n: nat, gap: nat): nat {
    if n <= 1 then 0 else Span(n - 1, gap) + gap
  }

  lemma {:induction false} WindowSpan(s: seq<int>, gap: nat, a: int, b: int)
    requires gap > 0 && Spaced(s, gap) && a <= b
    ensures Span(CountIn(s, a, b), gap) <= b - a
  {
    if s != [] {
      var front, last := s[..|s| - 1], s[|s| - 1];
      LastIsLatest(s, gap);
      if last > b {
        WindowSpan(front, gap, a, b);
      } else {
        CountSame(front, a, b, last - gap);
        if last - gap >= a {
          WindowSpan(front, gap, a, last - gap);
        }
      }
    }
  }

  lemma {:induction false} SpanIsProduct(n: nat, gap: nat)
    ensures n > 0 ==> Span(n, gap) == (n - 1) * gap
  {
    if n > 1 {
      SpanIsProduct(n - 1, gap);
    }
  }

  /** At most floor(width / gap) + 1 instants fit into a closed window. */
  lemma WindowCount(s: seq<int>, gap: nat, a: int, width: nat)
    requires gap > 0 && Spaced(s, gap)
    ensures CountIn(s, a, a + width) <= width / gap + 1
  {
    var n := CountIn(s, a, a + width);
    WindowSpan(s, gap, a, a + width);
    SpanIsProduct(n, gap);
    if n > 0 {
      QuotientBound(n - 1, width, gap);
    }
  }

  lemma QuotientBound(n: int, width: int, gap: int)
    requires gap > 0 && n * gap <= width
    ensures n <= width / gap
  {
    assert width == width / gap * gap + width % gap;
    MulOrder(n, width / gap, gap);
  }

  lemma MulOrder(p: int, q: int, gap: int)
    requires gap > 0 && p * gap < (q + 1) * gap
    ensures p <= q
  {
  }
}
