/** Small vocabulary shared by the other modules. */
module Prelude {

  datatype Option<+T> = None | Some(value: T)
  {
    function GetOr(default: T): T {
      if Some? then value else default
    }
  }

  function Min(a: int, b: int): int { if a < b then a else b }

  function Max(a: int, b: int): int { if a < b then b else a }

  function LowerChar(c: char): char {
    if 'A' <= c <= 'Z' then c - 'A' + 'a' else c
  }

  function TrimStart(isSpace: char -> bool, s: string): string {
    if s != "" && isSpace(s[0]) then TrimStart(isSpace, s[1..]) else s
  }

  function TrimEnd(isSpace: char -> bool, s: string): string {
    if s != "" && isSpace(s[|s| - 1]) then TrimEnd(isSpace, s[..|s| - 1]) else s
  }

  /** The positions `at`, in increasing order, are exactly those whose element is to be kept. */
  ghost predicate Selects<T(!new)>(xs: seq<T>, keep: T -> bool, at: seq<nat>) {
    && (forall i, j :: 0 <= i < j < |at| ==> at[i] < at[j])
    && (forall k :: k in at <==> 0 <= k < |xs| && keep(xs[k]))
  }

  lemma SelectsMore<T(!new)>(xs: seq<T>, keep: T -> bool, at: seq<nat>, x: T)
    requires Selects(xs, keep, at)
    ensures Selects(xs + [x], keep, if keep(x) then at + [|xs|] else at)
  {
    assert forall k :: k in at ==> k < |xs|;
    forall i | 0 <= i < |at| ensures at[i] < |xs| {
      assert at[i] in at;
    }
  }

  /** No value occurs twice in `s`. */
  ghost predicate NoDup<T>(s: seq<T>) {
    forall i, j :: 0 <= i < j < |s| ==> s[i] != s[j]
  }

  /** The values that occur in `s`. */
  ghost function ToSet<T>(s: seq<T>): set<T> {
    set x | x in s
  }

  /** A sequence without repetitions has as many elements as values. */
  lemma {:induction false} NoDupCardinality<T>(s: seq<T>)
    requires NoDup(s)
    ensures |ToSet(s)| == |s|
  {
    if s != [] {
      var front := s[..|s| - 1];
      NoDupCardinality(front);
      assert s == front + [s[|s| - 1]];
      assert ToSet(s) == ToSet(front) + {s[|s| - 1]};
    }
  }

  lemma DisjointUnion<T>(a: set<T>, b: set<T>)
    requires a !! b
    ensures |a + b| == |a| + |b|
  {
  }

  lemma {:induction false} SubsetCardinality<T>(a: set<T>, b: set<T>)
    requires a <= b
    ensures |a| <= |b|
  {
    if a != {} {
      var x :| x in a;
      SubsetCardinality(a - {x}, b - {x});
    }
  }

  /** The sum of `f` over a list. */
  function Sum<T>(xs: seq<T>, f: T -> int): int {
    if xs == [] then 0 else Sum(xs[..|xs| - 1], f) + f(xs[|xs| - 1])
  }

  lemma {:induction false} SumSame<T>(xs: seq<T>, f: T -> int, g: T -> int)
    requires forall x :: x in xs ==> f(x) == g(x)
    ensures Sum(xs, f) == Sum(xs, g)
  {
    if xs != [] {
      SumSame(xs[..|xs| - 1], f, g);
    }
  }

  /** Functions that differ by `d` at one element of a list without repetitions. */
  lemma {:induction false} SumBump<T>(xs: seq<T>, f: T -> int, g: T -> int, k: nat, d: int)
    requires NoDup(xs) && k < |xs| && g(xs[k]) == f(xs[k]) + d
    requires forall x :: x in xs && x != xs[k] ==> g(x) == f(x)
    ensures Sum(xs, g) == Sum(xs, f) + d
  {
    var front := xs[..|xs| - 1];
    if k == |xs| - 1 {
      forall x | x in front ensures f(x) == g(x) {
        var i :| 0 <= i < |front| && front[i] == x;
        assert xs[i] != xs[k];
      }
      SumSame(front, f, g);
    } else {
      SumBump(front, f, g, k, d);
    }
  }

  lemma {:induction false} SumRemove<T>(xs: seq<T>, k: nat, f: T -> int)
    requires k < |xs|
    ensures Sum(xs, f) == Sum(xs[..k] + xs[k + 1..], f) + f(xs[k])
  {
    var front := xs[..|xs| - 1];
    if k == |xs| - 1 {
      assert xs[..k] + xs[k + 1..] == front;
    } else {
      SumRemove(front, k, f);
      var rest := xs[..k] + xs[k + 1..];
      assert rest[..|rest| - 1] == front[..k] + front[k + 1..];
    }
  }

  /** The order of a list without repetitions does not matter to its sum. */
  lemma {:induction false} SumOrder<T>(xs: seq<T>, ys: seq<T>, f: T -> int)
    requires NoDup(xs) && NoDup(ys) && ToSet(xs) == ToSet(ys)
    ensures Sum(xs, f) == Sum(ys, f)
    decreases |xs|
  {
    NoDupCardinality(xs);
    NoDupCardinality(ys);
    if xs != [] {
      var front, x := xs[..|xs| - 1], xs[|xs| - 1];
      assert x in ToSet(ys);
      var k :| 0 <= k < |ys| && ys[k] == x;
      var rest := ys[..k] + ys[k + 1..];
      SumRemove(ys, k, f);
      assert ToSet(front) == ToSet(xs) - {x};
      assert ToSet(rest) == ToSet(ys) - {x};
      SumOrder(front, rest, f);
    }
  }

  /** Nor does it matter by which of two equal functions the elements are summed. */
  lemma SumAlike<T>(xs: seq<T>, ys: seq<T>, f: T -> int, g: T -> int)
    requires NoDup(xs) && NoDup(ys) && ToSet(xs) == ToSet(ys)
    requires forall y :: y in ys ==> f(y) == g(y)
    ensures Sum(xs, f) == Sum(ys, g)
  {
    SumOrder(xs, ys, f);
    SumSame(ys, f, g);
  }

  lemma {:induction false} SumBound<T>(xs: seq<T>, f: T -> int, g: T -> int)
    requires forall x :: x in xs ==> f(x) <= g(x)
    ensures Sum(xs, f) <= Sum(xs, g)
  {
    if xs != [] {
      SumBound(xs[..|xs| - 1], f, g);
    }
  }

  lemma Snoc<T>(s: seq<T>)
    requires s != []
    ensures s[..|s| - 1] + [s[|s| - 1]] == s
  {
  }

  /** A number that is not in use, as random ids are. */
  lemma {:induction false} Unused(used: set<nat>) returns (n: nat)
    ensures n !in used && forall x :: x in used ==> x < n
  {
    if used == {} {
      n := 0;
    } else {
      var x :| x in used;
      n := Unused(used - {x});
      assert forall y :: y in used && y != x ==> y in used - {x};
      n := if x < n then n else x + 1;
    }
  }

  lemma Assoc<T>(a: seq<T>, b: seq<T>, c: seq<T>)
    ensures (a + b) + c == a + (b + c)
  {
  }
}
