/**
 * What a crawl without a page limit would find, defined twice: level by level in the order
 * of discovery (the simple form of the loop in src/siteCrawler.js) and as sets of keys at a
 * link distance. The lemmas connect the two.
 */
module CrawlGraph {
  import opened Prelude
  import opened Robots

  /**
   * A site as the crawler sees it. A node is a visited-set key. `links(k)` is what
   * normalizeUrl makes of the raw links of the page behind `k`; None is its null.
   */
  datatype Site = Site(
    seed: string,
    links: string -> seq<Option<string>>,
    sitemap: seq<Option<string>>)
  {
    /** Sitemap URLs are folded in as extra links of the seed. */
    function Edges(k: string): seq<Option<string>> {
      links(k) + (if k == seed then sitemap else [])
    }
  }

  /** A fetched page with the depth recorded for it. */
  datatype Visit = Visit(key: string, depth: nat)

  // ---------------------------------------------------------------- order of discovery

  datatype Sifted = Sifted(order: seq<string>, seen: set<string>)

  /** One addCandidate call, without the cap on the pending level. */
  function Admit(f: Filters, c: Option<string>, s: Sifted): Sifted {
    if c.None? || c.value in s.seen || !f.Relevant(c.value) then s
    else Sifted(if f.Blocked(c.value) then s.order else s.order + [c.value], s.seen + {c.value})
  }

  function Sift(f: Filters, cands: seq<Option<string>>, seen: set<string>): Sifted {
    if cands == [] then Sifted([], seen)
    else Admit(f, cands[|cands| - 1], Sift(f, cands[..|cands| - 1], seen))
  }

  function Candidates(site: Site, level: seq<string>): seq<Option<string>> {
    if level == [] then []
    else Candidates(site, level[..|level| - 1]) + site.Edges(level[|level| - 1])
  }

  /** Level `d` in order of discovery, and all keys seen once it is built. */
  function Frontier(site: Site, f: Filters, d: nat): Sifted {
    if d == 0 then Sifted([site.seed], {site.seed})
    else
      var p := Frontier(site, f, d - 1);
      Sift(f, Candidates(site, p.order), p.seen)
  }

  function At(level: seq<string>, d: nat): (r: seq<Visit>)
    ensures |r| == |level| && forall i :: 0 <= i < |level| ==> r[i] == Visit(level[i], d)
  {
    seq(|level|, i requires 0 <= i < |level| => Visit(level[i], d))
  }

  /** The pages of levels 0 to n-1, in the order an unlimited crawl fetches them. */
  function Order(site: Site, f: Filters, n: nat): seq<Visit> {
    if n == 0 then []
    else Order(site, f, n - 1) + At(Frontier(site, f, n - 1).order, n - 1)
  }

  // ---------------------------------------------------------------- sets at a distance

  ghost function KeysOf(cands: seq<Option<string>>): set<string> {
    set c | c in cands && c.Some? :: c.value
  }

  /** Keys linked from some page of `pages`. */
  ghost function Linked(site: Site, pages: set<string>): set<string> {
    set p, k | p in pages && k in KeysOf(site.Edges(p)) :: k
  }

  ghost function Eligibles(f: Filters, keys: set<string>): set<string> {
    set k | k in keys && f.Eligible(k)
  }

  ghost function Relevants(f: Filters, keys: set<string>): set<string> {
    set k | k in keys && f.Relevant(k)
  }

  /** Keys within `d` eligible links of the seed. */
  ghost function Within(site: Site, f: Filters, d: nat): set<string> {
    if d == 0 then {site.seed}
    else Within(site, f, d - 1) + Eligibles(f, Linked(site, Within(site, f, d - 1)))
  }

  /** Keys a crawl to distance `d` comes across, those barred by robots.txt included. */
  ghost function Known(site: Site, f: Filters, d: nat): set<string> {
    if d == 0 then {site.seed}
    else {site.seed} + Relevants(f, Linked(site, Within(site, f, d - 1)))
  }

  /** An eligible link path from the seed to `k`: the independent meaning of distance. */
  ghost predicate Path(site: Site, f: Filters, p: seq<string>, k: string) {
    && p != [] && p[0] == site.seed && p[|p| - 1] == k
    && forall i :: 1 <= i < |p| ==> p[i] in KeysOf(site.Edges(p[i - 1])) && f.Eligible(p[i])
  }

  // ---------------------------------------------------------------- lemmas about sifting

  lemma KeysOfAppend(a: seq<Option<string>>, b: seq<Option<string>>)
    ensures KeysOf(a + b) == KeysOf(a) + KeysOf(b)
  {
  }

  /** Sifting keeps each new relevant key once, and orders those robots.txt does not bar. */
  lemma {:induction false} SiftMeaning(f: Filters, cands: seq<Option<string>>, seen: set<string>)
    ensures Sift(f, cands, seen).seen == seen + Relevants(f, KeysOf(cands))
    ensures NoDup(Sift(f, cands, seen).order)
    ensures ToSet(Sift(f, cands, seen).order) == Eligibles(f, KeysOf(cands)) - seen
  {
    if cands != [] {
      var front, c := cands[..|cands| - 1], cands[|cands| - 1];
      SiftMeaning(f, front, seen);
      assert cands == front + [c];
      KeysOfAppend(front, [c]);
      var s := Sift(f, front, seen);
      if c.Some? {
        assert c in cands && KeysOf(cands) == KeysOf(front) + {c.value};
        if c.value !in s.seen && f.Relevant(c.value) && !f.Blocked(c.value) {
          assert c.value !in ToSet(s.order);
          assert ToSet(s.order + [c.value]) == ToSet(s.order) + {c.value};
        }
      } else {
        assert KeysOf(cands) == KeysOf(front);
      }
    } else {
      assert KeysOf(cands) == {};
    }
  }

  lemma {:induction false} SiftGrows(f: Filters, a: seq<Option<string>>, b: seq<Option<string>>, seen: set<string>)
    ensures Sift(f, a, seen).order <= Sift(f, a + b, seen).order
  {
    if b == [] {
      assert a + b == a;
    } else {
      assert (a + b)[..|a + b| - 1] == a + b[..|b| - 1];
      SiftGrows(f, a, b[..|b| - 1], seen);
    }
  }

  /** The seed is seen from the start, so no later level has it. */
  lemma {:induction false} SeedIsSeen(site: Site, f: Filters, d: nat)
    ensures site.seed in Frontier(site, f, d).seen
  {
    if d > 0 {
      SeedIsSeen(site, f, d - 1);
      var p := Frontier(site, f, d - 1);
      SiftMeaning(f, Candidates(site, p.order), p.seen);
    }
  }

  lemma SeedComesFirst(site: Site, f: Filters, d: nat)
    requires d > 0
    ensures site.seed !in Frontier(site, f, d).order
  {
    SeedIsSeen(site, f, d - 1);
    var p := Frontier(site, f, d - 1);
    SiftMeaning(f, Candidates(site, p.order), p.seen);
    assert site.seed !in ToSet(Sift(f, Candidates(site, p.order), p.seen).order);
  }

  lemma {:induction false} CandidateKeys(site: Site, level: seq<string>)
    ensures KeysOf(Candidates(site, level)) == Linked(site, ToSet(level))
  {
    if level != [] {
      var front, p := level[..|level| - 1], level[|level| - 1];
      CandidateKeys(site, front);
      KeysOfAppend(Candidates(site, front), site.Edges(p));
      assert level == front + [p];
      assert ToSet(level) == ToSet(front) + {p};
    }
  }

  // ---------------------------------------------------------------- levels and distances

  lemma WithinFacts(site: Site, f: Filters, d: nat)
    ensures site.seed in Within(site, f, d)
    ensures Within(site, f, d) <= Known(site, f, d)
    ensures forall k :: k in Known(site, f, d) && (k == site.seed || !f.Blocked(k)) ==> k in Within(site, f, d)
    ensures forall k :: k in Within(site, f, d) && k != site.seed ==> f.Eligible(k)
  {
    WithinIsKnown(site, f, d);
    KnownIsWithin(site, f, d);
    WithinIsEligible(site, f, d);
  }

  lemma {:induction false} WithinIsKnown(site: Site, f: Filters, d: nat)
    ensures Within(site, f, d) <= Known(site, f, d)
  {
    if d > 0 {
      WithinIsKnown(site, f, d - 1);
      LinkedMonotone(site, f, d - 1);
      EligibleIsRelevant(f, site.seed, Within(site, f, d - 1), Linked(site, Within(site, f, d - 1)));
    }
  }

  lemma EligibleIsRelevant(f: Filters, seed: string, within: set<string>, found: set<string>)
    requires within <= {seed} + Relevants(f, found)
    ensures within + Eligibles(f, found) <= {seed} + Relevants(f, found)
  {
  }

  lemma {:induction false} WithinIsEligible(site: Site, f: Filters, d: nat)
    ensures site.seed in Within(site, f, d)
    ensures forall k :: k in Within(site, f, d) && k != site.seed ==> f.Eligible(k)
  {
    if d > 0 {
      WithinIsEligible(site, f, d - 1);
    }
  }

  lemma {:induction false} KnownIsWithin(site: Site, f: Filters, d: nat)
    ensures forall k :: k in Known(site, f, d) && (k == site.seed || !f.Blocked(k)) ==> k in Within(site, f, d)
  {
    if d > 0 {
      KnownIsWithin(site, f, d - 1);
    }
  }

  lemma {:induction false} LinkedMonotone(site: Site, f: Filters, d: nat)
    ensures Known(site, f, d) <= Known(site, f, d + 1)
  {
    if d > 0 {
      assert Within(site, f, d - 1) <= Within(site, f, d);
      assert Linked(site, Within(site, f, d - 1)) <= Linked(site, Within(site, f, d));
    }
  }

  ghost function Level(site: Site, f: Filters, d: nat): set<string> {
    if d == 0 then {site.seed} else Within(site, f, d) - Within(site, f, d - 1)
  }

  /** Level `d` holds exactly the keys at distance `d`, each once. */
  lemma {:induction false} FrontierIsLevel(site: Site, f: Filters, d: nat)
    ensures NoDup(Frontier(site, f, d).order)
    ensures ToSet(Frontier(site, f, d).order) == Level(site, f, d)
    ensures Frontier(site, f, d).seen == Known(site, f, d)
  {
    if d > 0 {
      FrontierIsLevel(site, f, d - 1);
      FrontierStep(site, f, d, Frontier(site, f, d - 1));
    }
  }

  lemma FrontierStep(site: Site, f: Filters, d: nat, p: Sifted)
    requires d > 0 && ToSet(p.order) == Level(site, f, d - 1) && p.seen == Known(site, f, d - 1)
    ensures var s := Sift(f, Candidates(site, p.order), p.seen);
            NoDup(s.order) && ToSet(s.order) == Level(site, f, d) && s.seen == Known(site, f, d)
  {
    SiftMeaning(f, Candidates(site, p.order), p.seen);
    CandidateKeys(site, p.order);
    NextLevelSets(site, f, d);
  }

  /** Following only the links of level `d - 1` misses nothing. */
  lemma NextLevelSets(site: Site, f: Filters, d: nat)
    requires d > 0
    ensures var found := Linked(site, Level(site, f, d - 1));
            && Known(site, f, d - 1) + Relevants(f, found) == Known(site, f, d)
            && Eligibles(f, found) - Known(site, f, d - 1) == Level(site, f, d)
  {
    WithinFacts(site, f, d - 1);
    var w := Within(site, f, d - 1);
    if d > 1 {
      var v := Within(site, f, d - 2);
      assert v + Level(site, f, d - 1) == w;
      LinkedSplit(site, v, Level(site, f, d - 1));
      assert Relevants(f, Linked(site, v)) <= Known(site, f, d - 1);
      assert Eligibles(f, Linked(site, v)) <= w;
    } else {
      assert Level(site, f, d - 1) == w;
    }
  }

  lemma LinkedSplit(site: Site, a: set<string>, b: set<string>)
    ensures Linked(site, a + b) == Linked(site, a) + Linked(site, b)
  {
  }

  ghost function Keys(o: seq<Visit>): set<string> {
    set v | v in o :: v.key
  }

  lemma KeysAt(level: seq<string>, d: nat)
    ensures Keys(At(level, d)) == ToSet(level)
  {
    forall k | k in level ensures k in Keys(At(level, d)) {
      var i :| 0 <= i < |level| && level[i] == k;
      assert At(level, d)[i] in At(level, d);
    }
  }

  lemma KeysAppend(a: seq<Visit>, b: seq<Visit>)
    ensures Keys(a + b) == Keys(a) + Keys(b)
  {
  }

  /** The keys at distance less than `n`. */
  ghost function Before(site: Site, f: Filters, n: nat): set<string> {
    if n == 0 then {} else Within(site, f, n - 1)
  }

  lemma BeforeStep(site: Site, f: Filters, n: nat)
    ensures Before(site, f, n + 1) == Before(site, f, n) + Level(site, f, n)
    ensures Before(site, f, n) !! Level(site, f, n)
  {
  }

  /** The unlimited order lists exactly the keys at distance less than `n` ... */
  lemma {:induction false} OrderKeys(site: Site, f: Filters, n: nat)
    ensures Keys(Order(site, f, n)) == Before(site, f, n)
  {
    if n > 0 {
      OrderKeys(site, f, n - 1);
      OrderStep(site, f, n - 1);
    }
  }

  lemma OrderStep(site: Site, f: Filters, n: nat)
    requires Keys(Order(site, f, n)) == Before(site, f, n)
    ensures Keys(Order(site, f, n + 1)) == Before(site, f, n + 1)
    ensures Keys(Order(site, f, n)) !! ToSet(Frontier(site, f, n).order)
  {
    var l := Frontier(site, f, n).order;
    FrontierIsLevel(site, f, n);
    BeforeStep(site, f, n);
    KeysAt(l, n);
    KeysAppend(Order(site, f, n), At(l, n));
  }

  /** ... each at its distance ... */
  lemma {:induction false} OrderDepths(site: Site, f: Filters, n: nat, v: Visit)
    requires v in Order(site, f, n)
    ensures v.depth < n && v.key in Level(site, f, v.depth)
  {
    if v in Order(site, f, n - 1) {
      OrderDepths(site, f, n - 1, v);
    } else {
      FrontierIsLevel(site, f, n - 1);
      assert v.key in ToSet(Frontier(site, f, n - 1).order);
    }
  }

  /** ... and once. */
  lemma {:induction false} OrderCount(site: Site, f: Filters, n: nat)
    ensures |Order(site, f, n)| == |Before(site, f, n)|
  {
    if n > 0 {
      OrderCount(site, f, n - 1);
      CountStep(site, f, n - 1);
    }
  }

  lemma CountStep(site: Site, f: Filters, n: nat)
    requires |Order(site, f, n)| == |Before(site, f, n)|
    ensures |Order(site, f, n + 1)| == |Before(site, f, n + 1)|
  {
    FrontierIsLevel(site, f, n);
    NoDupCardinality(Frontier(site, f, n).order);
    BeforeStep(site, f, n);
    DisjointUnion(Before(site, f, n), Level(site, f, n));
  }

  ghost predicate DistinctKeys(o: seq<Visit>) {
    forall i, j :: 0 <= i < j < |o| ==> o[i].key != o[j].key
  }

  /** A list of visits with as many keys as entries repeats no key. */
  lemma {:induction false} CountMeansDistinct(o: seq<Visit>)
    ensures |Keys(o)| <= |o|
    ensures |Keys(o)| == |o| ==> DistinctKeys(o)
  {
    if o != [] {
      var front, last := o[..|o| - 1], o[|o| - 1];
      CountMeansDistinct(front);
      LastKey(front, last);
      assert o == front + [last];
    }
  }

  lemma LastKey(front: seq<Visit>, last: Visit)
    ensures last.key in Keys(front) ==> Keys(front + [last]) == Keys(front)
    ensures last.key !in Keys(front) ==> |Keys(front + [last])| == |Keys(front)| + 1
    ensures last.key !in Keys(front) && DistinctKeys(front) ==> DistinctKeys(front + [last])
  {
    KeysAppend(front, [last]);
    assert Keys([last]) == {last.key};
    assert forall i :: 0 <= i < |front| ==> front[i] in front && front[i].key in Keys(front);
  }

  lemma OrderDistinct(site: Site, f: Filters, n: nat)
    ensures DistinctKeys(Order(site, f, n))
  {
    OrderKeys(site, f, n);
    OrderCount(site, f, n);
    CountMeansDistinct(Order(site, f, n));
  }

  /** Distance means what it should: within `d` iff some eligible path has at most `d` links. */
  lemma {:induction false} WithinIsPath(site: Site, f: Filters, d: nat, k: string)
    ensures k in Within(site, f, d) <==> exists p :: Path(site, f, p, k) && |p| <= d + 1
  {
    if k in Within(site, f, d) {
      var p := PathTo(site, f, d, k);
    }
    forall p | Path(site, f, p, k) && |p| <= d + 1
      ensures k in Within(site, f, d)
    {
      PathStaysWithin(site, f, d, p, k);
    }
  }

  lemma {:induction false} PathTo(site: Site, f: Filters, d: nat, k: string) returns (p: seq<string>)
    requires k in Within(site, f, d)
    ensures Path(site, f, p, k) && |p| <= d + 1
  {
    if d == 0 {
      p := [k];
    } else if k in Within(site, f, d - 1) {
      p := PathTo(site, f, d - 1, k);
    } else {
      var q :| q in Within(site, f, d - 1) && k in KeysOf(site.Edges(q));
      p := PathTo(site, f, d - 1, q);
      p := p + [k];
    }
  }

  lemma {:induction false} PathStaysWithin(site: Site, f: Filters, d: nat, p: seq<string>, k: string)
    requires Path(site, f, p, k) && |p| <= d + 1
    ensures k in Within(site, f, d)
  {
    if |p| == 1 {
      WithinFacts(site, f, d);
    } else {
      PathStaysWithin(site, f, d - 1, p[..|p| - 1], p[|p| - 2]);
      assert p[|p| - 1] in KeysOf(site.Edges(p[|p| - 2]));
      assert k in Linked(site, Within(site, f, d - 1));
    }
  }

  /** Once a level is empty, so is every later one. */
  lemma {:induction false} EmptyLevelEnds(site: Site, f: Filters, d: nat, n: nat)
    requires d <= n && Frontier(site, f, d).order == []
    ensures Order(site, f, n) == Order(site, f, d)
    ensures Frontier(site, f, n) == Frontier(site, f, d)
    decreases n - d
  {
    if d < n {
      EmptyLevelEnds(site, f, d, n - 1);
    }
  }

  lemma {:induction false} OrderPrefix(site: Site, f: Filters, d: nat, n: nat)
    requires d <= n
    ensures Order(site, f, d) <= Order(site, f, n)
    decreases n - d
  {
    if d < n {
      OrderPrefix(site, f, d, n - 1);
      PrefixAppend(Order(site, f, d), Order(site, f, n - 1), At(Frontier(site, f, n - 1).order, n - 1));
    }
  }

  lemma PrefixAppend<T>(a: seq<T>, b: seq<T>, c: seq<T>)
    requires a <= b
    ensures a <= b + c
  {
  }

  lemma {:induction false} KnownMonotone(site: Site, f: Filters, d: nat, n: nat)
    requires d <= n
    ensures Known(site, f, d) <= Known(site, f, n)
    decreases n - d
  {
    if d < n {
      KnownMonotone(site, f, d, n - 1);
      LinkedMonotone(site, f, n - 1);
    }
  }
}
