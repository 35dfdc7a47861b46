/**
 * crawlSite of src/siteCrawler.js: the level loop with its page budget, its second cap on
 * the pending level, the global visited set and the truncation flag. Its result is a prefix
 * of the unlimited order of CrawlGraph.
 */
module Crawl {
  import opened Prelude
  import opened Robots
  import opened CrawlGraph
  import opened Concurrency

  datatype Options = Options(maxDepth: int, maxPages: int, concurrency: int, filters: Filters)
  {
    /** The deepest level that can be fetched; the seed is fetched whatever maxDepth says. */
    function Depth(): nat { Max(0, maxDepth) }
  }

  /** What fetchPage hands back, with the depth added by the crawler. */
  datatype Page = Page(key: string, depth: nat, rawLinks: seq<Option<string>>)

  function FetchPage(site: Site, item: Visit): Page {
    Page(item.key, item.depth, site.links(item.key))
  }

  function FetchAll(site: Site, items: seq<Visit>): (r: seq<Page>)
    ensures |r| == |items| && forall i :: 0 <= i < |items| ==> r[i] == FetchPage(site, items[i])
  {
    seq(|items|, i requires 0 <= i < |items| => FetchPage(site, items[i]))
  }

  /** At most the first `m` elements. */
  function Cut<T>(s: seq<T>, m: int): (r: seq<T>)
    ensures r <= s && |r| == Min(Max(m, 0), |s|)
  {
    s[..Min(Max(m, 0), |s|)]
  }

  // ------------------------------------------------------------- building the next level

  /** Keys in `keys` that robots.txt bars, the seed set aside. */
  ghost function BlockedOf(site: Site, f: Filters, keys: set<string>): set<string> {
    set k | k in keys && k != site.seed && f.Blocked(k)
  }

  /**
   * The state of a pending level after the candidates `done`, started from the visited set
   * `seen`: the level is the sifted candidates cut at `cap`, below the cap the visited set is
   * exact, and the counter counts the visited keys that robots.txt bars.
   */
  ghost predicate Building(site: Site, f: Filters, cap: int, done: seq<Option<string>>, seen: set<string>,
                           level: seq<Visit>, depth: nat, visited: set<string>, blocked: nat)
  {
    && 0 < cap && site.seed in seen
    && level == At(Cut(Sift(f, done, seen).order, cap), depth)
    && (|level| < cap ==> visited == Sift(f, done, seen).seen)
    && seen <= visited <= seen + Relevants(f, KeysOf(done))
    && blocked == |BlockedOf(site, f, visited)|
  }

  /** The closure addCandidate. */
  method AddCandidate(site: Site, o: Options, c: Option<string>, depth: nat, level0: seq<Visit>, visited0: set<string>,
                      blocked0: nat, ghost done: seq<Option<string>>, ghost seen: set<string>)
    returns (level: seq<Visit>, visited: set<string>, blocked: nat)
    requires Building(site, o.filters, o.maxPages, done, seen, level0, depth, visited0, blocked0)
    ensures Building(site, o.filters, o.maxPages, done + [c], seen, level, depth, visited, blocked)
  {
    level, visited, blocked := level0, visited0, blocked0;
    SiftSnoc(o.filters, done, c, seen);
    KeysOfAppend(done, [c]);
    if |level| >= o.maxPages { return; }
    if c.None? || c.value == "" { return; }
    if c.value in visited { return; }
    if !o.filters.Passes(c.value) { return; }
    assert c in done + [c] && c.value in KeysOf(done + [c]);
    visited := visited + {c.value};
    if o.filters.Blocked(c.value) {
      assert BlockedOf(site, o.filters, visited) == BlockedOf(site, o.filters, visited0) + {c.value};
      blocked := blocked + 1;
      return;
    }
    assert BlockedOf(site, o.filters, visited) == BlockedOf(site, o.filters, visited0);
    level := level + [Visit(c.value, depth)];
  }

  lemma SiftSnoc(f: Filters, done: seq<Option<string>>, c: Option<string>, seen: set<string>)
    ensures Sift(f, done + [c], seen) == Admit(f, c, Sift(f, done, seen))
  {
    assert (done + [c])[..|done + [c]| - 1] == done;
  }

  /** Once the pending level is full, further candidates change nothing. */
  lemma FullStays(site: Site, f: Filters, cap: int, done: seq<Option<string>>, more: seq<Option<string>>,
                  seen: set<string>,
                  level: seq<Visit>, depth: nat, visited: set<string>, blocked: nat)
    requires Building(site, f, cap, done, seen, level, depth, visited, blocked)
    requires cap <= |level|
    ensures Building(site, f, cap, done + more, seen, level, depth, visited, blocked)
  {
    SiftGrows(f, done, more, seen);
    KeysOfAppend(done, more);
    assert Cut(Sift(f, done + more, seen).order, cap) == Cut(Sift(f, done, seen).order, cap);
  }

  /** One loop over candidates, left as soon as the pending level is full. */
  method AddAll(site: Site, o: Options, cands: seq<Option<string>>, depth: nat, level0: seq<Visit>,
                visited0: set<string>, blocked0: nat, ghost done: seq<Option<string>>, ghost seen: set<string>)
    returns (level: seq<Visit>, visited: set<string>, blocked: nat)
    requires Building(site, o.filters, o.maxPages, done, seen, level0, depth, visited0, blocked0)
    ensures Building(site, o.filters, o.maxPages, done + cands, seen, level, depth, visited, blocked)
  {
    level, visited, blocked := level0, visited0, blocked0;
    assert done + cands[..0] == done;
    for i := 0 to |cands|
      invariant Building(site, o.filters, o.maxPages, done + cands[..i], seen, level, depth, visited, blocked)
    {
      if |level| >= o.maxPages {
        FullStays(site, o.filters, o.maxPages, done + cands[..i], cands[i..], seen, level, depth, visited, blocked);
        assert done + cands[..i] + cands[i..] == done + cands;
        return;
      }
      assert done + cands[..i + 1] == done + cands[..i] + [cands[i]];
      level, visited, blocked :=
        AddCandidate(site, o, cands[i], depth, level, visited, blocked, done + cands[..i], seen);
    }
    assert cands[..|cands|] == cands;
  }

  /** The candidates of the pages' own links, in order. */
  ghost function LinksOf(pages: seq<Page>): seq<Option<string>> {
    if pages == [] then [] else LinksOf(pages[..|pages| - 1]) + pages[|pages| - 1].rawLinks
  }

  /** The loop over the fetched pages of one level. */
  method AddPages(site: Site, o: Options, pages: seq<Page>, depth: nat, visited0: set<string>, blocked0: nat)
    returns (level: seq<Visit>, visited: set<string>, blocked: nat)
    requires forall i :: 0 <= i < |pages| ==> pages[i].depth == depth
    requires Building(site, o.filters, o.maxPages, [], visited0, [], depth + 1, visited0, blocked0)
    ensures depth >= o.Depth() ==> level == [] && visited == visited0 && blocked == blocked0
    ensures depth < o.Depth() ==>
              Building(site, o.filters, o.maxPages, LinksOf(pages), visited0, level, depth + 1, visited, blocked)
  {
    level, visited, blocked := [], visited0, blocked0;
    for i := 0 to |pages|
      invariant depth >= o.Depth() ==> level == [] && visited == visited0 && blocked == blocked0
      invariant depth < o.Depth() ==>
                  Building(site, o.filters, o.maxPages, LinksOf(pages[..i]), visited0,
                           level, depth + 1, visited, blocked)
    {
      var page := pages[i];
      if page.depth >= o.maxDepth { continue; }
      LinksOfPrefix(pages, i);
      if |level| >= o.maxPages {
        ghost var rest := LinksOfRest(pages, i);
        FullStays(site, o.filters, o.maxPages, LinksOf(pages[..i]), rest, visited0, level, depth + 1, visited, blocked);
        return;
      }
      level, visited, blocked :=
        AddAll(site, o, page.rawLinks, page.depth + 1, level, visited, blocked, LinksOf(pages[..i]), visited0);
    }
    assert pages[..|pages|] == pages;
  }

  /** A level as fetched: one depth throughout, and the seed alone at depth 0. */
  ghost predicate OneLevel(site: Site, level: seq<Visit>, depth: nat) {
    && (forall v :: v in level ==> v.depth == depth && (depth == 0 <==> v.key == site.seed))
    && (depth == 0 ==> |level| <= 1)
  }

  lemma LevelDepth(site: Site, level: seq<Visit>, d: nat)
    requires OneLevel(site, level, d)
    ensures forall i :: 0 <= i < |level| ==> FetchAll(site, level)[i].depth == d
  {
    assert forall i :: 0 <= i < |level| ==> level[i] in level;
  }

  /** The part of one iteration that fills nextLevel, sitemap included. */
  method BuildLevel(site: Site, o: Options, ghost fetched: seq<Visit>, ghost d: nat, pages: seq<Page>,
      visited0: set<string>, blocked0: nat)
    returns (level: seq<Visit>, visited: set<string>, blocked: nat)
    requires fetched != [] && pages == FetchAll(site, fetched) && OneLevel(site, fetched, d)
    requires o.maxPages > 0 && site.seed in visited0 && blocked0 == |BlockedOf(site, o.filters, visited0)|
    ensures d >= o.Depth() ==> level == [] && visited == visited0 && blocked == blocked0
    ensures d < o.Depth() ==>
              Building(site, o.filters, o.maxPages, Candidates(site, KeysIn(fetched)), visited0,
                       level, d + 1, visited, blocked)
  {
    var depth := pages[0].depth;
    LevelDepth(site, fetched, d);
    level, visited, blocked := AddPages(site, o, pages, depth, visited0, blocked0);
    CandidatesAreLinks(site, fetched, depth);
    if depth == 0 && |site.sitemap| > 0 && o.maxDepth >= 1 {
      level, visited, blocked := AddAll(site, o, site.sitemap, 1, level, visited, blocked, LinksOf(pages), visited0);
    }
  }

  ghost function KeysIn(level: seq<Visit>): (r: seq<string>)
    ensures |r| == |level| && forall i :: 0 <= i < |level| ==> r[i] == level[i].key
  {
    seq(|level|, i requires 0 <= i < |level| => level[i].key)
  }

  lemma LinksOfPrefix(pages: seq<Page>, i: nat)
    requires i < |pages|
    ensures LinksOf(pages[..i + 1]) == LinksOf(pages[..i]) + pages[i].rawLinks
  {
    assert pages[..i + 1][..i] == pages[..i];
  }

  lemma {:induction false} LinksOfRest(pages: seq<Page>, i: nat) returns (rest: seq<Option<string>>)
    requires i <= |pages|
    ensures LinksOf(pages) == LinksOf(pages[..i]) + rest
    decreases |pages| - i
  {
    if i == |pages| {
      assert pages[..i] == pages;
      rest := [];
    } else {
      LinksOfPrefix(pages, i);
      rest := LinksOfRest(pages, i + 1);
      rest := pages[i].rawLinks + rest;
    }
  }

  /** The seed's edges carry the sitemap; every other page's are its links. */
  lemma {:induction false} CandidatesAreLinks(site: Site, level: seq<Visit>, depth: nat)
    requires OneLevel(site, level, depth)
    ensures Candidates(site, KeysIn(level))
         == if level != [] && depth == 0 && site.sitemap != [] then LinksOf(FetchAll(site, level)) + site.sitemap
            else LinksOf(FetchAll(site, level))
  {
    if level != [] {
      var front, last := level[..|level| - 1], level[|level| - 1];
      assert KeysIn(level)[..|level| - 1] == KeysIn(front);
      assert FetchAll(site, level)[..|level| - 1] == FetchAll(site, front);
      assert last in level && forall v :: v in front ==> v in level;
      CandidatesAreLinks(site, front, depth);
    }
  }

  // ------------------------------------------------------------------------ the level loop

  /** The level waiting to be fetched while nothing has been cut off. */
  function Pending(site: Site, o: Options, d: nat): seq<Visit> {
    if d > o.Depth() then []
    else if d == 0 then [Visit(site.seed, 0)]
    else At(Cut(Frontier(site, o.filters, d).order, o.maxPages), d)
  }

  /** Levels below `d` are fetched in full; level `d` is pending. */
  ghost predicate Exact(site: Site, o: Options, d: nat, fetched: seq<Visit>, level: seq<Visit>, visited: set<string>) {
    && d <= o.Depth() + 1 && (d > 0 ==> o.maxPages > 0)
    && fetched == Order(site, o.filters, d)
    && level == Pending(site, o, d)
    && (d == 0 || |level| < o.maxPages ==> visited == Frontier(site, o.filters, Min(d, o.Depth())).seen)
  }

  /** The budget is spent and at least one more page was in reach. */
  ghost predicate Spent(site: Site, o: Options, d: nat, fetched: seq<Visit>) {
    && d <= o.Depth() + 1
    && 0 <= o.maxPages < |Order(site, o.filters, d)|
    && fetched == Cut(Order(site, o.filters, d), o.maxPages)
  }

  lemma BudgetCuts(site: Site, o: Options, d: nat, fetched: seq<Visit>, level: seq<Visit>, visited: set<string>)
    requires Exact(site, o, d, fetched, level, visited)
    requires 0 < o.maxPages - |fetched| < |level|
    ensures Spent(site, o, d + 1, fetched + level[..o.maxPages - |fetched|])
  {
    assert level <= At(Frontier(site, o.filters, d).order, d);
  }

  lemma LevelComplete(site: Site, o: Options, d: nat, fetched: seq<Visit>, level: seq<Visit>, visited: set<string>)
    requires Exact(site, o, d, fetched, level, visited)
    requires level != [] && |level| <= o.maxPages - |fetched|
    ensures d <= o.Depth() && level == At(Frontier(site, o.filters, d).order, d)
    ensures fetched + level == Order(site, o.filters, d + 1)
    ensures visited == Frontier(site, o.filters, d).seen
  {
    if d > 0 {
      OrderPrefix(site, o.filters, 1, d);
      assert Order(site, o.filters, 1) == [] + At([site.seed], 0);
    }
  }

  lemma PendingIsOneLevel(site: Site, o: Options, d: nat, take: nat)
    requires take <= |Pending(site, o, d)|
    ensures OneLevel(site, Pending(site, o, d)[..take], d)
    ensures ToSet(KeysIn(Pending(site, o, d)[..take])) <= Within(site, o.filters, d)
  {
    PendingKeys(site, o, d);
    var level := Pending(site, o, d);
    assert forall v :: v in level[..take] ==> v in level;
    forall k | k in KeysIn(level[..take]) ensures k in Within(site, o.filters, d) {
      var i :| 0 <= i < take && k == level[i].key;
      assert level[i] in level;
    }
  }

  lemma PendingKeys(site: Site, o: Options, d: nat)
    ensures forall v :: v in Pending(site, o, d) ==>
                          v.depth == d && v.key in Within(site, o.filters, d) && (d == 0 <==> v.key == site.seed)
    ensures d == 0 ==> |Pending(site, o, d)| == 1
  {
    if 0 < d <= o.Depth() {
      FrontierKeys(site, o.filters, d);
      var order := Frontier(site, o.filters, d).order;
      forall v | v in Pending(site, o, d) ensures v.depth == d && v.key in order {
        AtMember(Cut(order, o.maxPages), d, v);
      }
    }
  }

  lemma AtMember(level: seq<string>, d: nat, v: Visit)
    requires v in At(level, d)
    ensures v.depth == d && v.key in level
  {
  }

  lemma FrontierKeys(site: Site, f: Filters, d: nat)
    requires d > 0
    ensures forall k :: k in Frontier(site, f, d).order ==> k in Within(site, f, d) && k != site.seed
  {
    forall k | k in Frontier(site, f, d).order ensures k in Within(site, f, d) && k != site.seed {
      SeedComesFirst(site, f, d);
      FrontierIsLevel(site, f, d);
      assert k in ToSet(Frontier(site, f, d).order);
      LevelIsWithin(site, f, d, k);
    }
  }

  lemma LevelIsWithin(site: Site, f: Filters, d: nat, k: string)
    requires k in Level(site, f, d)
    ensures k in Within(site, f, d)
  {
  }

  /** The visited set never leaves what an unlimited crawl would come across. */
  lemma VisitedIsKnown(site: Site, o: Options, d: nat, keys: seq<string>)
    requires d < o.Depth() && ToSet(keys) <= Within(site, o.filters, d)
    ensures Relevants(o.filters, KeysOf(Candidates(site, keys))) <= Known(site, o.filters, o.Depth())
  {
    CandidateKeys(site, keys);
    KnownMonotone(site, o.filters, d + 1, o.Depth());
    assert Linked(site, ToSet(keys)) <= Linked(site, Within(site, o.filters, d));
  }

  lemma Advance(site: Site, o: Options, d: nat, level: seq<Visit>, next: seq<Visit>, visited0: set<string>,
                visited: set<string>, blocked: nat)
    requires level == At(Frontier(site, o.filters, d).order, d) && visited0 == Frontier(site, o.filters, d).seen
    requires d < o.Depth()
    requires Building(site, o.filters, o.maxPages, Candidates(site, KeysIn(level)), visited0,
                      next, d + 1, visited, blocked)
    ensures Exact(site, o, d + 1, Order(site, o.filters, d + 1), next, visited)
  {
    assert KeysIn(level) == Frontier(site, o.filters, d).order;
  }

  /** A crawl whose pending level ran empty has fetched everything in reach. */
  lemma FinishAll(site: Site, o: Options, d: nat, fetched: seq<Visit>, visited: set<string>)
    requires Exact(site, o, d, fetched, [], visited)
    ensures fetched == Order(site, o.filters, o.Depth() + 1)
    ensures visited == Frontier(site, o.filters, o.Depth()).seen
  {
    if d <= o.Depth() {
      assert Frontier(site, o.filters, d).order == [];
      EmptyLevelEnds(site, o.filters, d, o.Depth());
      EmptyLevelEnds(site, o.filters, d, o.Depth() + 1);
    }
  }

  /** A crawl that stops with a pending level has spent its budget and left something out. */
  lemma FinishCut(site: Site, o: Options, d: nat, fetched: seq<Visit>, level: seq<Visit>, visited: set<string>)
    requires Exact(site, o, d, fetched, level, visited)
    requires level != [] && |fetched| == Max(0, o.maxPages)
    ensures fetched == Cut(Order(site, o.filters, o.Depth() + 1), o.maxPages)
    ensures |Order(site, o.filters, o.Depth() + 1)| > o.maxPages
  {
    LevelIsMore(site, o, d);
    OrderPrefix(site, o.filters, d, o.Depth() + 1);
    OrderPrefix(site, o.filters, d + 1, o.Depth() + 1);
    PrefixIsCut(fetched, Order(site, o.filters, o.Depth() + 1), o.maxPages);
  }

  lemma LevelIsMore(site: Site, o: Options, d: nat)
    requires Pending(site, o, d) != []
    ensures d <= o.Depth() && |Order(site, o.filters, d + 1)| > |Order(site, o.filters, d)|
  {
  }

  lemma PrefixIsCut<T>(a: seq<T>, b: seq<T>, m: int)
    requires a <= b && |a| == Max(0, m)
    ensures a == Cut(b, m)
  {
  }

  lemma FinishSpent(site: Site, o: Options, d: nat, fetched: seq<Visit>)
    requires Spent(site, o, d, fetched)
    ensures fetched == Cut(Order(site, o.filters, o.Depth() + 1), o.maxPages)
    ensures |Order(site, o.filters, o.Depth() + 1)| > o.maxPages
  {
    OrderPrefix(site, o.filters, d, o.Depth() + 1);
  }

  lemma OrderIsReach(site: Site, o: Options)
    ensures |Order(site, o.filters, o.Depth() + 1)| == |Within(site, o.filters, o.Depth())|
  {
    OrderCount(site, o.filters, o.Depth() + 1);
  }

  lemma FullySeen(site: Site, o: Options)
    ensures Frontier(site, o.filters, o.Depth()).seen == Known(site, o.filters, o.Depth())
  {
    FrontierIsLevel(site, o.filters, o.Depth());
  }

  /** What holds whenever the level loop tests its condition. */
  ghost predicate LoopState(site: Site, o: Options, d: nat, fetched: seq<Visit>, level: seq<Visit>,
                            visited: set<string>, truncated: bool, blocked: nat)
  {
    && |fetched| <= Max(0, o.maxPages)
    && (if truncated then Spent(site, o, d, fetched) else Exact(site, o, d, fetched, level, visited))
    && {site.seed} <= visited <= Known(site, o.filters, o.Depth())
    && blocked == |BlockedOf(site, o.filters, visited)|
  }

  method FetchLevel(site: Site, levelToFetch: seq<Visit>, concurrency: int) returns (fetchedLevel: seq<Page>)
    ensures fetchedLevel == FetchAll(site, levelToFetch)
  {
    ghost var calls, peak;
    fetchedLevel, calls, peak := MapWithConcurrency(levelToFetch, concurrency, (item, _) => FetchPage(site, item));
  }

  /** The pages taken keep the loop state, and the level is built from them alone. */
  lemma TakeKeeps(site: Site, o: Options, d: nat, fetched: seq<Visit>, level: seq<Visit>, visited: set<string>,
                  blocked: nat, taken: seq<Visit>)
    requires LoopState(site, o, d, fetched, level, visited, false, blocked)
    requires level != [] && |fetched| < o.maxPages
    requires taken == level[..Min(o.maxPages - |fetched|, |level|)]
    ensures taken != [] && taken[0].depth == d && OneLevel(site, taken, d)
    ensures ToSet(KeysIn(taken)) <= Within(site, o.filters, d)
    ensures |taken| < |level| ==> Spent(site, o, d + 1, fetched + taken)
  {
    if |taken| < |level| {
      BudgetCuts(site, o, d, fetched, level, visited);
    }
    PendingIsOneLevel(site, o, d, |taken|);
    assert taken[0] in taken;
  }

  lemma BuildKeeps(site: Site, o: Options, d: nat, fetched: seq<Visit>, level: seq<Visit>, visited0: set<string>,
                   blocked0: nat, next: seq<Visit>, visited: set<string>, blocked: nat)
    requires LoopState(site, o, d, fetched, level, visited0, false, blocked0)
    requires level != [] && |level| <= o.maxPages - |fetched|
    requires d >= o.Depth() ==> next == [] && visited == visited0
    requires d < o.Depth() ==>
               Building(site, o.filters, o.maxPages, Candidates(site, KeysIn(level)), visited0,
                        next, d + 1, visited, blocked)
    ensures Exact(site, o, d + 1, fetched + level, next, visited)
  {
    LevelComplete(site, o, d, fetched, level, visited0);
    if d < o.Depth() {
      Advance(site, o, d, level, next, visited0, visited, blocked);
    }
  }

  lemma StillKnown(site: Site, o: Options, d: nat, taken: seq<Visit>, visited0: set<string>, next: seq<Visit>,
                   visited: set<string>, blocked: nat)
    requires {site.seed} <= visited0 <= Known(site, o.filters, o.Depth())
    requires d < o.Depth() && ToSet(KeysIn(taken)) <= Within(site, o.filters, d)
    requires Building(site, o.filters, o.maxPages, Candidates(site, KeysIn(taken)), visited0,
                      next, d + 1, visited, blocked)
    ensures {site.seed} <= visited <= Known(site, o.filters, o.Depth())
  {
    VisitedIsKnown(site, o, d, KeysIn(taken));
  }

  lemma AfterLevel(site: Site, o: Options, d: nat, fetched: seq<Visit>, level: seq<Visit>, visited0: set<string>,
                   blocked0: nat, taken: seq<Visit>, next: seq<Visit>, visited: set<string>, blocked: nat)
    requires LoopState(site, o, d, fetched, level, visited0, false, blocked0)
    requires level != [] && |fetched| < o.maxPages
    requires taken == level[..Min(o.maxPages - |fetched|, |level|)]
    requires d >= o.Depth() ==> next == [] && visited == visited0 && blocked == blocked0
    requires d < o.Depth() ==>
               Building(site, o.filters, o.maxPages, Candidates(site, KeysIn(taken)), visited0,
                        next, d + 1, visited, blocked)
    ensures LoopState(site, o, d + 1, fetched + taken, next, visited, |taken| < |level|, blocked)
  {
    TakeKeeps(site, o, d, fetched, level, visited0, blocked0, taken);
    if |taken| == |level| {
      assert taken == level;
      BuildKeeps(site, o, d, fetched, level, visited0, blocked0, next, visited, blocked);
    }
    if d < o.Depth() {
      StillKnown(site, o, d, taken, visited0, next, visited, blocked);
    }
  }

  /** One iteration of the level loop. */
  method CrawlLevel(site: Site, o: Options, currentLevel: seq<Visit>, visited0: set<string>, blocked0: nat,
                    pageCount: nat, ghost d: nat, ghost fetched: seq<Visit>)
    returns (fetchedLevel: seq<Page>, nextLevel: seq<Visit>, visited: set<string>, truncated: bool, blocked: nat,
             ghost taken: seq<Visit>)
    requires LoopState(site, o, d, fetched, currentLevel, visited0, false, blocked0)
    requires |currentLevel| > 0 && pageCount == |fetched| < o.maxPages
    ensures fetchedLevel == FetchAll(site, taken) && taken != []
    ensures LoopState(site, o, d + 1, fetched + taken, nextLevel, visited, truncated, blocked)
  {
    var remainingBudget := o.maxPages - pageCount;
    var levelToFetch := currentLevel[..Min(remainingBudget, |currentLevel|)];
    taken := levelToFetch;
    TakeKeeps(site, o, d, fetched, currentLevel, visited0, blocked0, taken);
    truncated := false;
    if |levelToFetch| < |currentLevel| {
      truncated := true;
    }
    fetchedLevel := FetchLevel(site, levelToFetch, o.concurrency);
    nextLevel, visited, blocked := BuildLevel(site, o, levelToFetch, d, fetchedLevel, visited0, blocked0);
    AfterLevel(site, o, d, fetched, currentLevel, visited0, blocked0, taken, nextLevel, visited, blocked);
  }

  /** The result every way out of the level loop leads to. */
  lemma Outcome(site: Site, o: Options, d: nat, fetched: seq<Visit>, level: seq<Visit>, visited: set<string>,
                truncated: bool, blocked: nat)
    requires LoopState(site, o, d, fetched, level, visited, truncated, blocked)
    requires level == [] || |fetched| >= o.maxPages
    ensures fetched == Cut(Order(site, o.filters, o.Depth() + 1), o.maxPages)
    ensures truncated || level != [] <==> |Within(site, o.filters, o.Depth())| > o.maxPages
    ensures |fetched| == Min(Max(0, o.maxPages), |Within(site, o.filters, o.Depth())|)
    ensures blocked <= |BlockedOf(site, o.filters, Known(site, o.filters, o.Depth()))|
    ensures !truncated && level == [] ==>
              blocked == |BlockedOf(site, o.filters, Known(site, o.filters, o.Depth()))|
  {
    OrderIsReach(site, o);
    BlockedSubset(site, o.filters, visited, Known(site, o.filters, o.Depth()));
    if truncated {
      FinishSpent(site, o, d, fetched);
    } else if |level| > 0 {
      FinishCut(site, o, d, fetched, level, visited);
    } else {
      FinishAll(site, o, d, fetched, visited);
      FullySeen(site, o);
    }
  }

  lemma Start(site: Site, o: Options)
    ensures LoopState(site, o, 0, [], [Visit(site.seed, 0)], {site.seed}, false, 0)
  {
    KnownMonotone(site, o.filters, 0, o.Depth());
    assert BlockedOf(site, o.filters, {site.seed}) == {};
  }

  lemma FetchAllAppend(site: Site, a: seq<Visit>, b: seq<Visit>)
    ensures FetchAll(site, a + b) == FetchAll(site, a) + FetchAll(site, b)
  {
  }

  /**
   * The whole crawl. With R the keys within Depth() eligible links of the seed: it fetches
   * min(maxPages, |R|) pages, the first ones of the unlimited order, whatever `concurrency`
   * is, and reports truncation exactly when R is larger than the limit.
   */
  method CrawlSite(site: Site, o: Options)
    returns (pages: seq<Page>, pageCount: nat, truncated: bool, robotsBlockedCount: nat)
    ensures pages == FetchAll(site, Cut(Order(site, o.filters, o.Depth() + 1), o.maxPages))
    ensures pageCount == |pages| == Min(Max(0, o.maxPages), |Within(site, o.filters, o.Depth())|)
    ensures truncated <==> |Within(site, o.filters, o.Depth())| > o.maxPages
    ensures robotsBlockedCount <= |BlockedOf(site, o.filters, Known(site, o.filters, o.Depth()))|
    ensures !truncated ==> robotsBlockedCount == |BlockedOf(site, o.filters, Known(site, o.filters, o.Depth()))|
  {
    var visited := {site.seed};
    pages, pageCount, truncated, robotsBlockedCount := [], 0, false, 0;
    var currentLevel := [Visit(site.seed, 0)];
    ghost var d: nat, fetched: seq<Visit> := 0, [];
    Start(site, o);

    while |currentLevel| > 0 && pageCount < o.maxPages
      invariant pages == FetchAll(site, fetched) && pageCount == |fetched|
      invariant LoopState(site, o, d, fetched, currentLevel, visited, truncated, robotsBlockedCount)
      decreases o.maxPages - pageCount
    {
      var fetchedLevel, nextLevel, cut;
      ghost var taken;
      fetchedLevel, nextLevel, visited, cut, robotsBlockedCount, taken :=
        CrawlLevel(site, o, currentLevel, visited, robotsBlockedCount, pageCount, d, fetched);
      if cut {
        truncated := true;
      }
      FetchAllAppend(site, fetched, taken);
      pageCount := pageCount + |fetchedLevel|;
      pages := pages + fetchedLevel;
      fetched := fetched + taken;
      d := d + 1;
      currentLevel := nextLevel;
    }

    Outcome(site, o, d, fetched, currentLevel, visited, truncated, robotsBlockedCount);
    if |currentLevel| > 0 {
      truncated := true;
    }
  }

  lemma BlockedSubset(site: Site, f: Filters, a: set<string>, b: set<string>)
    requires a <= b
    ensures |BlockedOf(site, f, a)| <= |BlockedOf(site, f, b)|
  {
    SubsetCardinality(BlockedOf(site, f, a), BlockedOf(site, f, b));
  }

  // ------------------------------------------------------------------------ consequences

  /**
   * What the fetched prefix means: no key twice, nothing ineligible but the seed, the depth
   * recorded for a page is its shortest eligible link distance, and every key strictly
   * closer than a fetched one is fetched too.
   */
  lemma FetchedPages(site: Site, o: Options, v: Visit)
    requires v in Cut(Order(site, o.filters, o.Depth() + 1), o.maxPages)
    ensures DistinctKeys(Cut(Order(site, o.filters, o.Depth() + 1), o.maxPages))
    ensures v.key == site.seed || o.filters.Eligible(v.key)
    ensures exists p :: Path(site, o.filters, p, v.key) && |p| == v.depth + 1
    ensures forall p :: Path(site, o.filters, p, v.key) ==> |p| >= v.depth + 1
    ensures forall k, p :: Path(site, o.filters, p, k) && |p| <= v.depth ==>
                             k in Keys(Cut(Order(site, o.filters, o.Depth() + 1), o.maxPages))
  {
    var n := o.Depth() + 1;
    OrderDistinct(site, o.filters, n);
    OrderDepths(site, o.filters, n, v);
    WithinFacts(site, o.filters, v.depth);
    ShortestPath(site, o.filters, v.key, v.depth);
    forall k, p | Path(site, o.filters, p, k) && |p| <= v.depth
      ensures k in Keys(Cut(Order(site, o.filters, n), o.maxPages))
    {
      PathStaysWithin(site, o.filters, v.depth - 1, p, k);
      CloserComesFirst(site, o, v, k);
    }
  }

  lemma ShortestPath(site: Site, f: Filters, k: string, d: nat)
    requires k in Level(site, f, d)
    ensures exists p :: Path(site, f, p, k) && |p| == d + 1
    ensures forall p :: Path(site, f, p, k) ==> |p| >= d + 1
  {
    WithinIsPath(site, f, d, k);
    if d > 0 {
      WithinIsPath(site, f, d - 1, k);
    }
  }

  lemma CloserComesFirst(site: Site, o: Options, v: Visit, k: string)
    requires v in Cut(Order(site, o.filters, o.Depth() + 1), o.maxPages)
    requires v.depth > 0 && k in Within(site, o.filters, v.depth - 1)
    ensures k in Keys(Cut(Order(site, o.filters, o.Depth() + 1), o.maxPages))
  {
    var f, n := o.filters, o.Depth() + 1;
    var total := Order(site, f, n);
    OrderDepths(site, f, n, v);
    OrderPrefix(site, f, v.depth, n);
    OrderKeys(site, f, v.depth);
    var i :| 0 <= i < |total| && i < o.maxPages && total[i] == v;
    forall u | u in Order(site, f, v.depth) ensures u.depth < v.depth {
      OrderDepths(site, f, v.depth, u);
    }
    assert i >= |Order(site, f, v.depth)|;
    assert Order(site, f, v.depth) <= Cut(total, o.maxPages);
  }

  /** What the crawl hands over for a fetched key. */
  lemma PageMeaning(site: Site, items: seq<Visit>, i: nat)
    requires i < |items|
    ensures FetchAll(site, items)[i] == Page(items[i].key, items[i].depth, site.links(items[i].key))
  {
  }

  // ------------------------------------------------------------------------ the filters, in terms of the options

  /** The page links to the key, or the key is in the sitemap and the page is the seed. */
  ghost predicate Leads(site: Site, u: Visit, k: string)
    ensures Leads(site, u, k) <==> Some(k) in site.links(u.key) || (u.key == site.seed && Some(k) in site.sitemap)
  {
    k in KeysOf(site.Edges(u.key))
  }

  /**
   * Every fetched key but the seed meets the options: not empty, no exclude pattern, some include
   * pattern if there are any, no Disallow prefix when robots.txt counts, at most maxDepth links
   * away; and a page fetched one level earlier leads to it.
   */
  lemma FetchedMeetsOptions(site: Site, o: Options, v: Visit)
    requires v in Cut(Order(site, o.filters, o.Depth() + 1), o.maxPages) && v.key != site.seed
    ensures v.key != "" && 0 < v.depth <= o.maxDepth
    ensures forall i :: 0 <= i < |o.filters.excludes| ==> !o.filters.excludes[i](v.key)
    ensures |o.filters.includes| > 0 ==> exists i :: 0 <= i < |o.filters.includes| && o.filters.includes[i](v.key)
    ensures o.filters.respectRobots ==>
              forall i :: 0 <= i < |o.filters.disallowed| && o.filters.disallowed[i] != "" ==>
                            !(o.filters.disallowed[i] <= v.key)
    ensures exists u :: && u in Cut(Order(site, o.filters, o.Depth() + 1), o.maxPages)
                        && u.depth + 1 == v.depth && Leads(site, u, v.key)
  {
    FetchedIsEligible(site, o, v);
    EligibleIff(o.filters, v.key);
    OrderDepths(site, o.filters, o.Depth() + 1, v);
    var u := Referrer(site, o, v);
  }

  lemma Referrer(site: Site, o: Options, v: Visit) returns (u: Visit)
    requires v in Cut(Order(site, o.filters, o.Depth() + 1), o.maxPages) && v.key != site.seed
    ensures u in Cut(Order(site, o.filters, o.Depth() + 1), o.maxPages)
    ensures u.depth + 1 == v.depth && Leads(site, u, v.key)
  {
    var p := VisitPath(site, o, v);
    var front, k := p[..|p| - 1], p[|p| - 2];
    PathFront(site, o.filters, p, v.key);
    CloserIsFetched(site, o, v, k, front);
    u :| u in Cut(Order(site, o.filters, o.Depth() + 1), o.maxPages) && u.key == k;
    NoShorterPath(site, o, u, front);
    var q := VisitPath(site, o, u);
    FetchedIsEligible(site, o, v);
    PathExtends(site, o.filters, q, k, v.key);
    NoShorterPath(site, o, v, q + [v.key]);
  }

  lemma PathFront(site: Site, f: Filters, p: seq<string>, k: string)
    requires Path(site, f, p, k) && k != site.seed
    ensures |p| >= 2 && Path(site, f, p[..|p| - 1], p[|p| - 2]) && k in KeysOf(site.Edges(p[|p| - 2]))
  {
    assert |p| >= 2;
    assert p[|p| - 1] in KeysOf(site.Edges(p[|p| - 2]));
  }

  lemma PathExtends(site: Site, f: Filters, q: seq<string>, k: string, x: string)
    requires Path(site, f, q, k) && x in KeysOf(site.Edges(k)) && f.Eligible(x)
    ensures Path(site, f, q + [x], x)
  {
  }

  lemma FetchedIsEligible(site: Site, o: Options, v: Visit)
    requires v in Cut(Order(site, o.filters, o.Depth() + 1), o.maxPages) && v.key != site.seed
    ensures o.filters.Eligible(v.key)
  {
    FetchedPages(site, o, v);
  }

  lemma NoShorterPath(site: Site, o: Options, v: Visit, p: seq<string>)
    requires v in Cut(Order(site, o.filters, o.Depth() + 1), o.maxPages) && Path(site, o.filters, p, v.key)
    ensures |p| >= v.depth + 1
  {
    FetchedPages(site, o, v);
  }

  lemma CloserIsFetched(site: Site, o: Options, v: Visit, k: string, p: seq<string>)
    requires v in Cut(Order(site, o.filters, o.Depth() + 1), o.maxPages)
    requires Path(site, o.filters, p, k) && |p| <= v.depth
    ensures k in Keys(Cut(Order(site, o.filters, o.Depth() + 1), o.maxPages))
  {
    FetchedPages(site, o, v);
  }

  /** A crawl that is not cut off fetches exactly those keys its pages above maxDepth lead to that meet the options. */
  lemma UncutFetchesIff(site: Site, o: Options, v: Visit, k: string)
    requires |Order(site, o.filters, o.Depth() + 1)| <= o.maxPages
    requires v in Order(site, o.filters, o.Depth() + 1) && v.depth < o.maxDepth && Leads(site, v, k)
    ensures k in Keys(Cut(Order(site, o.filters, o.Depth() + 1), o.maxPages)) <==>
            || k == site.seed
            || (&& k != ""
                && (forall i :: 0 <= i < |o.filters.excludes| ==> !o.filters.excludes[i](k))
                && (|o.filters.includes| > 0 ==> exists i :: 0 <= i < |o.filters.includes| && o.filters.includes[i](k))
                && (o.filters.respectRobots ==>
                      forall i :: 0 <= i < |o.filters.disallowed| && o.filters.disallowed[i] != "" ==>
                                    !(o.filters.disallowed[i] <= k)))
  {
    EligibleIff(o.filters, k);
    KeyIsWithinIff(site, o, v, k);
    OrderKeys(site, o.filters, o.Depth() + 1);
  }

  lemma KeyIsWithinIff(site: Site, o: Options, v: Visit, k: string)
    requires v in Order(site, o.filters, o.Depth() + 1) && v.depth < o.maxDepth && Leads(site, v, k)
    ensures k in Within(site, o.filters, o.Depth()) <==> k == site.seed || o.filters.Eligible(k)
  {
    WithinIsEligible(site, o.filters, o.Depth());
    if o.filters.Eligible(k) {
      var p := VisitPath(site, o, v);
      assert Path(site, o.filters, p + [k], k);
      PathStaysWithin(site, o.filters, o.Depth(), p + [k], k);
    }
  }

  lemma VisitPath(site: Site, o: Options, v: Visit) returns (p: seq<string>)
    requires v in Order(site, o.filters, o.Depth() + 1)
    ensures Path(site, o.filters, p, v.key) && |p| == v.depth + 1
  {
    OrderDepths(site, o.filters, o.Depth() + 1, v);
    ShortestPath(site, o.filters, v.key, v.depth);
    p :| Path(site, o.filters, p, v.key) && |p| == v.depth + 1;
  }

  /**
   * The keys counted as barred in a crawl that is not cut off: some page above maxDepth leads to them, and
   * robots.txt bars them.
   */
  lemma BlockedIff(site: Site, o: Options, k: string)
    ensures k in BlockedOf(site, o.filters, Known(site, o.filters, o.Depth())) <==>
            && k != site.seed && k != ""
            && (exists v :: v in Order(site, o.filters, o.Depth() + 1) && v.depth < o.maxDepth && Leads(site, v, k))
            && (forall i :: 0 <= i < |o.filters.excludes| ==> !o.filters.excludes[i](k))
            && (|o.filters.includes| > 0 ==> exists i :: 0 <= i < |o.filters.includes| && o.filters.includes[i](k))
            && o.filters.respectRobots
            && exists i :: 0 <= i < |o.filters.disallowed| &&
                             o.filters.disallowed[i] != "" && o.filters.disallowed[i] <= k
  {
    BarredIff(o.filters, k);
    if k != site.seed {
      KnownIff(site, o, k);
    }
  }

  lemma KnownIff(site: Site, o: Options, k: string)
    requires k != site.seed
    ensures k in Known(site, o.filters, o.Depth()) <==>
            && o.filters.Relevant(k)
            && exists v :: v in Order(site, o.filters, o.Depth() + 1) && v.depth < o.maxDepth && Leads(site, v, k)
  {
    var d := o.Depth();
    if d > 0 {
      OrderKeys(site, o.filters, d);
      OrderPrefix(site, o.filters, d, d + 1);
      if k in Known(site, o.filters, d) {
        LinkedFrom(site, o, k);
      }
      forall v | v in Order(site, o.filters, d + 1) && v.depth < o.maxDepth && Leads(site, v, k)
        ensures k in Linked(site, Within(site, o.filters, d - 1))
      {
        var p := VisitPath(site, o, v);
        PathStaysWithin(site, o.filters, d - 1, p, v.key);
      }
    }
  }

  lemma LinkedFrom(site: Site, o: Options, k: string)
    requires k != site.seed && o.Depth() > 0 && k in Known(site, o.filters, o.Depth())
    ensures exists v :: v in Order(site, o.filters, o.Depth() + 1) && v.depth < o.maxDepth && Leads(site, v, k)
  {
    var d := o.Depth();
    OrderKeys(site, o.filters, d);
    OrderPrefix(site, o.filters, d, d + 1);
    var q :| q in Within(site, o.filters, d - 1) && k in KeysOf(site.Edges(q));
    var v :| v in Order(site, o.filters, d) && v.key == q;
    OrderDepths(site, o.filters, d, v);
    assert Leads(site, v, k);
  }
}
