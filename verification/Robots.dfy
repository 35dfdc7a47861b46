/**
 * Which discovered paths a crawl may follow: the robots.txt rules of src/robotsTxt.js and
 * the include/exclude filters of src/siteCrawler.js.
 */
module Robots {
  /** isAllowed: a path is barred when some non-empty Disallow value is a prefix of it. */
  predicate IsAllowed(disallowed: seq<string>, path: string) {
    !exists i :: 0 <= i < |disallowed| && disallowed[i] != "" && disallowed[i] <= path
  }

  predicate MatchesAny(patterns: seq<string -> bool>, path: string) {
    exists i :: 0 <= i < |patterns| && patterns[i](path)
  }

  datatype Filters = Filters(
    respectRobots: bool,
    disallowed: seq<string>,
    includes: seq<string -> bool>,
    excludes: seq<string -> bool>)
  {
    predicate Passes(path: string) {
      if |excludes| > 0 && MatchesAny(excludes, path) then false
      else if |includes| > 0 && !MatchesAny(includes, path) then false
      else true
    }

    /** Filter-passing but barred by robots.txt: counted, never fetched. */
    predicate Blocked(path: string) {
      respectRobots && !IsAllowed(disallowed, path)
    }

    /** A key worth recording as visited; `""` is the falsy path. */
    predicate Relevant(path: string) {
      path != "" && Passes(path)
    }

    predicate Eligible(path: string) {
      Relevant(path) && !Blocked(path)
    }
  }

  /** What the options ask of a key: no exclude pattern, some include pattern if there are any, no Disallow prefix. */
  lemma EligibleIff(f: Filters, k: string)
    ensures f.Eligible(k) <==>
            && k != ""
            && (forall i :: 0 <= i < |f.excludes| ==> !f.excludes[i](k))
            && (|f.includes| > 0 ==> exists i :: 0 <= i < |f.includes| && f.includes[i](k))
            && (f.respectRobots ==>
                  forall i :: 0 <= i < |f.disallowed| && f.disallowed[i] != "" ==> !(f.disallowed[i] <= k))
  {
  }

  /** The keys that are counted as barred: they pass the patterns, and some Disallow value is a prefix. */
  lemma BarredIff(f: Filters, k: string)
    ensures f.Relevant(k) && f.Blocked(k) <==>
            && k != ""
            && (forall i :: 0 <= i < |f.excludes| ==> !f.excludes[i](k))
            && (|f.includes| > 0 ==> exists i :: 0 <= i < |f.includes| && f.includes[i](k))
            && f.respectRobots
            && exists i :: 0 <= i < |f.disallowed| && f.disallowed[i] != "" && f.disallowed[i] <= k
  {
  }
}
