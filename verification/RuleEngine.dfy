/**
 * src/ruleEngine.js: the batch entry point runRules and the streaming contract that
 * replaced it (runPerPageRules, collectSummaries, runFinalRules), driven page by page as
 * src/index.js does.
 */
module RuleEngine {
  import opened Prelude
  import opened Findings
  import opened Scoring

  datatype Outcome<+T> = Threw | Returned(value: T)

  /**
   * A rule module. `run` is what batch runs call and is all that the registry demands besides
   * names; the hooks are what streaming runs call, and one that is not exported is None.
   */
  datatype Rule<!P, !S> = Rule(
    id: string,
    run: seq<P> -> Outcome<seq<Finding>>,
    runPerPage: Option<P -> Outcome<seq<Finding>>>,
    collectSummary: Option<P -> Outcome<Option<S>>>,
    runFinal: Option<seq<S> -> Outcome<seq<Finding>>>)
  {
    /** What one page yields: nothing without the hook, nothing when it throws. */
    function OnPage(page: P): seq<Finding> {
      if runPerPage.None? then []
      else match runPerPage.value(page) case Threw => [] case Returned(fs) => fs
    }

    function SummaryOf(page: P): seq<S> {
      if collectSummary.None? then []
      else match collectSummary.value(page) case Returned(Some(x)) => [x] case _ => []
    }

    function AtEnd(summaries: seq<S>): seq<Finding> {
      if runFinal.None? then []
      else match runFinal.value(summaries) case Threw => [] case Returned(fs) => fs
    }

    function Summaries(pages: seq<P>): seq<S> {
      if pages == [] then [] else Summaries(pages[..|pages| - 1]) + SummaryOf(pages[|pages| - 1])
    }

    function OnPages(pages: seq<P>): seq<Finding> {
      if pages == [] then [] else OnPages(pages[..|pages| - 1]) + OnPage(pages[|pages| - 1])
    }

    function Final(pages: seq<P>): seq<Finding> {
      AtEnd(Summaries(pages))
    }

    /** Everything this rule contributes to a streaming run. */
    function Streamed(pages: seq<P>): seq<Finding> {
      OnPages(pages) + Final(pages)
    }

    predicate ThrowsOn(page: P) {
      || (runPerPage.Some? && runPerPage.value(page).Threw?)
      || (collectSummary.Some? && collectSummary.value(page).Threw?)
    }

    /** Some hook throws somewhere during a run over `pages`. */
    predicate Throws(pages: seq<P>) {
      || (exists i :: 0 <= i < |pages| && ThrowsOn(pages[i]))
      || (runFinal.Some? && runFinal.value(Summaries(pages)).Threw?)
    }

    /** What the rule contributes to a batch run: nothing when it throws. */
    function Batched(pages: seq<P>): seq<Finding> {
      match run(pages) case Threw => [] case Returned(fs) => fs
    }

    /** Every page, then the final pass, in one go; a throw anywhere escapes. */
    function HooksInOneGo(pages: seq<P>): Outcome<seq<Finding>> {
      if Throws(pages) then Threw else Returned(Streamed(pages))
    }

    /** `run` does what the built-in rules with hooks make it do. */
    predicate Delegates(pages: seq<P>) {
      run(pages) == HooksInOneGo(pages)
    }

    /** The shape of a rule written for batch runs alone. */
    predicate RunOnly() {
      runPerPage.None? && collectSummary.None? && runFinal.None?
    }
  }

  /** The body that the built-in rules give `run`: a loop over the pages, then the final pass. */
  method DelegatingRun<P, S>(rule: Rule<P, S>, pages: seq<P>) returns (r: Outcome<seq<Finding>>)
    ensures r == rule.HooksInOneGo(pages)
  {
    var issues, summaries := [], [];
    for i := 0 to |pages|
      invariant !exists j :: 0 <= j < i && rule.ThrowsOn(pages[j])
      invariant issues == rule.OnPages(pages[..i]) && summaries == rule.Summaries(pages[..i])
    {
      assert pages[..i + 1][..i] == pages[..i];
      if rule.runPerPage.Some? {
        var found := rule.runPerPage.value(pages[i]);
        if found.Threw? { return Threw; }
        issues := issues + found.value;
      }
      if rule.collectSummary.Some? {
        var summary := rule.collectSummary.value(pages[i]);
        if summary.Threw? { return Threw; }
        if summary.value.Some? {
          summaries := summaries + [summary.value.value];
        }
      }
    }
    assert pages[..|pages|] == pages;
    assert !exists j :: 0 <= j < |pages| && rule.ThrowsOn(pages[j]);
    if rule.runFinal.Some? {
      var found := rule.runFinal.value(summaries);
      if found.Threw? { return Threw; }
      issues := issues + found.value;
    }
    assert rule.OnPages(pages) + [] == rule.OnPages(pages);
    return Returned(issues);
  }

  // ------------------------------------------------------------------ the two orders

  function FlatMap<A>(xs: seq<A>, f: A -> seq<Finding>): seq<Finding> {
    if xs == [] then [] else FlatMap(xs[..|xs| - 1], f) + f(xs[|xs| - 1])
  }

  /** Batch order: rule by rule. */
  function Batch<P, S>(rules: seq<Rule<P, S>>, pages: seq<P>): seq<Finding> {
    FlatMap(rules, (r: Rule<P, S>) => r.Batched(pages))
  }

  /** All rules on one page. */
  function PageRow<P, S>(rules: seq<Rule<P, S>>, page: P): seq<Finding> {
    FlatMap(rules, (r: Rule<P, S>) => r.OnPage(page))
  }

  function PageRows<P, S>(rules: seq<Rule<P, S>>, pages: seq<P>): seq<Finding> {
    FlatMap(pages, (p: P) => PageRow(rules, p))
  }

  function FinalRow<P, S>(rules: seq<Rule<P, S>>, pages: seq<P>): seq<Finding> {
    FlatMap(rules, (r: Rule<P, S>) => r.Final(pages))
  }

  /** Streaming order: page by page, then the final passes. */
  function Stream<P, S>(rules: seq<Rule<P, S>>, pages: seq<P>): seq<Finding> {
    PageRows(rules, pages) + FinalRow(rules, pages)
  }

  // ------------------------------------------------------------------ the implementation

  /** runRules */
  method RunRules<P, S>(rules: seq<Rule<P, S>>, pages: seq<P>) returns (issues: seq<Finding>)
    ensures issues == Batch(rules, pages)
  {
    issues := [];
    for i := 0 to |rules|
      invariant issues == Batch(rules[..i], pages)
    {
      assert rules[..i + 1][..i] == rules[..i];
      match rules[i].run(pages) {
        case Returned(fs) => issues := issues + fs;
        case Threw =>
      }
    }
    assert rules[..|rules|] == rules;
  }

  /** runPerPageRules */
  method RunPerPageRules<P, S>(page: P, rules: seq<Rule<P, S>>) returns (findings: seq<Finding>)
    ensures findings == PageRow(rules, page)
  {
    findings := [];
    for i := 0 to |rules|
      invariant findings == PageRow(rules[..i], page)
    {
      assert rules[..i + 1][..i] == rules[..i];
      if rules[i].runPerPage.None? { continue; }
      match rules[i].runPerPage.value(page) {
        case Returned(fs) => findings := findings + fs;
        case Threw =>
      }
    }
    assert rules[..|rules|] == rules;
  }

  lemma SummariesSnoc<P, S>(rule: Rule<P, S>, pages: seq<P>, page: P)
    ensures rule.Summaries(pages + [page]) == rule.Summaries(pages) + rule.SummaryOf(page)
  {
    assert (pages + [page])[..|pages|] == pages;
  }

  ghost function RuleIds<P, S>(rules: seq<Rule<P, S>>): set<string> {
    set i | 0 <= i < |rules| :: rules[i].id
  }

  /** What one page adds to the list of an id. */
  function Added<P, S>(rules: seq<Rule<P, S>>, page: P, id: string): seq<S> {
    if rules == [] then []
    else
      var front, last := rules[..|rules| - 1], rules[|rules| - 1];
      if last.id == id then Added(front, page, id) + last.SummaryOf(page) else Added(front, page, id)
  }

  lemma {:induction false} AddedNone<P, S>(rules: seq<Rule<P, S>>, page: P, id: string)
    requires forall k :: 0 <= k < |rules| ==> rules[k].id != id
    ensures Added(rules, page, id) == []
  {
    if rules != [] {
      AddedNone(rules[..|rules| - 1], page, id);
    }
  }

  lemma {:induction false} AddedOne<P, S>(rules: seq<Rule<P, S>>, page: P, k: nat)
    requires k < |rules| && DistinctIds(rules)
    ensures Added(rules, page, rules[k].id) == rules[k].SummaryOf(page)
  {
    var front := rules[..|rules| - 1];
    if k == |front| {
      AddedNone(front, page, rules[k].id);
    } else {
      AddedOne(front, page, k);
    }
  }

  /** The `summaries` object, keyed by rule id and mutated in place. */
  class SummaryStore<S> {
    var byRule: map<string, seq<S>>

    constructor ()
      ensures byRule == map[]
    {
      byRule := map[];
    }

    function Get(id: string): seq<S>
      reads this
    {
      if id in byRule then byRule[id] else []
    }

    /** Every rule's entry holds the summaries of the pages seen so far. */
    ghost predicate Holds<P>(rules: seq<Rule<P, S>>, pages: seq<P>)
      reads this
    {
      forall r :: r in rules ==> Get(r.id) == r.Summaries(pages)
    }

    /** The body of collectSummaries for one rule. */
    method CollectOne<P>(page: P, rule: Rule<P, S>)
      modifies this
      ensures Get(rule.id) == old(Get(rule.id)) + rule.SummaryOf(page)
      ensures forall id :: id != rule.id ==> Get(id) == old(Get(id))
    {
      if rule.collectSummary.None? { return; }
      if rule.id !in byRule {
        byRule := byRule[rule.id := []];
      }
      match rule.collectSummary.value(page) {
        case Returned(Some(summary)) => byRule := byRule[rule.id := byRule[rule.id] + [summary]];
        case _ =>
      }
    }

    /** The loop of collectSummaries. */
    method CollectAll<P>(page: P, rules: seq<Rule<P, S>>)
      modifies this
      ensures forall id :: Get(id) == old(Get(id)) + Added(rules, page, id)
    {
      for i := 0 to |rules|
        invariant forall id :: Get(id) == old(Get(id)) + Added(rules[..i], page, id)
      {
        assert rules[..i + 1][..i] == rules[..i];
        CollectOne(page, rules[i]);
      }
      assert rules[..|rules|] == rules;
    }

    /** collectSummaries, with the unique ids that the registry sees to */
    method Collect<P>(page: P, rules: seq<Rule<P, S>>, ghost before: seq<P>)
      requires Holds(rules, before) && DistinctIds(rules)
      modifies this
      ensures Holds(rules, before + [page])
      ensures forall id :: id !in RuleIds(rules) ==> Get(id) == old(Get(id))
    {
      CollectAll(page, rules);
      forall r | r in rules ensures Get(r.id) == r.Summaries(before + [page]) {
        var k :| 0 <= k < |rules| && rules[k] == r;
        AddedOne(rules, page, k);
        SummariesSnoc(r, before, page);
      }
      forall id | id !in RuleIds(rules) ensures Get(id) == old(Get(id)) {
        assert forall k :: 0 <= k < |rules| ==> rules[k].id in RuleIds(rules);
        AddedNone(rules, page, id);
      }
    }

    /** runFinalRules */
    method RunFinalRules<P>(rules: seq<Rule<P, S>>, ghost pages: seq<P>) returns (findings: seq<Finding>)
      requires Holds(rules, pages)
      ensures findings == FinalRow(rules, pages)
    {
      findings := [];
      for i := 0 to |rules|
        invariant findings == FinalRow(rules[..i], pages)
      {
        assert rules[..i + 1][..i] == rules[..i];
        if rules[i].runFinal.None? { continue; }
        match rules[i].runFinal.value(Get(rules[i].id)) {
          case Returned(fs) => findings := findings + fs;
          case Threw =>
        }
      }
      assert rules[..|rules|] == rules;
    }
  }

  /** The registry keeps rule ids unique. */
  ghost predicate DistinctIds<P, S>(rules: seq<Rule<P, S>>) {
    forall i, j :: 0 <= i < j < |rules| ==> rules[i].id != rules[j].id
  }

  /** The streaming pipeline: the onPage callback for every page, then the final pass. */
  method RunStreaming<P, S>(rules: seq<Rule<P, S>>, pages: seq<P>) returns (allFindings: seq<Finding>)
    requires DistinctIds(rules)
    ensures allFindings == Stream(rules, pages)
  {
    allFindings := [];
    var summaries := new SummaryStore<S>();
    for i := 0 to |pages|
      invariant allFindings == PageRows(rules, pages[..i])
      invariant summaries.Holds(rules, pages[..i])
    {
      assert pages[..i + 1] == pages[..i] + [pages[i]] && pages[..i + 1][..i] == pages[..i];
      var pageFindings := RunPerPageRules(pages[i], rules);
      allFindings := allFindings + pageFindings;
      summaries.Collect(pages[i], rules, pages[..i]);
    }
    assert pages[..|pages|] == pages;
    var finalFindings := summaries.RunFinalRules(rules, pages);
    allFindings := allFindings + finalFindings;
  }

  // ------------------------------------------------------------------ per-id occurrences

  /** No finding with this id comes from the rule, in either kind of run. */
  ghost predicate Silent<P, S>(rule: Rule<P, S>, pages: seq<P>, id: string) {
    Only(rule.Streamed(pages), id) == [] && Only(rule.Batched(pages), id) == []
  }

  /** No finding id is used by two rules. */
  ghost predicate DisjointFindings<P, S>(rules: seq<Rule<P, S>>, pages: seq<P>) {
    forall i, j, id :: 0 <= i < j < |rules| ==> Silent(rules[i], pages, id) || Silent(rules[j], pages, id)
  }

  lemma {:induction false} SilentParts<P, S>(rule: Rule<P, S>, pages: seq<P>, id: string)
    requires Only(rule.OnPages(pages), id) == []
    ensures forall i :: 0 <= i < |pages| ==> Only(rule.OnPage(pages[i]), id) == []
  {
    if pages != [] {
      var front, last := pages[..|pages| - 1], pages[|pages| - 1];
      OnlyAppend(rule.OnPages(front), rule.OnPage(last), id);
      SilentParts(rule, front, id);
      forall i | 0 <= i < |pages| ensures Only(rule.OnPage(pages[i]), id) == [] {
        if i < |front| {
          assert front[i] == pages[i];
        }
      }
    }
  }

  lemma SilentEverywhere<P, S>(rule: Rule<P, S>, pages: seq<P>, id: string)
    requires Silent(rule, pages, id)
    ensures forall i :: 0 <= i < |pages| ==> Only(rule.OnPage(pages[i]), id) == []
    ensures Only(rule.Final(pages), id) == [] && Only(rule.Batched(pages), id) == []
  {
    OnlyAppend(rule.OnPages(pages), rule.Final(pages), id);
    SilentParts(rule, pages, id);
  }

  /** The part of a row that carries `id`, when at most `xs[k]` uses it (`k == |xs|`: none does). */
  lemma {:induction false} RowOnly<A>(xs: seq<A>, f: A -> seq<Finding>, id: string, k: nat)
    requires forall j :: 0 <= j < |xs| && j != k ==> Only(f(xs[j]), id) == []
    ensures Only(FlatMap(xs, f), id) == if k < |xs| then Only(f(xs[k]), id) else []
  {
    if xs != [] {
      var front, last := xs[..|xs| - 1], xs[|xs| - 1];
      OnlyAppend(FlatMap(front, f), f(last), id);
      if k == |front| {
        RowOnly(front, f, id, k);
        assert Only(FlatMap(xs, f), id) == [] + Only(f(last), id);
      } else {
        RowOnly(front, f, id, if k < |front| then k else |front|);
        assert Only(f(last), id) == [];
      }
    }
  }

  lemma {:induction false} PageRowsOnly<P, S>(rules: seq<Rule<P, S>>, pages: seq<P>, id: string, k: nat)
    requires forall i, j :: 0 <= i < |pages| && 0 <= j < |rules| && j != k ==> Only(rules[j].OnPage(pages[i]), id) == []
    ensures Only(PageRows(rules, pages), id) == if k < |rules| then Only(rules[k].OnPages(pages), id) else []
  {
    if pages != [] {
      var front, last := pages[..|pages| - 1], pages[|pages| - 1];
      PageRowsOnly(rules, front, id, k);
      RowOnly(rules, (r: Rule<P, S>) => r.OnPage(last), id, k);
      OnlyAppend(PageRows(rules, front), PageRow(rules, last), id);
      if k < |rules| {
        OnlyAppend(rules[k].OnPages(front), rules[k].OnPage(last), id);
      }
    }
  }

  /** Both orders show, for each id, what its one owner contributes (`k == |rules|`: nobody). */
  lemma OwnerDecides<P, S>(rules: seq<Rule<P, S>>, pages: seq<P>, id: string, k: nat)
    requires forall j :: 0 <= j < |rules| && j != k ==> Silent(rules[j], pages, id)
    ensures Only(Stream(rules, pages), id) == if k < |rules| then Only(rules[k].Streamed(pages), id) else []
    ensures Only(Batch(rules, pages), id) == if k < |rules| then Only(rules[k].Batched(pages), id) else []
  {
    forall j | 0 <= j < |rules| && j != k
      ensures forall i :: 0 <= i < |pages| ==> Only(rules[j].OnPage(pages[i]), id) == []
      ensures Only(rules[j].Final(pages), id) == [] && Only(rules[j].Batched(pages), id) == []
    {
      SilentEverywhere(rules[j], pages, id);
    }
    PageRowsOnly(rules, pages, id, k);
    RowOnly(rules, (r: Rule<P, S>) => r.Final(pages), id, k);
    RowOnly(rules, (r: Rule<P, S>) => r.Batched(pages), id, k);
    OnlyAppend(PageRows(rules, pages), FinalRow(rules, pages), id);
    if k < |rules| {
      OnlyAppend(rules[k].OnPages(pages), rules[k].Final(pages), id);
    }
  }

  lemma FindOwner<P, S>(rules: seq<Rule<P, S>>, pages: seq<P>, id: string) returns (k: nat)
    requires DisjointFindings(rules, pages)
    ensures k <= |rules| && forall j :: 0 <= j < |rules| && j != k ==> Silent(rules[j], pages, id)
  {
    if k' :| 0 <= k' < |rules| && !Silent(rules[k'], pages, id) {
      k := k';
    } else {
      k := |rules|;
    }
  }

  /** A rule's two contributions agree on the occurrences of every id. */
  ghost predicate Agrees<P, S>(rule: Rule<P, S>, pages: seq<P>) {
    SameOccurrences(rule.Streamed(pages), rule.Batched(pages))
  }

  /**
   * Streaming agrees with batch on the occurrences of every id exactly when each rule alone
   * does: no rule can make up for another.
   */
  lemma StreamingAgrees<P, S>(rules: seq<Rule<P, S>>, pages: seq<P>)
    requires DisjointFindings(rules, pages)
    ensures SameOccurrences(Stream(rules, pages), Batch(rules, pages)) <==> forall r :: r in rules ==> Agrees(r, pages)
  {
    if forall r :: r in rules ==> Agrees(r, pages) {
      forall id ensures Only(Stream(rules, pages), id) == Only(Batch(rules, pages), id) {
        var k := FindOwner(rules, pages, id);
        OwnerDecides(rules, pages, id, k);
        if k < |rules| {
          assert Agrees(rules[k], pages);
        }
      }
    } else {
      var r :| r in rules && !Agrees(r, pages);
      var k :| 0 <= k < |rules| && rules[k] == r;
      var id :| Only(r.Streamed(pages), id) != Only(r.Batched(pages), id);
      assert !Silent(rules[k], pages, id);
      OwnerDecides(rules, pages, id, k);
    }
  }

  /** What a delegating rule loses in a batch run: everything, when a hook throws anywhere. */
  lemma DelegatingAgrees<P, S>(r: Rule<P, S>, pages: seq<P>)
    requires r.Delegates(pages)
    ensures Agrees(r, pages) <==> (r.Throws(pages) ==> r.Streamed(pages) == [])
  {
    if r.Throws(pages) {
      NothingToGroup(r.Streamed(pages));
    }
  }

  /** What a run-only rule loses in a streaming run: everything. */
  lemma RunOnlyAgrees<P, S>(r: Rule<P, S>, pages: seq<P>)
    requires r.RunOnly()
    ensures Agrees(r, pages) <==> r.Batched(pages) == []
  {
    NothingOnPages(r, pages);
    NothingToGroup(r.Batched(pages));
  }

  lemma {:induction false} NothingOnPages<P, S>(r: Rule<P, S>, pages: seq<P>)
    requires r.RunOnly()
    ensures r.OnPages(pages) == []
  {
    if pages != [] {
      NothingOnPages(r, pages[..|pages| - 1]);
    }
  }

  lemma NothingToGroup(fs: seq<Finding>)
    ensures (forall id :: Only(fs, id) == []) <==> fs == []
    ensures SameOccurrences(fs, []) <==> fs == []
    ensures SameOccurrences([], fs) <==> fs == []
  {
    if fs != [] {
      OnlyMeaning(fs, fs[0].id);
      assert fs[0] in Only(fs, fs[0].id);
    }
    assert forall id :: Only([], id) == [];
  }

  /**
   * For the rules that occur, delegating ones and run-only plugins, the exact condition: a batch
   * run drops all findings of a rule that throws anywhere, a streaming run only those of the page
   * it threw on; and a streaming run skips run-only rules without a word.
   */
  lemma StreamingAgreesIff<P, S>(rules: seq<Rule<P, S>>, pages: seq<P>)
    requires DisjointFindings(rules, pages)
    requires forall r :: r in rules ==> r.Delegates(pages) || r.RunOnly()
    ensures SameOccurrences(Stream(rules, pages), Batch(rules, pages)) <==>
            forall r :: r in rules ==>
                          if r.RunOnly() then r.Batched(pages) == [] else r.Throws(pages) ==> r.Streamed(pages) == []
  {
    StreamingAgrees(rules, pages);
    forall r | r in rules
      ensures Agrees(r, pages) <==>
              if r.RunOnly() then r.Batched(pages) == [] else r.Throws(pages) ==> r.Streamed(pages) == []
    {
      if r.RunOnly() {
        RunOnlyAgrees(r, pages);
      } else {
        DelegatingAgrees(r, pages);
      }
    }
  }

  /**
   * The migration theorem: when every rule delegates and none throws, a streaming run has the
   * groups of a batch run (up to order) and the same score, grade and severity counts.
   */
  lemma StreamingPreservesReport<P, S>(rules: seq<Rule<P, S>>, pages: seq<P>, s: Score, t: Score)
    requires DisjointFindings(rules, pages)
    requires forall r :: r in rules ==> r.Delegates(pages) && !r.Throws(pages)
    requires IsScoreOf(s, Stream(rules, pages)) && IsScoreOf(t, Batch(rules, pages))
    ensures SameOccurrences(Stream(rules, pages), Batch(rules, pages))
    ensures ToSet(Groups(Stream(rules, pages))) == ToSet(Groups(Batch(rules, pages)))
    ensures |Groups(Stream(rules, pages))| == |Groups(Batch(rules, pages))|
    ensures s == t
  {
    forall r | r in rules ensures Agrees(r, pages) {
      DelegatingAgrees(r, pages);
    }
    StreamingAgrees(rules, pages);
    SameGroups(Stream(rules, pages), Batch(rules, pages));
    SameScore(Stream(rules, pages), Batch(rules, pages), s, t);
  }

  // ------------------------------------------------------------------ what the hooks' answers become

  /** The hook returns a non-null summary for the page. */
  ghost function HasAnswer<P, S>(hook: P -> Outcome<Option<S>>): P -> bool {
    (p: P) => hook(p).Returned? && hook(p).value.Some?
  }

  /** `xs` are the non-null answers of the hook, in page order: one for each page whose call returned one. */
  ghost predicate Answers<P(!new), S>(hook: P -> Outcome<Option<S>>, pages: seq<P>, xs: seq<S>, at: seq<nat>) {
    && Selects(pages, HasAnswer(hook), at)
    && |xs| == |at|
    && forall i :: 0 <= i < |at| ==> at[i] < |pages| && hook(pages[at[i]]) == Returned(Some(xs[i]))
  }

  lemma {:induction false} SummariesAreAnswers<P(!new), S>(rule: Rule<P, S>, pages: seq<P>) returns (at: seq<nat>)
    requires rule.collectSummary.Some?
    ensures Answers(rule.collectSummary.value, pages, rule.Summaries(pages), at)
  {
    if pages == [] {
      at := [];
    } else {
      var front, last := pages[..|pages| - 1], pages[|pages| - 1];
      var before := SummariesAreAnswers(rule, front);
      at := OneMoreAnswer(rule.collectSummary.value, front, rule.Summaries(front), before, last);
      Snoc(pages);
    }
  }

  lemma OneMoreAnswer<P(!new), S>(hook: P -> Outcome<Option<S>>, pages: seq<P>, xs: seq<S>, before: seq<nat>, page: P)
    returns (at: seq<nat>)
    requires Answers(hook, pages, xs, before)
    ensures Answers(hook, pages + [page],
                    xs + (match hook(page) case Returned(Some(x)) => [x] case _ => []), at)
  {
    SelectsMore(pages, HasAnswer(hook), before, page);
    match hook(page) {
      case Returned(Some(x)) =>
        at := before + [|pages|];
        AnswerAdded(hook, pages, xs, before, page, x);
      case _ =>
        at := before;
        AnswersStay(hook, pages, xs, before, page);
        assert xs + [] == xs;
    }
  }

  lemma AnswersStay<P(!new), S>(hook: P -> Outcome<Option<S>>, pages: seq<P>, xs: seq<S>, at: seq<nat>, page: P)
    requires Answers(hook, pages, xs, at) && Selects(pages + [page], HasAnswer(hook), at)
    ensures Answers(hook, pages + [page], xs, at)
  {
    forall i | 0 <= i < |at|
      ensures at[i] < |pages + [page]| && hook((pages + [page])[at[i]]) == Returned(Some(xs[i]))
    {
      assert (pages + [page])[at[i]] == pages[at[i]];
    }
  }

  lemma AnswerAdded<P(!new), S>(hook: P -> Outcome<Option<S>>, pages: seq<P>, xs: seq<S>, at: seq<nat>, page: P, x: S)
    requires Answers(hook, pages, xs, at) && hook(page) == Returned(Some(x))
    requires Selects(pages + [page], HasAnswer(hook), at + [|pages|])
    ensures Answers(hook, pages + [page], xs + [x], at + [|pages|])
  {
    var more := at + [|pages|];
    forall i | 0 <= i < |more|
      ensures more[i] < |pages + [page]| && hook((pages + [page])[more[i]]) == Returned(Some((xs + [x])[i]))
    {
      if i < |at| {
        assert more[i] == at[i] && (pages + [page])[at[i]] == pages[at[i]];
      }
    }
  }

  /** The final pass of a streaming run receives exactly the non-null summaries of the pages, in page order. */
  lemma FinalPassSees<P(!new), S>(rule: Rule<P, S>, pages: seq<P>) returns (summaries: seq<S>, at: seq<nat>)
    requires rule.collectSummary.Some? && rule.runFinal.Some?
    ensures Answers(rule.collectSummary.value, pages, summaries, at)
    ensures rule.Final(pages) == match rule.runFinal.value(summaries) case Threw => [] case Returned(fs) => fs
  {
    summaries := rule.Summaries(pages);
    at := SummariesAreAnswers(rule, pages);
  }

  /** When every page has a summary, the final pass gets one per page. */
  lemma FinalPassSeesAll<P(!new), S>(rule: Rule<P, S>, pages: seq<P>, summaries: seq<S>)
    requires rule.collectSummary.Some? && rule.runFinal.Some? && |summaries| == |pages|
    requires forall i :: 0 <= i < |pages| ==> rule.collectSummary.value(pages[i]) == Returned(Some(summaries[i]))
    ensures rule.Final(pages) == match rule.runFinal.value(summaries) case Threw => [] case Returned(fs) => fs
  {
    AllSummaries(rule, pages, summaries);
  }

  lemma {:induction false} AllSummaries<P, S>(rule: Rule<P, S>, pages: seq<P>, summaries: seq<S>)
    requires rule.collectSummary.Some? && |summaries| == |pages|
    requires forall i :: 0 <= i < |pages| ==> rule.collectSummary.value(pages[i]) == Returned(Some(summaries[i]))
    ensures rule.Summaries(pages) == summaries
  {
    if pages != [] {
      AllSummaries(rule, pages[..|pages| - 1], summaries[..|pages| - 1]);
      Snoc(summaries);
    }
  }

  /** A rule without the summary hook is given none. */
  lemma {:induction false} NoSummaries<P, S>(rule: Rule<P, S>, pages: seq<P>)
    requires rule.collectSummary.None?
    ensures rule.Summaries(pages) == []
  {
    if pages != [] {
      NoSummaries(rule, pages[..|pages| - 1]);
    }
  }

  lemma {:induction false} InFlatMap<A>(xs: seq<A>, f: A -> seq<Finding>, x: Finding)
    ensures x in FlatMap(xs, f) <==> exists i :: 0 <= i < |xs| && x in f(xs[i])
  {
    if xs != [] {
      var front := xs[..|xs| - 1];
      InFlatMap(front, f, x);
      assert forall i :: 0 <= i < |front| ==> front[i] == xs[i];
    }
  }

  /**
   * A streaming run holds what the page hooks return for the pages and what the final hooks return, and nothing
   * else.
   */
  lemma StreamContents<P, S>(rules: seq<Rule<P, S>>, pages: seq<P>, x: Finding)
    ensures x in Stream(rules, pages) <==>
            || (exists i, j :: 0 <= i < |pages| && 0 <= j < |rules| && FoundOn(rules[j], pages[i], x))
            || (exists j :: 0 <= j < |rules| && FoundAtEnd(rules[j], pages, x))
  {
    InFlatMap(pages, (p: P) => PageRow(rules, p), x);
    forall i | 0 <= i < |pages|
      ensures x in PageRow(rules, pages[i]) <==> exists j :: 0 <= j < |rules| && FoundOn(rules[j], pages[i], x)
    {
      InFlatMap(rules, (r: Rule<P, S>) => r.OnPage(pages[i]), x);
    }
    InFlatMap(rules, (r: Rule<P, S>) => r.Final(pages), x);
  }

  /** The page hook is there, returns, and its answer holds the finding. */
  ghost predicate FoundOn<P, S>(rule: Rule<P, S>, page: P, x: Finding)
    ensures FoundOn(rule, page, x) <==>
            rule.runPerPage.Some? && rule.runPerPage.value(page).Returned? && x in rule.runPerPage.value(page).value
  {
    x in rule.OnPage(page)
  }

  ghost predicate FoundAtEnd<P, S>(rule: Rule<P, S>, pages: seq<P>, x: Finding)
    ensures FoundAtEnd(rule, pages, x) <==>
            && rule.runFinal.Some? && rule.runFinal.value(rule.Summaries(pages)).Returned?
            && x in rule.runFinal.value(rule.Summaries(pages)).value
  {
    x in rule.Final(pages)
  }

  /** A batch run holds what the rules' own `run` returns, and nothing else. */
  lemma BatchContents<P, S>(rules: seq<Rule<P, S>>, pages: seq<P>, x: Finding)
    ensures x in Batch(rules, pages) <==>
            exists j :: 0 <= j < |rules| && rules[j].run(pages).Returned? && x in rules[j].run(pages).value
  {
    InFlatMap(rules, (r: Rule<P, S>) => r.Batched(pages), x);
    forall j | 0 <= j < |rules|
      ensures x in rules[j].Batched(pages) <==> rules[j].run(pages).Returned? && x in rules[j].run(pages).value
    {
    }
  }

  /**
   * A delegating `run` throws exactly when the page hook or the summary hook does on some page, or the final
   * hook does.
   */
  lemma DelegatingThrowsIff<P, S>(rule: Rule<P, S>, pages: seq<P>)
    requires rule.Delegates(pages)
    ensures rule.run(pages).Threw? <==>
            || (exists i :: 0 <= i < |pages| && rule.runPerPage.Some? && rule.runPerPage.value(pages[i]).Threw?)
            || (exists i :: 0 <= i < |pages| && rule.collectSummary.Some? && rule.collectSummary.value(pages[i]).Threw?)
            || (rule.runFinal.Some? && rule.runFinal.value(rule.Summaries(pages)).Threw?)
  {
    forall i | 0 <= i < |pages|
      ensures rule.ThrowsOn(pages[i]) <==>
              || (rule.runPerPage.Some? && rule.runPerPage.value(pages[i]).Threw?)
              || (rule.collectSummary.Some? && rule.collectSummary.value(pages[i]).Threw?)
    {
    }
  }

  // ------------------------------------------------------------------ where they differ

  function Sample(id: string): Finding {
    Finding(id, "", "", "low", "", "", "", "")
  }

  /** A plugin that exports only `run`, and finds something. */
  function Plugin(): Rule<nat, nat> {
    Rule("PLUGIN", _ => Returned([Sample("P1")]), None, None, None)
  }

  /** A delegating rule that finds something on every page but throws on page 1. */
  function Fragile(): Rule<nat, nat> {
    Rule("FRAGILE", _ => Threw, Some((page: nat) => if page == 1 then Threw else Returned([Sample("F1")])), None, None)
  }

  /** Batch shows the plugin's finding, streaming does not. */
  lemma PluginIsSkipped()
    ensures Plugin().RunOnly() && !Plugin().Throws([0])
    ensures Stream([Plugin()], [0]) == [] && Batch([Plugin()], [0]) == [Sample("P1")]
  {
  }

  /** Streaming shows the finding of page 0, batch does not. */
  lemma ThrowingIsDropped()
    ensures Fragile().Delegates([0, 1])
    ensures Stream([Fragile()], [0, 1]) == [Sample("F1")] && Batch([Fragile()], [0, 1]) == []
  {
    var r := Fragile();
    assert [0, 1][1] == 1 && r.ThrowsOn(1);
    assert [0, 1][..1] == [0] && [0][..0] == [];
    FlatMapOne(r, (q: Rule<nat, nat>) => q.OnPage(0));
    FlatMapOne(r, (q: Rule<nat, nat>) => q.OnPage(1));
    FlatMapOne(r, (q: Rule<nat, nat>) => q.Final([0, 1]));
    FlatMapOne(r, (q: Rule<nat, nat>) => q.Batched([0, 1]));
    FlatMapTwo<nat>(0, 1, (page: nat) => PageRow([r], page));
    assert PageRow([r], 0) == [Sample("F1")] && PageRow([r], 1) == [];
  }

  lemma FlatMapOne<A>(x: A, f: A -> seq<Finding>)
    ensures FlatMap([x], f) == f(x)
  {
    assert [x][..0] == [];
  }

  lemma FlatMapTwo<A>(x: A, y: A, f: A -> seq<Finding>)
    ensures FlatMap([x, y], f) == f(x) + f(y)
  {
    FlatMapOne(x, f);
    assert [x, y][..1] == [x];
  }
}
