/**
 * Findings and their grouping by id: aggregateFindings of src/findingAggregator.js.
 */
module Findings {
  import opened Prelude

  datatype Finding = Finding(
    id: string,
    title: string,
    category: string,
    severity: string,
    page: string,
    details: string,
    recommendation: string,
    documentation: string)

  datatype Example = Example(page: string, details: string)

  /** One entry per issue type, as reports and scoring consume it. */
  datatype Group = Group(
    id: string,
    title: string,
    category: string,
    severity: string,
    recommendation: string,
    documentation: string,
    occurrenceCount: nat,
    affectedPageCount: nat,
    affectedPages: seq<string>,
    examples: seq<Example>)

  const MAX_EXAMPLES := 5

  // ------------------------------------------------------------------ the specification

  /** The findings with a given id, in order. */
  function Only(fs: seq<Finding>, id: string): seq<Finding> {
    if fs == [] then []
    else Only(fs[..|fs| - 1], id) + (if fs[|fs| - 1].id == id then [fs[|fs| - 1]] else [])
  }

  /** The ids that occur, in order of first occurrence. */
  function Ids(fs: seq<Finding>): seq<string> {
    if fs == [] then []
    else
      var ids := Ids(fs[..|fs| - 1]);
      if fs[|fs| - 1].id in ids then ids else ids + [fs[|fs| - 1].id]
  }

  /** The distinct non-empty pages of some occurrences, in order of first occurrence. */
  function PagesOf(occ: seq<Finding>): seq<string> {
    if occ == [] then []
    else
      var ps := PagesOf(occ[..|occ| - 1]);
      var p := occ[|occ| - 1].page;
      if p == "" || p in ps then ps else ps + [p]
  }

  function ExamplesOf(occ: seq<Finding>): (r: seq<Example>)
    ensures |r| == Min(|occ|, MAX_EXAMPLES)
  {
    seq(Min(|occ|, MAX_EXAMPLES), i requires 0 <= i < |occ| => Example(occ[i].page, occ[i].details))
  }

  /** The group of some occurrences of one id: its labels are those of the first one. */
  function GroupOf(occ: seq<Finding>): Group
    requires occ != []
  {
    var f := occ[0];
    Group(f.id, f.title, f.category, f.severity, f.recommendation, f.documentation,
          |occ|, |PagesOf(occ)|, PagesOf(occ), ExamplesOf(occ))
  }

  function Groups(fs: seq<Finding>): (r: seq<Group>)
    ensures |r| == |Ids(fs)|
    ensures forall i :: 0 <= i < |r| ==> Only(fs, Ids(fs)[i]) != [] && r[i] == GroupOf(Only(fs, Ids(fs)[i]))
  {
    IdsOccur(fs);
    seq(|Ids(fs)|, i requires 0 <= i < |Ids(fs)| => GroupOf(Only(fs, Ids(fs)[i])))
  }

  // ------------------------------------------------------------------ basic facts

  /** `Ids` lists each occurring id once. */
  lemma {:induction false} IdsOccur(fs: seq<Finding>)
    ensures NoDup(Ids(fs))
    ensures forall id :: id in Ids(fs) <==> Only(fs, id) != []
  {
    if fs != [] {
      IdsOccur(fs[..|fs| - 1]);
    }
  }

  lemma {:induction false} OnlyAppend(a: seq<Finding>, b: seq<Finding>, id: string)
    ensures Only(a + b, id) == Only(a, id) + Only(b, id)
  {
    if b == [] {
      assert a + b == a;
    } else {
      assert (a + b)[..|a + b| - 1] == a + b[..|b| - 1];
      OnlyAppend(a, b[..|b| - 1], id);
    }
  }

  /** `Only` keeps exactly the findings with that id. */
  lemma {:induction false} OnlyMeaning(fs: seq<Finding>, id: string)
    ensures forall f :: f in Only(fs, id) <==> f in fs && f.id == id
    ensures multiset(Only(fs, id)) <= multiset(fs)
  {
    if fs != [] {
      var front, last := fs[..|fs| - 1], fs[|fs| - 1];
      OnlyMeaning(front, id);
      assert fs == front + [last];
    }
  }

  lemma {:induction false} PagesMeaning(occ: seq<Finding>)
    ensures NoDup(PagesOf(occ))
    ensures ToSet(PagesOf(occ)) == set f | f in occ && f.page != "" :: f.page
  {
    if occ != [] {
      var front, last := occ[..|occ| - 1], occ[|occ| - 1];
      PagesMeaning(front);
      assert occ == front + [last];
      assert forall p :: p in PagesOf(front) <==> p in ToSet(PagesOf(front));
    }
  }

  // ------------------------------------------------------------------ the implementation

  /** The `groups` Map: its keys in insertion order, and the occurrences pushed under each. */
  ghost predicate Grouped(fs: seq<Finding>, order: seq<string>, occurrences: map<string, seq<Finding>>) {
    && order == Ids(fs)
    && occurrences.Keys == ToSet(order)
    && forall id :: id in occurrences ==> occurrences[id] == Only(fs, id)
  }

  /** The loop that fills the `groups` Map. */
  method FillGroups(findings: seq<Finding>) returns (order: seq<string>, occurrences: map<string, seq<Finding>>)
    ensures Grouped(findings, order, occurrences)
  {
    order, occurrences := [], map[];
    for i := 0 to |findings|
      invariant Grouped(findings[..i], order, occurrences)
    {
      var f := findings[i];
      IdsOccur(findings[..i]);
      assert findings[..i + 1][..i] == findings[..i];
      assert f.id in order <==> f.id in ToSet(order);
      if f.id !in occurrences {
        order := order + [f.id];
        occurrences := occurrences[f.id := []];
      }
      occurrences := occurrences[f.id := occurrences[f.id] + [f]];
    }
    assert findings[..|findings|] == findings;
  }

  /** The spread of a Set over the non-empty pages. */
  method CollectPages(occ: seq<Finding>) returns (affectedPages: seq<string>)
    ensures affectedPages == PagesOf(occ)
  {
    affectedPages := [];
    for j := 0 to |occ|
      invariant affectedPages == PagesOf(occ[..j])
    {
      assert occ[..j + 1][..j] == occ[..j];
      if occ[j].page != "" && occ[j].page !in affectedPages {
        affectedPages := affectedPages + [occ[j].page];
      }
    }
    assert occ[..|occ|] == occ;
  }

  /** aggregateFindings */
  method AggregateFindings(findings: seq<Finding>) returns (groups: seq<Group>)
    ensures groups == Groups(findings)
  {
    var order, occurrences := FillGroups(findings);
    IdsOccur(findings);
    groups := [];
    for i := 0 to |order|
      invariant |groups| == i
      invariant forall j :: 0 <= j < i ==> groups[j] == Groups(findings)[j]
    {
      assert order[i] in ToSet(order);
      var occ := occurrences[order[i]];
      var affectedPages := CollectPages(occ);
      var first := occ[0];
      groups := groups + [Group(first.id, first.title, first.category, first.severity, first.recommendation,
                                first.documentation, |occ|, |affectedPages|, affectedPages, ExamplesOf(occ))];
    }
  }

  // ------------------------------------------------------------------ consequences

  /** Two lists of findings that agree on the occurrences of every id. */
  ghost predicate SameOccurrences(a: seq<Finding>, b: seq<Finding>) {
    forall id :: Only(a, id) == Only(b, id)
  }

  /** Grouping loses nothing: the occurrence counts add up to the number of findings. */
  lemma {:induction false} CountsAddUp(fs: seq<Finding>)
    ensures Sum(Ids(fs), (id: string) => |Only(fs, id)|) == |fs|
  {
    if fs != [] {
      var front, last := fs[..|fs| - 1], fs[|fs| - 1];
      var f, g := (id: string) => |Only(front, id)|, (id: string) => |Only(fs, id)|;
      CountsAddUp(front);
      IdsOccur(front);
      if last.id in Ids(front) {
        var k :| 0 <= k < |Ids(front)| && Ids(front)[k] == last.id;
        SumBump(Ids(front), f, g, k, 1);
      } else {
        SumSame(Ids(front), f, g);
      }
    }
  }

  /** Findings that agree per id have the same groups, up to order. */
  lemma SameGroups(a: seq<Finding>, b: seq<Finding>)
    requires SameOccurrences(a, b)
    ensures ToSet(Groups(a)) == ToSet(Groups(b)) && |Groups(a)| == |Groups(b)|
    ensures ToSet(Ids(a)) == ToSet(Ids(b)) && NoDup(Ids(a)) && NoDup(Ids(b))
  {
    SameIds(a, b);
    NoDupCardinality(Ids(a));
    NoDupCardinality(Ids(b));
    GroupsSubset(a, b);
    GroupsSubset(b, a);
  }

  lemma SameIds(a: seq<Finding>, b: seq<Finding>)
    requires SameOccurrences(a, b)
    ensures ToSet(Ids(a)) == ToSet(Ids(b)) && NoDup(Ids(a)) && NoDup(Ids(b))
  {
    IdsOccur(a);
    IdsOccur(b);
  }

  lemma GroupsSubset(a: seq<Finding>, b: seq<Finding>)
    requires SameOccurrences(a, b) && ToSet(Ids(a)) == ToSet(Ids(b))
    ensures ToSet(Groups(a)) <= ToSet(Groups(b))
  {
    forall i | 0 <= i < |Groups(a)| ensures Groups(a)[i] in Groups(b) {
      assert Ids(a)[i] in ToSet(Ids(b));
      GroupOccurs(b, Ids(a)[i]);
    }
  }

  lemma GroupOccurs(fs: seq<Finding>, id: string)
    requires id in Ids(fs)
    ensures Only(fs, id) != [] && GroupOf(Only(fs, id)) in Groups(fs)
  {
    var j :| 0 <= j < |Ids(fs)| && Ids(fs)[j] == id;
    assert Groups(fs)[j] in Groups(fs);
  }

  // ------------------------------------------------------------------ what a group shows

  /** The occurrences of an id are the findings with that id, in order. */
  lemma {:induction false} OccurrencesAt(fs: seq<Finding>, id: string) returns (at: seq<nat>)
    ensures Selects(fs, (f: Finding) => f.id == id, at) && |Only(fs, id)| == |at|
    ensures forall i :: 0 <= i < |at| ==> at[i] < |fs| && Only(fs, id)[i] == fs[at[i]]
  {
    if fs == [] {
      at := [];
    } else {
      var front, last := fs[..|fs| - 1], fs[|fs| - 1];
      at := OccurrencesAt(front, id);
      SelectsMore(front, (f: Finding) => f.id == id, at, last);
      Snoc(fs);
      at := if last.id == id then at + [|front|] else at;
    }
  }

  /** A group counts the findings with its id, labels them as the first one does and shows the first five. */
  lemma GroupMeaning(fs: seq<Finding>, i: nat) returns (at: seq<nat>)
    requires i < |Groups(fs)|
    ensures var g := Groups(fs)[i];
            && Selects(fs, (f: Finding) => f.id == g.id, at) && at != [] && g.occurrenceCount == |at| && at[0] < |fs|
            && g.title == fs[at[0]].title && g.category == fs[at[0]].category && g.severity == fs[at[0]].severity
            && g.recommendation == fs[at[0]].recommendation && g.documentation == fs[at[0]].documentation
            && |g.examples| == Min(|at|, 5)
            && forall k :: 0 <= k < |g.examples| ==>
                 at[k] < |fs| && g.examples[k] == Example(fs[at[k]].page, fs[at[k]].details)
  {
    var id := Ids(fs)[i];
    at := OccurrencesAt(fs, id);
    assert at[0] in at;
  }

  /** Groups come in order of first occurrence: a later group's id never occurs before an earlier group's. */
  lemma {:induction false} GroupsInOrder(fs: seq<Finding>, i: nat, j: nat, b: nat)
    requires i < j < |Ids(fs)| && b < |fs| && fs[b].id == Ids(fs)[j]
    ensures exists a :: 0 <= a < b && fs[a].id == Ids(fs)[i]
  {
    var front := fs[..|fs| - 1];
    IdsOccur(front);
    if j < |Ids(front)| && b < |front| {
      GroupsInOrder(front, i, j, b);
      var a :| 0 <= a < b && front[a].id == Ids(front)[i];
      assert fs[a].id == Ids(fs)[i];
    } else {
      if b < |front| {
        OccursInIds(front, b);
        assert false;
      }
      var a := SomeOccurrence(front, Ids(front)[i]);
      assert fs[a].id == Ids(fs)[i];
    }
  }

  /** Affected pages come in order of first occurrence too. */
  lemma {:induction false} PagesInOrder(occ: seq<Finding>, i: nat, j: nat, b: nat)
    requires i < j < |PagesOf(occ)| && b < |occ| && occ[b].page == PagesOf(occ)[j]
    ensures exists a :: 0 <= a < b && occ[a].page == PagesOf(occ)[i]
  {
    var front := occ[..|occ| - 1];
    if j < |PagesOf(front)| && b < |front| {
      PagesInOrder(front, i, j, b);
      var a :| 0 <= a < b && front[a].page == PagesOf(front)[i];
      assert occ[a].page == PagesOf(occ)[i];
    } else {
      PagesMeaning(front);
      PagesMeaning(occ);
      if b < |front| {
        PageOccurs(front, b, PagesOf(occ)[j]);
        assert false;
      }
      assert PagesOf(front)[i] in ToSet(PagesOf(front));
      var f :| f in front && f.page == PagesOf(front)[i];
      var a :| 0 <= a < |front| && front[a] == f;
      assert occ[a].page == PagesOf(occ)[i];
    }
  }

  lemma PageOccurs(occ: seq<Finding>, b: nat, page: string)
    requires b < |occ| && occ[b].page == page && page != ""
    ensures page in PagesOf(occ)
  {
    PagesMeaning(occ);
    assert occ[b] in occ && page in ToSet(PagesOf(occ));
  }

  lemma OccursInIds(fs: seq<Finding>, b: nat)
    requires b < |fs|
    ensures fs[b].id in Ids(fs)
  {
    IdsOccur(fs);
    OnlyMeaning(fs, fs[b].id);
    assert fs[b] in Only(fs, fs[b].id);
  }

  lemma SomeOccurrence(fs: seq<Finding>, id: string) returns (a: nat)
    requires id in Ids(fs)
    ensures a < |fs| && fs[a].id == id
  {
    IdsOccur(fs);
    OnlyMeaning(fs, id);
    assert Only(fs, id)[0] in Only(fs, id);
    a :| 0 <= a < |fs| && fs[a] == Only(fs, id)[0];
  }
}
