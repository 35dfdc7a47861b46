/**
 * calculateScore of src/scoring.js.
 * Costs are exact tenths of a point, so that Math.round becomes round-half-up on integers.
 */
module Scoring {
  import opened Prelude
  import opened Findings

  datatype Level = Info | Low | Medium | High | Critical

  function Lower(s: string): (r: string)
    ensures |r| == |s|
  {
    seq(|s|, i requires 0 <= i < |s| => LowerChar(s[i]))
  }

  /** The severity names of src/qualityGate.js. */
  function LevelOf(name: string): Option<Level> {
    if name == "info" then Some(Info)
    else if name == "low" then Some(Low)
    else if name == "medium" then Some(Medium)
    else if name == "high" then Some(High)
    else if name == "critical" then Some(Critical)
    else None
  }

  /** SEVERITY_WEIGHT; anything else weighs nothing. */
  function Weight(level: Option<Level>): nat {
    match level
    case Some(Critical) => 20
    case Some(High) => 10
    case Some(Medium) => 5
    case Some(Low) => 2
    case _ => 0
  }

  const BREADTH_CAP_OCCURRENCES := 20

  /** What a group costs, in tenths: each occurrence past the first adds a tenth of the weight, up to the cap. */
  function Tenths(level: Option<Level>, occurrenceCount: nat): int {
    Weight(level) * (10 + Min(occurrenceCount - 1, BREADTH_CAP_OCCURRENCES))
  }

  datatype Counts = Counts(critical: nat, high: nat, medium: nat, low: nat)
  {
    /** `counts[level] || 0`; there is no info counter. */
    function At(level: Level): nat {
      match level
      case Info => 0
      case Low => low
      case Medium => medium
      case High => high
      case Critical => critical
    }

    function Bump(level: Option<Level>): Counts {
      match level
      case Some(Critical) => this.(critical := critical + 1)
      case Some(High) => this.(high := high + 1)
      case Some(Medium) => this.(medium := medium + 1)
      case Some(Low) => this.(low := low + 1)
      case _ => this
    }
  }

  datatype Score = Score(score: nat, grade: char, severity: Counts)

  // ------------------------------------------------------------------ the specification

  function LevelIn(fs: seq<Finding>, id: string): Option<Level> {
    if Only(fs, id) == [] then None else LevelOf(Lower(Only(fs, id)[0].severity))
  }

  function Cost(fs: seq<Finding>, id: string): int {
    if Only(fs, id) == [] then 0 else Tenths(LevelIn(fs, id), |Only(fs, id)|)
  }

  function CostOf(fs: seq<Finding>): string -> int {
    (id: string) => Cost(fs, id)
  }

  /** 1 for an id whose group has the level, else 0. */
  function IsAt(fs: seq<Finding>, level: Level): string -> int {
    (id: string) => if LevelIn(fs, id) == Some(level) then 1 else 0
  }

  /** Ten times the weight: what one occurrence of the issue type costs, in tenths. */
  function OnceOf(fs: seq<Finding>): string -> int {
    (id: string) => 10 * Weight(LevelIn(fs, id))
  }

  /** The total deduction, in tenths of a point. */
  ghost function Deduction(fs: seq<Finding>): int {
    Sum(Ids(fs), CostOf(fs))
  }

  /** How many issue types have a level. */
  ghost function TypesAt(fs: seq<Finding>, level: Level): int {
    Sum(Ids(fs), IsAt(fs, level))
  }

  /** Floor at zero, then Math.round of the tenths. */
  function Rounded(tenths: int): nat {
    (Max(tenths, 0) + 5) / 10
  }

  function GradeOf(score: nat): char {
    if score >= 90 then 'A'
    else if score >= 80 then 'B'
    else if score >= 70 then 'C'
    else if score >= 60 then 'D'
    else 'F'
  }

  ghost predicate IsScoreOf(s: Score, fs: seq<Finding>) {
    && s.score == Rounded(1000 - Deduction(fs))
    && s.grade == GradeOf(s.score)
    && forall level :: level != Info ==> s.severity.At(level) == TypesAt(fs, level)
  }

  // ------------------------------------------------------------------ the implementation

  /** The loop's state after the first `k` groups. */
  ghost predicate Tallied(fs: seq<Finding>, k: nat, tenths: int, severity: Counts)
    requires k <= |Ids(fs)|
  {
    && tenths == 1000 - Sum(Ids(fs)[..k], CostOf(fs))
    && forall level :: level != Info ==> severity.At(level) == Tally(fs, k, level)
  }

  ghost function Tally(fs: seq<Finding>, k: nat, level: Level): int
    requires k <= |Ids(fs)|
  {
    Sum(Ids(fs)[..k], IsAt(fs, level))
  }

  lemma {:induction false} SumStep(xs: seq<string>, f: string -> int, k: nat)
    requires k < |xs|
    ensures Sum(xs[..k + 1], f) == Sum(xs[..k], f) + f(xs[k])
  {
    assert xs[..k + 1][..k] == xs[..k];
  }

  lemma TalliedStep(fs: seq<Finding>, k: nat, tenths: int, severity: Counts)
    requires k < |Ids(fs)| && Tallied(fs, k, tenths, severity)
    ensures Tallied(fs, k + 1, tenths - Cost(fs, Ids(fs)[k]), severity.Bump(LevelIn(fs, Ids(fs)[k])))
  {
    SumStep(Ids(fs), CostOf(fs), k);
    forall level: Level | level != Info
      ensures severity.Bump(LevelIn(fs, Ids(fs)[k])).At(level) == Tally(fs, k + 1, level)
    {
      SumStep(Ids(fs), IsAt(fs, level), k);
      BumpAt(severity, LevelIn(fs, Ids(fs)[k]), level);
    }
  }

  lemma BumpAt(c: Counts, bumped: Option<Level>, level: Level)
    requires level != Info
    ensures c.Bump(bumped).At(level) == c.At(level) + (if bumped == Some(level) then 1 else 0)
  {
  }

  /** calculateScore */
  method CalculateScore(findings: seq<Finding>) returns (s: Score)
    ensures IsScoreOf(s, findings)
    ensures (s.grade == 'A' <==> 90 <= s.score) && (s.grade == 'B' <==> 80 <= s.score < 90)
    ensures (s.grade == 'C' <==> 70 <= s.score < 80) && (s.grade == 'D' <==> 60 <= s.score < 70)
    ensures s.grade == 'F' <==> s.score < 60
  {
    var aggregated := AggregateFindings(findings);
    var tenths, severity := 1000, Counts(0, 0, 0, 0);
    for k := 0 to |aggregated|
      invariant Tallied(findings, k, tenths, severity)
    {
      var group := aggregated[k];
      var level := LevelOf(Lower(group.severity));
      TalliedStep(findings, k, tenths, severity);
      severity := severity.Bump(level);
      tenths := tenths - Tenths(level, group.occurrenceCount);
    }
    assert Ids(findings)[..|Ids(findings)|] == Ids(findings);
    if tenths < 0 {
      tenths := 0;
    }
    var score := (tenths + 5) / 10;
    var grade := 'F';
    if score >= 90 {
      grade := 'A';
    } else if score >= 80 {
      grade := 'B';
    } else if score >= 70 {
      grade := 'C';
    } else if score >= 60 {
      grade := 'D';
    }
    s := Score(score, grade, severity);
  }

  // ------------------------------------------------------------------ consequences

  /** The score depends only on what occurs under each id. */
  lemma SameScore(a: seq<Finding>, b: seq<Finding>, s: Score, t: Score)
    requires SameOccurrences(a, b) && IsScoreOf(s, a) && IsScoreOf(t, b)
    ensures s == t
  {
    SameDeduction(a, b);
    forall level | level != Info ensures s.severity.At(level) == t.severity.At(level) {
      SameTypes(a, b, level);
    }
    SameCounts(s.severity, t.severity);
  }

  lemma SameCounts(c: Counts, d: Counts)
    requires forall level :: level != Info ==> c.At(level) == d.At(level)
    ensures c == d
  {
    assert c.At(Critical) == d.At(Critical) && c.At(High) == d.At(High);
    assert c.At(Medium) == d.At(Medium) && c.At(Low) == d.At(Low);
  }

  lemma SameDeduction(a: seq<Finding>, b: seq<Finding>)
    requires SameOccurrences(a, b)
    ensures Deduction(a) == Deduction(b)
  {
    var f, g := CostOf(a), CostOf(b);
    SameIds(a, b);
    forall id: string ensures f(id) == g(id) {
      SameLevel(a, b, id);
    }
    SumAlike(Ids(a), Ids(b), f, g);
  }

  lemma SameTypes(a: seq<Finding>, b: seq<Finding>, level: Level)
    requires SameOccurrences(a, b)
    ensures TypesAt(a, level) == TypesAt(b, level)
  {
    var f := IsAt(a, level);
    var g := IsAt(b, level);
    SameIds(a, b);
    forall id: string ensures f(id) == g(id) {
      SameLevel(a, b, id);
    }
    SumAlike(Ids(a), Ids(b), f, g);
  }

  lemma SameLevel(a: seq<Finding>, b: seq<Finding>, id: string)
    requires SameOccurrences(a, b)
    ensures LevelIn(a, id) == LevelIn(b, id) && Cost(a, id) == Cost(b, id)
  {
    assert Only(a, id) == Only(b, id);
  }

  /** How one more finding changes the occurrences and the list of ids. */
  lemma Appended(fs: seq<Finding>, x: Finding)
    ensures forall id :: Only(fs + [x], id) == Only(fs, id) + (if x.id == id then [x] else [])
    ensures Ids(fs + [x]) == if x.id in Ids(fs) then Ids(fs) else Ids(fs) + [x.id]
    ensures NoDup(Ids(fs)) && (x.id in Ids(fs) <==> Only(fs, x.id) != [])
  {
    assert (fs + [x])[..|fs + [x]| - 1] == fs;
    IdsOccur(fs);
  }

  /** A sum over the ids that does not shrink at the appended id and stays put elsewhere. */
  lemma SumAppended(fs: seq<Finding>, x: Finding, f: string -> int, g: string -> int)
    requires forall id :: id != x.id ==> f(id) == g(id)
    requires f(x.id) <= g(x.id) && (x.id !in Ids(fs) ==> 0 <= g(x.id))
    ensures Sum(Ids(fs), f) <= Sum(Ids(fs + [x]), g)
  {
    Appended(fs, x);
    SumBound(Ids(fs), f, g);
    if x.id !in Ids(fs) {
      assert Ids(fs + [x])[..|Ids(fs)|] == Ids(fs);
    }
  }

  lemma TypesGrow(fs: seq<Finding>, x: Finding, level: Level)
    ensures TypesAt(fs, level) <= TypesAt(fs + [x], level)
  {
    var f, g := IsAt(fs, level), IsAt(fs + [x], level);
    forall id: string ensures f(id) <= g(id) && (id != x.id ==> f(id) == g(id)) {
      IsAtAppended(fs, x, level, id);
    }
    SumAppended(fs, x, f, g);
  }

  lemma IsAtAppended(fs: seq<Finding>, x: Finding, level: Level, id: string)
    ensures IsAt(fs, level)(id) <= IsAt(fs + [x], level)(id)
    ensures id != x.id ==> IsAt(fs, level)(id) == IsAt(fs + [x], level)(id)
  {
    LevelAppended(fs, x, id);
  }

  /** The first occurrence fixes a group's severity for good. */
  lemma LevelAppended(fs: seq<Finding>, x: Finding, id: string)
    ensures Only(fs, id) != [] || id != x.id ==> LevelIn(fs + [x], id) == LevelIn(fs, id)
    ensures Only(fs, id) == [] ==> LevelIn(fs, id) == None
  {
    Appended(fs, x);
  }

  lemma DeductionGrows(fs: seq<Finding>, x: Finding)
    ensures Deduction(fs) <= Deduction(fs + [x])
  {
    var f, g := CostOf(fs), CostOf(fs + [x]);
    forall id: string ensures f(id) <= g(id) && (id != x.id ==> f(id) == g(id)) {
      CostAppended(fs, x, id);
    }
    SumAppended(fs, x, f, g);
  }

  lemma CostAppended(fs: seq<Finding>, x: Finding, id: string)
    ensures Cost(fs, id) <= Cost(fs + [x], id)
    ensures id != x.id ==> Cost(fs, id) == Cost(fs + [x], id)
  {
    Appended(fs, x);
    LevelAppended(fs, x, id);
  }

  /** One more finding never raises the score and never lowers a severity count. */
  lemma MoreFindingsNeverHelp(fs: seq<Finding>, x: Finding, s: Score, t: Score)
    requires IsScoreOf(s, fs) && IsScoreOf(t, fs + [x])
    ensures t.score <= s.score <= 100
    ensures forall level :: s.severity.At(level) <= t.severity.At(level)
  {
    DeductionGrows(fs, x);
    DeductionBounds(fs);
    forall level ensures s.severity.At(level) <= t.severity.At(level) {
      if level != Info {
        TypesGrow(fs, x, level);
      }
    }
  }

  /** Breadth can cost at most twice as much again as one occurrence of each issue type. */
  lemma DeductionBounds(fs: seq<Finding>)
    ensures 0 <= Sum(Ids(fs), OnceOf(fs)) <= Deduction(fs) <= 3 * Sum(Ids(fs), OnceOf(fs))
  {
    IdsOccur(fs);
    forall id | id in Ids(fs) ensures 0 <= OnceOf(fs)(id) <= CostOf(fs)(id) <= 3 * OnceOf(fs)(id) {
      CostBounds(LevelIn(fs, id), |Only(fs, id)|);
    }
    SumBetween(Ids(fs), OnceOf(fs), CostOf(fs));
  }

  lemma CostBounds(level: Option<Level>, count: nat)
    requires count >= 1
    ensures 0 <= 10 * Weight(level) <= Tenths(level, count) <= 3 * (10 * Weight(level))
  {
  }

  lemma {:induction false} SumBetween(xs: seq<string>, f: string -> int, g: string -> int)
    requires forall x :: x in xs ==> 0 <= f(x) <= g(x) <= 3 * f(x)
    ensures 0 <= Sum(xs, f) <= Sum(xs, g) <= 3 * Sum(xs, f)
  {
    if xs != [] {
      SumBetween(xs[..|xs| - 1], f, g);
    }
  }

  // ------------------------------------------------------------------ the scale

  /** Severity names are read without regard to ASCII case. */
  lemma LowerMeaning(s: string, t: string)
    requires |s| == |t|
    requires forall i :: 0 <= i < |s| ==>
               !('A' <= t[i] <= 'Z') && (s[i] == t[i] || ('A' <= s[i] <= 'Z' && t[i] as int == s[i] as int + 32))
    ensures Lower(s) == t
  {
  }

  lemma {:induction false} OneType(fs: seq<Finding>, id: string)
    requires forall k :: 0 <= k < |fs| ==> fs[k].id == id
    ensures Only(fs, id) == fs && Ids(fs) == if fs == [] then [] else [id]
  {
    if fs != [] {
      OneType(fs[..|fs| - 1], id);
      Snoc(fs);
    }
  }

  /** The weight a severity name has. */
  ghost predicate Weighs(name: string, w: nat) {
    if name == "critical" then w == 20
    else if name == "high" then w == 10
    else if name == "medium" then w == 5
    else if name == "low" then w == 2
    else w == 0
  }

  /**
   * A site with a single issue type, found n times: it costs its weight once, a tenth of it for each
   * of up to twenty further occurrences, and counts once under its severity.
   */
  lemma OneIssueType(fs: seq<Finding>, s: Score, w: nat)
    requires fs != [] && forall k :: 0 <= k < |fs| ==> fs[k].id == fs[0].id
    requires Weighs(Lower(fs[0].severity), w) && IsScoreOf(s, fs)
    ensures s.score == (1005 - w * (10 + Min(|fs| - 1, 20))) / 10
    ensures s.severity == Counts(if w == 20 then 1 else 0, if w == 10 then 1 else 0, if w == 5 then 1
             else 0, if w == 2 then 1 else 0)
  {
    OneType(fs, fs[0].id);
    ScoreOfOne(fs, fs[0].id, s, w);
    SeverityOfOne(fs, fs[0].id, s, w);
  }

  lemma ScoreOfOne(fs: seq<Finding>, id: string, s: Score, w: nat)
    requires fs != [] && Only(fs, id) == fs && Ids(fs) == [id] && Weighs(Lower(fs[0].severity), w) && IsScoreOf(s, fs)
    ensures s.score == (1005 - w * (10 + Min(|fs| - 1, 20))) / 10
  {
    OneTypeCosts(fs, id, w);
    RoundedTenths(w, Min(|fs| - 1, 20));
  }

  lemma SeverityOfOne(fs: seq<Finding>, id: string, s: Score, w: nat)
    requires fs != [] && Only(fs, id) == fs && Ids(fs) == [id] && Weighs(Lower(fs[0].severity), w) && IsScoreOf(s, fs)
    ensures s.severity == Counts(if w == 20 then 1 else 0, if w == 10 then 1 else 0, if w == 5 then 1
             else 0, if w == 2 then 1 else 0)
  {
    AllCounts(fs, id, s);
    CountsBySeverity(s.severity, Lower(fs[0].severity), w);
  }

  lemma RoundedTenths(w: nat, more: nat)
    requires w <= 20 && more <= 20
    ensures Rounded(1000 - w * (10 + more)) == (1005 - w * (10 + more)) / 10
  {
    assert w * (10 + more) <= 20 * 30;
  }

  lemma AllCounts(fs: seq<Finding>, id: string, s: Score)
    requires fs != [] && Only(fs, id) == fs && Ids(fs) == [id] && IsScoreOf(s, fs)
    ensures forall level :: level != Info ==>
              s.severity.At(level) == if LevelOf(Lower(fs[0].severity)) == Some(level) then 1 else 0
  {
    forall level | level != Info
      ensures s.severity.At(level) == if LevelOf(Lower(fs[0].severity)) == Some(level) then 1 else 0
    {
      OneTypeCounts(fs, id, level);
    }
  }

  lemma OneTypeCosts(fs: seq<Finding>, id: string, w: nat)
    requires fs != [] && Only(fs, id) == fs && Ids(fs) == [id] && Weighs(Lower(fs[0].severity), w)
    ensures Deduction(fs) == w * (10 + Min(|fs| - 1, 20))
  {
    SumOne(id, CostOf(fs));
  }

  lemma OneTypeCounts(fs: seq<Finding>, id: string, level: Level)
    requires fs != [] && Only(fs, id) == fs && Ids(fs) == [id]
    ensures TypesAt(fs, level) == if LevelOf(Lower(fs[0].severity)) == Some(level) then 1 else 0
  {
    SumOne(id, IsAt(fs, level));
  }

  lemma CountsBySeverity(c: Counts, name: string, w: nat)
    requires Weighs(name, w)
    requires forall level :: level != Info ==> c.At(level) == if LevelOf(name) == Some(level) then 1 else 0
    ensures c == Counts(if w == 20 then 1 else 0, if w == 10 then 1 else 0, if w == 5 then 1 else 0, if w == 2 then 1
             else 0)
  {
    assert c.At(Critical) == c.critical && c.At(High) == c.high && c.At(Medium) == c.medium && c.At(Low) == c.low;
  }

  lemma SumOne(x: string, f: string -> int)
    ensures Sum([x], f) == f(x)
  {
    assert [x][..0] == [];
  }
}
