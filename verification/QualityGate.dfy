/** evaluateQualityGate of src/qualityGate.js. */
module QualityGate {
  import opened Prelude
  import opened Findings
  import opened Scoring

  function Rank(level: Level): nat {
    match level
    case Info => 0
    case Low => 1
    case Medium => 2
    case High => 3
    case Critical => 4
  }

  predicate IsSpace(c: char) { c == ' ' || '\t' <= c <= '\r' }

  /** The threshold a --fail-on value stands for, if any. */
  function Threshold(failOnSeverity: string): Option<Level> {
    LevelOf(Lower(TrimEnd(IsSpace, TrimStart(IsSpace, failOnSeverity))))
  }

  datatype Options = Options(failOnSeverity: Option<string>, minScore: Option<real>)

  datatype Reason = TooSevere(count: nat) | TooLow(score: nat)

  /** When a gate must fail, read off the score alone. */
  ghost predicate Fails(s: Score, o: Options) {
    || (&& o.failOnSeverity.Some? && Threshold(o.failOnSeverity.value).Some?
        && exists level: Level ::
             Rank(level) >= Rank(Threshold(o.failOnSeverity.value).value) && s.severity.At(level) > 0)
    || (o.minScore.Some? && s.score as real < o.minScore.value)
  }

  /** The entries of SEVERITY_RANK, in order. */
  const LEVELS := [Info, Low, Medium, High, Critical]

  /** How many issue types lie at or above the threshold, counted over the first `k` levels. */
  function AtOrAbove(s: Score, threshold: Option<Level>, k: nat): nat
    requires k <= |LEVELS|
  {
    if k == 0 then 0
    else AtOrAbove(s, threshold, k - 1)
         + (if threshold.Some? && Rank(LEVELS[k - 1]) >= Rank(threshold.value) then s.severity.At(LEVELS[k - 1]) else 0)
  }

  lemma {:induction false} SomeAtOrAbove(s: Score, threshold: Option<Level>, k: nat)
    requires k <= |LEVELS|
    ensures AtOrAbove(s, threshold, k) > 0 <==>
            threshold.Some? &&
            exists level: Level :: Rank(level) < k && Rank(level) >= Rank(threshold.value) && s.severity.At(level) > 0
  {
    if k > 0 {
      SomeAtOrAbove(s, threshold, k - 1);
      assert Rank(LEVELS[k - 1]) == k - 1;
      assert forall level: Level :: Rank(level) == k - 1 ==> level == LEVELS[k - 1];
    }
  }

  /** evaluateQualityGate: the loop over SEVERITY_RANK, then the minimum score. */
  method EvaluateQualityGate(s: Score, o: Options) returns (passed: bool, reasons: seq<Reason>)
    ensures passed <==> !Fails(s, o)
    ensures passed <==> reasons == []
    ensures forall r :: r in reasons ==>
                          || r == TooLow(s.score)
                          || r == TooSevere(AtOrAbove(s, Threshold(o.failOnSeverity.GetOr("")), |LEVELS|))
  {
    reasons := [];
    var threshold := Threshold(o.failOnSeverity.GetOr(""));
    SomeAtOrAbove(s, threshold, |LEVELS|);
    if o.failOnSeverity.Some? && o.failOnSeverity.value != "" {
      var atOrAbove := 0;
      for i := 0 to |LEVELS|
        invariant atOrAbove == AtOrAbove(s, threshold, i)
      {
        if threshold.Some? && Rank(LEVELS[i]) >= Rank(threshold.value) {
          atOrAbove := atOrAbove + s.severity.At(LEVELS[i]);
        }
      }
      if atOrAbove > 0 {
        reasons := reasons + [TooSevere(atOrAbove)];
      }
    }
    if o.minScore.Some? {
      if s.score as real < o.minScore.value {
        reasons := reasons + [TooLow(s.score)];
      }
    }
    passed := |reasons| == 0;
  }

  /** A gate that fails keeps failing when findings are added. */
  lemma FailedStaysFailed(fs: seq<Finding>, x: Finding, s: Score, t: Score, o: Options)
    requires IsScoreOf(s, fs) && IsScoreOf(t, fs + [x]) && Fails(s, o)
    ensures Fails(t, o)
  {
    MoreFindingsNeverHelp(fs, x, s, t);
  }

  // ------------------------------------------------------------------ thresholds by name

  predicate IsBlank(s: string) {
    forall i :: 0 <= i < |s| ==> s[i] == ' ' || '\t' <= s[i] <= '\r'
  }

  predicate IsLowerWord(s: string) {
    s != "" && forall i :: 0 <= i < |s| ==> 'a' <= s[i] <= 'z'
  }

  lemma {:induction false} StartTrimmed(pre: string, rest: string)
    requires IsBlank(pre) && rest != "" && 'a' <= rest[0] <= 'z'
    ensures TrimStart(IsSpace, pre + rest) == rest
  {
    if pre == "" {
      assert pre + rest == rest;
    } else {
      assert (pre + rest)[1..] == pre[1..] + rest;
      StartTrimmed(pre[1..], rest);
    }
  }

  lemma {:induction false} EndTrimmed(word: string, post: string)
    requires IsBlank(post) && IsLowerWord(word)
    ensures TrimEnd(IsSpace, word + post) == word
  {
    if post == "" {
      assert word + post == word;
    } else {
      assert (word + post)[..|word + post| - 1] == word + post[..|post| - 1];
      EndTrimmed(word, post[..|post| - 1]);
    }
  }

  lemma FiveNames()
    ensures IsLowerWord("info") && IsLowerWord("low") && IsLowerWord("medium") && IsLowerWord("high")
    ensures IsLowerWord("critical")
  {
  }

  /** A threshold is a severity name, with blanks around it ignored; any other word is none. */
  lemma ThresholdNames(pre: string, word: string, post: string)
    requires IsBlank(pre) && IsBlank(post) && IsLowerWord(word)
    ensures Threshold(pre + word + post)
         == if word == "info" then Some(Info)
            else if word == "low" then Some(Low)
            else if word == "medium" then Some(Medium)
            else if word == "high" then Some(High)
            else if word == "critical" then Some(Critical)
            else None
  {
    Assoc(pre, word, post);
    StartTrimmed(pre, word + post);
    EndTrimmed(word, post);
    LowerMeaning(word, word);
  }

  /**
   * What a threshold alone makes fail: any issue type of its severity or a worse one; `info` asks for no more
   * than `low`.
   */
  lemma ThresholdMeaning(s: Score, text: string)
    ensures Threshold(text) == Some(Critical) ==> (Fails(s, Options(Some(text), None)) <==> s.severity.critical > 0)
    ensures Threshold(text) == Some(High) ==>
              (Fails(s, Options(Some(text), None)) <==> s.severity.critical + s.severity.high > 0)
    ensures Threshold(text) == Some(Medium) ==>
              (Fails(s, Options(Some(text), None)) <==> s.severity.critical + s.severity.high + s.severity.medium > 0)
    ensures Threshold(text) in {Some(Low), Some(Info)} ==>
              (Fails(s, Options(Some(text), None)) <==>
                 s.severity.critical + s.severity.high + s.severity.medium + s.severity.low > 0)
    ensures Threshold(text) == None ==> !Fails(s, Options(Some(text), None))
  {
    var c := s.severity;
    assert c.At(Critical) == c.critical && c.At(High) == c.high && c.At(Medium) == c.medium && c.At(Low) == c.low;
    assert c.At(Info) == 0;
  }
}
