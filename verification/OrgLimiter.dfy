/**
 * The per-organization slot counter of org-concurrency.limiter.ts, as used by
 * scan.processor.ts: one Redis key, one step per Redis command, any interleaving of any
 * number of job attempts, the key's time-to-live and worker crashes.
 */
module OrgLimiter {
  import opened Prelude

  type Job = nat

  /** Where an attempt stands between two Redis commands; attempts not listed are outside. */
  datatype Pc =
    | ToExpire      // INCR answered 1, EXPIRE is next
    | ToRollback    // over the limit, the DECR of acquire is next
    | Holding       // acquire returned true
    | ToClamp       // the DECR of release answered below zero, SET 0 is next

  datatype State = State(
    key: Option<int>,     // the Redis value, None when the key does not exist
    ttl: bool,            // whether the key will expire
    pcs: map<Job, Pc>,
    discarded: int,       // history: counter value thrown away by expiries and clamps so far
    leaked: nat)          // history: counted attempts that ended without a decrement
  {
    function Value(): int { key.GetOr(0) }
  }

  datatype Action =
    | Incr(job: Job)      // acquire, first command
    | Expire(job: Job)
    | Rollback(job: Job)
    | Release(job: Job)   // release, first command
    | Clamp(job: Job)
    | TtlFires
    | Crash(job: Job)     // its worker dies, or a Redis command of it is rejected

  const INIT := State(None, false, map[], 0, 0)

  function At(s: State, job: Job): Option<Pc> {
    if job in s.pcs then Some(s.pcs[job]) else None
  }

  /** What acquire does with a count once no command is pending. */
  function Decide(max: int, n: int): Pc {
    if n > max then ToRollback else Holding
  }

  ghost predicate Enabled(s: State, a: Action) {
    match a
    case Incr(j) => At(s, j) == None
    case Expire(j) => At(s, j) == Some(ToExpire)
    case Rollback(j) => At(s, j) == Some(ToRollback)
    case Release(j) => At(s, j) == Some(Holding)
    case Clamp(j) => At(s, j) == Some(ToClamp)
    case TtlFires => s.key.Some? && s.ttl
    case Crash(j) => j in s.pcs
  }

  ghost function Step(max: int, s: State, a: Action): State
    requires Enabled(s, a)
  {
    match a
    case Incr(j) =>
      var n := s.Value() + 1;
      s.(key := Some(n), pcs := s.pcs[j := if n == 1 then ToExpire else Decide(max, n)])
    case Expire(j) =>
      s.(ttl := s.ttl || s.key.Some?, pcs := s.pcs[j := Decide(max, 1)])
    case Rollback(j) =>
      s.(key := Some(s.Value() - 1), pcs := s.pcs - {j})
    case Release(j) =>
      var n := s.Value() - 1;
      s.(key := Some(n), pcs := if n < 0 then s.pcs[j := ToClamp] else s.pcs - {j})
    case Clamp(j) =>
      s.(key := Some(0), ttl := false, pcs := s.pcs - {j}, discarded := s.discarded + s.Value())
    case TtlFires =>
      s.(key := None, ttl := false, discarded := s.discarded + s.Value())
    case Crash(j) =>
      s.(pcs := s.pcs - {j}, leaked := s.leaked + (if Counted(s.pcs[j]) then 1 else 0))
  }

  /** The state after a run from `s`; None when some action was not possible. */
  ghost function Run(max: int, s: State, acts: seq<Action>): Option<State> {
    if acts == [] then Some(s)
    else match Run(max, s, acts[..|acts| - 1])
         case Some(t) => if Enabled(t, acts[|acts| - 1]) then Some(Step(max, t, acts[|acts| - 1])) else None
         case None => None
  }

  // ------------------------------------------------------------------ counting

  /** The attempt has incremented and not yet decremented. */
  predicate Counted(pc: Pc) { pc != ToClamp }

  ghost function CountedJobs(s: State): set<Job> {
    set j | j in s.pcs && Counted(s.pcs[j])
  }

  /** Attempts that run, or will run without another look at the counter. */
  ghost function Holders(max: int, s: State): set<Job> {
    set j | j in s.pcs && (s.pcs[j] == Holding || (s.pcs[j] == ToExpire && 1 <= max))
  }

  /**
   * Whatever was counted is still on the counter, was discarded, or has leaked;
   * and only discarded value can let the holders exceed the limit.
   */
  ghost predicate Inv(max: int, s: State) {
    && s.Value() + s.discarded == |CountedJobs(s)| + s.leaked
    && 0 <= s.discarded
    && |Holders(max, s)| <= Max(0, max) + s.discarded
  }

  lemma HoldersAreCounted(max: int, s: State)
    ensures |Holders(max, s)| <= |CountedJobs(s)|
  {
    SubsetCardinality(Holders(max, s), CountedJobs(s));
  }

  lemma CountedAfter(max: int, s: State, a: Action)
    requires Enabled(s, a)
    ensures var t := Step(max, s, a);
            && (a.Incr? ==> CountedJobs(t) == CountedJobs(s) + {a.job} && a.job !in CountedJobs(s))
            && (a.Expire? || a.Clamp? || a.TtlFires? ==> CountedJobs(t) == CountedJobs(s))
            && (a.Rollback? || a.Release? ==> CountedJobs(t) == CountedJobs(s) - {a.job} && a.job in CountedJobs(s))
            && (a.Crash? ==> CountedJobs(t) == CountedJobs(s) - {a.job})
            && (a.Crash? ==> (a.job in CountedJobs(s) <==> Counted(s.pcs[a.job])))
  {
  }

  lemma HoldersAfter(max: int, s: State, a: Action)
    requires Enabled(s, a)
    ensures !(a.Incr? && s.Value() + 1 <= max) ==> Holders(max, Step(max, s, a)) <= Holders(max, s)
  {
  }

  lemma StepKeepsInv(max: int, s: State, a: Action)
    requires Inv(max, s) && Enabled(s, a)
    ensures Inv(max, Step(max, s, a))
  {
    var t := Step(max, s, a);
    CountedAfter(max, s, a);
    HoldersAfter(max, s, a);
    HoldersAreCounted(max, t);
    if !(a.Incr? && s.Value() + 1 <= max) {
      SubsetCardinality(Holders(max, t), Holders(max, s));
    }
  }

  /** In every run, slot holders exceed the limit by at most the counter value discarded. */
  lemma {:induction false} HoldersBounded(max: int, acts: seq<Action>)
    requires Run(max, INIT, acts).Some?
    ensures Inv(max, Run(max, INIT, acts).value)
  {
    if acts == [] {
      assert CountedJobs(INIT) == {} && Holders(max, INIT) == {};
    } else {
      HoldersBounded(max, acts[..|acts| - 1]);
      StepKeepsInv(max, Run(max, INIT, acts[..|acts| - 1]).value, acts[|acts| - 1]);
    }
  }

  /** Without an expiry nothing is ever discarded, the limit holds and the clamp never fires. */
  lemma {:induction false} ExactWithoutExpiry(max: int, acts: seq<Action>)
    requires Run(max, INIT, acts).Some? && TtlFires !in acts
    ensures var s := Run(max, INIT, acts).value;
            && s.discarded == 0
            && s.Value() == |CountedJobs(s)| + s.leaked
            && |Holders(max, s)| <= Max(0, max)
            && forall j :: At(s, j) != Some(ToClamp)
  {
    HoldersBounded(max, acts);
    if acts != [] {
      var s, a := Run(max, INIT, acts[..|acts| - 1]).value, acts[|acts| - 1];
      ExactWithoutExpiry(max, acts[..|acts| - 1]);
      HoldersBounded(max, acts[..|acts| - 1]);
      CountedAfter(max, s, a);
      assert a in acts;
      var t := Step(max, s, a);
      assert t.Value() == |CountedJobs(t)| + t.leaked >= 0;
      forall j ensures At(t, j) != Some(ToClamp) {
        assert At(s, j) != Some(ToClamp);
      }
    }
  }

  /**
   * A release that finds the counter used up is followed by a reset to zero, without an expiry; any other just
   * takes one off.
   */
  lemma ReleaseMeaning(max: int, s: State, j: Job)
    requires Enabled(s, Release(j))
    ensures var t := Step(max, s, Release(j));
            && t.Value() == s.Value() - 1
            && (s.Value() >= 1 ==> j !in t.pcs)
            && (s.Value() <= 0 ==>
                  Enabled(t, Clamp(j)) && Step(max, t, Clamp(j)).key == Some(0) && !Step(max, t, Clamp(j)).ttl)
  {
  }

  // ------------------------------------------------------------------ when the limit is safe

  ghost predicate WithinLimit(max: int, s: State) {
    |Holders(max, s)| <= Max(0, max)
  }

  /** The limit holds now and, as long as the key does not expire, from now on. */
  ghost predicate KeepsLimit(max: int, s: State) {
    forall acts :: Run(max, s, acts).Some? && TtlFires !in acts ==> WithinLimit(max, Run(max, s, acts).value)
  }

  /**
   * The counter covers every counted attempt (a negative limit grants it that much slack) and nobody is about to
   * reset it.
   */
  ghost predicate Covered(max: int, s: State) {
    && s.Value() >= |CountedJobs(s)| + Min(0, max)
    && forall j :: At(s, j) != Some(ToClamp)
  }

  lemma StepStaysCovered(max: int, s: State, a: Action)
    requires WithinLimit(max, s) && Covered(max, s) && Enabled(s, a) && !a.TtlFires?
    ensures WithinLimit(max, Step(max, s, a)) && Covered(max, Step(max, s, a))
  {
    var t := Step(max, s, a);
    CountedAfter(max, s, a);
    HoldersAfter(max, s, a);
    HoldersAreCounted(max, t);
    if !(a.Incr? && s.Value() + 1 <= max) {
      SubsetCardinality(Holders(max, t), Holders(max, s));
    }
    if a.Release? {
      HolderExists(max, s, a.job);
    }
    forall j ensures At(t, j) != Some(ToClamp) {
      assert At(s, j) != Some(ToClamp);
    }
  }

  /** Somebody can hold a slot within the limit only when the limit is positive. */
  lemma HolderExists(max: int, s: State, j: Job)
    requires WithinLimit(max, s) && At(s, j) == Some(Holding)
    ensures max >= 1
  {
    assert j in Holders(max, s);
    SubsetCardinality({j}, Holders(max, s));
  }

  lemma {:induction false} CoveredKeepsLimit(max: int, s: State, acts: seq<Action>)
    requires WithinLimit(max, s) && Covered(max, s) && Run(max, s, acts).Some? && TtlFires !in acts
    ensures WithinLimit(max, Run(max, s, acts).value) && Covered(max, Run(max, s, acts).value)
  {
    if acts != [] {
      var a := acts[|acts| - 1];
      assert a in acts && TtlFires !in acts[..|acts| - 1];
      CoveredKeepsLimit(max, s, acts[..|acts| - 1]);
      StepStaysCovered(max, Run(max, s, acts[..|acts| - 1]).value, a);
    }
  }

  /** A run with one more step in front. */
  lemma {:induction false} RunFrom(max: int, s: State, a: Action, rest: seq<Action>)
    requires Enabled(s, a) && Run(max, Step(max, s, a), rest).Some?
    ensures Run(max, s, [a] + rest) == Run(max, Step(max, s, a), rest)
  {
    if rest == [] {
      assert [a] + rest == [a] && [a][..0] == [];
    } else {
      assert ([a] + rest)[..|rest|] == [a] + rest[..|rest| - 1];
      RunFrom(max, s, a, rest[..|rest| - 1]);
    }
  }

  /** A continuation without expiry that breaks the limit. */
  ghost predicate Breaks(max: int, s: State, acts: seq<Action>) {
    && TtlFires !in acts && Run(max, s, acts).Some?
    && !WithinLimit(max, Run(max, s, acts).value)
  }

  lemma BreaksFrom(max: int, s: State, a: Action, rest: seq<Action>)
    requires Enabled(s, a) && !a.TtlFires? && Breaks(max, Step(max, s, a), rest)
    ensures Breaks(max, s, [a] + rest)
  {
    RunFrom(max, s, a, rest);
  }

  /** An uncovered counter lets fresh attempts in until the limit is passed. */
  lemma {:induction false} FillUp(max: int, s: State) returns (acts: seq<Action>)
    requires s.Value() < |CountedJobs(s)| + Min(0, max) && CountedJobs(s) == Holders(max, s)
    ensures Breaks(max, s, acts)
    decreases Max(0, max) + 1 - |CountedJobs(s)|
  {
    if !WithinLimit(max, s) {
      acts := [];
    } else {
      var j := Unused(s.pcs.Keys);
      var t := Step(max, s, Incr(j));
      CountedAfter(max, s, Incr(j));
      assert Holders(max, t) == Holders(max, s) + {j};
      acts := FillUp(max, t);
      BreaksFrom(max, s, Incr(j), acts);
      acts := [Incr(j)] + acts;
    }
  }

  /** First the attempts that will not run roll back; that does not change what the counter lacks. */
  lemma {:induction false} RollBack(max: int, s: State) returns (acts: seq<Action>)
    requires s.Value() < |CountedJobs(s)| + Min(0, max)
    ensures Breaks(max, s, acts)
    decreases |CountedJobs(s)|
  {
    if j :| At(s, j) == Some(ToRollback) {
      CountedAfter(max, s, Rollback(j));
      acts := RollBack(max, Step(max, s, Rollback(j)));
      BreaksFrom(max, s, Rollback(j), acts);
      acts := [Rollback(j)] + acts;
    } else if j :| At(s, j) == Some(ToExpire) && max < 1 {
      var t := Step(max, s, Expire(j));
      CountedAfter(max, s, Expire(j));
      CountedAfter(max, t, Rollback(j));
      acts := RollBack(max, Step(max, t, Rollback(j)));
      BreaksFrom(max, t, Rollback(j), acts);
      acts := [Rollback(j)] + acts;
      BreaksFrom(max, s, Expire(j), acts);
      acts := [Expire(j)] + acts;
    } else {
      AllHold(max, s);
      acts := FillUp(max, s);
    }
  }

  lemma AllHold(max: int, s: State)
    requires forall j :: At(s, j) != Some(ToRollback) && (At(s, j) == Some(ToExpire) ==> max >= 1)
    ensures CountedJobs(s) == Holders(max, s)
  {
    forall j | j in CountedJobs(s) ensures j in Holders(max, s) {
      assert At(s, j) != Some(ToRollback) && (At(s, j) == Some(ToExpire) ==> max >= 1);
    }
  }

  /** A pending reset forgets the attempts that arrive before it. */
  lemma {:induction false} ResetLate(max: int, s: State, c: Job) returns (acts: seq<Action>)
    requires At(s, c) == Some(ToClamp)
    ensures Breaks(max, s, acts)
    decreases Max(0, 1 - Min(0, max) - |CountedJobs(s)|)
  {
    if |CountedJobs(s)| + Min(0, max) > 0 {
      CountedAfter(max, s, Clamp(c));
      acts := RollBack(max, Step(max, s, Clamp(c)));
      BreaksFrom(max, s, Clamp(c), acts);
      acts := [Clamp(c)] + acts;
    } else {
      var j := Unused(s.pcs.Keys);
      CountedAfter(max, s, Incr(j));
      acts := ResetLate(max, Step(max, s, Incr(j)), c);
      BreaksFrom(max, s, Incr(j), acts);
      acts := [Incr(j)] + acts;
    }
  }

  /**
   * Exactly which states, reachable or not, keep the limit until the next expiry: those within
   * it whose counter covers the counted attempts and has no reset pending.
   */
  lemma KeepsLimitIff(max: int, s: State)
    ensures KeepsLimit(max, s) <==> WithinLimit(max, s) && Covered(max, s)
  {
    if WithinLimit(max, s) && Covered(max, s) {
      forall acts | Run(max, s, acts).Some? && TtlFires !in acts
        ensures WithinLimit(max, Run(max, s, acts).value)
      {
        CoveredKeepsLimit(max, s, acts);
      }
    } else {
      var acts: seq<Action>;
      if !WithinLimit(max, s) {
        acts := [];
      } else if c :| At(s, c) == Some(ToClamp) {
        acts := ResetLate(max, s, c);
      } else {
        acts := RollBack(max, s);
      }
      assert Breaks(max, s, acts);
      assert Run(max, s, acts).Some? && TtlFires !in acts;
    }
  }

  /**
   * An expiry costs a safe state its safety exactly when more attempts are counted than the slack of a negative
   * limit.
   */
  lemma ExpiryHarmlessIff(max: int, s: State)
    requires WithinLimit(max, s) && Covered(max, s) && Enabled(s, TtlFires)
    ensures KeepsLimit(max, Step(max, s, TtlFires)) <==> |CountedJobs(s)| + Min(0, max) <= 0
  {
    var t := Step(max, s, TtlFires);
    KeepsLimitIff(max, t);
    CountedAfter(max, s, TtlFires);
    HoldersAfter(max, s, TtlFires);
    SubsetCardinality(Holders(max, t), Holders(max, s));
    assert forall j :: At(t, j) == At(s, j);
  }

  /** The limit itself is not an invariant: one expiry under a running scan admits a second one. */
  lemma ExpiryBreaksLimit()
    ensures exists acts :: && Run(1, INIT, acts).Some?
                           && |Holders(1, Run(1, INIT, acts).value)| == 2
                           && Run(1, INIT, acts).value.discarded == 1
  {
    var s1 := State(Some(1), false, map[0 := ToExpire], 0, 0);
    var s2 := State(Some(1), true, map[0 := Holding], 0, 0);
    var s3 := State(None, false, map[0 := Holding], 1, 0);
    var s4 := State(Some(1), false, map[0 := Holding, 1 := ToExpire], 1, 0);
    assert Run(1, INIT, []) == Some(INIT);
    Extend([], Incr(0), INIT, s1);
    Extend([Incr(0)], Expire(0), s1, s2);
    Extend([Incr(0), Expire(0)], TtlFires, s2, s3);
    Extend([Incr(0), Expire(0), TtlFires], Incr(1), s3, s4);
    assert Holders(1, s4) == {0, 1};
  }

  lemma Extend(acts: seq<Action>, a: Action, s: State, t: State)
    requires Run(1, INIT, acts) == Some(s) && Enabled(s, a) && Step(1, s, a) == t
    ensures Run(1, INIT, acts + [a]) == Some(t)
  {
    assert (acts + [a])[..|acts|] == acts;
  }
}
