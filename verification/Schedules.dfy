/**
 * Scan schedules of schedules.service.ts. A claim is one UPDATE statement on a row picked by
 * a FOR UPDATE SKIP LOCKED subquery, so it is one step; `locked` are the rows other tickers
 * hold at that moment. Claims read the database clock; creating and enabling a schedule
 * reads the clock of the API process, which may lag behind it by up to `skew`.
 */
module Schedules {
  import opened Prelude
  import opened Spacing

  type Id = nat

  const HOUR := 60 * 60 * 1000
  const CLAIMS_PER_PASS := 20

  datatype Row = Row(intervalHours: nat, enabled: bool, nextRunAt: Option<int>, lastRunAt: Option<int>)
  {
    predicate Due(now: int) {
      enabled && nextRunAt.Some? && nextRunAt.value <= now
    }
  }

  type Rows = map<Id, Row>

  /** The row that the claiming subquery may pick: due, not locked, none older. */
  predicate Claimable(rows: Rows, locked: set<Id>, now: int, id: Id) {
    && id in rows && id !in locked && rows[id].Due(now)
    && forall k :: k in rows && k !in locked && rows[k].Due(now) ==> rows[id].nextRunAt.value <= rows[k].nextRunAt.value
  }

  function Claimed(rows: Rows, id: Id, now: int): Rows
    requires id in rows
  {
    rows[id := rows[id].(lastRunAt := Some(now), nextRunAt := Some(now + rows[id].intervalHours * HOUR))]
  }

  function Toggled(rows: Rows, id: Id, enabled: bool, at: int): Rows
    requires id in rows
  {
    var nextRunAt := if enabled then Some(at + rows[id].intervalHours * HOUR) else None;
    rows[id := rows[id].(enabled := enabled, nextRunAt := nextRunAt)]
  }

  function Created(rows: Rows, id: Id, hours: nat, enabled: bool, at: int): Rows {
    rows[id := Row(hours, enabled, Some(at + hours * HOUR), None)]
  }

  ghost predicate NothingDue(rows: Rows, locked: set<Id>, now: int) {
    forall k :: k in rows && k !in locked ==> !rows[k].Due(now)
  }

  /**
   * Among finitely many rows with a next run, one is oldest: the subquery finds a row while any is due and
   * unlocked.
   */
  lemma {:induction false} Oldest(rows: Rows, pool: set<Id>) returns (id: Id)
    requires pool != {} && forall k :: k in pool ==> k in rows && rows[k].nextRunAt.Some?
    ensures id in pool && forall k :: k in pool ==> rows[id].nextRunAt.value <= rows[k].nextRunAt.value
    decreases |pool|
  {
    var x :| x in pool;
    var rest := pool - {x};
    assert forall k :: k in pool ==> k == x || k in rest;
    if rest == {} {
      id := x;
    } else {
      id := Oldest(rows, rest);
      id := if rows[x].nextRunAt.value <= rows[id].nextRunAt.value then x else id;
    }
  }

  // ------------------------------------------------------------------ the service

  /** The rows after the claims `ids`, the i-th made at clock(i). */
  function AfterClaims(rows: Rows, ids: seq<Id>, clock: nat -> int): Rows {
    if ids == [] then rows
    else
      var before := AfterClaims(rows, ids[..|ids| - 1], clock);
      if ids[|ids| - 1] in before then Claimed(before, ids[|ids| - 1], clock(|ids| - 1)) else before
  }

  /** Each of the claims was possible when it was made. */
  ghost predicate AreClaims(rows: Rows, ids: seq<Id>, locked: nat -> set<Id>, clock: nat -> int) {
    ids == [] ||
    var n := |ids| - 1;
    && AreClaims(rows, ids[..n], locked, clock)
    && Claimable(AfterClaims(rows, ids[..n], clock), locked(n), clock(n), ids[n])
  }

  datatype Lookup = LookupThrew | NotFound | Website(isActive: bool, domainVerified: bool)

  /** How the calls that follow a claim answer, as far as they are made. */
  datatype Answers = Answers(website: Lookup, quotaOk: bool, scanStored: bool, jobQueued: bool)
  {
    predicate MayScan() {
      website.Website? && website.isActive && website.domainVerified && quotaOk
    }

    predicate StoresScan() { MayScan() && scanStored }

    predicate Enqueues() { StoresScan() && jobQueued }
  }

  function Count(p: Answers -> bool, answers: nat -> Answers, n: nat): nat {
    if n == 0 then 0 else Count(p, answers, n - 1) + (if p(answers(n - 1)) then 1 else 0)
  }

  /** The schedules for which a scan row is stored, in order. */
  function ScansOf(ids: seq<Id>, answers: nat -> Answers): seq<Id> {
    if ids == [] then []
    else
      var rest := ScansOf(ids[..|ids| - 1], answers);
      if answers(|ids| - 1).StoresScan() then rest + [ids[|ids| - 1]] else rest
  }

  /** The state of a pass: the claims made, the rows now, the scan rows stored and the jobs enqueued. */
  ghost predicate InPass(rows: Rows, ids: seq<Id>, locked: nat -> set<Id>, clock: nat -> int, answers: nat -> Answers,
                         now: Rows, scans: seq<Id>, enqueued: nat)
  {
    && AreClaims(rows, ids, locked, clock)
    && now == AfterClaims(rows, ids, clock)
    && scans == ScansOf(ids, answers)
    && enqueued == Count((a: Answers) => a.Enqueues(), answers, |ids|)
  }

  lemma OneMoreClaim(rows: Rows, ids: seq<Id>, locked: nat -> set<Id>, clock: nat -> int, answers: nat -> Answers,
                     now: Rows, scans: seq<Id>, enqueued: nat, id: Id, after: Rows)
    requires InPass(rows, ids, locked, clock, answers, now, scans, enqueued)
    requires Claimable(now, locked(|ids|), clock(|ids|), id) && after == Claimed(now, id, clock(|ids|))
    ensures InPass(rows, ids + [id], locked, clock, answers, after,
                   if answers(|ids|).StoresScan() then scans + [id] else scans,
                   if answers(|ids|).Enqueues() then enqueued + 1 else enqueued)
  {
    assert (ids + [id])[..|ids|] == ids;
  }

  class SchedulesService {
    var rows: Rows

    constructor ()
      ensures rows == map[]
    {
      rows := map[];
    }

    method Create(id: Id, intervalHours: Option<nat>, enabled: Option<bool>, at: int)
      modifies this
      ensures rows == Created(old(rows), id, intervalHours.GetOr(24), enabled.GetOr(true), at)
      ensures var hours := if intervalHours.Some? then intervalHours.value else 24;
              rows[id] == Row(hours, enabled != Some(false), Some(at + hours * 3600000), None)
    {
      var hours := intervalHours.GetOr(24);
      var nextRunAt := at + hours * HOUR;
      rows := rows[id := Row(hours, enabled.GetOr(true), Some(nextRunAt), None)];
    }

    /** False is the NotFoundException. */
    method SetEnabled(id: Id, enabled: bool, at: int) returns (found: bool)
      modifies this
      ensures found == (id in old(rows))
      ensures rows == if found then Toggled(old(rows), id, enabled, at) else old(rows)
      ensures rows.Keys == old(rows).Keys && forall k :: k in rows && k != id ==> rows[k] == old(rows)[k]
      ensures found ==>
                && rows[id].enabled == enabled && rows[id].lastRunAt == old(rows)[id].lastRunAt
                && rows[id].intervalHours == old(rows)[id].intervalHours
                && rows[id].nextRunAt == if enabled then Some(at + old(rows)[id].intervalHours * 3600000) else None
    {
      if id !in rows { return false; }
      var schedule := rows[id];
      var nextRunAt := if enabled then Some(at + schedule.intervalHours * HOUR) else None;
      rows := rows[id := schedule.(enabled := enabled, nextRunAt := nextRunAt)];
      return true;
    }

    method Remove(id: Id) returns (found: bool)
      modifies this
      ensures found == (id in old(rows))
      ensures rows == old(rows) - {id}
    {
      found := id in rows;
      rows := rows - {id};
    }

    method ClaimOneDueSchedule(locked: set<Id>, now: int) returns (claimed: Option<Id>)
      modifies this
      ensures claimed.None? ==> NothingDue(old(rows), locked, now) && rows == old(rows)
      ensures claimed.None? ==>
                forall k :: k in rows && k !in locked && rows[k].enabled && rows[k].nextRunAt.Some? ==>
                              now < rows[k].nextRunAt.value
      ensures claimed.Some? ==>
                var k := claimed.value;
                && k in old(rows) && k !in locked && old(rows)[k].enabled
                && old(rows)[k].nextRunAt.Some? && old(rows)[k].nextRunAt.value <= now
                && rows.Keys == old(rows).Keys && (forall i :: i in rows && i != k ==> rows[i] == old(rows)[i])
                && rows[k] == Row(old(rows)[k].intervalHours, true, Some(now + old(rows)[k].intervalHours * 3600000),
                   Some(now))
      ensures claimed.Some? ==>
                Claimable(old(rows), locked, now, claimed.value) && rows == Claimed(old(rows), claimed.value, now)
    {
      var due := set k | k in rows && k !in locked && rows[k].Due(now);
      if due == {} {
        assert forall k :: k in rows && k !in locked && rows[k].Due(now) ==> k in due;
        return None;
      }
      ghost var oldest := Oldest(rows, due);
      assert oldest in due && forall k :: k in rows && k !in locked && rows[k].Due(now) ==> k in due;
      var id :| id in due && forall k :: k in due ==> rows[id].nextRunAt.value <= rows[k].nextRunAt.value;
      var row := rows[id];
      rows := rows[id := row.(lastRunAt := Some(now), nextRunAt := Some(now + row.intervalHours * HOUR))];
      return Some(id);
    }

    /**
     * processDueSchedules. At its i-th claim the clock reads clock(i), other tickers hold locked(i)
     * and the calls that follow answer as in answers(i).
     */
    method ProcessDueSchedules(locked: nat -> set<Id>, clock: nat -> int, answers: nat -> Answers)
      returns (enqueued: nat, scans: seq<Id>, ghost ids: seq<Id>)
      modifies this
      ensures |ids| <= 20
      ensures AreClaims(old(rows), ids, locked, clock) && rows == AfterClaims(old(rows), ids, clock)
      ensures |ids| < 20 ==> NothingDue(rows, locked(|ids|), clock(|ids|))
      ensures scans == ScansOf(ids, answers)
      ensures enqueued == Count((a: Answers) => a.Enqueues(), answers, |ids|)
    {
      enqueued, scans, ids := 0, [], [];
      var i := 0;
      while i < CLAIMS_PER_PASS
        invariant i == |ids| <= CLAIMS_PER_PASS
        invariant InPass(old(rows), ids, locked, clock, answers, rows, scans, enqueued)
      {
        ghost var before := rows;
        var claimed := ClaimOneDueSchedule(locked(i), clock(i));
        if claimed.None? { break; }
        OneMoreClaim(old(rows), ids, locked, clock, answers, before, scans, enqueued, claimed.value, rows);
        ids := ids + [claimed.value];
        var stored, queued := ScanFor(answers(i));
        if stored { scans := scans + [claimed.value]; }
        if queued { enqueued := enqueued + 1; }
        i := i + 1;
      }
    }

    /** The part of an iteration after the claim: checks, the scan row, the job. A call that throws ends it. */
    method ScanFor(a: Answers) returns (stored: bool, queued: bool)
      ensures stored == a.StoresScan() && queued == a.Enqueues()
      ensures stored <==> a.website == Website(true, true) && a.quotaOk && a.scanStored
      ensures queued <==> stored && a.jobQueued
    {
      stored, queued := false, false;
      if a.website.LookupThrew? { return; }
      if a.website.NotFound? || !a.website.isActive || !a.website.domainVerified { return; }
      if !a.quotaOk { return; }
      if !a.scanStored { return; }
      stored := true;
      if !a.jobQueued { return; }
      queued := true;
    }
  }

  // ------------------------------------------------------------------ any number of tickers and callers

  /** What a schedule has done so far; it outlives the row. */
  datatype Log = Log(intervalHours: nat, claims: seq<int>)

  datatype State = State(rows: Rows, log: map<Id, Log>, clock: int)

  datatype Action =
    | Create(id: Id, hours: nat, enabled: bool, at: int)
    | SetEnabled(id: Id, on: bool, at: int)
    | Remove(id: Id)
    | Claim(id: Id, locked: set<Id>, now: int)
    | ClaimNone(locked: set<Id>, now: int)

  const INIT := State(map[], map[], 0)

  /** Ids are random and never reused; create-schedule.dto.ts demands an interval of at least an hour. */
  ghost predicate Enabled(s: State, a: Action, skew: nat) {
    match a
    case Create(id, hours, _, at) => id !in s.log && hours >= 1 && at >= s.clock - skew
    case SetEnabled(id, _, at) => id in s.rows && at >= s.clock - skew
    case Remove(id) => id in s.rows
    case Claim(id, locked, now) => now >= s.clock && Claimable(s.rows, locked, now, id) && id in s.log
    case ClaimNone(locked, now) => now >= s.clock && NothingDue(s.rows, locked, now)
  }

  ghost function Step(s: State, a: Action, skew: nat): State
    requires Enabled(s, a, skew)
  {
    match a
    case Create(id, hours, enabled, at) =>
      s.(rows := Created(s.rows, id, hours, enabled, at), log := s.log[id := Log(hours, [])])
    case SetEnabled(id, on, at) => s.(rows := Toggled(s.rows, id, on, at))
    case Remove(id) => s.(rows := s.rows - {id})
    case Claim(id, _, now) =>
      State(Claimed(s.rows, id, now), s.log[id := s.log[id].(claims := s.log[id].claims + [now])], now)
    case ClaimNone(_, now) => s.(clock := now)
  }

  ghost function Run(s: State, acts: seq<Action>, skew: nat): Option<State> {
    if acts == [] then Some(s)
    else match Run(s, acts[..|acts| - 1], skew)
         case Some(t) => if Enabled(t, acts[|acts| - 1], skew) then Some(Step(t, acts[|acts| - 1], skew)) else None
         case None => None
  }

  /** The claims keep their distance, and the next run is no nearer to the last claim than that. */
  ghost predicate KeepsDistance(l: Log, clock: int, skew: nat) {
    && l.intervalHours >= 1
    && Spaced(l.claims, l.intervalHours * HOUR - skew)
    && (l.claims != [] ==> l.claims[|l.claims| - 1] <= clock)
  }

  ghost predicate Waits(r: Row, l: Log, skew: nat) {
    && r.intervalHours == l.intervalHours
    && (l.claims != [] && r.nextRunAt.Some? ==>
          r.nextRunAt.value >= l.claims[|l.claims| - 1] + l.intervalHours * HOUR - skew)
  }

  ghost predicate Inv(s: State, skew: nat) {
    && (forall id :: id in s.log ==> KeepsDistance(s.log[id], s.clock, skew))
    && (forall id :: id in s.rows ==> id in s.log && Waits(s.rows[id], s.log[id], skew))
  }

  lemma StepKeepsInv(s: State, a: Action, skew: nat)
    requires Inv(s, skew) && Enabled(s, a, skew)
    ensures Inv(Step(s, a, skew), skew)
  {
    if a.Claim? {
      var l := s.log[a.id];
      assert Waits(s.rows[a.id], l, skew) && KeepsDistance(l, s.clock, skew);
      SpacedAppend(l.claims, a.now, l.intervalHours * HOUR - skew);
    }
  }

  lemma SpacedAppend(s: seq<int>, x: int, gap: int)
    requires Spaced(s, gap) && (s != [] ==> x - s[|s| - 1] >= gap)
    ensures Spaced(s + [x], gap)
  {
  }

  lemma {:induction false} RunKeepsInv(s: State, acts: seq<Action>, skew: nat)
    requires Inv(s, skew) && Run(s, acts, skew).Some?
    ensures Inv(Run(s, acts, skew).value, skew)
  {
    if acts != [] {
      RunKeepsInv(s, acts[..|acts| - 1], skew);
      StepKeepsInv(Run(s, acts[..|acts| - 1], skew).value, acts[|acts| - 1], skew);
    }
  }

  /**
   * Across any number of tickers and any history of enabling, disabling and removing, two claims
   * of one schedule are an interval apart, less the skew, and a window of length `width` holds at
   * most floor(width / that distance) + 1 of them.
   */
  lemma ClaimsAreSpaced(acts: seq<Action>, skew: nat, id: Id, a: int, width: nat)
    requires skew < HOUR && Run(INIT, acts, skew).Some? && id in Run(INIT, acts, skew).value.log
    ensures var l := Run(INIT, acts, skew).value.log[id];
            var gap := l.intervalHours * HOUR - skew;
            gap > 0 && Spaced(l.claims, gap) && CountIn(l.claims, a, a + width) <= width / gap + 1
  {
    RunKeepsInv(INIT, acts, skew);
    var l := Run(INIT, acts, skew).value.log[id];
    assert KeepsDistance(l, Run(INIT, acts, skew).value.clock, skew);
    WindowCount(l.claims, l.intervalHours * HOUR - skew, a, width);
  }

  // ------------------------------------------------------------------ disabled schedules

  predicate Enables(acts: seq<Action>, id: Id) {
    exists i :: 0 <= i < |acts| && acts[i].SetEnabled? && acts[i].id == id && acts[i].on
  }

  predicate Claims(a: Action, id: Id) {
    a.Claim? && a.id == id
  }

  ghost predicate Off(s: State, id: Id) {
    id in s.log && (id in s.rows ==> !s.rows[id].enabled)
  }

  lemma StepStaysOff(s: State, a: Action, skew: nat, id: Id)
    requires Off(s, id) && Enabled(s, a, skew) && !(a.SetEnabled? && a.id == id && a.on)
    ensures !Claims(a, id) && Off(Step(s, a, skew), id)
  {
  }

  /** A schedule that is disabled, or was created so, is not claimed until it is enabled. */
  lemma {:induction false} DisabledIsNotClaimed(s: State, acts: seq<Action>, skew: nat, id: Id)
    requires Off(s, id) && Run(s, acts, skew).Some? && !Enables(acts, id)
    ensures Off(Run(s, acts, skew).value, id)
    ensures forall i :: 0 <= i < |acts| ==> !Claims(acts[i], id)
  {
    if acts != [] {
      var front := acts[..|acts| - 1];
      assert forall i :: 0 <= i < |front| ==> front[i] == acts[i];
      DisabledIsNotClaimed(s, front, skew, id);
      StepStaysOff(Run(s, front, skew).value, acts[|acts| - 1], skew, id);
    }
  }

  // ------------------------------------------------------------------ no schedule starves

  /** The other schedules that oldest-first claiming may prefer to `r`. */
  ghost function Ahead(rows: Rows, r: Id): set<Id>
    requires r in rows && rows[r].nextRunAt.Some?
  {
    set k | k in rows && k != r && rows[k].Due(rows[r].nextRunAt.value)
  }

  predicate Touches(a: Action, r: Id) {
    match a
    case SetEnabled(id, _, _) => id == r
    case Remove(id) => id == r
    case Claim(id, _, _) => id == r
    case _ => false
  }

  predicate AsksWithout(a: Action, r: Id) {
    (a.Claim? || a.ClaimNone?) && r !in a.locked
  }

  /** The claim queries, successful or not, that ran while `r` was not locked. */
  function Asked(acts: seq<Action>, r: Id): nat {
    if acts == [] then 0
    else Asked(acts[..|acts| - 1], r) + (if AsksWithout(acts[|acts| - 1], r) then 1 else 0)
  }

  predicate Untouched(acts: seq<Action>, r: Id) {
    forall i :: 0 <= i < |acts| ==> !Touches(acts[i], r)
  }

  ghost predicate DueNow(s: State, r: Id) {
    r in s.rows && s.rows[r].Due(s.clock)
  }

  /**
   * A step that leaves `r` alone adds nobody ahead of it, and a query that could have taken `r` takes somebody
   * ahead of it.
   */
  lemma StepShrinksAhead(s: State, a: Action, skew: nat, r: Id)
    requires Inv(s, skew) && skew < HOUR && Enabled(s, a, skew) && DueNow(s, r) && !Touches(a, r)
    ensures var t := Step(s, a, skew);
            && DueNow(t, r) && t.rows[r] == s.rows[r]
            && Ahead(t.rows, r) <= Ahead(s.rows, r)
            && (AsksWithout(a, r) ==> Ahead(t.rows, r) < Ahead(s.rows, r))
  {
    var t := Step(s, a, skew);
    if a.Claim? {
      assert Waits(s.rows[a.id], s.log[a.id], skew) && KeepsDistance(s.log[a.id], s.clock, skew);
      if AsksWithout(a, r) {
        assert a.id in Ahead(s.rows, r) && a.id !in Ahead(t.rows, r);
      }
    } else if a.SetEnabled? {
      assert Waits(s.rows[a.id], s.log[a.id], skew) && KeepsDistance(s.log[a.id], s.clock, skew);
    }
  }

  /**
   * Starvation-freedom: while an enabled due schedule waits, at most as many queries pass it over
   * unlocked as there were schedules ahead of it, and that number never grows.
   */
  lemma {:induction false} NoStarvation(s: State, acts: seq<Action>, skew: nat, r: Id)
    requires Inv(s, skew) && skew < HOUR && DueNow(s, r) && Run(s, acts, skew).Some? && Untouched(acts, r)
    ensures var t := Run(s, acts, skew).value;
            && DueNow(t, r) && t.rows[r] == s.rows[r]
            && Ahead(t.rows, r) <= Ahead(s.rows, r)
            && Asked(acts, r) + |Ahead(t.rows, r)| <= |Ahead(s.rows, r)|
  {
    if acts != [] {
      var front, a := acts[..|acts| - 1], acts[|acts| - 1];
      var m := Run(s, front, skew).value;
      NoStarvation(s, front, skew, r);
      RunKeepsInv(s, front, skew);
      StepShrinksAhead(m, a, skew, r);
      SubsetCardinality(Ahead(Step(m, a, skew).rows, r), Ahead(m.rows, r));
      if AsksWithout(a, r) {
        StrictSubset(Ahead(Step(m, a, skew).rows, r), Ahead(m.rows, r));
      }
    }
  }

  lemma StrictSubset(a: set<Id>, b: set<Id>)
    requires a < b
    ensures |a| < |b|
  {
    var x :| x in b && x !in a;
    SubsetCardinality(a, b - {x});
  }

  // ------------------------------------------------------------------ one pass

  ghost predicate Advances(clock: nat -> int, n: nat) {
    forall i, j :: 0 <= i <= j < n ==> clock(i) <= clock(j) < clock(i) + HOUR
  }

  /** No schedule is claimed twice, and each that is has its next run an hour or more after the claim. */
  ghost predicate Served(rows: Rows, ids: seq<Id>, clock: nat -> int, after: Rows) {
    && NoDup(ids)
    && (forall k :: k in after ==> after[k].intervalHours >= 1)
    && (forall i :: 0 <= i < |ids| ==> ids[i] in after && after[ids[i]].nextRunAt.GetOr(clock(i)) >= clock(i) + HOUR)
    && (forall k :: k in rows && k !in ids ==> k in after && after[k] == rows[k])
  }

  lemma ServedStep(rows: Rows, ids: seq<Id>, id: Id, locked: set<Id>, clock: nat -> int, before: Rows)
    requires Served(rows, ids, clock, before) && Claimable(before, locked, clock(|ids|), id)
    requires Advances(clock, |ids| + 1)
    ensures Served(rows, ids + [id], clock, Claimed(before, id, clock(|ids|)))
  {
    var n := |ids|;
    forall i | 0 <= i < n ensures ids[i] != id {
      assert clock(i) <= clock(n) < clock(i) + HOUR;
    }
    var after := Claimed(before, id, clock(n));
    forall i | 0 <= i <= n
      ensures (ids + [id])[i] in after
      ensures after[(ids + [id])[i]].nextRunAt.GetOr(clock(i)) >= clock(i) + HOUR
    {
      if i < n {
        assert (ids + [id])[i] == ids[i] && after[ids[i]] == before[ids[i]];
      }
    }
  }

  /** A pass that takes less than an hour claims no schedule twice and changes no other, whatever other tickers hold. */
  lemma {:induction false} PassIsDistinct(rows: Rows, ids: seq<Id>, locked: nat -> set<Id>, clock: nat -> int)
    requires AreClaims(rows, ids, locked, clock) && Advances(clock, |ids|)
    requires forall k :: k in rows ==> rows[k].intervalHours >= 1
    ensures Served(rows, ids, clock, AfterClaims(rows, ids, clock))
  {
    if ids != [] {
      var n := |ids| - 1;
      var front := ids[..n];
      PassIsDistinct(rows, front, locked, clock);
      ServedStep(rows, front, ids[n], locked(n), clock, AfterClaims(rows, front, clock));
      Snoc(ids);
    }
  }
}
