/**
 * The life of scan rows under scan.processor.ts, scans.service.ts and
 * scan-reaper.service.ts. Every awaited database or queue call is one step; worker attempts
 * (first tries, retries, stalled duplicates), API calls, the reaper, deletions, failing
 * calls and crashes interleave freely.
 */
module ScanProtocol {
  import opened Prelude

  type ScanId = nat
  type Job = nat     // one worker attempt
  type Call = nat    // one cancel request

  datatype Status = Queued | Running | Completed | Failed | Cancelled

  datatype Row = Row(
    status: Status,
    startedAt: Option<int>,
    completedAt: Option<int>,
    error: Option<string>,
    hasReport: bool,
    commits: nat)        // history: reports committed for this scan

  datatype Result = Done | ResultFailed | ResultCancelled

  /** The next step of an attempt that found its scan worth processing. */
  datatype Pc =
    | Acquiring
    | Starting
    | Scanning
    | Rereading(result: Result)
    | Reporting(cancelled: bool)   // the scanner itself answered failed or cancelled
    | Committing
    | Catching
    | Releasing

  datatype Attempt = Attempt(scan: ScanId, pc: Pc)

  datatype State = State(
    rows: map<ScanId, Row>,
    born: set<ScanId>,             // ids ever used; row ids are random
    creating: set<ScanId>,         // created, enqueue not yet answered
    jobs: map<ScanId, bool>,       // jobs ever stored in the queue; false once removed
    cancelling: map<Call, ScanId>, // cancel requests between their read and their write
    attempts: map<Job, Attempt>,
    taken: nat,                    // history: organization slots acquired,
    given: nat,                    // released,
    lost: nat)                     // and lost with a crashed worker or a rejected release

  datatype Action =
    | Create(x: ScanId)
    | StoreJob(x: ScanId)          // the queue takes the job; the answer may come later, or not at all
    | EnqueueOk(x: ScanId)
    | EnqueueFails(x: ScanId, now: int)
    | Strand(x: ScanId)            // enqueue throws and the row is left as it is
    | RemoveJob(x: ScanId)         // by a cancel request, or because its attempts are used up
    | CancelRead(c: Call, x: ScanId)
    | CancelWrite(c: Call, now: int)
    | Reap(cutoff: int, now: int)
    | Delete(x: ScanId)
    | Begin(j: Job, x: ScanId)
    | Acquired(j: Job)
    | Deferred(j: Job)
    | Start(j: Job, now: int)
    | ScanEnds(j: Job, result: Result)
    | Reread(j: Job)
    | Report(j: Job, now: int)
    | Commit(j: Job, now: int)
    | CatchWrite(j: Job, now: int, message: string)
    | Throws(j: Job)
    | Release(j: Job)
    | ReleaseFails(j: Job)
    | Crash(j: Job)

  const INIT := State(map[], {}, {}, map[], map[], map[], 0, 0, 0)

  predicate PcIs(s: State, j: Job, pc: Pc) {
    j in s.attempts && s.attempts[j].pc == pc
  }

  function StatusOf(s: State, x: ScanId): Option<Status> {
    if x in s.rows then Some(s.rows[x].status) else None
  }

  /** The queue holds a job for the scan. */
  predicate HasJob(s: State, x: ScanId) {
    x in s.jobs && s.jobs[x]
  }

  predicate Enabled(s: State, a: Action) {
    match a
    case Create(x) => x !in s.born
    case StoreJob(x) => x in s.creating && x !in s.jobs
    case EnqueueOk(x) => x in s.creating && x in s.jobs
    case EnqueueFails(x, _) => x in s.creating
    case Strand(x) => x in s.creating
    case RemoveJob(x) => HasJob(s, x)
    case CancelRead(c, x) => c !in s.cancelling && StatusOf(s, x) in {Some(Queued), Some(Running)}
    case CancelWrite(c, _) => c in s.cancelling
    case Reap(_, _) => true
    case Delete(x) => x in s.rows
    case Begin(j, x) => j !in s.attempts && HasJob(s, x)
    case Acquired(j) => PcIs(s, j, Acquiring)
    case Deferred(j) => PcIs(s, j, Acquiring)
    case Start(j, _) => PcIs(s, j, Starting)
    case ScanEnds(j, _) => PcIs(s, j, Scanning)
    case Reread(j) => j in s.attempts && s.attempts[j].pc.Rereading?
    case Report(j, _) => j in s.attempts && s.attempts[j].pc.Reporting?
    case Commit(j, _) => PcIs(s, j, Committing)
    case CatchWrite(j, _, _) => PcIs(s, j, Catching)
    case Throws(j) => j in s.attempts && !s.attempts[j].pc.Acquiring? && !s.attempts[j].pc.Releasing?
    case Release(j) => PcIs(s, j, Releasing)
    case ReleaseFails(j) => PcIs(s, j, Releasing)
    case Crash(j) => j in s.attempts
  }

  // ------------------------------------------------------------------ the row writes

  function MarkFailed(r: Row, now: int, error: string): Row {
    r.(status := Failed, completedAt := Some(now), error := Some(error))
  }

  function MarkCancelled(r: Row, now: int, error: string): Row {
    r.(status := Cancelled, completedAt := Some(now), error := Some(error))
  }

  function MarkRunning(r: Row, now: int): Row {
    r.(status := Running, startedAt := Some(now), error := None)
  }

  /** The transaction's two writes; it is rolled back when the scan already has a report. */
  function MarkCompleted(r: Row, now: int): Row
    requires !r.hasReport
  {
    r.(status := Completed, completedAt := Some(now), error := None, hasReport := true, commits := r.commits + 1)
  }

  predicate Stuck(r: Row, cutoff: int) {
    r.status == Running && r.startedAt.Some? && r.startedAt.value < cutoff
  }

  /** Moves an attempt on. */
  function Goto(s: State, j: Job, pc: Pc): State
    requires j in s.attempts
  {
    s.(attempts := s.attempts[j := s.attempts[j].(pc := pc)])
  }

  /** An update of one row; on a missing row the call throws and the attempt goes to `otherwise`. */
  function Write(s: State, j: Job, x: ScanId, r: Row, pc: Pc): State
    requires j in s.attempts
  {
    Goto(s, j, pc).(rows := s.rows[x := r])
  }

  function AfterReread(status: Option<Status>, result: Result): Pc {
    if status == Some(Cancelled) then Releasing
    else match result
         case Done => Committing
         case ResultFailed => Reporting(false)
         case ResultCancelled => Reporting(true)
  }

  function Step(s: State, a: Action): State
    requires Enabled(s, a)
  {
    match a
    case Create(x) =>
      s.(rows := s.rows[x := Row(Queued, None, None, None, false, 0)], born := s.born + {x},
          creating := s.creating + {x})
    case StoreJob(x) => s.(jobs := s.jobs[x := true])
    case EnqueueOk(x) => s.(creating := s.creating - {x})
    case Strand(x) => s.(creating := s.creating - {x})
    case RemoveJob(x) => s.(jobs := s.jobs[x := false])
    case EnqueueFails(x, now) =>
      var t := s.(creating := s.creating - {x});
      if x in s.rows then t.(rows := s.rows[x := MarkFailed(s.rows[x], now, "Failed to enqueue scan job")]) else t
    case CancelRead(c, x) => s.(cancelling := s.cancelling[c := x])
    case CancelWrite(c, now) =>
      var x, t := s.cancelling[c], s.(cancelling := s.cancelling - {c});
      if x in s.rows then t.(rows := s.rows[x := MarkCancelled(s.rows[x], now, "Cancelled by user")]) else t
    case Reap(cutoff, now) =>
      s.(rows := map x | x in s.rows ::
                   if Stuck(s.rows[x], cutoff) then MarkFailed(s.rows[x], now, "Marked failed by reaper")
                   else s.rows[x])
    case Delete(x) => s.(rows := s.rows - {x})
    case Begin(j, x) =>
      if x !in s.rows || s.rows[x].status in {Cancelled, Completed} then s
      else s.(attempts := s.attempts[j := Attempt(x, Acquiring)])
    case Acquired(j) => Goto(s, j, Starting).(taken := s.taken + 1)
    case Deferred(j) => s.(attempts := s.attempts - {j})
    case Start(j, now) =>
      var x := s.attempts[j].scan;
      if x in s.rows then Write(s, j, x, MarkRunning(s.rows[x], now), Scanning) else Goto(s, j, Catching)
    case ScanEnds(j, result) => Goto(s, j, Rereading(result))
    case Reread(j) => Goto(s, j, AfterReread(StatusOf(s, s.attempts[j].scan), s.attempts[j].pc.result))
    case Report(j, now) =>
      var x := s.attempts[j].scan;
      if x !in s.rows then Goto(s, j, Catching)
      else if s.attempts[j].pc.cancelled then Write(s, j, x, MarkCancelled(s.rows[x], now, "Scan failed"), Releasing)
      else Write(s, j, x, MarkFailed(s.rows[x], now, "Scan failed"), Releasing)
    case Commit(j, now) =>
      var x := s.attempts[j].scan;
      if x in s.rows && !s.rows[x].hasReport then Write(s, j, x, MarkCompleted(s.rows[x], now), Releasing)
      else Goto(s, j, Catching)
    case CatchWrite(j, now, message) =>
      var x := s.attempts[j].scan;
      if x in s.rows then Write(s, j, x, MarkFailed(s.rows[x], now, message), Releasing) else Goto(s, j, Releasing)
    case Throws(j) => Goto(s, j, if s.attempts[j].pc.Catching? then Releasing else Catching)
    case Release(j) => s.(attempts := s.attempts - {j}, given := s.given + 1)
    case ReleaseFails(j) => s.(attempts := s.attempts - {j}, lost := s.lost + 1)
    case Crash(j) =>
      s.(attempts := s.attempts - {j}, lost := s.lost + (if s.attempts[j].pc.Acquiring? then 0 else 1))
  }

  /** The state after a run from `s`; None when some action was not possible. */
  function Run(s: State, acts: seq<Action>): Option<State> {
    if acts == [] then Some(s)
    else match Run(s, acts[..|acts| - 1])
         case Some(t) => if Enabled(t, acts[|acts| - 1]) then Some(Step(t, acts[|acts| - 1])) else None
         case None => None
  }

  // ------------------------------------------------------------------ what every run keeps

  ghost predicate RowOk(r: Row) {
    && (r.status == Completed ==> r.hasReport)
    && r.commits == (if r.hasReport then 1 else 0)
    && (r.error == None <==> r.status in {Queued, Running, Completed})
    && (r.status in {Completed, Failed, Cancelled} ==> r.completedAt.Some?)
    && (r.status == Running ==> r.startedAt.Some?)
  }

  ghost predicate Inv(s: State) {
    && (forall x :: x in s.rows ==> RowOk(s.rows[x]))
    && s.rows.Keys <= s.born
  }

  lemma StepKeepsInv(s: State, a: Action)
    requires Inv(s) && Enabled(s, a)
    ensures Inv(Step(s, a))
  {
  }

  /** In every run: reports, errors and timestamps match the status, and at most one report commits. */
  lemma {:induction false} EveryRunConsistent(acts: seq<Action>)
    requires Run(INIT, acts).Some?
    ensures Inv(Run(INIT, acts).value)
  {
    if acts != [] {
      EveryRunConsistent(acts[..|acts| - 1]);
      StepKeepsInv(Run(INIT, acts[..|acts| - 1]).value, acts[|acts| - 1]);
    }
  }

  ghost predicate HasLeft(s: State, x: ScanId) {
    x in s.born && StatusOf(s, x) != Some(Queued)
  }

  lemma StepNeverRequeues(s: State, a: Action, x: ScanId)
    requires Enabled(s, a) && HasLeft(s, x)
    ensures HasLeft(Step(s, a), x)
  {
  }

  /** Once a scan has left QUEUED no run takes it back. */
  lemma {:induction false} NeverRequeued(s: State, acts: seq<Action>, x: ScanId)
    requires HasLeft(s, x) && Run(s, acts).Some?
    ensures HasLeft(Run(s, acts).value, x)
  {
    if acts != [] {
      NeverRequeued(s, acts[..|acts| - 1], x);
      StepNeverRequeues(Run(s, acts[..|acts| - 1]).value, acts[|acts| - 1], x);
    }
  }

  /** Attempts inside the try block, which own an organization slot. */
  ghost function SlotOwners(s: State): set<Job> {
    set j | j in s.attempts && !s.attempts[j].pc.Acquiring?
  }

  lemma OwnersAfter(s: State, a: Action)
    requires Enabled(s, a)
    ensures SlotOwners(Step(s, a))
         == match a
            case Acquired(j) => SlotOwners(s) + {j}
            case Release(j) => SlotOwners(s) - {j}
            case ReleaseFails(j) => SlotOwners(s) - {j}
            case Crash(j) => SlotOwners(s) - {j}
            case _ => SlotOwners(s)
  {
  }

  /** Every way out of the try block gives its slot back exactly once; only a crash or a rejected release loses one. */
  lemma {:induction false} SlotsBalance(acts: seq<Action>)
    requires Run(INIT, acts).Some?
    ensures var s := Run(INIT, acts).value; s.taken == s.given + s.lost + |SlotOwners(s)|
  {
    if acts != [] {
      SlotsBalance(acts[..|acts| - 1]);
      OwnersAfter(Run(INIT, acts[..|acts| - 1]).value, acts[|acts| - 1]);
    } else {
      assert SlotOwners(INIT) == {};
    }
  }

  // ------------------------------------------------------------------ when a verdict is final

  /** Something in flight may still write the row of `x` without looking at its status again. */
  ghost predicate Threatened(s: State, x: ScanId) {
    || x in s.creating
    || exists j :: j in s.attempts && s.attempts[j].scan == x && !s.attempts[j].pc.Releasing?
  }

  ghost predicate BeingCancelled(s: State, x: ScanId) {
    exists c :: c in s.cancelling && s.cancelling[c] == x
  }

  /** No continuation changes the status of `x`; deleting the row is the only way out. */
  ghost predicate Final(s: State, x: ScanId, status: Status) {
    forall acts :: Run(s, acts).Some? ==> StatusOf(Run(s, acts).value, x) in {None, Some(status)}
  }

  ghost predicate Quiet(s: State, x: ScanId, status: Status) {
    && x in s.born
    && StatusOf(s, x) in {None, Some(status)}
    && !Threatened(s, x)
    && (status == Completed ==> !BeingCancelled(s, x))
  }

  lemma StepKeepsQuiet(s: State, a: Action, x: ScanId, status: Status)
    requires status in {Cancelled, Completed}
    requires Quiet(s, x, status) && Enabled(s, a)
    ensures Quiet(Step(s, a), x, status)
  {
    StaysUnthreatened(s, a, x);
    StatusStays(s, a, x, status);
    if status == Completed {
      StaysUncancelled(s, a, x);
    }
  }

  /** While the queue has no job for a scan, or workers leave it alone for its status, nothing new threatens it. */
  lemma StaysUnthreatened(s: State, a: Action, x: ScanId)
    requires x in s.born && !Threatened(s, x) && Enabled(s, a)
    requires HasJob(s, x) ==> StatusOf(s, x) in {None, Some(Cancelled), Some(Completed)}
    ensures !Threatened(Step(s, a), x)
  {
    var t := Step(s, a);
    assert x !in t.creating;
    forall j | j in t.attempts && t.attempts[j].scan == x ensures t.attempts[j].pc.Releasing? {
      if j in s.attempts {
        assert t.attempts[j].scan == s.attempts[j].scan;
      }
    }
  }

  lemma StaysUncancelled(s: State, a: Action, x: ScanId)
    requires StatusOf(s, x) in {None, Some(Completed)} && !BeingCancelled(s, x) && Enabled(s, a)
    ensures !BeingCancelled(Step(s, a), x)
  {
  }

  lemma StatusStays(s: State, a: Action, x: ScanId, status: Status)
    requires status in {Cancelled, Completed}
    requires Quiet(s, x, status) && Enabled(s, a)
    ensures x in Step(s, a).born && StatusOf(Step(s, a), x) in {None, Some(status)}
  {
    RowStays(s, a, x);
    if a.CancelWrite? && s.cancelling[a.c] == x {
      assert BeingCancelled(s, x);
    }
  }

  /** The row an action of a worker or of a create request may write. */
  function Target(s: State, a: Action): Option<ScanId>
    requires Enabled(s, a)
  {
    match a
    case EnqueueFails(x, _) => Some(x)
    case Start(j, _) => Some(s.attempts[j].scan)
    case Report(j, _) => Some(s.attempts[j].scan)
    case Commit(j, _) => Some(s.attempts[j].scan)
    case CatchWrite(j, _, _) => Some(s.attempts[j].scan)
    case _ => None
  }

  lemma TargetIsThreatened(s: State, a: Action, x: ScanId)
    requires Enabled(s, a) && Target(s, a) == Some(x)
    ensures Threatened(s, x)
  {
  }

  lemma OthersStay(s: State, a: Action, x: ScanId)
    requires x in s.born && Enabled(s, a) && Target(s, a) != Some(x)
    ensures x in Step(s, a).born
    ensures x in Step(s, a).rows ==>
              && x in s.rows
              && (|| Step(s, a).rows[x] == s.rows[x]
                  || (a.CancelWrite? && s.cancelling[a.c] == x && Step(s, a).rows[x].status == Cancelled)
                  || (a.Reap? && s.rows[x].status == Running))
  {
  }

  /** Who may write the row of a scan that nothing threatens: a cancel request, the reaper, a deletion. */
  lemma RowStays(s: State, a: Action, x: ScanId)
    requires x in s.born && !Threatened(s, x) && Enabled(s, a)
    ensures x in Step(s, a).born
    ensures x in Step(s, a).rows ==>
              && x in s.rows
              && (|| Step(s, a).rows[x] == s.rows[x]
                  || (a.CancelWrite? && s.cancelling[a.c] == x && Step(s, a).rows[x].status == Cancelled)
                  || (a.Reap? && s.rows[x].status == Running))
  {
    if Target(s, a) == Some(x) {
      TargetIsThreatened(s, a, x);
    }
    OthersStay(s, a, x);
  }

  lemma {:induction false} QuietIsFinal(s: State, acts: seq<Action>, x: ScanId, status: Status)
    requires status in {Cancelled, Completed}
    requires Quiet(s, x, status) && Run(s, acts).Some?
    ensures Quiet(Run(s, acts).value, x, status)
  {
    if acts != [] {
      QuietIsFinal(s, acts[..|acts| - 1], x, status);
      StepKeepsQuiet(Run(s, acts[..|acts| - 1]).value, acts[|acts| - 1], x, status);
    }
  }

  /** One more action after a run. */
  lemma Then(s: State, acts: seq<Action>, a: Action) returns (more: seq<Action>)
    requires Run(s, acts).Some? && Enabled(Run(s, acts).value, a)
    ensures more == acts + [a] && Run(s, more) == Some(Step(Run(s, acts).value, a))
  {
    more := acts + [a];
    assert more[..|acts|] == acts;
  }

  /** A run that overwrites the verdict of a threatened scan. */
  lemma Overwrite(s: State, x: ScanId) returns (acts: seq<Action>)
    requires x in s.rows && Threatened(s, x)
    ensures Run(s, acts).Some? && StatusOf(Run(s, acts).value, x) in {Some(Failed), Some(Running)}
  {
    if x in s.creating {
      acts := Then(s, [], EnqueueFails(x, 0));
    } else {
      var j :| j in s.attempts && s.attempts[j].scan == x && !s.attempts[j].pc.Releasing?;
      match s.attempts[j].pc {
        case Acquiring =>
          acts := Then(s, [], Acquired(j));
          acts := Then(s, acts, Start(j, 0));
        case Starting =>
          acts := Then(s, [], Start(j, 0));
        case Catching =>
          acts := Then(s, [], CatchWrite(j, 0, ""));
        case _ =>
          acts := Then(s, [], Throws(j));
          acts := Then(s, acts, CatchWrite(j, 0, ""));
      }
    }
  }

  /**
   * CANCELLED is not absorbing: a cancelled scan stays cancelled in every continuation exactly
   * when no enqueue answer and no worker attempt past its first read is outstanding for it.
   */
  lemma CancelledFinalIff(s: State, x: ScanId)
    requires Inv(s) && StatusOf(s, x) == Some(Cancelled)
    ensures Final(s, x, Cancelled) <==> !Threatened(s, x)
  {
    if Threatened(s, x) {
      var acts := Overwrite(s, x);
      assert Run(s, acts).Some?;
    } else {
      forall acts | Run(s, acts).Some?
        ensures StatusOf(Run(s, acts).value, x) in {None, Some(Cancelled)}
      {
        QuietIsFinal(s, acts, x, Cancelled);
      }
    }
  }

  /** The same for COMPLETED, where a cancel request that has already read the row counts too. */
  lemma CompletedFinalIff(s: State, x: ScanId)
    requires Inv(s) && StatusOf(s, x) == Some(Completed)
    ensures Final(s, x, Completed) <==> !Threatened(s, x) && !BeingCancelled(s, x)
  {
    if Threatened(s, x) {
      var acts := Overwrite(s, x);
      assert Run(s, acts).Some?;
    } else if BeingCancelled(s, x) {
      var c :| c in s.cancelling && s.cancelling[c] == x;
      var acts := Then(s, [], CancelWrite(c, 0));
    } else {
      forall acts | Run(s, acts).Some?
        ensures StatusOf(Run(s, acts).value, x) in {None, Some(Completed)}
      {
        QuietIsFinal(s, acts, x, Completed);
      }
    }
  }

  // ------------------------------------------------------------------ the look before the verdict

  /** An attempt that reads CANCELLED after its scan turns to its release ... */
  lemma RereadSeesCancel(s: State, j: Job)
    requires Enabled(s, Reread(j)) && StatusOf(s, s.attempts[j].scan) == Some(Cancelled)
    ensures var t := Step(s, Reread(j)); t.rows == s.rows && t.attempts == s.attempts[j := t.attempts[j]]
    ensures Step(s, Reread(j)).attempts[j] == Attempt(s.attempts[j].scan, Releasing)
  {
  }

  /** ... and can only release its slot or crash from there. */
  lemma ReleasingOnlyLeaves(s: State, a: Action, j: Job)
    requires Enabled(s, a) && PcIs(s, j, Releasing)
    ensures if a in {Release(j), ReleaseFails(j), Crash(j)} then j !in Step(s, a).attempts
            else j in Step(s, a).attempts && Step(s, a).attempts[j] == s.attempts[j]
  {
  }

  /** A scan cancelled while its last attempt was running stays cancelled once that attempt has looked. */
  lemma RereadKeepsCancel(s: State, j: Job, x: ScanId)
    requires Inv(s) && Enabled(s, Reread(j)) && s.attempts[j].scan == x && StatusOf(s, x) == Some(Cancelled)
    requires x !in s.creating
    requires forall k :: k in s.attempts && k != j && s.attempts[k].scan == x ==> s.attempts[k].pc.Releasing?
    ensures Final(Step(s, Reread(j)), x, Cancelled)
  {
    var t := Step(s, Reread(j));
    RereadSeesCancel(s, j);
    StepKeepsInv(s, Reread(j));
    CancelledFinalIff(t, x);
  }

  /** Any other status lets the attempt write what the scanner answered. */
  lemma RereadGoesOn(s: State, j: Job, now: int)
    requires Enabled(s, Reread(j)) && s.attempts[j].scan in s.rows
    requires StatusOf(s, s.attempts[j].scan) != Some(Cancelled)
    ensures var result, x := s.attempts[j].pc.result, s.attempts[j].scan;
            var last := if result == Done then Commit(j, now) else Report(j, now);
            var r := Run(s, [Reread(j), last]);
            && r.Some? && x in r.value.rows
            && (result == Done && !s.rows[x].hasReport ==>
                  r.value.rows[x].status == Completed && r.value.rows[x].hasReport)
            && (result == Done && s.rows[x].hasReport ==> r.value.rows[x] == s.rows[x])
            && (result == ResultFailed ==> r.value.rows[x].status == Failed)
            && (result == ResultCancelled ==> r.value.rows[x].status == Cancelled)
  {
    var last := if s.attempts[j].pc.result == Done then Commit(j, now) else Report(j, now);
    var one := Then(s, [], Reread(j));
    var two := Then(s, one, last);
    assert [Reread(j), last] == [] + [Reread(j)] + [last];
  }

  /** A worker takes up a stored scan, a failed one for another try included, unless it is CANCELLED or COMPLETED. */
  lemma BeginMeaning(s: State, j: Job, x: ScanId)
    requires Enabled(s, Begin(j, x))
    ensures if x in s.rows && s.rows[x].status != Cancelled && s.rows[x].status != Completed then
              Step(s, Begin(j, x)).attempts == s.attempts[j := Attempt(x, Acquiring)]
            else Step(s, Begin(j, x)) == s
  {
  }

  /** A user can cancel a scan that is QUEUED or RUNNING, and no other. */
  lemma CancelMeaning(s: State, c: Call, x: ScanId, now: int)
    requires c !in s.cancelling && x in s.rows
    ensures if s.rows[x].status in {Queued, Running} then
              var r := Run(s, [CancelRead(c, x), CancelWrite(c, now)]);
              r.Some? && x in r.value.rows && r.value.rows[x].status == Cancelled
              && r.value.rows[x].completedAt == Some(now) && r.value.rows[x].error == Some("Cancelled by user")
            else !Enabled(s, CancelRead(c, x))
  {
    if s.rows[x].status in {Queued, Running} {
      var one := Then(s, [], CancelRead(c, x));
      var two := Then(s, one, CancelWrite(c, now));
      assert [CancelRead(c, x), CancelWrite(c, now)] == [] + [CancelRead(c, x)] + [CancelWrite(c, now)];
    }
  }

  /** What each write records. */
  lemma WriteMeaning(s: State, a: Action, j: Job, x: ScanId, now: int, message: string)
    requires Enabled(s, a) && x in s.rows && j in s.attempts && s.attempts[j].scan == x
    ensures var r := s.rows[x];
            && (a == Start(j, now) ==>
                  Step(s, a).rows[x] == Row(Running, Some(now), r.completedAt, None, r.hasReport, r.commits))
            && (a == CatchWrite(j, now, message) ==>
                  Step(s, a).rows[x] == Row(Failed, r.startedAt, Some(now), Some(message), r.hasReport, r.commits))
            && (a == Commit(j, now) && !r.hasReport ==>
                  Step(s, a).rows[x] == Row(Completed, r.startedAt, Some(now), None, true, r.commits + 1))
            && (a == EnqueueFails(x, now) ==>
                  Step(s, a).rows[x]
                  == Row(Failed, r.startedAt, Some(now), Some("Failed to enqueue scan job"), r.hasReport, r.commits))
  {
  }

  /** The reaper fails exactly the rows that have been RUNNING since before the cutoff, and touches no other. */
  lemma ReapMeaning(s: State, cutoff: int, now: int, x: ScanId)
    requires x in s.rows
    ensures Step(s, Reap(cutoff, now)).rows.Keys == s.rows.Keys
    ensures var r, t := s.rows[x], Step(s, Reap(cutoff, now)).rows[x];
            if r.status == Running && r.startedAt.Some? && r.startedAt.value < cutoff then
              t.status == Failed && t.completedAt == Some(now) && t.error.Some? && t.hasReport == r.hasReport
            else t == r
  {
  }

  // ------------------------------------------------------------------ scans that are never processed

  /** No continuation gets past QUEUED, except that a user may cancel or delete the scan. */
  ghost predicate NeverProcessed(s: State, x: ScanId) {
    forall acts :: Run(s, acts).Some? ==> StatusOf(Run(s, acts).value, x) in {None, Some(Queued), Some(Cancelled)}
  }

  /** Without a job and with nothing in flight there is nobody to process the scan. */
  ghost predicate Stranded(s: State, x: ScanId) {
    && x in s.born && StatusOf(s, x) in {None, Some(Queued), Some(Cancelled)}
    && !HasJob(s, x) && !Threatened(s, x)
  }

  lemma StepKeepsStranded(s: State, a: Action, x: ScanId)
    requires Stranded(s, x) && Enabled(s, a)
    ensures Stranded(Step(s, a), x)
  {
    StaysUnthreatened(s, a, x);
    StaysUnprocessed(s, a, x);
  }

  lemma StaysUnprocessed(s: State, a: Action, x: ScanId)
    requires Stranded(s, x) && Enabled(s, a)
    ensures var t := Step(s, a); x in t.born && StatusOf(t, x) in {None, Some(Queued), Some(Cancelled)} && !HasJob(t, x)
  {
    RowStays(s, a, x);
    assert x !in s.creating;
  }

  lemma {:induction false} StrandedStays(s: State, acts: seq<Action>, x: ScanId)
    requires Stranded(s, x) && Run(s, acts).Some?
    ensures Stranded(Run(s, acts).value, x)
  {
    if acts != [] {
      StrandedStays(s, acts[..|acts| - 1], x);
      StepKeepsStranded(Run(s, acts[..|acts| - 1]).value, acts[|acts| - 1], x);
    }
  }

  /** A worker takes up a queued scan that has a job. */
  lemma Process(s: State, x: ScanId) returns (acts: seq<Action>)
    requires StatusOf(s, x) == Some(Queued) && HasJob(s, x)
    ensures Run(s, acts).Some? && StatusOf(Run(s, acts).value, x) == Some(Running)
  {
    var j := Unused(s.attempts.Keys);
    acts := Then(s, [], Begin(j, x));
    acts := Then(s, acts, Acquired(j));
    acts := Then(s, acts, Start(j, 0));
  }

  /**
   * A queued scan is never processed exactly when the queue holds no job for it and no enqueue
   * answer and no worker attempt is outstanding: nothing enqueues a stored scan again.
   */
  lemma NeverProcessedIff(s: State, x: ScanId)
    requires Inv(s) && StatusOf(s, x) == Some(Queued)
    ensures NeverProcessed(s, x) <==> !HasJob(s, x) && !Threatened(s, x)
  {
    if Threatened(s, x) {
      var acts := Overwrite(s, x);
      assert Run(s, acts).Some?;
    } else if HasJob(s, x) {
      var acts := Process(s, x);
      assert Run(s, acts).Some?;
    } else {
      forall acts | Run(s, acts).Some?
        ensures StatusOf(Run(s, acts).value, x) in {None, Some(Queued), Some(Cancelled)}
      {
        StrandedStays(s, acts, x);
      }
    }
  }

  /** A stored scan whose enqueueing throws, as a scheduled scan's may, is never processed. */
  lemma StrandedForever() returns (acts: seq<Action>)
    ensures Run(INIT, acts).Some? && StatusOf(Run(INIT, acts).value, 0) == Some(Queued)
    ensures NeverProcessed(Run(INIT, acts).value, 0)
  {
    acts := Then(INIT, [], Create(0));
    acts := Then(INIT, acts, Strand(0));
    EveryRunConsistent(acts);
    NeverProcessedIff(Run(INIT, acts).value, 0);
  }

  // ------------------------------------------------------------------ verdicts that are overwritten

  /** Scan 0 is stored without a report, and job `j` stands at `pc` while others have only read the scan. */
  ghost predicate Stage(s: State, status: Status, j: Job, pc: Pc, readers: set<Job>) {
    && s.rows.Keys == {0} && s.rows[0].status == status && s.rows[0].hasReport == (status == Completed)
    && j !in readers && s.attempts.Keys == readers + {j}
    && s.attempts[j] == Attempt(0, pc) && forall k :: k in readers ==> s.attempts[k] == Attempt(0, Acquiring)
  }

  lemma Advance(acts: seq<Action>, a: Action, status: Status, status': Status, j: Job, pc: Pc, pc': Pc,
      readers: set<Job>)
    requires Run(INIT, acts).Some? && Stage(Run(INIT, acts).value, status, j, pc, readers)
             && Enabled(Run(INIT, acts).value, a)
    requires Stage(Step(Run(INIT, acts).value, a), status', j, pc', readers)
    ensures Run(INIT, acts + [a]).Some? && Stage(Run(INIT, acts + [a]).value, status', j, pc', readers)
  {
    var more := Then(INIT, acts, a);
  }

  /** Scan 0 is queued and job 1 has read it. */
  lemma OneWorker() returns (acts: seq<Action>)
    ensures Run(INIT, acts).Some? && Stage(Run(INIT, acts).value, Queued, 1, Acquiring, {})
    ensures Run(INIT, acts).value.cancelling == map[] && HasJob(Run(INIT, acts).value, 0)
  {
    acts := Then(INIT, [], Create(0));
    acts := Then(INIT, acts, StoreJob(0));
    acts := Then(INIT, acts, EnqueueOk(0));
    acts := Then(INIT, acts, Begin(1, 0));
  }

  /** A worker that has only read the scan sets it to RUNNING, whatever has been written since. */
  lemma StartsAnyway(acts: seq<Action>, j: Job) returns (more: seq<Action>)
    requires Run(INIT, acts).Some? && 0 in Run(INIT, acts).value.rows
    requires var s := Run(INIT, acts).value; j in s.attempts && s.attempts[j] == Attempt(0, Acquiring)
    ensures Run(INIT, acts + more).Some? && StatusOf(Run(INIT, acts + more).value, 0) == Some(Running)
  {
    var next := Then(INIT, acts, Acquired(j));
    next := Then(INIT, next, Start(j, 9));
    more := [Acquired(j)] + [Start(j, 9)];
    Assoc(acts, [Acquired(j)], [Start(j, 9)]);
  }

  /** A user cancels a queued scan between the worker's first read and its RUNNING write; the scan then runs. */
  lemma CancelledIsOverwritten() returns (acts: seq<Action>, more: seq<Action>)
    ensures Run(INIT, acts).Some? && StatusOf(Run(INIT, acts).value, 0) == Some(Cancelled)
    ensures Run(INIT, acts + more).Some? && StatusOf(Run(INIT, acts + more).value, 0) == Some(Running)
  {
    acts := OneWorker();
    acts := Then(INIT, acts, CancelRead(2, 0));
    acts := Then(INIT, acts, CancelWrite(2, 5));
    more := StartsAnyway(acts, 1);
  }

  /** Job 1 starts scan 0 while job 2 has read it too ... */
  lemma Launch(before: seq<Action>) returns (acts: seq<Action>)
    requires Run(INIT, before).Some? && Stage(Run(INIT, before).value, Queued, 1, Acquiring, {2})
    ensures Run(INIT, acts).Some? && Stage(Run(INIT, acts).value, Running, 1, Scanning, {2})
  {
    Advance(before, Acquired(1), Queued, Queued, 1, Acquiring, Starting, {2});
    acts := before + [Acquired(1)];
    Advance(acts, Start(1, 1), Queued, Running, 1, Starting, Scanning, {2});
    acts := acts + [Start(1, 1)];
  }

  /** ... scans it ... */
  lemma Conclude(before: seq<Action>) returns (acts: seq<Action>)
    requires Run(INIT, before).Some? && Stage(Run(INIT, before).value, Running, 1, Scanning, {2})
    ensures Run(INIT, acts).Some? && Stage(Run(INIT, acts).value, Running, 1, Committing, {2})
  {
    Advance(before, ScanEnds(1, Done), Running, Running, 1, Scanning, Rereading(Done), {2});
    acts := before + [ScanEnds(1, Done)];
    Advance(acts, Reread(1), Running, Running, 1, Rereading(Done), Committing, {2});
    acts := acts + [Reread(1)];
  }

  /** ... and completes it. */
  lemma Finish(before: seq<Action>) returns (acts: seq<Action>)
    requires Run(INIT, before).Some? && Stage(Run(INIT, before).value, Running, 1, Committing, {2})
    ensures Run(INIT, acts).Some? && Stage(Run(INIT, acts).value, Completed, 1, Releasing, {2})
  {
    Advance(before, Commit(1, 2), Running, Completed, 1, Committing, Releasing, {2});
    acts := before + [Commit(1, 2)];
  }

  /** A stalled duplicate has read the scan before the first worker completes it; the scan then runs again. */
  lemma CompletedIsOverwritten() returns (acts: seq<Action>, more: seq<Action>)
    ensures Run(INIT, acts).Some? && StatusOf(Run(INIT, acts).value, 0) == Some(Completed)
    ensures Run(INIT, acts + more).Some? && StatusOf(Run(INIT, acts + more).value, 0) == Some(Running)
  {
    acts := OneWorker();
    acts := Then(INIT, acts, Begin(2, 0));
    acts := Launch(acts);
    acts := Conclude(acts);
    acts := Finish(acts);
    more := StartsAnyway(acts, 2);
  }
}
