/**
 * The login lockout of auth.service.ts, for logins of one user taken one at a time. Password
 * comparison takes a while, so a login reads the clock twice: when it checks the lock and
 * when it writes a new one.
 */
module Lockout {
  import opened Prelude

  const MAX_FAILED_LOGINS := 8
  const LOCKOUT_MS := 15 * 60 * 1000

  datatype Lock = Lock(failedLoginCount: nat, lockedUntil: Option<int>)

  datatype Outcome = InactiveUser | Locked | WrongPassword | TotpRequired | TotpInvalid | LoggedIn

  /** What a request brings: whether the password matches, and the TOTP code if any with its verdict. */
  datatype Attempt = Attempt(checked: int, compared: int, passwordOk: bool, code: Option<bool>)

  const OPEN := Lock(0, None)

  function Judge(active: bool, totpEnabled: bool, l: Lock, a: Attempt): Outcome {
    if !active then InactiveUser
    else if l.lockedUntil.Some? && l.lockedUntil.value > a.checked then Locked
    else if !a.passwordOk then WrongPassword
    else if totpEnabled && a.code.None? then TotpRequired
    else if totpEnabled && !a.code.value then TotpInvalid
    else LoggedIn
  }

  function After(l: Lock, outcome: Outcome, compared: int): Lock {
    match outcome
    case WrongPassword =>
      var failed := l.failedLoginCount + 1;
      Lock(failed, if failed >= MAX_FAILED_LOGINS then Some(compared + LOCKOUT_MS) else None)
    case LoggedIn => OPEN
    case _ => l
  }

  class User {
    var active: bool
    var totpEnabled: bool
    var failedLoginCount: nat
    var lockedUntil: Option<int>

    function State(): Lock
      reads this
    {
      Lock(failedLoginCount, lockedUntil)
    }

    constructor ()
      ensures active && !totpEnabled && State() == OPEN
    {
      active, totpEnabled, failedLoginCount, lockedUntil := true, false, 0, None;
    }

    /** login; the tokens it issues are in the Sessions module. */
    method Login(a: Attempt) returns (outcome: Outcome)
      modifies this`failedLoginCount, this`lockedUntil
      ensures outcome == Judge(active, totpEnabled, old(State()), a)
      ensures State() == After(old(State()), outcome, a.compared)
      ensures outcome == LoggedIn <==>
                && active && (old(lockedUntil).Some? ==> old(lockedUntil).value <= a.checked) && a.passwordOk
                && (totpEnabled ==> a.code == Some(true))
      ensures outcome == LoggedIn ==> failedLoginCount == 0 && lockedUntil == None
      ensures outcome == WrongPassword <==>
                active && (old(lockedUntil).Some? ==> old(lockedUntil).value <= a.checked) && !a.passwordOk
      ensures outcome == WrongPassword ==>
                && failedLoginCount == old(failedLoginCount) + 1
                && lockedUntil == if old(failedLoginCount) >= 7 then Some(a.compared + 900000) else None
      ensures outcome !in {LoggedIn, WrongPassword} ==>
                failedLoginCount == old(failedLoginCount) && lockedUntil == old(lockedUntil)
    {
      if !active { return InactiveUser; }
      if lockedUntil.Some? && lockedUntil.value > a.checked { return Locked; }
      if !a.passwordOk {
        var failed := failedLoginCount + 1;
        lockedUntil := if failed >= MAX_FAILED_LOGINS then Some(a.compared + LOCKOUT_MS) else None;
        failedLoginCount := failed;
        return WrongPassword;
      }
      if totpEnabled {
        if a.code.None? { return TotpRequired; }
        if !a.code.value { return TotpInvalid; }
      }
      failedLoginCount, lockedUntil := 0, None;
      return LoggedIn;
    }

    /** The lock part of resetPassword. */
    method ResetPassword()
      modifies this`failedLoginCount, this`lockedUntil
      ensures State() == OPEN
    {
      failedLoginCount, lockedUntil := 0, None;
    }
  }

  // ------------------------------------------------------------------ runs

  datatype Event = Login(active: bool, totpEnabled: bool, attempt: Attempt) | Reset(at: int)
  {
    function Start(): int { if Login? then attempt.checked else at }

    function End(): int { if Login? then attempt.compared else at }
  }

  function Step(l: Lock, e: Event): Lock {
    match e
    case Login(active, totpEnabled, a) => After(l, Judge(active, totpEnabled, l, a), a.compared)
    case Reset(_) => OPEN
  }

  function Run(l: Lock, es: seq<Event>): Lock {
    if es == [] then l else Step(Run(l, es[..|es| - 1]), es[|es| - 1])
  }

  /** One event at a time, from instant `t0` on. */
  predicate InTurn(t0: int, es: seq<Event>) {
    && (forall i :: 0 <= i < |es| ==> t0 <= es[i].Start() <= es[i].End())
    && (forall i :: 0 < i < |es| ==> es[i - 1].End() <= es[i].Start())
  }

  function EndOf(t0: int, es: seq<Event>): int {
    if es == [] then t0 else es[|es| - 1].End()
  }

  predicate IsWrong(l: Lock, e: Event) {
    e.Login? && Judge(e.active, e.totpEnabled, l, e.attempt) == WrongPassword
  }

  /** A successful login or a password reset. */
  predicate IsFresh(l: Lock, e: Event) {
    e.Reset? || Judge(e.active, e.totpEnabled, l, e.attempt) == LoggedIn
  }

  /** The wrong passwords that reached the comparison. */
  function Wrong(l: Lock, es: seq<Event>): nat {
    if es == [] then 0
    else Wrong(l, es[..|es| - 1]) + (if IsWrong(Run(l, es[..|es| - 1]), es[|es| - 1]) then 1 else 0)
  }

  function Fresh(l: Lock, es: seq<Event>): nat {
    if es == [] then 0
    else Fresh(l, es[..|es| - 1]) + (if IsFresh(Run(l, es[..|es| - 1]), es[|es| - 1]) then 1 else 0)
  }

  /** The locks that occur: exactly those with eight failures or more have an expiry, at most a lockout ahead. */
  predicate Reachable(l: Lock, clock: int) {
    && (l.failedLoginCount >= MAX_FAILED_LOGINS <==> l.lockedUntil.Some?)
    && (l.lockedUntil.Some? ==> l.lockedUntil.value <= clock + LOCKOUT_MS)
  }

  lemma {:induction false} RunIsReachable(l: Lock, t0: int, es: seq<Event>)
    requires Reachable(l, t0) && InTurn(t0, es)
    ensures Reachable(Run(l, es), EndOf(t0, es)) && t0 <= EndOf(t0, es)
  {
    if es != [] {
      RunIsReachable(l, t0, es[..|es| - 1]);
    }
  }

  /**
   * Accounting of a span that began at t0: of the `wrong` comparisons, `late` ones came after a
   * lock set within the span had run out, the others number at most eight per fresh start.
   */
  ghost predicate Accounted(l: Lock, t0: int, clock: int, wrong: nat, late: nat, others: nat, starts: nat) {
    && wrong == late + others
    && if l.failedLoginCount < MAX_FAILED_LOGINS then
         others <= MAX_FAILED_LOGINS * starts + l.failedLoginCount && late * LOCKOUT_MS <= clock - t0
       else
         (wrong == 0 && starts == 0)
         || (others <= MAX_FAILED_LOGINS * (starts + 1) && (late + 1) * LOCKOUT_MS <= l.lockedUntil.GetOr(t0) - t0)
  }

  lemma AccountStep(l: Lock, t0: int, clock: int, e: Event, wrong: nat, late: nat, others: nat, starts: nat)
    returns (late': nat, others': nat)
    requires Reachable(l, clock) && t0 <= clock <= e.Start() <= e.End()
    requires Accounted(l, t0, clock, wrong, late, others, starts)
    ensures Accounted(Step(l, e), t0, e.End(), wrong + (if IsWrong(l, e) then 1 else 0), late', others',
                      starts + (if IsFresh(l, e) then 1 else 0))
  {
    late', others' := late, others;
    if IsWrong(l, e) {
      if l.failedLoginCount < MAX_FAILED_LOGINS || wrong == 0 {
        others' := others + 1;
      } else {
        late' := late + 1;
      }
    }
  }

  lemma {:induction false} RunIsAccounted(l: Lock, t0: int, es: seq<Event>) returns (late: nat, others: nat)
    requires Reachable(l, t0) && InTurn(t0, es)
    ensures Accounted(Run(l, es), t0, EndOf(t0, es), Wrong(l, es), late, others, Fresh(l, es))
  {
    if es == [] {
      late, others := 0, 0;
    } else {
      var front, e := es[..|es| - 1], es[|es| - 1];
      late, others := RunIsAccounted(l, t0, front);
      RunIsReachable(l, t0, front);
      late, others := AccountStep(Run(l, front), t0, EndOf(t0, front), e, Wrong(l, front), late, others,
          Fresh(l, front));
    }
  }

  /**
   * In any span of any history, at most 8 wrong passwords per fresh start (counting one before
   * the span) plus one per full lockout period reach the comparison.
   */
  lemma WrongPasswordBound(past: seq<Event>, start: int, t0: int, es: seq<Event>)
    requires InTurn(start, past) && EndOf(start, past) <= t0 && InTurn(t0, es)
    ensures var l := Run(OPEN, past);
            Wrong(l, es) <= MAX_FAILED_LOGINS * (Fresh(l, es) + 1) + (EndOf(t0, es) - t0) / LOCKOUT_MS
  {
    var l := Run(OPEN, past);
    RunIsReachable(OPEN, start, past);
    RunIsReachable(l, t0, es);
    var late, others := RunIsAccounted(l, t0, es);
    AccountBound(Run(l, es), t0, EndOf(t0, es), Wrong(l, es), late, others, Fresh(l, es));
  }

  lemma AccountBound(l: Lock, t0: int, clock: int, wrong: nat, late: nat, others: nat, starts: nat)
    requires Reachable(l, clock) && t0 <= clock && Accounted(l, t0, clock, wrong, late, others, starts)
    ensures wrong <= MAX_FAILED_LOGINS * (starts + 1) + (clock - t0) / LOCKOUT_MS
  {
  }

  /** The instant of the n-th failure of a client that fails as often as it can. */
  function FailsAt(n: nat): nat {
    if n <= MAX_FAILED_LOGINS then 0 else (n - MAX_FAILED_LOGINS) * LOCKOUT_MS
  }

  function Failure(at: int): Event {
    Login(true, false, Attempt(at, at, false, None))
  }

  /** A history of `n` wrong passwords and nothing else, packed into FailsAt(n). */
  ghost predicate Packed(n: nat, es: seq<Event>) {
    && InTurn(0, es) && EndOf(0, es) == FailsAt(n)
    && Wrong(OPEN, es) == n && Fresh(OPEN, es) == 0
    && Run(OPEN, es) == Lock(n, if n >= MAX_FAILED_LOGINS then Some(FailsAt(n + 1)) else None)
  }

  lemma PackOneMore(n: nat, es: seq<Event>)
    requires Packed(n, es)
    ensures Packed(n + 1, es + [Failure(FailsAt(n + 1))])
  {
    var e := Failure(FailsAt(n + 1));
    var more := es + [e];
    assert more[..|more| - 1] == es;
    InTurnAppend(0, es, e);
    FailsAgain(n, Run(OPEN, es));
  }

  lemma InTurnAppend(t0: int, es: seq<Event>, e: Event)
    requires InTurn(t0, es) && t0 <= EndOf(t0, es) <= e.Start() <= e.End()
    ensures InTurn(t0, es + [e])
  {
  }

  lemma FailsAgain(n: nat, l: Lock)
    requires l == Lock(n, if n >= MAX_FAILED_LOGINS then Some(FailsAt(n + 1)) else None)
    ensures var e := Failure(FailsAt(n + 1));
            && IsWrong(l, e) && !IsFresh(l, e) && FailsAt(n) <= e.Start()
            && Step(l, e) == Lock(n + 1, if n + 1 >= MAX_FAILED_LOGINS then Some(FailsAt(n + 2)) else None)
  {
  }

  /** The bound is met: n failures fit into n - 8 lockout periods. */
  lemma {:induction false} BoundIsMet(n: nat) returns (es: seq<Event>)
    ensures Packed(n, es)
  {
    if n == 0 {
      es := [];
    } else {
      es := BoundIsMet(n - 1);
      PackOneMore(n - 1, es);
      es := es + [Failure(FailsAt(n))];
    }
  }
}
