/**
 * Refresh-token families of auth.service.ts and the token sweep of retention.service.ts.
 * `refresh` awaits three database calls, so other requests run between them: each call is
 * one step here. Token hashes and family ids are random; a step that creates one takes an
 * unused value.
 */
module Sessions {
  import opened Prelude

  type Hash = nat
  type Family = nat
  type User = nat
  type Call = nat   // one login or refresh request

  const REFRESH_TOKEN_TTL_MS := 7 * 24 * 60 * 60 * 1000

  datatype Token = Token(
    user: User,
    family: Family,
    expiresAt: int,
    revokedAt: Option<int>,
    replacedAt: Option<int>)
  {
    predicate Live() { revokedAt.None? }
  }

  type Tokens = map<Hash, Token>

  // ------------------------------------------------------------------ the database calls

  function Revoked(t: Token, now: int): Token {
    if t.Live() then t.(revokedAt := Some(now)) else t
  }

  /** updateMany where familyId and revokedAt null */
  function RevokeFamily(ts: Tokens, f: Family, now: int): Tokens {
    map h | h in ts :: if ts[h].family == f then Revoked(ts[h], now) else ts[h]
  }

  /** updateMany where userId and revokedAt null: logoutAll, resetPassword, changePassword */
  function RevokeUser(ts: Tokens, u: User, now: int): Tokens {
    map h | h in ts :: if ts[h].user == u then Revoked(ts[h], now) else ts[h]
  }

  /** updateMany where tokenHash and revokedAt null: logout */
  function RevokeOne(ts: Tokens, h: Hash, now: int): Tokens {
    if h in ts then ts[h := Revoked(ts[h], now)] else ts
  }

  /** The unconditional update of a rotated token. */
  function Replace(ts: Tokens, h: Hash, now: int): Tokens
    requires h in ts
  {
    ts[h := ts[h].(replacedAt := Some(now), revokedAt := Some(now))]
  }

  function Insert(ts: Tokens, h: Hash, u: User, f: Family, now: int): Tokens {
    ts[h := Token(u, f, now + REFRESH_TOKEN_TTL_MS, None, None)]
  }

  /** deleteMany of retention: expired, or revoked before the cutoff */
  function Sweep(ts: Tokens, now: int, cutoff: int): Tokens {
    map h | h in ts && !Sweepable(ts[h], now, cutoff) :: ts[h]
  }

  predicate Sweepable(t: Token, now: int, cutoff: int) {
    t.expiresAt < now || (t.revokedAt.Some? && t.revokedAt.value < cutoff)
  }

  // ------------------------------------------------------------------ the checks of refresh

  datatype Verdict = Unknown | Reused | Expired | Inactive | Accepted

  /** What refresh decides after its first read. */
  function Judge(ts: Tokens, h: Hash, active: bool, now: int): Verdict {
    if h !in ts then Unknown
    else if ts[h].revokedAt.Some? || ts[h].replacedAt.Some? then Reused
    else if ts[h].expiresAt < now then Expired
    else if !active then Inactive
    else Accepted
  }

  // ------------------------------------------------------------------ requests one at a time

  class AuthService {
    var tokens: Tokens

    constructor ()
      ensures tokens == map[]
    {
      tokens := map[];
    }

    /** issueTokens */
    method IssueTokens(u: User, h: Hash, f: Family, now: int)
      modifies this
      ensures tokens == Insert(old(tokens), h, u, f, now)
    {
      tokens := tokens[h := Token(u, f, now + REFRESH_TOKEN_TTL_MS, None, None)];
    }

    /** refresh, run without interference; `next` is the hash of the new random token. */
    method Refresh(h: Hash, active: bool, next: Hash, now: int) returns (verdict: Verdict)
      modifies this
      ensures verdict == Judge(old(tokens), h, active, now)
      ensures verdict == Accepted ==>
                tokens == Insert(Replace(old(tokens), h, now), next, old(tokens)[h].user, old(tokens)[h].family, now)
      ensures verdict == Reused ==> tokens == RevokeFamily(old(tokens), old(tokens)[h].family, now)
      ensures verdict !in {Accepted, Reused} ==> tokens == old(tokens)
      ensures verdict == Accepted <==>
                && h in old(tokens) && old(tokens)[h].revokedAt.None? && old(tokens)[h].replacedAt.None?
                && now <= old(tokens)[h].expiresAt && active
      ensures !active ==> tokens.Keys == old(tokens).Keys
    {
      if h !in tokens { return Unknown; }
      var stored := tokens[h];
      if stored.revokedAt.Some? || stored.replacedAt.Some? {
        tokens := RevokeFamily(tokens, stored.family, now);
        return Reused;
      }
      if stored.expiresAt < now { return Expired; }
      if !active { return Inactive; }
      tokens := Replace(tokens, h, now);
      IssueTokens(stored.user, next, stored.family, now);
      return Accepted;
    }

    method Logout(h: Hash, now: int)
      modifies this
      ensures tokens == RevokeOne(old(tokens), h, now)
      ensures tokens.Keys == old(tokens).Keys && (h in tokens ==> tokens[h].revokedAt.Some?)
      ensures forall k :: k in tokens && (k != h || old(tokens)[k].revokedAt.Some?) ==> tokens[k] == old(tokens)[k]
    {
      tokens := RevokeOne(tokens, h, now);
    }

    /** logoutAll, and the token part of resetPassword and changePassword */
    method LogoutAll(u: User, now: int)
      modifies this
      ensures tokens == RevokeUser(old(tokens), u, now)
      ensures tokens.Keys == old(tokens).Keys
      ensures forall k :: k in tokens && tokens[k].user == u ==> tokens[k].revokedAt.Some?
      ensures forall k :: k in tokens && (old(tokens)[k].user != u || old(tokens)[k].revokedAt.Some?) ==>
                            tokens[k] == old(tokens)[k]
    {
      tokens := RevokeUser(tokens, u, now);
    }
  }

  // ------------------------------------------------------------------ what the table operations do

  /** Rotation marks the old token and adds the new one, good for seven days; nothing else changes. */
  lemma RotationMeaning(ts: Tokens, h: Hash, next: Hash, now: int)
    requires h in ts && next !in ts
    ensures var after := Insert(Replace(ts, h, now), next, ts[h].user, ts[h].family, now);
            && after.Keys == ts.Keys + {next}
            && after[next] == Token(ts[h].user, ts[h].family, now + 604800000, None, None)
            && after[h] == ts[h].(revokedAt := Some(now), replacedAt := Some(now))
            && forall k :: k in ts && k != h ==> after[k] == ts[k]
  {
  }

  /** Burning revokes the family's live tokens and changes no other. */
  lemma BurningMeaning(ts: Tokens, f: Family, now: int)
    ensures var after := RevokeFamily(ts, f, now);
            && after.Keys == ts.Keys
            && (forall k :: k in ts && ts[k].family == f && ts[k].revokedAt.None? ==>
                  after[k] == ts[k].(revokedAt := Some(now)))
            && (forall k :: k in ts && (ts[k].family != f || ts[k].revokedAt.Some?) ==> after[k] == ts[k])
  {
  }

  /** The sweep keeps exactly the tokens that are not expired and not revoked before the cutoff, as they are. */
  lemma SweepMeaning(ts: Tokens, now: int, cutoff: int, h: Hash)
    ensures h in Sweep(ts, now, cutoff) <==>
            && h in ts && now <= ts[h].expiresAt
            && (ts[h].revokedAt.Some? ==> cutoff <= ts[h].revokedAt.value)
    ensures h in Sweep(ts, now, cutoff) ==> Sweep(ts, now, cutoff)[h] == ts[h]
  {
  }

  // ------------------------------------------------------------------ interleaved requests

  datatype Stage =
    | Rotating(hash: Hash)   // accepted, the old token is marked next
    | Issuing                // marked, or logged in: the new token is created next
    | Burning                // reuse detected, the family is revoked next

  datatype Request = Request(user: User, family: Family, stage: Stage)

  datatype State = State(
    tokens: Tokens,
    requests: map<Call, Request>,
    hashes: set<Hash>,       // history: hashes ever issued
    families: set<Family>,   // history: families ever opened
    clock: int)

  datatype Action =
    | Login(c: Call, u: User, f: Family, now: int)   // the password and TOTP checks pass
    | Present(c: Call, h: Hash, active: bool, now: int)
    | MarkReplaced(c: Call, now: int)
    | Create(c: Call, h: Hash, now: int)
    | Burn(c: Call, now: int)
    | Abort(c: Call, now: int)
    | Logout(h: Hash, now: int)
    | LogoutAll(u: User, now: int)
    | Retention(cutoff: int, now: int)

  const INIT := State(map[], map[], {}, {}, 0)

  predicate Enabled(s: State, a: Action) {
    && s.clock <= a.now
    && match a
       case Login(c, _, f, _) => c !in s.requests && f !in s.families
       case Present(c, _, _, _) => c !in s.requests
       case MarkReplaced(c, _) => c in s.requests && s.requests[c].stage.Rotating?
       case Create(c, h, _) => c in s.requests && s.requests[c].stage.Issuing? && h !in s.hashes
       case Burn(c, _) => c in s.requests && s.requests[c].stage.Burning?
       case Abort(c, _) => c in s.requests
       case Logout(_, _) => true
       case LogoutAll(_, _) => true
       case Retention(_, _) => true
  }

  function Step(s: State, a: Action): State
    requires Enabled(s, a)
  {
    var s := s.(clock := a.now);
    match a
    case Login(c, u, f, _) =>
      s.(requests := s.requests[c := Request(u, f, Issuing)], families := s.families + {f})
    case Present(c, h, active, now) =>
      var verdict := Judge(s.tokens, h, active, now);
      if verdict == Accepted then
        s.(requests := s.requests[c := Request(s.tokens[h].user, s.tokens[h].family, Rotating(h))])
      else if verdict == Reused then
        s.(requests := s.requests[c := Request(s.tokens[h].user, s.tokens[h].family, Burning)])
      else s
    case MarkReplaced(c, now) =>
      var h := s.requests[c].stage.hash;
      if h in s.tokens then
        s.(tokens := Replace(s.tokens, h, now), requests := s.requests[c := s.requests[c].(stage := Issuing)])
      else s.(requests := s.requests - {c})
    case Create(c, h, now) =>
      s.(tokens := Insert(s.tokens, h, s.requests[c].user, s.requests[c].family, now),
         hashes := s.hashes + {h}, requests := s.requests - {c})
    case Burn(c, now) =>
      s.(tokens := RevokeFamily(s.tokens, s.requests[c].family, now), requests := s.requests - {c})
    case Abort(c, _) => s.(requests := s.requests - {c})
    case Logout(h, now) => s.(tokens := RevokeOne(s.tokens, h, now))
    case LogoutAll(u, now) => s.(tokens := RevokeUser(s.tokens, u, now))
    case Retention(cutoff, now) => s.(tokens := Sweep(s.tokens, now, cutoff))
  }

  function Run(s: State, acts: seq<Action>): Option<State> {
    if acts == [] then Some(s)
    else match Run(s, acts[..|acts| - 1])
         case Some(t) => if Enabled(t, acts[|acts| - 1]) then Some(Step(t, acts[|acts| - 1])) else None
         case None => None
  }

  /** Bookkeeping of every run: what is stored or in flight has been issued, and rotation revokes. */
  ghost predicate Inv(s: State) {
    && s.tokens.Keys <= s.hashes
    && (forall h :: h in s.tokens ==>
          s.tokens[h].family in s.families && (s.tokens[h].replacedAt.Some? ==> !s.tokens[h].Live()))
    && (forall c :: c in s.requests ==> s.requests[c].family in s.families)
    && (forall c :: c in s.requests && s.requests[c].stage.Rotating? ==>
          s.requests[c].stage.hash in s.hashes
          && (s.requests[c].stage.hash in s.tokens
             ==> s.tokens[s.requests[c].stage.hash].family == s.requests[c].family))
  }

  lemma StepKeepsInv(s: State, a: Action)
    requires Inv(s) && Enabled(s, a)
    ensures Inv(Step(s, a))
  {
  }

  lemma {:induction false} RunKeepsInv(s: State, acts: seq<Action>)
    requires Inv(s) && Run(s, acts).Some?
    ensures Inv(Run(s, acts).value)
  {
    if acts != [] {
      RunKeepsInv(s, acts[..|acts| - 1]);
      StepKeepsInv(Run(s, acts[..|acts| - 1]).value, acts[|acts| - 1]);
    }
  }

  /** Without interference the three steps of an accepted request are the Refresh method. */
  lemma RefreshIsThreeSteps(s: State, c: Call, h: Hash, next: Hash, now: int)
    requires s.clock <= now && c !in s.requests && next !in s.hashes
    requires Judge(s.tokens, h, true, now) == Accepted
    ensures var r := Run(s, [Present(c, h, true, now), MarkReplaced(c, now), Create(c, next, now)]);
            && r.Some?
            && r.value.tokens == Insert(Replace(s.tokens, h, now), next, s.tokens[h].user, s.tokens[h].family, now)
            && r.value.requests == s.requests
  {
    var a1, a2, a3 := Present(c, h, true, now), MarkReplaced(c, now), Create(c, next, now);
    RunThen(s, [], a1);
    RunThen(s, [] + [a1], a2);
    RunThen(s, [] + [a1] + [a2], a3);
    assert [a1, a2, a3] == [] + [a1] + [a2] + [a3];
    assert Step(Step(s, a1), a2).requests - {c} == s.requests;
  }

  lemma RunThen(s: State, acts: seq<Action>, a: Action)
    requires Run(s, acts).Some? && Enabled(Run(s, acts).value, a)
    ensures Run(s, acts + [a]) == Some(Step(Run(s, acts).value, a))
  {
    assert (acts + [a])[..|acts|] == acts;
  }

  lemma {:induction false} RunAppend(s: State, xs: seq<Action>, ys: seq<Action>)
    requires Run(s, xs).Some? && Run(Run(s, xs).value, ys).Some?
    ensures Run(s, xs + ys) == Run(Run(s, xs).value, ys)
  {
    if ys == [] {
      assert xs + ys == xs;
    } else {
      assert (xs + ys)[..|xs + ys| - 1] == xs + ys[..|ys| - 1];
      RunAppend(s, xs, ys[..|ys| - 1]);
    }
  }

  // ------------------------------------------------------------------ one live token per family

  ghost predicate LiveIn(s: State, h: Hash, f: Family) {
    h in s.tokens && s.tokens[h].Live() && s.tokens[h].family == f
  }

  /** The request is going to create a token in the family. */
  ghost predicate Heir(s: State, c: Call, f: Family) {
    && c in s.requests && s.requests[c].family == f
    && match s.requests[c].stage
       case Rotating(h) => h in s.tokens
       case Issuing => true
       case Burning => false
  }

  ghost predicate OneLive(s: State) {
    forall f, h1, h2 :: LiveIn(s, h1, f) && LiveIn(s, h2, f) ==> h1 == h2
  }

  /** Each family has one future at most: a live token, perhaps being rotated, or a request about to create one. */
  ghost predicate OneHeir(s: State) {
    && OneLive(s)
    && (forall f, h, c :: LiveIn(s, h, f) && Heir(s, c, f) ==> s.requests[c].stage == Rotating(h))
    && (forall f, c1, c2 :: Heir(s, c1, f) && Heir(s, c2, f) ==> c1 == c2)
  }

  /** A token is presented while a rotation of that same token is still in flight. */
  ghost predicate Overlap(s: State, a: Action) {
    && a.Present? && Judge(s.tokens, a.h, a.active, a.now) == Accepted
    && exists c :: c in s.requests && s.requests[c].stage == Rotating(a.h)
  }

  /** A run in which no presentation overlaps. */
  ghost predicate Separate(s: State, acts: seq<Action>) {
    acts == [] ||
    (&& Separate(s, acts[..|acts| - 1])
     && Run(s, acts).Some?
     && !Overlap(Run(s, acts[..|acts| - 1]).value, acts[|acts| - 1]))
  }

  lemma StepKeepsOneHeir(s: State, a: Action)
    requires Inv(s) && OneHeir(s) && Enabled(s, a) && !Overlap(s, a)
    ensures OneHeir(Step(s, a))
  {
    var t := Step(s, a);
    StepKeepsInv(s, a);
    NewLive(s, a);
    NewHeir(s, a);
    forall f, h, c | LiveIn(t, h, f) && Heir(t, c, f) ensures t.requests[c].stage == Rotating(h) {
      if LiveIn(s, h, f) && Heir(s, c, f) {
        assert s.requests[c].stage == Rotating(h);
      }
    }
  }

  /** Only the last step of a login or rotation makes a token live, under a new hash. */
  lemma NewLive(s: State, a: Action)
    requires Inv(s) && Enabled(s, a)
    ensures forall f, h :: LiveIn(Step(s, a), h, f) && !LiveIn(s, h, f) ==>
                             && a.Create? && h == a.h && h !in s.hashes
                             && Heir(s, a.c, f) && a.c !in Step(s, a).requests
  {
  }

  /** Only an accepted presentation, or a login in a new family, makes a request an heir. */
  lemma NewHeir(s: State, a: Action)
    requires Inv(s) && Enabled(s, a)
    ensures forall f, c :: Heir(Step(s, a), c, f) && !Heir(s, c, f) ==>
                             && (a.Present? || a.Login?) && c == a.c
                             && (a.Login? ==> f == a.f && f !in s.families)
                             && (a.Present? ==> LiveIn(s, a.h, f)
                                                && Judge(s.tokens, a.h, a.active, a.now) == Accepted
                                                && Step(s, a).requests[c].stage == Rotating(a.h))
  {
  }

  lemma {:induction false} SeparateKeepsOneHeir(s: State, acts: seq<Action>)
    requires Inv(s) && OneHeir(s) && Separate(s, acts)
    ensures Run(s, acts).Some? && OneHeir(Run(s, acts).value)
  {
    if acts != [] {
      SeparateKeepsOneHeir(s, acts[..|acts| - 1]);
      RunKeepsInv(s, acts[..|acts| - 1]);
      StepKeepsOneHeir(Run(s, acts[..|acts| - 1]).value, acts[|acts| - 1]);
    }
  }

  /** In every run without overlapping presentations each family has at most one unrevoked token. */
  lemma OneLiveToken(acts: seq<Action>)
    requires Separate(INIT, acts)
    ensures Run(INIT, acts).Some? && OneLive(Run(INIT, acts).value)
  {
    SeparateKeepsOneHeir(INIT, acts);
  }

  lemma SeparateStep(s: State, acts: seq<Action>, a: Action)
    requires Separate(s, acts) && Run(s, acts + [a]).Some? && !a.Present?
    ensures Separate(s, acts + [a])
  {
    assert (acts + [a])[..|acts + [a]| - 1] == acts;
  }

  /** Lets a request that is going to create a token do so. */
  lemma Drive(s: State, c: Call, f: Family) returns (acts: seq<Action>, n: Hash)
    requires Inv(s) && Heir(s, c, f)
    ensures Separate(s, acts) && Run(s, acts).Some? && n !in s.hashes
    ensures var t := Run(s, acts).value;
            && LiveIn(t, n, f) && t.requests == s.requests - {c}
            && t.tokens[n].user == s.requests[c].user
            && forall h :: h in s.tokens ==>
                 h in t.tokens && (s.requests[c].stage != Rotating(h) ==> t.tokens[h] == s.tokens[h])
    ensures forall a :: a in acts ==> !a.Login?
  {
    n := Unused(s.hashes);
    acts := [];
    if s.requests[c].stage.Rotating? {
      RunThen(s, acts, MarkReplaced(c, s.clock));
      SeparateStep(s, acts, MarkReplaced(c, s.clock));
      acts := acts + [MarkReplaced(c, s.clock)];
    }
    RunThen(s, acts, Create(c, n, s.clock));
    SeparateStep(s, acts, Create(c, n, s.clock));
    acts := acts + [Create(c, n, s.clock)];
  }

  /** A run that ends with two unrevoked tokens in one family. */
  lemma TwoLive(s: State) returns (acts: seq<Action>)
    requires Inv(s) && !OneHeir(s)
    ensures Separate(s, acts) && Run(s, acts).Some? && !OneLive(Run(s, acts).value)
  {
    if !OneLive(s) {
      acts := [];
    } else if f, h, c :| LiveIn(s, h, f) && Heir(s, c, f) && s.requests[c].stage != Rotating(h) {
      var n;
      acts, n := Drive(s, c, f);
      assert LiveIn(Run(s, acts).value, h, f);
    } else {
      var f, c1, c2 :| Heir(s, c1, f) && Heir(s, c2, f) && c1 != c2;
      var xs, n1 := Drive(s, c1, f);
      var t := Run(s, xs).value;
      RunKeepsInv(s, xs);
      assert Heir(t, c2, f) && LiveIn(t, n1, f);
      var ys, n2 := Drive(t, c2, f);
      RunAppend(s, xs, ys);
      SeparateAppend(s, xs, ys);
      acts := xs + ys;
      assert t.requests[c2].stage != Rotating(n1);
      assert LiveIn(Run(s, acts).value, n1, f) && LiveIn(Run(s, acts).value, n2, f);
    }
  }

  lemma {:induction false} SeparateAppend(s: State, xs: seq<Action>, ys: seq<Action>)
    requires Separate(s, xs) && Run(s, xs).Some? && Separate(Run(s, xs).value, ys) && Run(Run(s, xs).value, ys).Some?
    ensures Separate(s, xs + ys)
  {
    if ys == [] {
      assert xs + ys == xs;
    } else {
      var front := ys[..|ys| - 1];
      assert (xs + ys)[..|xs + ys| - 1] == xs + front;
      SeparateAppend(s, xs, front);
      RunAppend(s, xs, front);
      RunAppend(s, xs, ys);
    }
  }

  /** Exactly when one live token per family is guaranteed for good, given no further overlaps. */
  lemma OneLiveIff(s: State)
    requires Inv(s)
    ensures OneHeir(s) <==>
            forall acts :: Separate(s, acts) && Run(s, acts).Some? ==> OneLive(Run(s, acts).value)
  {
    if OneHeir(s) {
      forall acts | Separate(s, acts) && Run(s, acts).Some? ensures OneLive(Run(s, acts).value) {
        SeparateKeepsOneHeir(s, acts);
      }
    } else {
      var acts := TwoLive(s);
    }
  }

  /** One overlapping presentation is enough to lose the guarantee. */
  lemma OverlapLosesIt(s: State, a: Action)
    requires Inv(s) && Enabled(s, a) && Overlap(s, a)
    ensures Inv(Step(s, a)) && !OneHeir(Step(s, a))
  {
    var t := Step(s, a);
    StepKeepsInv(s, a);
    var c :| c in s.requests && s.requests[c].stage == Rotating(a.h);
    assert Heir(t, c, s.tokens[a.h].family) && Heir(t, a.c, s.tokens[a.h].family);
  }

  // ------------------------------------------------------------------ what a revocation ends

  ghost predicate NoneLive(s: State, f: Family) {
    forall h :: !LiveIn(s, h, f)
  }

  /** No continuation has a live token in the family. */
  ghost predicate NeverLive(s: State, f: Family) {
    forall acts :: Run(s, acts).Some? ==> NoneLive(Run(s, acts).value, f)
  }

  /** Nothing in the family is live and nothing in flight will create a token in it. */
  ghost predicate Ended(s: State, f: Family) {
    && f in s.families
    && NoneLive(s, f)
    && (forall c :: !Heir(s, c, f))
  }

  lemma {:induction false} EndedForever(s: State, f: Family, acts: seq<Action>)
    requires Inv(s) && Ended(s, f) && Run(s, acts).Some?
    ensures Ended(Run(s, acts).value, f)
  {
    if acts != [] {
      var t, a := Run(s, acts[..|acts| - 1]).value, acts[|acts| - 1];
      EndedForever(s, f, acts[..|acts| - 1]);
      RunKeepsInv(s, acts[..|acts| - 1]);
      NewLive(t, a);
      NewHeir(t, a);
      FamiliesGrow(t, a);
    }
  }

  lemma FamiliesGrow(s: State, a: Action)
    requires Enabled(s, a)
    ensures s.families <= Step(s, a).families
  {
  }

  /** A family stays without a live token in every continuation exactly when it has ended. */
  lemma FamilyEndIff(s: State, f: Family)
    requires Inv(s) && f in s.families
    ensures Ended(s, f) <==> NeverLive(s, f)
  {
    if Ended(s, f) {
      forall acts | Run(s, acts).Some? ensures NoneLive(Run(s, acts).value, f) {
        EndedForever(s, f, acts);
      }
    } else if c :| Heir(s, c, f) {
      var acts, n := Drive(s, c, f);
      assert Run(s, acts).Some? && LiveIn(Run(s, acts).value, n, f);
    } else {
      assert Run(s, []) == Some(s) && !NoneLive(s, f);
    }
  }

  /** Presenting a stored revoked token sets out to burn its family. */
  lemma ReuseIsDetected(s: State, c: Call, h: Hash, active: bool, now: int)
    requires Inv(s) && Enabled(s, Present(c, h, active, now)) && h in s.tokens && !s.tokens[h].Live()
    ensures Judge(s.tokens, h, active, now) == Reused
    ensures var t := Step(s, Present(c, h, active, now));
            c in t.requests && t.requests[c] == Request(s.tokens[h].user, s.tokens[h].family, Burning)
  {
  }

  /**
   * Whatever has happened since, the burning ends the family for good exactly when at that moment
   * no rotation of the family, or login that opened it, is in flight.
   */
  lemma BurnEndsFamilyIff(s: State, c: Call, now: int)
    requires Inv(s) && Enabled(s, Burn(c, now))
    ensures NeverLive(Step(s, Burn(c, now)), s.requests[c].family) <==> forall d :: !Heir(s, d, s.requests[c].family)
  {
    var f, t := s.requests[c].family, Step(s, Burn(c, now));
    StepKeepsInv(s, Burn(c, now));
    FamilyEndIff(t, f);
    assert NoneLive(t, f);
    forall d ensures Heir(t, d, f) <==> Heir(s, d, f) {
    }
  }

  /** The token has been issued and is revoked or gone. */
  ghost predicate Dead(s: State, h: Hash) {
    h in s.hashes && (h in s.tokens ==> !s.tokens[h].Live())
  }

  lemma {:induction false} DeadForever(s: State, h: Hash, acts: seq<Action>)
    requires Inv(s) && Dead(s, h) && Run(s, acts).Some?
    ensures Dead(Run(s, acts).value, h)
  {
    if acts != [] {
      DeadForever(s, h, acts[..|acts| - 1]);
    }
  }

  /** After logoutAll, resetPassword or changePassword no token stored by then is accepted again. */
  lemma EarlierTokensRefused(s: State, u: User, now: int, h: Hash, acts: seq<Action>, active: bool, later: int)
    requires Inv(s) && h in s.tokens && s.tokens[h].user == u
    requires Enabled(s, LogoutAll(u, now)) && Run(Step(s, LogoutAll(u, now)), acts).Some?
    ensures Judge(Run(Step(s, LogoutAll(u, now)), acts).value.tokens, h, active, later) != Accepted
  {
    var t := Step(s, LogoutAll(u, now));
    StepKeepsInv(s, LogoutAll(u, now));
    assert Dead(t, h);
    DeadForever(t, h, acts);
  }

  ghost predicate UserLive(s: State, u: User, h: Hash) {
    h in s.tokens && s.tokens[h].Live() && s.tokens[h].user == u
  }

  /** The request is going to create a token for the user. */
  ghost predicate UserHeir(s: State, u: User, c: Call) {
    c in s.requests && s.requests[c].user == u && Heir(s, c, s.requests[c].family)
  }

  /** No token of the user is live and nothing in flight will create one. */
  ghost predicate SignedOut(s: State, u: User) {
    && (forall h :: !UserLive(s, u, h))
    && (forall c :: !UserHeir(s, u, c))
  }

  predicate LogsIn(acts: seq<Action>, u: User) {
    exists i :: 0 <= i < |acts| && acts[i].Login? && acts[i].u == u
  }

  /** Until a new login, no continuation has a live token of the user. */
  ghost predicate StaysOut(s: State, u: User) {
    forall acts :: Run(s, acts).Some? && !LogsIn(acts, u) ==> forall h :: !UserLive(Run(s, acts).value, u, h)
  }

  lemma StepStaysOut(s: State, u: User, a: Action)
    requires Inv(s) && SignedOut(s, u) && Enabled(s, a) && !(a.Login? && a.u == u)
    ensures SignedOut(Step(s, a), u)
  {
    var t := Step(s, a);
    if a.Create? {
      assert !UserHeir(s, u, a.c);
    }
    if a.Present? && Judge(s.tokens, a.h, a.active, a.now) == Accepted {
      assert !UserLive(s, u, a.h);
    }
    forall h ensures !UserLive(t, u, h) {
      assert !UserLive(s, u, h);
    }
    NewHeir(s, a);
    forall c | c in t.requests && Heir(t, c, t.requests[c].family) ensures t.requests[c].user != u {
      assert !UserHeir(s, u, c);
    }
  }

  lemma {:induction false} SignedOutStays(s: State, u: User, acts: seq<Action>)
    requires Inv(s) && SignedOut(s, u) && Run(s, acts).Some? && !LogsIn(acts, u)
    ensures SignedOut(Run(s, acts).value, u)
  {
    if acts != [] {
      var front := acts[..|acts| - 1];
      assert forall i :: 0 <= i < |front| ==> front[i] == acts[i];
      assert !(acts[|acts| - 1].Login? && acts[|acts| - 1].u == u);
      SignedOutStays(s, u, front);
      RunKeepsInv(s, front);
      StepStaysOut(Run(s, front).value, u, acts[|acts| - 1]);
    }
  }

  /**
   * A user stays without a live token until the next login exactly when none is live and none is about to be
   * created.
   */
  lemma SignedOutIff(s: State, u: User)
    requires Inv(s)
    ensures StaysOut(s, u) <==> SignedOut(s, u)
  {
    if SignedOut(s, u) {
      forall acts | Run(s, acts).Some? && !LogsIn(acts, u) ensures forall h :: !UserLive(Run(s, acts).value, u, h) {
        SignedOutStays(s, u, acts);
      }
    } else if c :| UserHeir(s, u, c) {
      var acts, n := Drive(s, c, s.requests[c].family);
      assert forall i :: 0 <= i < |acts| ==> acts[i] in acts;
      assert Run(s, acts).Some? && !LogsIn(acts, u) && UserLive(Run(s, acts).value, u, n);
    } else {
      var h :| UserLive(s, u, h);
      assert Run(s, []) == Some(s) && !LogsIn([], u);
    }
  }

  /** logoutAll signs the user out for good exactly when no login or refresh of the user is past its checks. */
  lemma LogoutAllIff(s: State, u: User, now: int)
    requires Inv(s) && Enabled(s, LogoutAll(u, now))
    ensures StaysOut(Step(s, LogoutAll(u, now)), u) <==> forall c :: !UserHeir(s, u, c)
  {
    var t := Step(s, LogoutAll(u, now));
    StepKeepsInv(s, LogoutAll(u, now));
    SignedOutIff(t, u);
    forall h ensures !UserLive(t, u, h) {
    }
    forall c ensures UserHeir(t, u, c) <==> UserHeir(s, u, c) {
    }
  }

  // ------------------------------------------------------------------ deactivated users

  /** The token presented belongs to the user, who is active. */
  predicate PresentsActive(s: State, u: User, a: Action) {
    a.Present? && a.h in s.tokens && s.tokens[a.h].user == u && a.active
  }

  /** A run in which the user neither logs in nor is active when a token of the user is presented. */
  ghost predicate Deactivated(s: State, u: User, acts: seq<Action>) {
    acts == [] ||
    (&& Deactivated(s, u, acts[..|acts| - 1]) && Run(s, acts).Some?
     && !PresentsActive(Run(s, acts[..|acts| - 1]).value, u, acts[|acts| - 1])
     && !(acts[|acts| - 1].Login? && acts[|acts| - 1].u == u))
  }

  /** A presentation for an inactive user sets nothing in motion. */
  lemma InactiveIsRefused(s: State, a: Action)
    requires Inv(s) && Enabled(s, a) && a.Present? && !a.active
    ensures Step(s, a).tokens == s.tokens
    ensures forall c, f :: Heir(Step(s, a), c, f) ==> Heir(s, c, f)
  {
  }

  /** The last step of one of these requests created the token. */
  predicate CreatedBy(acts: seq<Action>, callers: set<Call>, h: Hash) {
    exists i :: 0 <= i < |acts| && acts[i].Create? && acts[i].h == h && acts[i].c in callers
  }

  ghost function UserHeirs(s: State, u: User): set<Call> {
    set c | c in s.requests && UserHeir(s, u, c)
  }

  lemma StepDeactivated(s: State, u: User, a: Action)
    requires Inv(s) && Enabled(s, a) && !PresentsActive(s, u, a) && !(a.Login? && a.u == u)
    ensures UserHeirs(Step(s, a), u) <= UserHeirs(s, u)
    ensures forall h :: UserLive(Step(s, a), u, h) && !UserLive(s, u, h) ==>
                          a.Create? && a.h == h && a.c in UserHeirs(s, u)
  {
    var t := Step(s, a);
    NewHeir(s, a);
    forall c | c in UserHeirs(t, u) ensures c in UserHeirs(s, u) {
    }
  }

  /**
   * While a user is deactivated, only requests that were past their checks before can create live tokens for the
   * user.
   */
  lemma {:induction false} DeactivatedGainsNothing(s: State, u: User, acts: seq<Action>)
    requires Inv(s) && Deactivated(s, u, acts)
    ensures Run(s, acts).Some? && UserHeirs(Run(s, acts).value, u) <= UserHeirs(s, u)
    ensures forall h :: UserLive(Run(s, acts).value, u, h) ==> UserLive(s, u, h) || CreatedBy(acts, UserHeirs(s, u), h)
  {
    if acts != [] {
      var front, a := acts[..|acts| - 1], acts[|acts| - 1];
      DeactivatedGainsNothing(s, u, front);
      RunKeepsInv(s, front);
      StepDeactivated(Run(s, front).value, u, a);
      forall h | CreatedBy(front, UserHeirs(s, u), h) ensures CreatedBy(acts, UserHeirs(s, u), h) {
        var i :| 0 <= i < |front| && front[i].Create? && front[i].h == h && front[i].c in UserHeirs(s, u);
        assert acts[i] == front[i];
      }
    }
  }

  // ------------------------------------------------------------------ runs that show the failures

  /** The password of user 1 has been checked in request 9. */
  lemma OneLogin() returns (acts: seq<Action>)
    ensures Run(INIT, acts) == Some(INIT.(requests := map[9 := Request(1, 0, Issuing)], families := {0}))
  {
    acts := [];
    RunThen(INIT, acts, Login(9, 1, 0, 0));
    acts := acts + [Login(9, 1, 0, 0)];
    assert {} + {0} == {0};
  }

  /** User 1 logs in and presents the token in request 10. */
  lemma OneRefresh() returns (acts: seq<Action>)
    ensures Run(INIT, acts).Some?
    ensures var s := Run(INIT, acts).value;
            && s.tokens == map[0 := Token(1, 0, REFRESH_TOKEN_TTL_MS, None, None)]
            && s.requests == map[10 := Request(1, 0, Rotating(0))] && s.hashes == {0} && s.clock == 0
  {
    acts := OneLogin();
    RunThen(INIT, acts, Create(9, 0, 0));
    acts := acts + [Create(9, 0, 0)];
    RunThen(INIT, acts, Present(10, 0, true, 0));
    acts := acts + [Present(10, 0, true, 0)];
  }

  /** The same token presented twice at once forks its family: two live tokens. */
  lemma RefreshForks() returns (acts: seq<Action>)
    ensures Run(INIT, acts).Some? && !OneLive(Run(INIT, acts).value)
  {
    acts := OneRefresh();
    RunThen(INIT, acts, Present(11, 0, true, 0));
    acts := acts + [Present(11, 0, true, 0)];
    acts := Rotate(acts, 10, 100);
    acts := Rotate(acts, 11, 101);
    assert LiveIn(Run(INIT, acts).value, 100, 0) && LiveIn(Run(INIT, acts).value, 101, 0);
  }

  /** A request that has been accepted for token 0 finishes. */
  lemma Rotate(before: seq<Action>, c: Call, next: Hash) returns (acts: seq<Action>)
    requires Run(INIT, before).Some?
    requires var s := Run(INIT, before).value;
             && s.clock == 0 && next !in s.hashes && 0 in s.tokens && next != 0
             && c in s.requests && s.requests[c] == Request(1, 0, Rotating(0))
    ensures Run(INIT, acts).Some?
    ensures var s, t := Run(INIT, before).value, Run(INIT, acts).value;
            && t.clock == 0 && t.hashes == s.hashes + {next} && t.requests == s.requests - {c}
            && t.tokens.Keys == s.tokens.Keys + {next} && LiveIn(t, next, 0)
            && forall h :: h in s.tokens && h != 0 && h != next ==> t.tokens[h] == s.tokens[h]
  {
    RunThen(INIT, before, MarkReplaced(c, 0));
    acts := before + [MarkReplaced(c, 0)];
    RunThen(INIT, acts, Create(c, next, 0));
    acts := acts + [Create(c, next, 0)];
  }

  /** A refresh that has marked its token when logoutAll runs still creates a live one. */
  lemma LogoutAllMissesRefresh() returns (acts: seq<Action>)
    ensures Run(INIT, acts + [LogoutAll(1, 0)]).Some?
    ensures var all := acts + [LogoutAll(1, 0)] + [Create(10, 100, 0)];
            Run(INIT, all).Some? && UserLive(Run(INIT, all).value, 1, 100)
  {
    acts := OneRefresh();
    RunThen(INIT, acts, MarkReplaced(10, 0));
    acts := acts + [MarkReplaced(10, 0)];
    RunThen(INIT, acts, LogoutAll(1, 0));
    RunThen(INIT, acts + [LogoutAll(1, 0)], Create(10, 100, 0));
  }

  /**
   * A login whose password was checked before logoutAll, or before a password reset, also creates a live token
   * after it.
   */
  lemma LogoutAllMissesLogin() returns (acts: seq<Action>)
    ensures Run(INIT, acts + [LogoutAll(1, 0)]).Some?
    ensures var all := acts + [LogoutAll(1, 0)] + [Create(9, 100, 0)];
            Run(INIT, all).Some? && UserLive(Run(INIT, all).value, 1, 100)
  {
    acts := OneLogin();
    RunThen(INIT, acts, LogoutAll(1, 0));
    RunThen(INIT, acts + [LogoutAll(1, 0)], Create(9, 100, 0));
  }

  // ------------------------------------------------------------------ retention

  /**
   * Retention deletes only tokens that could no longer be accepted. What it does change is
   * reuse detection: a deleted revoked token is unknown afterwards and burns nothing.
   */
  lemma RetentionKeepsVerdicts(ts: Tokens, h: Hash, active: bool, now: int, cutoff: int, later: int)
    requires now <= later
    ensures Judge(Sweep(ts, now, cutoff), h, active, later) == Accepted <==> Judge(ts, h, active, later) == Accepted
    ensures Judge(Sweep(ts, now, cutoff), h, active, later) == Reused <==>
            Judge(ts, h, active, later) == Reused && !Sweepable(ts[h], now, cutoff)
  {
  }
}
