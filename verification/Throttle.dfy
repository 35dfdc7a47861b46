/**
 * The fixed-window request counters of throttler-redis.storage.ts, with INCR and the PEXPIRE
 * of a new key taken as one step. A key is gone from its expiry instant on; PEXPIRE with no
 * time left deletes it at once.
 */
module Throttle {
  import opened Prelude
  import opened Spacing

  datatype Counter = Counter(hits: nat, expiresAt: int)

  datatype Reply = Reply(totalHits: nat, timeToExpire: int, isBlocked: bool, timeToBlockExpire: int)

  /** The counter of a key after a hit at `now`. */
  function Hit(c: Option<Counter>, ttl: int, now: int): Counter {
    if c.Some? && now < c.value.expiresAt then c.value.(hits := c.value.hits + 1) else Counter(1, now + ttl)
  }

  class Storage {
    var keys: map<string, Counter>

    function At(key: string): Option<Counter>
      reads this
    {
      if key in keys then Some(keys[key]) else None
    }

    constructor ()
      ensures keys == map[]
    {
      keys := map[];
    }

    method Increment(key: string, ttl: int, limit: int, blockDuration: int, now: int) returns (r: Reply)
      modifies this
      ensures var c := Hit(old(At(key)), ttl, now);
              && At(key) == (if c.expiresAt > now then Some(c) else None)
              && r == Reply(c.hits, if c.expiresAt > now then c.expiresAt - now else ttl, c.hits > limit,
                            if c.hits <= limit then 0 else if blockDuration != 0 then blockDuration else ttl)
      ensures forall k :: k != key ==> At(k) == old(At(k))
    {
      var count, expiresAt := 1, now + ttl;
      if key in keys && now < keys[key].expiresAt {
        count, expiresAt := keys[key].hits + 1, keys[key].expiresAt;
      }
      if expiresAt > now {
        keys := keys[key := Counter(count, expiresAt)];
      } else {
        keys := keys - {key};
      }
      var pttl := expiresAt - now;
      var isBlocked := count > limit;
      return Reply(count, if pttl > 0 then pttl else ttl, isBlocked,
                   if !isBlocked then 0 else if blockDuration != 0 then blockDuration else ttl);
    }
  }

  // ------------------------------------------------------------------ the hits of one key

  /** The counter after hits at the instants `nows`. */
  function After(ttl: int, nows: seq<int>): Counter
    requires nows != []
  {
    Hit(if |nows| == 1 then None else Some(After(ttl, nows[..|nows| - 1])), ttl, nows[|nows| - 1])
  }

  /** The instants of the hits that were not blocked. */
  function Admitted(ttl: int, limit: nat, nows: seq<int>): seq<int> {
    if nows == [] then []
    else
      var before := Admitted(ttl, limit, nows[..|nows| - 1]);
      if After(ttl, nows).hits <= limit then before + [nows[|nows| - 1]] else before
  }

  predicate Ordered(nows: seq<int>) {
    forall i :: 0 < i < |nows| ==> nows[i - 1] <= nows[i]
  }

  /** When the current life of the key began. */
  function Born(ttl: int, nows: seq<int>): int
    requires nows != []
  {
    After(ttl, nows).expiresAt - ttl
  }

  lemma CountAppend(s: seq<int>, x: int, a: int, b: int)
    ensures CountIn(s + [x], a, b) == CountIn(s, a, b) + (if a <= x <= b then 1 else 0)
  {
    assert (s + [x])[..|s|] == s;
  }

  /** The key is alive at its last hit, and every hit so far lies before its expiry. */
  lemma {:induction false} AliveAtLastHit(ttl: int, nows: seq<int>)
    requires ttl > 0 && nows != [] && Ordered(nows)
    ensures var c := After(ttl, nows); 1 <= c.hits && c.expiresAt - ttl <= nows[|nows| - 1] < c.expiresAt
    ensures forall i :: 0 <= i < |nows| ==> nows[i] <= nows[|nows| - 1]
  {
    if |nows| > 1 {
      AliveAtLastHit(ttl, nows[..|nows| - 1]);
      assert forall i :: 0 <= i < |nows| - 1 ==> nows[i] == nows[..|nows| - 1][i];
    }
  }

  lemma {:induction false} AdmittedAreHits(ttl: int, limit: nat, nows: seq<int>, m: int)
    requires forall i :: 0 <= i < |nows| ==> nows[i] <= m
    ensures forall i :: 0 <= i < |Admitted(ttl, limit, nows)| ==> Admitted(ttl, limit, nows)[i] <= m
  {
    if nows != [] {
      AdmittedAreHits(ttl, limit, nows[..|nows| - 1], m);
    }
  }

  /** Nothing was admitted after the last hit. */
  lemma NoneLater(ttl: int, limit: nat, nows: seq<int>, a: int, b: int)
    requires ttl > 0 && nows != [] && Ordered(nows) && nows[|nows| - 1] < a
    ensures CountIn(nows, a, b) == 0 && CountIn(Admitted(ttl, limit, nows), a, b) == 0
  {
    AliveAtLastHit(ttl, nows);
    AdmittedAreHits(ttl, limit, nows, nows[|nows| - 1]);
    CountNone(nows, a, b);
    CountNone(Admitted(ttl, limit, nows), a, b);
  }

  lemma {:induction false} CountNone(s: seq<int>, a: int, b: int)
    requires forall i :: 0 <= i < |s| ==> s[i] < a
    ensures CountIn(s, a, b) == 0
  {
    if s != [] {
      CountNone(s[..|s| - 1], a, b);
    }
  }

  lemma {:induction false} LifeHits(ttl: int, nows: seq<int>, b: int)
    requires ttl > 0 && nows != [] && Ordered(nows) && b >= nows[|nows| - 1]
    ensures CountIn(nows, Born(ttl, nows), b) == After(ttl, nows).hits
  {
    var front, now := nows[..|nows| - 1], nows[|nows| - 1];
    AliveAtLastHit(ttl, nows);
    if front != [] {
      AliveAtLastHit(ttl, front);
      if now < After(ttl, front).expiresAt {
        LifeHits(ttl, front, b);
      } else {
        NoneLater(ttl, 0, front, Born(ttl, nows), b);
      }
    }
  }

  /**
   * Each life of a key admits exactly min(hits, limit): counted from its birth on, the hits are
   * the counter and the admitted ones the lesser of counter and limit.
   */
  lemma {:induction false} LifeAdmits(ttl: int, limit: nat, nows: seq<int>, b: int)
    requires ttl > 0 && nows != [] && Ordered(nows) && b >= nows[|nows| - 1]
    ensures var c, born := After(ttl, nows), Born(ttl, nows);
            && CountIn(nows, born, b) == c.hits
            && CountIn(Admitted(ttl, limit, nows), born, b) == Min(c.hits, limit)
  {
    var front, now := nows[..|nows| - 1], nows[|nows| - 1];
    var born := Born(ttl, nows);
    LifeHits(ttl, nows, b);
    AliveAtLastHit(ttl, nows);
    CountAppend(Admitted(ttl, limit, front), now, born, b);
    if front != [] {
      AliveAtLastHit(ttl, front);
      if now < After(ttl, front).expiresAt {
        LifeAdmits(ttl, limit, front, b);
      } else {
        NoneLater(ttl, limit, front, born, b);
      }
    } else {
      assert Admitted(ttl, limit, front) == [];
    }
  }

  /** A count that begins after the birth misses the hit that made the key. */
  lemma {:induction false} AfterBirth(ttl: int, limit: nat, nows: seq<int>, a: int, b: int)
    requires ttl > 0 && limit > 0 && nows != [] && Ordered(nows) && b >= nows[|nows| - 1] && a > Born(ttl, nows)
    ensures CountIn(Admitted(ttl, limit, nows), a, b) <= Min(After(ttl, nows).hits, limit) - 1
  {
    var front, now := nows[..|nows| - 1], nows[|nows| - 1];
    AliveAtLastHit(ttl, nows);
    CountAppend(Admitted(ttl, limit, front), now, a, b);
    if front != [] {
      AliveAtLastHit(ttl, front);
      if now < After(ttl, front).expiresAt {
        AfterBirth(ttl, limit, front, a, b);
      } else {
        NoneLater(ttl, limit, front, a, b);
      }
    } else {
      assert Admitted(ttl, limit, front) == [];
    }
  }

  /** A window that reaches back less than one ttl before the birth sees one earlier life, without its first hit. */
  lemma {:induction false} AcrossBirth(ttl: int, limit: nat, nows: seq<int>, a: int, b: int)
    requires ttl > 0 && limit > 0 && nows != [] && Ordered(nows) && b >= nows[|nows| - 1] && a > Born(ttl, nows) - ttl
    ensures CountIn(Admitted(ttl, limit, nows), a, b) <= limit - 1 + Min(After(ttl, nows).hits, limit)
  {
    var front, now := nows[..|nows| - 1], nows[|nows| - 1];
    CountAppend(Admitted(ttl, limit, front), now, a, b);
    if front != [] {
      AliveAtLastHit(ttl, front);
      if now < After(ttl, front).expiresAt {
        AcrossBirth(ttl, limit, front, a, b);
      } else {
        AfterBirth(ttl, limit, front, a, b);
      }
    } else {
      assert Admitted(ttl, limit, front) == [];
    }
  }

  /** Any half-open window of one ttl admits at most 2 * limit - 1 hits, and none when the limit is 0. */
  lemma {:induction false} WindowBound(ttl: int, limit: nat, nows: seq<int>, a: int)
    requires ttl > 0 && Ordered(nows)
    ensures CountIn(Admitted(ttl, limit, nows), a, a + ttl - 1) <= Max(0, 2 * limit - 1)
  {
    if nows != [] {
      var front, now := nows[..|nows| - 1], nows[|nows| - 1];
      AliveAtLastHit(ttl, nows);
      if limit > 0 && now <= a + ttl - 1 {
        AcrossBirth(ttl, limit, nows, a, a + ttl - 1);
      } else {
        WindowBound(ttl, limit, front, a);
        CountAppend(Admitted(ttl, limit, front), now, a, a + ttl - 1);
      }
    }
  }

  // ------------------------------------------------------------------ the bound is met

  /** A hit within a life, under the limit. */
  lemma HitAgain(ttl: int, limit: nat, nows: seq<int>, at: int, a: int, b: int)
    requires nows != [] && Ordered(nows) && nows[|nows| - 1] <= at < After(ttl, nows).expiresAt
    requires After(ttl, nows).hits < limit && a <= at <= b
    ensures Ordered(nows + [at])
    ensures After(ttl, nows + [at]) == After(ttl, nows).(hits := After(ttl, nows).hits + 1)
    ensures CountIn(Admitted(ttl, limit, nows + [at]), a, b) == CountIn(Admitted(ttl, limit, nows), a, b) + 1
  {
    assert (nows + [at])[..|nows|] == nows;
    CountAppend(Admitted(ttl, limit, nows), at, a, b);
  }

  /** `k` more hits at one instant of the life that began at `born`. */
  lemma {:induction false} Burst(ttl: int, limit: nat, nows: seq<int>, at: int, k: nat, a: int, b: int)
      returns (more: seq<int>)
    requires a <= at <= b
    requires ttl > 0 && nows != [] && Ordered(nows) && nows[|nows| - 1] <= at < After(ttl, nows).expiresAt
    requires After(ttl, nows).hits + k <= limit
    ensures more != [] && Ordered(more) && more[|more| - 1] <= at
    ensures After(ttl, more) == After(ttl, nows).(hits := After(ttl, nows).hits + k)
    ensures CountIn(Admitted(ttl, limit, more), a, b) == CountIn(Admitted(ttl, limit, nows), a, b) + k
  {
    if k == 0 {
      more := nows;
    } else {
      var less := Burst(ttl, limit, nows, at, k - 1, a, b);
      more := less + [at];
      HitAgain(ttl, limit, less, at, a, b);
    }
  }

  /** One hit, `limit - 1` hits at the end of that life and `limit` hits at the start of the next fill a window. */
  lemma WindowBoundIsMet(ttl: int, limit: nat) returns (nows: seq<int>, a: int)
    requires ttl > 1 && limit > 0
    ensures Ordered(nows) && CountIn(Admitted(ttl, limit, nows), a, a + ttl - 1) == 2 * limit - 1
  {
    a := ttl - 1;
    FirstHit(ttl, limit, a, a + ttl - 1);
    var first := Burst(ttl, limit, [0], ttl - 1, limit - 1, a, a + ttl - 1);
    NextLife(ttl, limit, first, ttl, a, a + ttl - 1);
    nows := Burst(ttl, limit, first + [ttl], ttl, limit - 1, a, a + ttl - 1);
  }

  lemma FirstHit(ttl: int, limit: nat, a: int, b: int)
    requires 0 < a && limit > 0
    ensures Ordered([0]) && After(ttl, [0]) == Counter(1, ttl) && CountIn(Admitted(ttl, limit, [0]), a, b) == 0
  {
    assert Admitted(ttl, limit, [0][..0]) == [];
    CountAppend([], 0, a, b);
  }

  /** A hit at the expiry begins a new life. */
  lemma NextLife(ttl: int, limit: nat, nows: seq<int>, at: int, a: int, b: int)
    requires nows != [] && Ordered(nows) && nows[|nows| - 1] <= at == After(ttl, nows).expiresAt
    requires limit > 0 && a <= at <= b
    ensures Ordered(nows + [at]) && After(ttl, nows + [at]) == Counter(1, at + ttl)
    ensures CountIn(Admitted(ttl, limit, nows + [at]), a, b) == CountIn(Admitted(ttl, limit, nows), a, b) + 1
  {
    assert (nows + [at])[..|nows|] == nows;
    CountAppend(Admitted(ttl, limit, nows), at, a, b);
  }
}
