/**
 * createRateLimiter of src/utils/rateLimiter.js. The slot is reserved before the caller
 * sleeps, so each call is one step however many callers wait at once.
 */
module RateLimiter {
  import opened Prelude
  import opened Spacing

  /** The instant at which the last of the callers `nows` may proceed. */
  function Slot(interval: int, nows: seq<int>): int
    requires nows != []
  {
    var now := nows[|nows| - 1];
    if |nows| == 1 then Max(now, 0) else Max(now, Slot(interval, nows[..|nows| - 1]) + interval)
  }

  ghost function Slots(interval: int, nows: seq<int>): (r: seq<int>)
    ensures |r| == |nows|
    ensures forall k :: 0 <= k < |nows| ==> r[k] == Slot(interval, nows[..k + 1])
  {
    seq(|nows|, k requires 0 <= k < |nows| => Slot(interval, nows[..k + 1]))
  }

  class Limiter {
    const minIntervalMs: int
    var nextAllowedTime: int
    ghost var nows: seq<int>   // the clock readings of the calls that reserved a slot

    ghost predicate Valid()
      reads this
    {
      nextAllowedTime == if nows == [] then 0 else Slot(minIntervalMs, nows) + minIntervalMs
    }

    constructor (minIntervalMs: int)
      ensures Valid() && nows == [] && this.minIntervalMs == minIntervalMs
    {
      this.minIntervalMs := minIntervalMs;
      nextAllowedTime, nows := 0, [];
    }

    /** One call of wait(), made at clock reading `now`: how long the caller sleeps. */
    method Wait(now: int) returns (waitFor: int)
      requires Valid()
      modifies this
      ensures Valid()
      ensures minIntervalMs <= 0 ==> waitFor == 0 && nows == old(nows) && nextAllowedTime == old(nextAllowedTime)
      ensures minIntervalMs > 0 ==>
                nows == old(nows) + [now] && waitFor >= 0 && now + waitFor == Slot(minIntervalMs, nows)
    {
      if minIntervalMs <= 0 { return 0; }
      waitFor := Max(0, nextAllowedTime - now);
      nextAllowedTime := Max(now, nextAllowedTime) + minIntervalMs;
      assert (nows + [now])[..|nows|] == nows;
      nows := nows + [now];
    }
  }

  // ------------------------------------------------------------------ what the slots are

  /** No slot lies before its caller's clock reading, nor closer than the interval to an earlier one. */
  lemma {:induction false} SlotAfterEach(interval: int, nows: seq<int>, j: nat)
    requires j < |nows|
    ensures Slot(interval, nows) >= nows[j] + (|nows| - 1 - j) * interval
    ensures Slot(interval, nows) >= (|nows| - 1) * interval
  {
    if |nows| > 1 {
      var front := nows[..|nows| - 1];
      var i := if j < |front| then j else 0;
      SlotAfterEach(interval, front, i);
      MulStep(|nows| - 2 - i, interval);
      MulStep(|nows| - 2, interval);
    }
  }

  lemma MulStep(n: int, interval: int)
    ensures (n + 1) * interval == n * interval + interval
  {
  }

  /**
   * One of the callers fixes the slot exactly: with a clock past zero it is the maximum of now_j + (k - j) *
   * interval.
   */
  lemma {:induction false} SlotIsAttained(interval: int, nows: seq<int>) returns (j: nat)
    requires nows != [] && nows[0] >= 0
    ensures j < |nows| && Slot(interval, nows) == nows[j] + (|nows| - 1 - j) * interval
  {
    var n := |nows|;
    if n == 1 || nows[n - 1] >= Slot(interval, nows[..n - 1]) + interval {
      j := n - 1;
    } else {
      j := SlotIsAttained(interval, nows[..n - 1]);
      MulStep(n - 2 - j, interval);
    }
  }

  /** The closed form: the k-th slot is the largest of now_j + (k - j) * interval over j <= k. */
  lemma {:induction false} SlotIsMaximum(interval: int, nows: seq<int>)
    requires nows != [] && nows[0] >= 0
    ensures forall j :: 0 <= j < |nows| ==> Slot(interval, nows) >= nows[j] + (|nows| - 1 - j) * interval
    ensures exists j :: 0 <= j < |nows| && Slot(interval, nows) == nows[j] + (|nows| - 1 - j) * interval
  {
    forall j | 0 <= j < |nows| ensures Slot(interval, nows) >= nows[j] + (|nows| - 1 - j) * interval {
      SlotAfterEach(interval, nows, j);
    }
    var j := SlotIsAttained(interval, nows);
  }

  /** No in-order schedule with that spacing serves any caller earlier. */
  lemma {:induction false} SlotIsEarliest(interval: int, nows: seq<int>, other: seq<int>)
    requires |other| == |nows| > 0 && other[0] >= 0
    requires Spaced(other, interval) && forall k :: 0 <= k < |nows| ==> other[k] >= nows[k]
    ensures Slot(interval, nows) <= other[|other| - 1]
  {
    if |nows| > 1 {
      SlotIsEarliest(interval, nows[..|nows| - 1], other[..|other| - 1]);
    }
  }

  /**
   * Slots keep the interval, so a window of length `width` holds at most floor(width / interval) + 1, even if
   * the clock steps back.
   */
  lemma RateBound(interval: nat, nows: seq<int>, a: int, width: nat)
    requires interval > 0
    ensures Spaced(Slots(interval, nows), interval)
    ensures CountIn(Slots(interval, nows), a, a + width) <= width / interval + 1
  {
    var s := Slots(interval, nows);
    forall i | 0 < i < |s| ensures s[i] - s[i - 1] >= interval {
      assert nows[..i + 1][..i] == nows[..i];
    }
    WindowCount(s, interval, a, width);
  }
}
