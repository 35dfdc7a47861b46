/**
 * The worker pool of src/utils/concurrency.js.
 *
 * A worker claims an index, awaits the mapper, writes the result and loops. Between two
 * awaits nothing else runs, so "write the result, test the bound, claim the next index" is
 * one step; which worker takes the next step is up to the event loop.
 */
module Concurrency {
  import opened Prelude

  datatype Worker = Busy(index: nat) | Finished

  /** How many workers are started. */
  function WorkerCount(limit: int, n: nat): nat {
    Max(1, Min(limit, n))
  }

  /** The number of mapper calls in flight. */
  function InFlight(workers: seq<Worker>): nat {
    if workers == [] then 0
    else InFlight(workers[1..]) + (if workers[0].Busy? then 1 else 0)
  }

  lemma {:induction false} InFlightUpdate(workers: seq<Worker>, w: nat, x: Worker)
    requires w < |workers|
    ensures InFlight(workers[w := x])
         == InFlight(workers) - (if workers[w].Busy? then 1 else 0) + (if x.Busy? then 1 else 0)
  {
    if w == 0 {
      assert workers[w := x][1..] == workers[1..];
    } else {
      assert workers[w := x][1..] == workers[1..][w - 1 := x];
      InFlightUpdate(workers[1..], w - 1, x);
    }
  }

  lemma {:induction false} InFlightBound(workers: seq<Worker>)
    ensures InFlight(workers) <= |workers|
    ensures InFlight(workers) == 0 <==> forall w :: 0 <= w < |workers| ==> workers[w].Finished?
  {
    if workers != [] {
      InFlightBound(workers[1..]);
      assert forall w :: 1 <= w < |workers| ==> workers[w] == workers[1..][w - 1];
      assert forall w :: 0 <= w < |workers| - 1 ==> workers[1..][w] == workers[w + 1];
    }
  }

  lemma {:induction false} InFlightAppend(workers: seq<Worker>, x: Worker)
    ensures InFlight(workers + [x]) == InFlight(workers) + (if x.Busy? then 1 else 0)
  {
    if workers == [] {
      assert workers + [x] == [x];
    } else {
      assert (workers + [x])[1..] == workers[1..] + [x];
      InFlightAppend(workers[1..], x);
    }
  }

  /** The bookkeeping that holds between any two steps of the pool. */
  ghost predicate PoolInvariant<R>(workers: seq<Worker>, cells: seq<Option<R>>, next: nat) {
    && next <= |cells|
       // a claimed index is owned by one worker or already has its result, never both
    && (forall w :: 0 <= w < |workers| && workers[w].Busy? ==>
          workers[w].index < next && cells[workers[w].index].None?)
    && (forall v, w :: 0 <= v < w < |workers| && workers[v].Busy? && workers[w].Busy? ==>
          workers[v].index != workers[w].index)
    && (forall i :: 0 <= i < next && cells[i].None? ==>
          exists w :: 0 <= w < |workers| && workers[w] == Busy(i))
    && (forall i :: next <= i < |cells| ==> cells[i].None?)
       // a worker stops only when every index has been claimed
    && (forall w :: 0 <= w < |workers| && workers[w].Finished? ==> next == |cells|)
  }

  /** The index a worker takes at its loop test, if any is left. */
  function Claim(next: nat, n: nat): Worker {
    if next < n then Busy(next) else Finished
  }

  lemma StartKeeps<R>(workers: seq<Worker>, cells: seq<Option<R>>, next: nat)
    requires PoolInvariant(workers, cells, next)
    ensures PoolInvariant(workers + [Claim(next, |cells|)], cells, Min(next + 1, |cells|))
  {
    var after := workers + [Claim(next, |cells|)];
    forall i | 0 <= i < Min(next + 1, |cells|) && cells[i].None?
      ensures exists w :: 0 <= w < |after| && after[w] == Busy(i)
    {
      if i < next {
        var w :| 0 <= w < |workers| && workers[w] == Busy(i);
        assert after[w] == Busy(i);
      } else {
        assert after[|workers|] == Busy(i);
      }
    }
  }

  lemma ResumeKeeps<R>(workers: seq<Worker>, cells: seq<Option<R>>, next: nat, w: nat, r: R)
    requires PoolInvariant(workers, cells, next)
    requires w < |workers| && workers[w].Busy?
    ensures PoolInvariant(workers[w := Claim(next, |cells|)], cells[workers[w].index := Some(r)],
                          Min(next + 1, |cells|))
  {
    var after := workers[w := Claim(next, |cells|)];
    var filled := cells[workers[w].index := Some(r)];
    forall i | 0 <= i < Min(next + 1, |cells|) && filled[i].None?
      ensures exists v :: 0 <= v < |after| && after[v] == Busy(i)
    {
      if i < next {
        var v :| 0 <= v < |workers| && workers[v] == Busy(i);
        assert after[v] == Busy(i);
      } else {
        assert after[w] == Busy(i);
      }
    }
  }

  /** A pool without a busy worker has mapped everything. */
  lemma IdleMeansDone<R>(workers: seq<Worker>, cells: seq<Option<R>>, next: nat)
    requires PoolInvariant(workers, cells, next)
    requires workers != [] && forall w :: 0 <= w < |workers| ==> workers[w].Finished?
    ensures next == |cells| && forall i :: 0 <= i < |cells| ==> cells[i].Some?
  {
    assert workers[0].Finished?;
  }

  /** The list 0, 1, ..., n-1. */
  ghost predicate Upto(calls: seq<nat>, n: nat) {
    |calls| == n && forall i :: 0 <= i < n ==> calls[i] == i
  }

  /** Every result written so far is the mapper's value for that index. */
  ghost predicate Correct<T, R>(items: seq<T>, mapper: (T, nat) -> R, cells: seq<Option<R>>) {
    && |cells| == |items|
    && forall i :: 0 <= i < |items| && cells[i].Some? ==> cells[i].value == mapper(items[i], i)
  }

  /** A JavaScript array without holes, read as a list. */
  function Unwrap<R>(cells: seq<Option<R>>): (r: seq<R>)
    requires forall i :: 0 <= i < |cells| ==> cells[i].Some?
    ensures |r| == |cells| && forall i :: 0 <= i < |cells| ==> r[i] == cells[i].value
  {
    seq(|cells|, i requires 0 <= i < |cells| => cells[i].value)
  }

  /** Creates the workers; each runs up to its first await as soon as it is created. */
  method StartWorkers<R>(count: nat, ghost cells: seq<Option<R>>, n: nat)
    returns (workers: seq<Worker>, next: nat, ghost calls: seq<nat>, ghost peak: nat)
    requires n == |cells| && forall i :: 0 <= i < n ==> cells[i].None?
    ensures |workers| == count && next == Min(count, n)
    ensures PoolInvariant(workers, cells, next)
    ensures Upto(calls, next) && InFlight(workers) == peak == next
  {
    workers, next, calls, peak := [], 0, [], 0;
    for k := 0 to count
      invariant |workers| == k && next == Min(k, n)
      invariant PoolInvariant(workers, cells, next)
      invariant Upto(calls, next)
      invariant InFlight(workers) == peak == next
    {
      StartKeeps(workers, cells, next);
      InFlightAppend(workers, Claim(next, n));
      workers := workers + [Claim(next, n)];
      if next < n {
        calls := calls + [next];
        next := next + 1;
      }
      InFlightBound(workers);
      peak := Max(peak, InFlight(workers));
    }
  }

  /** All that is known of a running pool of `count` workers. */
  ghost predicate Running<T, R>(items: seq<T>, mapper: (T, nat) -> R, count: nat, workers: seq<Worker>,
                                cells: seq<Option<R>>, next: nat, calls: seq<nat>, peak: nat)
  {
    && |workers| == count && next <= |items|
    && PoolInvariant(workers, cells, next)
    && Correct(items, mapper, cells)
    && Upto(calls, next)
    && InFlight(workers) <= peak == Min(count, |items|)
  }

  /** The awaited call of worker `w` settles: write the result, test the bound, claim. */
  method Resume<T, R>(items: seq<T>, mapper: (T, nat) -> R, w: nat, before: seq<Worker>, cells: array<Option<R>>,
                      at: nat, ghost past: seq<nat>, ghost top: nat)
    returns (workers: seq<Worker>, next: nat, ghost calls: seq<nat>, ghost peak: nat)
    requires w < |before| && before[w].Busy?
    requires Running(items, mapper, |before|, before, cells[..], at, past, top)
    modifies cells
    ensures Running(items, mapper, |before|, workers, cells[..], next, calls, peak)
    ensures cells[..] == old(cells[..])[before[w].index := Some(mapper(items[before[w].index], before[w].index))]
    ensures workers == before[w := Claim(at, |items|)] && next == Min(at + 1, |items|)
    ensures at == |items| ==> InFlight(workers) < InFlight(before)
  {
    var index := before[w].index;
    var result := mapper(items[index], index);
    ResumeKeeps(before, cells[..], at, w, result);
    InFlightUpdate(before, w, Claim(at, |items|));
    cells[index] := Some(result);
    workers, next, calls := before[w := Claim(at, |items|)], at, past;
    if at < |items| {
      calls := past + [at];
      next := at + 1;
    }
    peak := Max(top, InFlight(workers));
  }

  /**
   * mapWithConcurrency for an arbitrary schedule: the choice of `w` stands for whichever
   * awaited mapper call happens to settle next. `calls` records the indexes in the order
   * the mapper was invoked with them, `peak` the largest number of calls in flight.
   */
  method MapWithConcurrency<T, R>(items: seq<T>, limit: int, mapper: (T, nat) -> R)
    returns (results: seq<R>, ghost calls: seq<nat>, ghost peak: nat)
    ensures |results| == |items|
    ensures forall i :: 0 <= i < |items| ==> results[i] == mapper(items[i], i)
    ensures Upto(calls, |items|)
    ensures peak == Min(Max(1, limit), |items|)
  {
    var cells := new Option<R>[|items|](i => None);
    var workers, next;
    workers, next, calls, peak := StartWorkers(WorkerCount(limit, |items|), cells[..], |items|);

    while exists w :: 0 <= w < |workers| && workers[w].Busy?
      invariant Running(items, mapper, WorkerCount(limit, |items|), workers, cells[..], next, calls, peak)
      decreases |items| - next, InFlight(workers)
    {
      var w :| 0 <= w < |workers| && workers[w].Busy?;
      workers, next, calls, peak := Resume(items, mapper, w, workers, cells, next, calls, peak);
    }

    IdleMeansDone(workers, cells[..], next);
    results := Unwrap(cells[..]);
  }
}
