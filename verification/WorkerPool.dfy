/**
 `mapWithConcurrency` (src/modules/i18n/i18n.provider.ts): workers that share an index and fill a results
 array. A step of a worker is one stretch of its code between two awaits; any worker that is not
 finished may take the next step.
 */
module WorkerPool {
  import opened Common

  datatype Worker = Ready | Running(index: nat) | Finished

  /** `owners` records which worker claimed each index, in the order of the claims. */
  datatype Pool<U> = Pool(next: nat, workers: seq<Worker>, results: seq<Option<U>>, owners: seq<nat>)

  function WorkerCount(concurrency: int, n: nat): nat { Max(1, Min(concurrency, n)) }

  function Start<U>(n: nat, concurrency: int): Pool<U> {
    Pool(0, seq(WorkerCount(concurrency, n), _ => Ready), seq(n, _ => None), [])
  }

  /** Claims the next index, finishes the claimed one, or leaves the loop. */
  function Step<T, U>(s: Pool<U>, items: seq<T>, mapper: (T, nat) -> U, w: nat): Pool<U>
    requires w < |s.workers| && !s.workers[w].Finished?
    requires s.workers[w].Running? ==> s.workers[w].index < |items| == |s.results|
  {
    match s.workers[w]
    case Ready =>
      if s.next < |items| then
        s.(next := s.next + 1, workers := s.workers[w := Running(s.next)], owners := s.owners + [w])
      else s.(workers := s.workers[w := Finished])
    case Running(i) =>
      s.(workers := s.workers[w := Ready], results := s.results[i := Some(mapper(items[i], i))])
  }

  ghost predicate Invariant<T, U(!new)>(s: Pool<U>, items: seq<T>, mapper: (T, nat) -> U) {
    && |s.results| == |items| && s.next <= |items| && |s.owners| == s.next
    && (forall i :: 0 <= i < s.next ==> s.owners[i] < |s.workers|)
    && (forall w :: 0 <= w < |s.workers| && s.workers[w].Running? ==>
          var i := s.workers[w].index; i < s.next && s.owners[i] == w && s.results[i] == None)
    && (forall i :: 0 <= i < s.next ==>
          s.results[i] == Some(mapper(items[i], i)) || s.workers[s.owners[i]] == Running(i))
    && (forall i :: s.next <= i < |items| ==> s.results[i] == None)
    && (forall w :: 0 <= w < |s.workers| && s.workers[w].Finished? ==> s.next == |items|)
  }

  function Weight(w: Worker): nat { if w.Running? then 2 else if w.Ready? then 1 else 0 }

  function Weights(workers: seq<Worker>): nat {
    if workers == [] then 0 else Weight(workers[0]) + Weights(workers[1..])
  }

  /** How many steps can still be taken. */
  function Measure<U>(s: Pool<U>): int { 3 * (|s.results| - s.next) + Weights(s.workers) }

  lemma {:induction false} WeightsUpdate(workers: seq<Worker>, w: nat, x: Worker)
    requires w < |workers|
    ensures Weights(workers[w := x]) == Weights(workers) + Weight(x) - Weight(workers[w])
  {
    if w == 0 {
      assert workers[w := x][1..] == workers[1..];
    } else {
      WeightsUpdate(workers[1..], w - 1, x);
      assert workers[w := x][1..] == workers[1..][w - 1 := x];
    }
  }

  lemma StepKeeps<T, U(!new)>(s: Pool<U>, items: seq<T>, mapper: (T, nat) -> U, w: nat)
    requires Invariant(s, items, mapper) && w < |s.workers| && !s.workers[w].Finished?
    ensures Invariant(Step(s, items, mapper, w), items, mapper)
    ensures |Step(s, items, mapper, w).workers| == |s.workers|
    ensures Measure(Step(s, items, mapper, w)) < Measure(s)
    ensures Measure(Step(s, items, mapper, w)) >= 0
  {
    var s' := Step(s, items, mapper, w);
    WeightsUpdate(s.workers, w, s'.workers[w]);
  }

  // ----- Every interleaving -----

  /** A schedule names the worker that takes each step; it may not name a finished one. */
  ghost predicate Follows<T, U>(s: Pool<U>, items: seq<T>, mapper: (T, nat) -> U, schedule: seq<nat>, end: Pool<U>)
    decreases |schedule|
  {
    if schedule == [] then end == s
    else
      var w := schedule[0];
      && w < |s.workers| && !s.workers[w].Finished?
      && (s.workers[w].Running? ==> s.workers[w].index < |items| == |s.results|)
      && Follows(Step(s, items, mapper, w), items, mapper, schedule[1..], end)
  }

  ghost predicate AllFinished<U>(s: Pool<U>) {
    forall w :: 0 <= w < |s.workers| ==> s.workers[w].Finished?
  }

  lemma StartInvariant<T, U(!new)>(items: seq<T>, mapper: (T, nat) -> U, concurrency: int)
    ensures Invariant(Start(|items|, concurrency), items, mapper)
  {
  }

  lemma {:induction false} RunKeeps<T, U(!new)>(s: Pool<U>, items: seq<T>, mapper: (T, nat) -> U,
                                                schedule: seq<nat>, end: Pool<U>)
    requires Invariant(s, items, mapper) && Follows(s, items, mapper, schedule, end)
    ensures Invariant(end, items, mapper) && |end.workers| == |s.workers|
    ensures |schedule| <= Measure(s) - Measure(end)
    decreases |schedule|
  {
    if schedule != [] {
      StepKeeps(s, items, mapper, schedule[0]);
      RunKeeps(Step(s, items, mapper, schedule[0]), items, mapper, schedule[1..], end);
    }
  }

  /** The workers that are busy with an item. */
  function Busy(workers: seq<Worker>): set<nat> {
    set w: nat | w < |workers| && workers[w].Running?
  }

  lemma {:induction false} BelowSize(busy: set<nat>, n: nat)
    requires forall w :: w in busy ==> w < n
    ensures |busy| <= n
  {
    if n == 0 {
      assert busy == {};
    } else {
      BelowSize(busy - {n - 1}, n - 1);
      assert n - 1 !in busy ==> busy - {n - 1} == busy;
    }
  }

  /**
   At every point of every interleaving: no more than `concurrency` items are in flight, no two workers
   are on the same item, and every item claimed so far was claimed by exactly one worker, which is either
   still on it or has left its result.
   */
  lemma InFlight<T, U(!new)>(items: seq<T>, mapper: (T, nat) -> U, concurrency: int, schedule: seq<nat>, end: Pool<U>)
    requires Follows(Start(|items|, concurrency), items, mapper, schedule, end)
    ensures |Busy(end.workers)| <= 1 || (|Busy(end.workers)| <= concurrency && |Busy(end.workers)| <= |items|)
    ensures forall v, w :: v in Busy(end.workers) && w in Busy(end.workers) && v != w ==>
              end.workers[v].index != end.workers[w].index
    ensures |end.owners| == end.next <= |items| == |end.results|
    ensures forall i :: 0 <= i < end.next ==>
              end.owners[i] < |end.workers|
              && (end.results[i] == Some(mapper(items[i], i)) || end.workers[end.owners[i]] == Running(i))
  {
    StartInvariant(items, mapper, concurrency);
    RunKeeps(Start(|items|, concurrency), items, mapper, schedule, end);
    BelowSize(Busy(end.workers), |end.workers|);
  }

  /** Workers claim the items that are left for them, one after the other, until all of them are busy. */
  lemma {:induction false} ClaimAll<T, U>(s: Pool<U>, items: seq<T>, mapper: (T, nat) -> U, c: nat)
      returns (schedule: seq<nat>, end: Pool<U>)
    requires c == s.next <= |s.workers| <= |items| == |s.results|
    requires forall w :: 0 <= w < |s.workers| ==> s.workers[w] == if w < c then Running(w) else Ready
    ensures Follows(s, items, mapper, schedule, end) && |end.workers| == |s.workers|
    ensures forall w :: 0 <= w < |end.workers| ==> end.workers[w].Running?
    decreases |s.workers| - c
  {
    schedule, end := [], s;
    if c < |s.workers| {
      var rest;
      rest, end := ClaimAll(Step(s, items, mapper, c), items, mapper, c + 1);
      schedule := [c] + rest;
      assert schedule[1..] == rest;
    }
  }

  /** The bound is reached: in some interleaving, that many items are in flight at once. */
  lemma InFlightReached<T, U(!new)>(items: seq<T>, mapper: (T, nat) -> U, concurrency: int)
      returns (schedule: seq<nat>, end: Pool<U>)
    requires items != []
    ensures Follows(Start(|items|, concurrency), items, mapper, schedule, end)
    ensures |Busy(end.workers)| == if concurrency <= 1 then 1 else Min(concurrency, |items|)
  {
    schedule, end := ClaimAll(Start(|items|, concurrency), items, mapper, 0);
    AllBusy(end.workers, |end.workers|);
    assert Busy(end.workers) == set w: nat | w < |end.workers| && end.workers[w].Running?;
  }

  lemma {:induction false} AllBusy(workers: seq<Worker>, n: nat)
    requires n <= |workers| && forall w :: 0 <= w < |workers| ==> workers[w].Running?
    ensures |set w: nat | w < n && workers[w].Running?| == n
  {
    if n > 0 {
      AllBusy(workers, n - 1);
      assert (set w: nat | w < n && workers[w].Running?)
          == (set w: nat | w < n - 1 && workers[w].Running?) + {n - 1};
    }
  }

  lemma {:induction false} WeightsOfReady(n: nat)
    ensures Weights(seq(n, _ => Ready)) == n
  {
    if n > 0 {
      assert seq(n, _ => Ready)[1..] == seq(n - 1, _ => Ready);
      WeightsOfReady(n - 1);
    }
  }

  /**
   Every interleaving is over after at most three steps an item and one a worker, and then holds the mapped
   items in order.
   */
  lemma EveryScheduleMaps<T, U(!new)>(items: seq<T>, mapper: (T, nat) -> U, concurrency: int,
                                      schedule: seq<nat>, end: Pool<U>)
    requires Follows(Start(|items|, concurrency), items, mapper, schedule, end)
    ensures |schedule| <= 3 * |items| + Max(1, Min(concurrency, |items|))
    ensures AllFinished(end) ==>
              |end.results| == |items| && forall i :: 0 <= i < |items| ==> end.results[i] == Some(mapper(items[i], i))
    ensures AllFinished(end) ==> |end.owners| == |items|
  {
    StartInvariant(items, mapper, concurrency);
    var start: Pool<U> := Start(|items|, concurrency);
    RunKeeps(start, items, mapper, schedule, end);
    WeightsOfReady(WorkerCount(concurrency, |items|));
    assert start.workers == seq(WorkerCount(concurrency, |items|), _ => Ready);
  }

  /** The pool itself: whichever unfinished worker moves next, the results are the mapped items in order. */
  method MapWithConcurrency<T, U(!new)>(items: seq<T>, concurrency: int, mapper: (T, nat) -> U)
      returns (results: seq<U>)
    ensures |results| == |items| && forall i :: 0 <= i < |items| ==> results[i] == mapper(items[i], i)
  {
    var slots: seq<Option<U>> := seq(|items|, _ => None);
    var nextIndex := 0;
    var workers: seq<Worker> := seq(WorkerCount(concurrency, |items|), _ => Ready);
    ghost var owners: seq<nat> := [];
    StartInvariant(items, mapper, concurrency);
    while exists w :: 0 <= w < |workers| && !workers[w].Finished?
      invariant Invariant(Pool(nextIndex, workers, slots, owners), items, mapper) && |workers| > 0
      decreases Measure(Pool(nextIndex, workers, slots, owners))
    {
      var w :| 0 <= w < |workers| && !workers[w].Finished?;
      StepKeeps(Pool(nextIndex, workers, slots, owners), items, mapper, w);
      if workers[w].Running? {
        var currentIndex := workers[w].index;
        slots := slots[currentIndex := Some(mapper(items[currentIndex], currentIndex))];
        workers := workers[w := Ready];
      } else if nextIndex < |items| {
        workers := workers[w := Running(nextIndex)];
        owners := owners + [w];
        nextIndex := nextIndex + 1;
      } else {
        workers := workers[w := Finished];
      }
    }
    assert workers[0].Finished?;
    results := seq(|slots|, i requires 0 <= i < |slots| && slots[i].Some? => slots[i].value);
  }
}
