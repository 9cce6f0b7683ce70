/** Running the planned experts on the packed rows. Workers take items from private ranges
    (`ParallelFor` over the items, or the serial call) or from the shared atomic counter, and write
    their rows in any interleaving; a run is any sequence of worker steps. */
module ExpertRun {
  import opened Arithmetic
  import opened Ordering
  import opened ForwardPlan
  import opened ExecutionPlan

  // `ffn(e, rows, k)` is row k of what expert e computes from its rows; packed rows are values V.
  datatype Layer<!V> = Layer(
    offsets: seq<int>,
    total: nat,
    work: seq<Work>,
    input: seq<V>,
    ffn: (int, seq<V>, nat) -> V)

  datatype Phase = Ready | Running(item: nat, row: nat) | Done

  // The worker may still take the items [lo, hi) without touching the counter.
  datatype Worker = Worker(lo: nat, hi: nat, phase: Phase)

  // `next` is the atomic counter, `out` the packed output, `runs[i]` how often item i was taken.
  datatype State<V> = State(next: nat, workers: seq<Worker>, out: seq<V>, runs: seq<nat>)

  ghost predicate ValidLayer<V>(l: Layer<V>) {
    Offsets(l.offsets, l.total) && Tiles(l.work, l.offsets, l.total) && |l.input| == l.total
  }

  predicate ItemFits<V>(l: Layer<V>, i: nat) {
    && i < |l.work| && 0 <= l.work[i].start && 0 < l.work[i].count
    && l.work[i].start + l.work[i].count <= l.total == |l.input|
  }

  lemma ItemBounds<V>(l: Layer<V>, i: nat)
    requires ValidLayer(l) && i < |l.work|
    ensures OwnsItsRows(l.work[i], l.offsets) && ItemFits(l, i)
  {
    assert l.work[i] in l.work;
    NextOwnerStarts(l.offsets, l.total, l.work[i].expert, l.work[i].expert);
  }

  // Row k of the output of item i.
  function RowValue<V>(l: Layer<V>, i: nat, k: nat): V
    requires ItemFits(l, i)
  {
    var w := l.work[i];
    l.ffn(w.expert, l.input[w.start..w.start + w.count], k)
  }

  /* ---- Steps ---- */

  predicate WorkerFits<V>(l: Layer<V>, worker: Worker) {
    && worker.hi <= |l.work|
    && (worker.phase.Running? ==> worker.phase.item < |l.work| && worker.phase.row <= l.work[worker.phase.item].count)
  }

  ghost predicate Fits<V>(l: Layer<V>, s: State<V>) {
    && ValidLayer(l) && |s.out| == l.total && |s.runs| == |l.work|
    && forall w | 0 <= w < |s.workers| :: WorkerFits(l, s.workers[w])
  }

  function Take<V>(s: State<V>, w: nat, item: nat, lo: nat, next: nat): State<V>
    requires w < |s.workers| && item < |s.runs|
  {
    State(next, s.workers[w := Worker(lo, s.workers[w].hi, Running(item, 0))], s.out, s.runs[item := s.runs[item] + 1])
  }

  function SetPhase<V>(s: State<V>, w: nat, phase: Phase): State<V>
    requires w < |s.workers|
  {
    s.(workers := s.workers[w := s.workers[w].(phase := phase)])
  }

  // One step of worker w: take an item, write one row of it, or finish.
  ghost function Advance<V>(l: Layer<V>, s: State<V>, w: nat): State<V>
    requires Fits(l, s) && w < |s.workers|
  {
    var worker := s.workers[w];
    match worker.phase
    case Done => s
    case Ready =>
      if worker.lo < worker.hi then Take(s, w, worker.lo, worker.lo + 1, s.next)
      else if s.next < |l.work| then Take(s, w, s.next, worker.lo, s.next + 1)
      else SetPhase(s.(next := s.next + 1), w, Done)
    case Running(i, k) =>
      ItemBounds(l, i);
      if k < l.work[i].count then
        SetPhase(s, w, Running(i, k + 1)).(out := s.out[l.work[i].start + k := RowValue(l, i, k)])
      else SetPhase(s, w, Ready)
  }

  /* ---- The invariant ---- */

  // The first k rows of item i hold their values.
  ghost predicate RowsWritten<V>(l: Layer<V>, s: State<V>, i: nat, k: int) {
    && ItemFits(l, i) && |s.out| == l.total && k <= l.work[i].count
    && forall j: nat | j < k :: s.out[l.work[i].start + j] == RowValue(l, i, j)
  }

  predicate InRange(worker: Worker, i: nat) { worker.lo <= i < worker.hi }

  // Nothing a worker still holds in its range has been taken, and the counter is past it.
  predicate RangeFree<V>(s: State<V>, w: nat, i: nat) {
    w < |s.workers| && i < |s.runs| && InRange(s.workers[w], i) ==> s.runs[i] == 0 && i < s.next
  }

  predicate Apart<V>(s: State<V>, v: nat, w: nat, i: nat) {
    v < |s.workers| && w < |s.workers| && v != w ==>
      && !(InRange(s.workers[v], i) && InRange(s.workers[w], i))
      && !(IsRunning(s.workers[v], i) && IsRunning(s.workers[w], i))
  }

  predicate IsRunning(worker: Worker, i: nat) { worker.phase.Running? && worker.phase.item == i }

  ghost predicate Held<V>(s: State<V>, i: nat) { exists w: nat | w < |s.workers| :: InRange(s.workers[w], i) }

  ghost predicate BeingRun<V>(s: State<V>, i: nat) { exists w: nat | w < |s.workers| :: IsRunning(s.workers[w], i) }

  ghost predicate ItemOk<V>(l: Layer<V>, s: State<V>, i: nat)
    requires |s.runs| == |l.work|
  {
    i < |l.work| ==>
      && s.runs[i] <= 1
      && (i >= s.next ==> s.runs[i] == 0)
      && (i < s.next && s.runs[i] == 0 ==> Held(s, i))
      && (s.runs[i] == 1 && !BeingRun(s, i) ==> RowsWritten(l, s, i, l.work[i].count))
  }

  ghost predicate WorkerOk<V>(l: Layer<V>, s: State<V>, w: nat) {
    w < |s.workers| && s.workers[w].phase.Running? ==>
      && s.workers[w].phase.item < |s.runs| && s.runs[s.workers[w].phase.item] == 1
      && RowsWritten(l, s, s.workers[w].phase.item, s.workers[w].phase.row)
  }

  predicate DoneOk<V>(l: Layer<V>, s: State<V>, w: nat) {
    w < |s.workers| && s.workers[w].phase == Done ==> s.workers[w].lo >= s.workers[w].hi && s.next >= |l.work|
  }

  ghost predicate Inv<V>(l: Layer<V>, s: State<V>) {
    && Fits(l, s)
    && (forall i: nat :: ItemOk(l, s, i))
    && (forall w: nat :: WorkerOk(l, s, w))
    && (forall w: nat :: DoneOk(l, s, w))
    && (forall w: nat, i: nat :: RangeFree(s, w, i))
    && (forall v: nat, w: nat, i: nat :: Apart(s, v, w, i))
  }

  // Before the run: nothing taken, every worker ready, and the private ranges share out exactly the
  // items below the counter. The three forms of the source are the shared counter (next = 0, empty
  // ranges), a partition into ranges, and one worker with everything (both next = |work|).
  ghost predicate Start<V>(l: Layer<V>, s: State<V>) {
    && Fits(l, s) && s.next <= |l.work|
    && (forall i | 0 <= i < |s.runs| :: s.runs[i] == 0)
    && (forall w | 0 <= w < |s.workers| :: s.workers[w].phase == Ready)
    && (forall i: nat :: i < s.next <==> Held(s, i))
    && (forall v: nat, w: nat, i: nat :: Apart(s, v, w, i))
  }

  lemma StartInv<V>(l: Layer<V>, s: State<V>)
    requires Start(l, s)
    ensures Inv(l, s)
  {
    forall w: nat, i: nat ensures RangeFree(s, w, i) {
      if w < |s.workers| && i < |s.runs| && InRange(s.workers[w], i) { assert Held(s, i); }
    }
    forall i: nat ensures ItemOk(l, s, i) { assert i < s.next <==> Held(s, i); }
  }

  /* ---- The ways a run can start ---- */

  function Untouched<V>(l: Layer<V>, workers: seq<Worker>, next: nat, scratch: seq<V>): State<V> {
    State(next, workers, scratch, seq(|l.work|, _ => 0))
  }

  // Claiming one item at a time from the shared counter, with any number of workers.
  lemma CounterStart<V>(l: Layer<V>, threads: nat, scratch: seq<V>)
    requires ValidLayer(l) && |scratch| == l.total
    ensures Start(l, Untouched(l, seq(threads, _ => Worker(0, 0, Ready)), 0, scratch))
  {}

  // The pool's split of the items: thread t gets [t * c, (t + 1) * c), cut off at the end, for c the
  // rounded-up share. One thread gets everything.
  function PoolWorker(items: nat, threads: nat, t: nat): Worker
    requires threads > 0
  {
    var share := ItemsPerThread(items, threads);
    Worker(Least(t * share, items), Least(t * share + share, items), Ready)
  }

  function Least(a: nat, b: nat): nat { if a <= b then a else b }

  lemma PoolShares(items: nat, threads: nat, t: nat, u: nat)
    requires threads > 0 && t < u
    ensures PoolWorker(items, threads, t).hi <= PoolWorker(items, threads, u).lo
  {
    var share := ItemsPerThread(items, threads);
    MulMono(share, t + 1, u);
    assert share * (t + 1) == t * share + share && share * u == u * share;
  }

  lemma ShareOf(i: nat, share: nat, threads: nat) returns (t: nat)
    requires share > 0 && i < share * threads
    ensures t < threads && t * share <= i < t * share + share
  {
    t := i / share;
    assert i == share * t + i % share;
    if t >= threads { MulMono(share, threads, t); }
  }

  lemma InPoolRange(items: nat, threads: nat, i: nat, t: nat)
    requires threads > 0 && i < items
    requires var share := ItemsPerThread(items, threads); t * share <= i < t * share + share
    ensures InRange(PoolWorker(items, threads, t), i)
  {}

  lemma PoolHolder(items: nat, threads: nat, i: nat)
    requires threads > 0 && i < items
    ensures exists t: nat | t < threads :: InRange(PoolWorker(items, threads, t), i)
  {
    EnoughRoom(items, threads);
    var t := ShareOf(i, ItemsPerThread(items, threads), threads);
    InPoolRange(items, threads, i, t);
  }

  // No thread gets more than the rounded-up share, and each starts where the one before it ends.
  lemma PoolIsEven(items: nat, threads: nat, t: nat)
    requires threads > 0
    ensures var worker, next := PoolWorker(items, threads, t), PoolWorker(items, threads, t + 1);
      && worker.lo <= worker.hi == next.lo && worker.phase == Ready
      && threads * (worker.hi - worker.lo) < items + threads
    ensures PoolWorker(items, threads, 0).lo == 0
  {
    var share := ItemsPerThread(items, threads);
    EnoughRoom(items, threads);
    assert (t + 1) * share == t * share + share;
    var worker := PoolWorker(items, threads, t);
    MulMono(threads, worker.hi - worker.lo, share);
  }

  lemma PoolStart<V>(l: Layer<V>, threads: nat, scratch: seq<V>)
    requires ValidLayer(l) && |scratch| == l.total && threads > 0
    ensures Start(l, Untouched(l, seq(threads, t requires 0 <= t => PoolWorker(|l.work|, threads, t)), |l.work|,
                               scratch))
  {
    var n := |l.work|;
    var workers := seq(threads, t requires 0 <= t => PoolWorker(n, threads, t));
    var s := Untouched(l, workers, n, scratch);
    forall i: nat ensures i < n <==> Held(s, i) {
      if i < n {
        PoolHolder(n, threads, i);
        var t: nat :| t < threads && InRange(PoolWorker(n, threads, t), i);
        assert InRange(s.workers[t], i);
      }
    }
    forall v: nat, w: nat, i: nat ensures Apart(s, v, w, i) {
      if v < w { PoolShares(n, threads, v, w); } else if w < v { PoolShares(n, threads, w, v); }
    }
  }

  /* ---- Each step keeps it ---- */

  lemma TakeKeeps<V>(l: Layer<V>, s: State<V>, w: nat, item: nat, lo: nat, next: nat)
    requires Inv(l, s) && w < |s.workers| && s.workers[w].phase == Ready && item < |l.work|
    requires (InRange(s.workers[w], item) && item == s.workers[w].lo && lo == item + 1 && next == s.next) ||
             (s.workers[w].lo >= s.workers[w].hi && item == s.next && lo == s.workers[w].lo && next == s.next + 1)
    ensures Inv(l, Take(s, w, item, lo, next))
  {
    var t := Take(s, w, item, lo, next);
    assert RangeFree(s, w, item) && ItemOk(l, s, item);
    ItemBounds(l, item);
    forall v: nat, u: nat, i: nat ensures Apart(t, v, u, i) {
      assert Apart(s, v, u, i) && WorkerOk(l, s, v) && WorkerOk(l, s, u);
    }
    forall v: nat, i: nat ensures RangeFree(t, v, i) { assert RangeFree(s, v, i) && Apart(s, v, w, i); }
    forall v: nat ensures DoneOk(l, t, v) { assert DoneOk(l, s, v); }
    forall v: nat ensures WorkerOk(l, t, v) { assert WorkerOk(l, s, v); }
    forall i: nat ensures ItemOk(l, t, i) {
      assert ItemOk(l, s, i);
      TakeKeepsHeld(s, w, item, lo, next, i);
    }
  }

  lemma TakeKeepsHeld<V>(s: State<V>, w: nat, item: nat, lo: nat, next: nat, i: nat)
    requires w < |s.workers| && item < |s.runs| && s.workers[w].phase == Ready
    requires lo == s.workers[w].lo || (item == s.workers[w].lo && lo == item + 1)
    ensures Held(s, i) && i != item ==> Held(Take(s, w, item, lo, next), i)
    ensures BeingRun(Take(s, w, item, lo, next), i) <==> BeingRun(s, i) || i == item
  {
    var t := Take(s, w, item, lo, next);
    if Held(s, i) && i != item {
      var v: nat :| v < |s.workers| && InRange(s.workers[v], i);
      assert InRange(t.workers[v], i);
    }
    assert IsRunning(t.workers[w], item);
    if BeingRun(s, i) {
      var v: nat :| v < |s.workers| && IsRunning(s.workers[v], i);
      assert IsRunning(t.workers[v], i);
    }
  }

  // A write touches one row of the worker's own item, so every other item keeps its rows.
  lemma WriteKeepsRows<V>(l: Layer<V>, s: State<V>, out: seq<V>, i: nat, k: nat, j: nat, n: nat)
    requires ValidLayer(l) && |s.out| == l.total && ItemFits(l, i) && k < l.work[i].count
    requires RowsWritten(l, s, j, n) && out == s.out[l.work[i].start + k := RowValue(l, i, k)]
    ensures RowsWritten(l, s.(out := out), j, n)
  {
    forall m: nat | m < n ensures out[l.work[j].start + m] == RowValue(l, j, m) {
      if l.work[j].start + m == l.work[i].start + k {
        TilesAreDisjoint(l.work, l.offsets, l.total, i, j, l.work[i].start + k);
      }
    }
  }

  lemma PhaseKeeps<V>(l: Layer<V>, s: State<V>, w: nat, phase: Phase, out: seq<V>)
    requires Inv(l, s) && w < |s.workers| && s.workers[w].phase.Running?
    requires var i, k := s.workers[w].phase.item, s.workers[w].phase.row;
      ItemFits(l, i) && |s.out| == l.total &&
      ((k < l.work[i].count && phase == Running(i, k + 1) && out == s.out[l.work[i].start + k := RowValue(l, i, k)])
       || (k == l.work[i].count && phase == Ready && out == s.out))
    ensures Inv(l, SetPhase(s, w, phase).(out := out))
  {
    var t := SetPhase(s, w, phase).(out := out);
    var item, row := s.workers[w].phase.item, s.workers[w].phase.row;
    ItemBounds(l, item);
    assert WorkerOk(l, s, w);
    forall v: nat, u: nat, i: nat ensures Apart(t, v, u, i) { assert Apart(s, v, u, i); }
    forall v: nat, i: nat ensures RangeFree(t, v, i) { assert RangeFree(s, v, i); }
    forall v: nat ensures DoneOk(l, t, v) { assert DoneOk(l, s, v); }
    forall v: nat ensures WorkerOk(l, t, v) {
      assert WorkerOk(l, s, v);
      if v < |s.workers| && s.workers[v].phase.Running? {
        ItemBounds(l, s.workers[v].phase.item);
        if row < l.work[item].count {
          WriteKeepsRows(l, s, out, item, row, s.workers[v].phase.item, s.workers[v].phase.row);
        }
      }
    }
    forall i: nat ensures ItemOk(l, t, i) {
      assert ItemOk(l, s, i);
      PhaseKeepsHeld(s, t, w, i);
      if i < |l.work| {
        ItemBounds(l, i);
        if row < l.work[item].count && RowsWritten(l, s, i, l.work[i].count) {
          WriteKeepsRows(l, s, out, item, row, i, l.work[i].count);
        }
      }
    }
  }

  lemma PhaseKeepsHeld<V>(s: State<V>, t: State<V>, w: nat, i: nat)
    requires w < |s.workers| && s.workers[w].phase.Running?
    requires exists phase :: t.workers == SetPhase(s, w, phase).workers
    requires t.workers[w].phase == Ready || IsRunning(t.workers[w], s.workers[w].phase.item)
    ensures Held(s, i) ==> Held(t, i)
    ensures BeingRun(s, i) ==> BeingRun(t, i) || (i == s.workers[w].phase.item && t.workers[w].phase == Ready)
  {
    if Held(s, i) {
      var v: nat :| v < |s.workers| && InRange(s.workers[v], i);
      assert InRange(t.workers[v], i);
    }
    if BeingRun(s, i) {
      var v: nat :| v < |s.workers| && IsRunning(s.workers[v], i);
      assert v != w || t.workers[w].phase == Ready || IsRunning(t.workers[w], i);
      assert v != w ==> IsRunning(t.workers[v], i);
    }
  }

  lemma FinishKeeps<V>(l: Layer<V>, s: State<V>, w: nat)
    requires Inv(l, s) && w < |s.workers| && s.workers[w].phase == Ready
    requires s.workers[w].lo >= s.workers[w].hi && s.next >= |l.work|
    ensures Inv(l, SetPhase(s.(next := s.next + 1), w, Done))
  {
    var t := SetPhase(s.(next := s.next + 1), w, Done);
    forall v: nat, u: nat, i: nat ensures Apart(t, v, u, i) { assert Apart(s, v, u, i); }
    forall v: nat, i: nat ensures RangeFree(t, v, i) { assert RangeFree(s, v, i); }
    forall v: nat ensures DoneOk(l, t, v) { assert DoneOk(l, s, v); }
    forall v: nat ensures WorkerOk(l, t, v) { assert WorkerOk(l, s, v); }
    forall i: nat ensures ItemOk(l, t, i) {
      assert ItemOk(l, s, i);
      FinishKeepsHeld(s, t, w, i);
    }
  }

  lemma FinishKeepsHeld<V>(s: State<V>, t: State<V>, w: nat, i: nat)
    requires w < |s.workers| && s.workers[w].phase == Ready && t.workers == SetPhase(s, w, Done).workers
    ensures Held(s, i) ==> Held(t, i)
    ensures BeingRun(s, i) ==> BeingRun(t, i)
  {
    if Held(s, i) {
      var v: nat :| v < |s.workers| && InRange(s.workers[v], i);
      assert InRange(t.workers[v], i);
    }
    if BeingRun(s, i) {
      var v: nat :| v < |s.workers| && IsRunning(s.workers[v], i);
      assert IsRunning(t.workers[v], i);
    }
  }

  lemma AdvanceKeeps<V>(l: Layer<V>, s: State<V>, w: nat)
    requires Inv(l, s) && w < |s.workers|
    ensures Inv(l, Advance(l, s, w)) && |Advance(l, s, w).workers| == |s.workers|
  {
    var worker := s.workers[w];
    match worker.phase
    case Done =>
    case Ready =>
      if worker.lo < worker.hi {
        TakeKeeps(l, s, w, worker.lo, worker.lo + 1, s.next);
      } else if s.next < |l.work| {
        TakeKeeps(l, s, w, s.next, worker.lo, s.next + 1);
      } else {
        FinishKeeps(l, s, w);
      }
    case Running(i, k) =>
      ItemBounds(l, i);
      if k < l.work[i].count {
        PhaseKeeps(l, s, w, Running(i, k + 1), s.out[l.work[i].start + k := RowValue(l, i, k)]);
      } else {
        PhaseKeeps(l, s, w, Ready, s.out);
        assert SetPhase(s, w, Ready).(out := s.out) == SetPhase(s, w, Ready);
      }
  }

  // Any schedule: the workers that take the steps, one after the other.
  ghost predicate Run<V>(l: Layer<V>, s: State<V>, schedule: seq<nat>, t: State<V>)
    decreases |schedule|
  {
    if schedule == [] then s == t
    else Fits(l, s) && schedule[0] < |s.workers| && Run(l, Advance(l, s, schedule[0]), schedule[1..], t)
  }

  lemma {:induction false} RunKeeps<V>(l: Layer<V>, s: State<V>, schedule: seq<nat>, t: State<V>)
    requires Inv(l, s) && Run(l, s, schedule, t)
    ensures Inv(l, t) && |t.workers| == |s.workers|
    decreases |schedule|
  {
    if schedule != [] {
      AdvanceKeeps(l, s, schedule[0]);
      RunKeeps(l, Advance(l, s, schedule[0]), schedule[1..], t);
    }
  }

  // Every sequence of worker picks is a schedule: no step gets stuck.
  lemma {:induction false} EveryScheduleRuns<V>(l: Layer<V>, s: State<V>, schedule: seq<nat>) returns (t: State<V>)
    requires Inv(l, s) && forall i | 0 <= i < |schedule| :: schedule[i] < |s.workers|
    ensures Run(l, s, schedule, t) && Inv(l, t) && |t.workers| == |s.workers|
    decreases |schedule|
  {
    if schedule == [] {
      t := s;
    } else {
      AdvanceKeeps(l, s, schedule[0]);
      t := EveryScheduleRuns(l, Advance(l, s, schedule[0]), schedule[1..]);
    }
  }

  /* ---- Every run ends ---- */

  // The steps an untaken item still costs, and those ahead of a worker.
  function ItemCosts<V>(l: Layer<V>, runs: seq<nat>): seq<nat>
    requires |runs| == |l.work| && forall w | w in l.work :: w.count > 0
  {
    seq(|runs|, i requires 0 <= i < |runs| =>
      assert l.work[i] in l.work;
      if runs[i] == 0 then l.work[i].count + 2 else 0)
  }

  function WorkerCost<V>(l: Layer<V>, worker: Worker): nat
    requires WorkerFits(l, worker)
  {
    match worker.phase
    case Done => 0
    case Ready => 1
    case Running(i, k) => l.work[i].count - k + 2
  }

  function WorkerCosts<V>(l: Layer<V>, workers: seq<Worker>): seq<nat>
    requires forall w | 0 <= w < |workers| :: WorkerFits(l, workers[w])
  {
    seq(|workers|, w requires 0 <= w < |workers| && WorkerFits(l, workers[w]) => WorkerCost(l, workers[w]))
  }

  ghost function StepsLeft<V>(l: Layer<V>, s: State<V>): nat
    requires Fits(l, s)
  {
    WorkIsPositive(l);
    Sum(ItemCosts(l, s.runs)) + Sum(WorkerCosts(l, s.workers))
  }

  lemma WorkIsPositive<V>(l: Layer<V>)
    requires ValidLayer(l)
    ensures forall w | w in l.work :: w.count > 0
  {
    forall w | w in l.work ensures w.count > 0 { assert OwnsItsRows(w, l.offsets); }
  }

  lemma PhaseShrinks<V>(l: Layer<V>, s: State<V>, t: State<V>, w: nat, phase: Phase)
    requires Fits(l, s) && Fits(l, t) && w < |s.workers|
    requires t.runs == s.runs && t.workers == SetPhase(s, w, phase).workers
    requires WorkerFits(l, t.workers[w]) && WorkerCost(l, t.workers[w]) + 1 == WorkerCost(l, s.workers[w])
    ensures StepsLeft(l, t) == StepsLeft(l, s) - 1
  {
    var costs, cost := WorkerCosts(l, s.workers), WorkerCosts(l, t.workers)[w];
    SumUpdate(costs, w, cost);
    assert WorkerCosts(l, t.workers) == costs[w := cost];
  }

  lemma TakeShrinks<V>(l: Layer<V>, s: State<V>, w: nat, item: nat, lo: nat, next: nat)
    requires Fits(l, s) && w < |s.workers| && s.workers[w].phase == Ready && item < |l.work| && s.runs[item] == 0
    requires Fits(l, Take(s, w, item, lo, next))
    ensures StepsLeft(l, Take(s, w, item, lo, next)) == StepsLeft(l, s) - 1
  {
    WorkIsPositive(l);
    var t := Take(s, w, item, lo, next);
    var costs, items := WorkerCosts(l, s.workers), ItemCosts(l, s.runs);
    SumUpdate(costs, w, WorkerCosts(l, t.workers)[w]);
    SumUpdate(items, item, 0);
    assert WorkerCosts(l, t.workers) == costs[w := WorkerCosts(l, t.workers)[w]];
    assert ItemCosts(l, t.runs) == items[item := 0];
  }

  // Every step of a worker that is not done is one of a number fixed in advance.
  lemma AdvanceShrinks<V>(l: Layer<V>, s: State<V>, w: nat)
    requires Inv(l, s) && w < |s.workers| && s.workers[w].phase != Done
    ensures Inv(l, Advance(l, s, w)) && StepsLeft(l, Advance(l, s, w)) == StepsLeft(l, s) - 1
  {
    AdvanceKeeps(l, s, w);
    var worker := s.workers[w];
    if worker.phase == Ready {
      assert RangeFree(s, w, worker.lo) && ItemOk(l, s, s.next);
      if worker.lo < worker.hi { TakeShrinks(l, s, w, worker.lo, worker.lo + 1, s.next); }
      else if s.next < |l.work| { TakeShrinks(l, s, w, s.next, worker.lo, s.next + 1); }
      else { PhaseShrinks(l, s, Advance(l, s, w), w, Done); }
    } else {
      PhaseShrinks(l, s, Advance(l, s, w), w, Advance(l, s, w).workers[w].phase);
    }
  }

  // A schedule that only ever picks workers that are not done.
  ghost predicate Busy<V>(l: Layer<V>, s: State<V>, schedule: seq<nat>)
    requires Inv(l, s)
    decreases |schedule|
  {
    schedule == [] ||
    (schedule[0] < |s.workers| && s.workers[schedule[0]].phase != Done &&
     (AdvanceKeeps(l, s, schedule[0]); Busy(l, Advance(l, s, schedule[0]), schedule[1..])))
  }

  lemma {:induction false} RunsEnd<V>(l: Layer<V>, s: State<V>, schedule: seq<nat>)
    requires Inv(l, s) && Busy(l, s, schedule)
    ensures |schedule| <= StepsLeft(l, s)
    decreases |schedule|
  {
    if schedule != [] {
      AdvanceShrinks(l, s, schedule[0]);
      RunsEnd(l, Advance(l, s, schedule[0]), schedule[1..]);
    }
  }

  /* ---- What a finished run has computed ---- */

  // The packed output of the experts, stated without reference to items, workers or order.
  ghost predicate IsOutput<V>(l: Layer<V>, out: seq<V>)
    requires ValidLayer(l)
  {
    |out| == l.total &&
    forall e: nat, row: nat :: RowIsOutput(l, out, e, row)
  }

  ghost predicate RowIsOutput<V>(l: Layer<V>, out: seq<V>, e: nat, row: nat) {
    e + 1 < |l.offsets| && 0 <= l.offsets[e] <= row < l.offsets[e + 1] <= |l.input| == |out| ==>
      out[row] == l.ffn(e, l.input[l.offsets[e]..l.offsets[e + 1]], row - l.offsets[e])
  }

  lemma OutputIsUnique<V>(l: Layer<V>, a: seq<V>, b: seq<V>)
    requires ValidLayer(l) && IsOutput(l, a) && IsOutput(l, b)
    ensures a == b
  {
    forall row: nat | row < l.total ensures a[row] == b[row] {
      var e := OwnerOf(l.offsets, l.total, row);
      NextOwnerStarts(l.offsets, l.total, e, e);
      assert RowIsOutput(l, a, e, row) && RowIsOutput(l, b, e, row);
    }
  }

  /** However the work was shared out and interleaved, once every worker is done each item has been
      run exactly once and the packed output is that of the experts on their own rows. */
  lemma FinishedRun<V>(l: Layer<V>, s: State<V>, schedule: seq<nat>, t: State<V>)
    requires Start(l, s) && Run(l, s, schedule, t)
    requires |s.workers| > 0 && forall w | 0 <= w < |t.workers| :: t.workers[w].phase == Done
    ensures forall i | 0 <= i < |t.runs| :: t.runs[i] == 1
    ensures IsOutput(l, t.out)
  {
    StartInv(l, s);
    RunKeeps(l, s, schedule, t);
    forall i: nat | i < |l.work|
      ensures t.runs[i] == 1
      ensures RowsWritten(l, t, i, l.work[i].count)
    {
      ItemBounds(l, i);
      assert ItemOk(l, t, i) && DoneOk(l, t, 0);
      forall w: nat | w < |t.workers| ensures !InRange(t.workers[w], i) { assert DoneOk(l, t, w); }
    }
    forall e: nat, row: nat ensures RowIsOutput(l, t.out, e, row) {
      if e + 1 < |l.offsets| && 0 <= l.offsets[e] <= row < l.offsets[e + 1] {
        var i := ItemOfRow(l, e, row);
        assert RowsWritten(l, t, i, l.work[i].count);
        assert t.out[l.work[i].start + (row - l.work[i].start)] == RowValue(l, i, row - l.work[i].start);
      }
    }
  }

  lemma ItemOfRow<V>(l: Layer<V>, e: nat, row: nat) returns (i: nat)
    requires ValidLayer(l) && e < |l.offsets| - 1 && l.offsets[e] <= row < l.offsets[e + 1]
    ensures i < |l.work| && l.work[i].expert == e && OwnsItsRows(l.work[i], l.offsets)
  {
    NextOwnerStarts(l.offsets, l.total, e, e);
    assert Covered(l.work, row);
    var w :| w in l.work && Covers(w, row);
    i :| 0 <= i < |l.work| && l.work[i] == w;
    assert OwnsItsRows(w, l.offsets);
    NextOwnerStarts(l.offsets, l.total, e, w.expert);
    NextOwnerStarts(l.offsets, l.total, w.expert, e);
  }
}
