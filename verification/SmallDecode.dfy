/** The decode path for a handful of assignments: one expert call per assignment, serially or spread
    over workers that write disjoint slots, followed by the same additions in the same order. */
module SmallDecode {
  import opened Arithmetic
  import opened Ordering
  import opened Reorder

  // `ffn(e, x)` is what expert e makes of one token; `axpy(dst, w, src)` is dst + w * src, with
  // nothing assumed about its algebra.
  datatype Kernels<!V> = Kernels(ffn: (int, V) -> V, axpy: (V, real, V) -> V)

  datatype Job<!V> = Job(r: Routing, num: int, input: seq<V>, k: Kernels<V>)

  predicate ValidInput<V>(r: Routing, input: seq<V>) { WellFormed(r) && |input| >= r.batchSize }

  // The assignments that are computed at all.
  predicate Counts(r: Routing, num: int, i: nat)
    requires WellFormed(r) && i < |r.experts|
  {
    Routed(r, num, i) && r.weights[i] != 0.0
  }

  function Value<V>(r: Routing, num: int, input: seq<V>, k: Kernels<V>, i: nat): V
    requires ValidInput(r, input) && i < |r.experts| && Routed(r, num, i)
  {
    k.ffn(r.experts[i], input[TokenOf(r, i)])
  }

  // The reference: add up the first n assignments, in order.
  function Accumulated<V>(job: Job<V>, acc: seq<V>, n: nat): (res: seq<V>)
    requires ValidInput(job.r, job.input) && n <= |job.r.experts| && |acc| >= job.r.batchSize
    ensures |res| == |acc|
  {
    if n == 0 then acc
    else
      var before := Accumulated(job, acc, n - 1);
      if !Counts(job.r, job.num, n - 1) then before
      else
        var t := TokenOf(job.r, n - 1);
        before[t := job.k.axpy(before[t], job.r.weights[n - 1], Value(job.r, job.num, job.input, job.k, n - 1))]
  }

  // What assignment i does to the output: a row of non-zero weight is added to the token it is sent to, and
  // nothing else changes.
  ghost predicate StepAdds<V>(job: Job<V>, before: seq<V>, after: seq<V>, i: nat) {
    && |after| == |before| && i < |job.r.experts| <= |job.r.weights|
    && (forall t | GoesTo(job.r, job.num, i, t) && job.r.weights[i] != 0.0 ::
          t < |before| && t < |job.input| &&
          after == before[t := job.k.axpy(before[t], job.r.weights[i], job.k.ffn(job.r.experts[i], job.input[t]))])
    && ((job.r.weights[i] == 0.0 || forall t :: !GoesTo(job.r, job.num, i, t)) ==> after == before)
  }

  lemma AccumulatedSteps<V>(job: Job<V>, acc: seq<V>, i: nat)
    requires ValidInput(job.r, job.input) && i < |job.r.experts| && |acc| >= job.r.batchSize
    ensures StepAdds(job, Accumulated(job, acc, i), Accumulated(job, acc, i + 1), i)
  {
    forall t ensures GoesTo(job.r, job.num, i, t) <==> Routed(job.r, job.num, i) && TokenOf(job.r, i) == t {
      GoesToItsToken(job.r, job.num, i, t);
    }
    if Routed(job.r, job.num, i) { assert GoesTo(job.r, job.num, i, TokenOf(job.r, i)); }
  }

  // The output starts from `acc` and takes the assignments one by one.
  ghost predicate DecodedInOrder<V>(job: Job<V>, acc: seq<V>, out: seq<V>)
    requires ValidInput(job.r, job.input) && |acc| >= job.r.batchSize
  {
    && Accumulated(job, acc, 0) == acc && out == Accumulated(job, acc, |job.r.experts|)
    && forall i: nat | i < |job.r.experts| :: StepAdds(job, Accumulated(job, acc, i), Accumulated(job, acc, i + 1), i)
  }

  lemma AccumulatedIsDecoded<V>(job: Job<V>, acc: seq<V>)
    requires ValidInput(job.r, job.input) && |acc| >= job.r.batchSize
    ensures DecodedInOrder(job, acc, Accumulated(job, acc, |job.r.experts|))
  {
    forall i: nat | i < |job.r.experts|
      ensures StepAdds(job, Accumulated(job, acc, i), Accumulated(job, acc, i + 1), i)
    {
      AccumulatedSteps(job, acc, i);
    }
  }

  method SerialDecode<V>(job: Job<V>, scratch: array<V>, out: array<V>)
    requires ValidInput(job.r, job.input) && out.Length >= job.r.batchSize && scratch.Length >= 1 && scratch != out
    modifies scratch, out
    ensures out[..] == Accumulated(job, old(out[..]), |job.r.experts|)
    ensures DecodedInOrder(job, old(out[..]), out[..])
  {
    var r := job.r;
    AccumulatedIsDecoded(job, out[..]);
    for i := 0 to |r.experts|
      invariant out[..] == Accumulated(job, old(out[..]), i)
    {
      var expert := r.experts[i];
      if 0 <= expert < job.num {
        var token := if r.tokens != [] then r.tokens[i] else i / r.topK;
        if 0 <= token < r.batchSize && r.weights[i] != 0.0 {
          scratch[0] := job.k.ffn(expert, job.input[token]);
          out[token] := job.k.axpy(out[token], r.weights[i], scratch[0]);
        }
      }
    }
  }

  /* ---- The split of the assignments over the workers ---- */

  function RangeStart(w: nat, total: nat, workers: nat): nat
    requires workers > 0
  {
    (w * total) / workers
  }

  lemma RangesChain(total: nat, workers: nat, v: nat, w: nat)
    requires workers > 0 && v <= w
    ensures RangeStart(0, total, workers) == 0 && RangeStart(workers, total, workers) == total
    ensures RangeStart(v, total, workers) <= RangeStart(w, total, workers)
  {
    assert 0 * total == 0;
    DivBounds(workers * total, workers, total);
    DivBounds(workers * total, workers, total + 1);
    assert total * workers == workers * total && (total + 1) * workers == workers * total + workers;
    MulMono(total, v, w);
    assert total * v == v * total && total * w == w * total;
    var q := (v * total) / workers;
    DivBounds(v * total, workers, q);
    DivBounds(w * total, workers, q);
  }

  // Every assignment lies in the range of exactly one worker.
  lemma RangeOwner(total: nat, workers: nat, i: nat) returns (w: nat)
    requires workers > 0 && i < total
    ensures w < workers && RangeStart(w, total, workers) <= i < RangeStart(w + 1, total, workers)
    ensures forall v: nat | v < workers && RangeStart(v, total, workers) <= i < RangeStart(v + 1, total, workers) ::
      v == w
  {
    w := 0;
    RangesChain(total, workers, 0, workers);
    while RangeStart(w + 1, total, workers) <= i
      invariant w < workers && RangeStart(w, total, workers) <= i
      decreases workers - w
    {
      w := w + 1;
    }
    forall v: nat | v < workers && RangeStart(v, total, workers) <= i < RangeStart(v + 1, total, workers)
      ensures v == w
    {
      if v < w { RangesChain(total, workers, v + 1, w); }
      if w < v { RangesChain(total, workers, w + 1, v); }
    }
  }

  // The ranges are even: each worker gets the share of the assignments, rounded down or up.
  lemma RangesEven(total: nat, workers: nat, w: nat)
    requires workers > 0 && w < workers
    ensures var size := RangeStart(w + 1, total, workers) - RangeStart(w, total, workers);
      total / workers <= size <= total / workers + 1
  {
    var q, a, b := total / workers, (w * total) / workers, ((w + 1) * total) / workers;
    assert (w + 1) * total == w * total + total;
    QuotientOfSum(w * total, total, workers);
  }

  lemma QuotientOfSum(x: nat, y: nat, d: nat)
    requires d > 0
    ensures x / d + y / d <= (x + y) / d <= x / d + y / d + 1
  {
    var p, q := x / d, y / d;
    DivBounds(x, d, p);
    DivBounds(y, d, q);
    DivBounds(x, d, p + 1);
    DivBounds(y, d, q + 1);
    assert (p + q) * d == p * d + q * d && (p + q + 2) * d == (p + 1) * d + (q + 1) * d;
    DivBounds(x + y, d, p + q);
    DivBounds(x + y, d, p + q + 2);
  }

  /* ---- The parallel path ---- */

  // A slot below the limit holds the value of its assignment if that counts, and was then written
  // once; no other slot was written.
  ghost predicate SlotOk<V>(job: Job<V>, slots: seq<V>, writes: seq<nat>, i: nat, limit: nat)
    requires ValidInput(job.r, job.input)
  {
    i < |job.r.experts| && |writes| == |job.r.experts| <= |slots| ==>
      && writes[i] == (if i < limit && Counts(job.r, job.num, i) then 1 else 0)
      && (i < limit && Counts(job.r, job.num, i) ==> slots[i] == Value(job.r, job.num, job.input, job.k, i))
  }

  predicate InRange(r: Routing, workers: nat, w: nat, i: nat)
    requires workers > 0
  {
    RangeStart(w, |r.experts|, workers) <= i < RangeStart(w + 1, |r.experts|, workers)
  }

  ghost predicate WorkerOk<V>(job: Job<V>, workers: nat, pos: seq<nat>, slots: seq<V>, writes: seq<nat>, w: nat)
    requires ValidInput(job.r, job.input) && workers > 0
  {
    w < workers == |pos| ==>
      && RangeStart(w, |job.r.experts|, workers) <= pos[w] <= RangeStart(w + 1, |job.r.experts|, workers)
      && forall i: nat | InRange(job.r, workers, w, i) :: SlotOk(job, slots, writes, i, pos[w])
  }

  ghost predicate Progress<V>(job: Job<V>, workers: nat, pos: seq<nat>, slots: seq<V>, writes: seq<nat>) {
    && ValidInput(job.r, job.input) && 0 < workers == |pos| && |writes| == |job.r.experts| <= |slots|
    && forall w: nat :: WorkerOk(job, workers, pos, slots, writes, w)
  }

  lemma RangesApart(r: Routing, workers: nat, v: nat, w: nat, i: nat)
    requires workers > 0 && v < workers && InRange(r, workers, v, i) && InRange(r, workers, w, i)
    ensures v == w && i < |r.experts|
  {
    RangesChain(|r.experts|, workers, v + 1, workers);
    if v < w { RangesChain(|r.experts|, workers, v + 1, w); }
    if w < v { RangesChain(|r.experts|, workers, w + 1, v); }
  }

  // A worker's step leaves the slots of the others alone.
  lemma StepKeeps<V>(job: Job<V>, workers: nat, pos: seq<nat>, slots: seq<V>, writes: seq<nat>, w: nat,
                     slots': seq<V>, writes': seq<nat>)
    requires Progress(job, workers, pos, slots, writes) && w < workers && InRange(job.r, workers, w, pos[w])
    requires pos[w] < |job.r.experts|
    requires if Counts(job.r, job.num, pos[w])
      then slots' == slots[pos[w] := Value(job.r, job.num, job.input, job.k, pos[w])]
        && writes' == writes[pos[w] := writes[pos[w]] + 1]
      else slots' == slots && writes' == writes
    ensures Progress(job, workers, pos[w := pos[w] + 1], slots', writes')
  {
    var pos' := pos[w := pos[w] + 1];
    assert WorkerOk(job, workers, pos, slots, writes, w) && SlotOk(job, slots, writes, pos[w], pos[w]);
    forall v: nat ensures WorkerOk(job, workers, pos', slots', writes', v) {
      assert WorkerOk(job, workers, pos, slots, writes, v);
      if v < workers {
        forall i: nat | InRange(job.r, workers, v, i) ensures SlotOk(job, slots', writes', i, pos'[v]) {
          assert SlotOk(job, slots, writes, i, pos[v]);
          if i == pos[w] { RangesApart(job.r, workers, v, w, i); }
        }
      }
    }
  }

  lemma RangeBounds(r: Routing, workers: nat, w: nat)
    requires w < workers
    ensures RangeStart(w, |r.experts|, workers) <= RangeStart(w + 1, |r.experts|, workers) <= |r.experts|
  {
    RangesChain(|r.experts|, workers, w, w + 1);
    RangesChain(|r.experts|, workers, w + 1, workers);
  }

  lemma NothingWritten<V>(job: Job<V>, workers: nat, slots: seq<V>)
    requires ValidInput(job.r, job.input) && workers > 0 && |slots| >= |job.r.experts|
    ensures Progress(job, workers, seq(workers, w requires 0 <= w => RangeStart(w, |job.r.experts|, workers)), slots,
                     seq(|job.r.experts|, _ => 0))
  {
    var pos := seq(workers, w requires 0 <= w => RangeStart(w, |job.r.experts|, workers));
    var writes: seq<nat> := seq(|job.r.experts|, _ => 0);
    forall w: nat ensures WorkerOk(job, workers, pos, slots, writes, w) {
      if w < workers { RangeBounds(job.r, workers, w); }
    }
  }

  lemma AllWritten<V>(job: Job<V>, workers: nat, pos: seq<nat>, slots: seq<V>, writes: seq<nat>)
    requires Progress(job, workers, pos, slots, writes)
    requires forall w: nat | w < workers :: pos[w] >= RangeStart(w + 1, |job.r.experts|, workers)
    ensures forall i: nat | i < |job.r.experts| :: SlotOk(job, slots, writes, i, |job.r.experts|)
  {
    forall i: nat | i < |job.r.experts| ensures SlotOk(job, slots, writes, i, |job.r.experts|) {
      var w := RangeOwner(|job.r.experts|, workers, i);
      assert WorkerOk(job, workers, pos, slots, writes, w) && InRange(job.r, workers, w, i);
      assert SlotOk(job, slots, writes, i, pos[w]);
    }
  }

  // The workers, interleaved in any way: the scheduler picks any worker that has assignments left.
  // `writes` counts how often each slot is written.
  method RunWorkers<V>(job: Job<V>, workers: nat, slots: array<V>) returns (ghost writes: seq<nat>)
    requires ValidInput(job.r, job.input) && workers > 0 && slots.Length >= |job.r.experts|
    modifies slots
    ensures |writes| == |job.r.experts|
    ensures forall i: nat | i < |job.r.experts| :: SlotOk(job, slots[..], writes, i, |job.r.experts|)
  {
    var total := |job.r.experts|;
    var pos: seq<nat> := seq(workers, w requires 0 <= w => RangeStart(w, total, workers));
    writes := seq(total, _ => 0);
    NothingWritten(job, workers, slots[..]);
    while exists w | 0 <= w < workers :: pos[w] < RangeStart(w + 1, total, workers)
      invariant Progress(job, workers, pos, slots[..], writes)
      decreases Remaining(total, workers, pos)
    {
      var w :| 0 <= w < workers && pos[w] < RangeStart(w + 1, total, workers);
      assert WorkerOk(job, workers, pos, slots[..], writes, w);
      RangeBounds(job.r, workers, w);
      var i := pos[w];
      ghost var before, was := slots[..], writes;
      if Counts(job.r, job.num, i) {
        slots[i] := job.k.ffn(job.r.experts[i], job.input[TokenOf(job.r, i)]);
        writes := writes[i := writes[i] + 1];
      }
      StepKeeps(job, workers, pos, before, was, w, slots[..], writes);
      RemainingShrinks(total, workers, pos, w);
      pos := pos[w := i + 1];
    }
    AllWritten(job, workers, pos, slots[..], writes);
  }

  // The assignments the workers still have ahead of them.
  function Ahead(total: nat, workers: nat, pos: seq<nat>): seq<nat>
    requires workers > 0
  {
    seq(|pos|, w requires 0 <= w < |pos| =>
      var end := RangeStart(w + 1, total, workers);
      if pos[w] < end then end - pos[w] else 0)
  }

  function Remaining(total: nat, workers: nat, pos: seq<nat>): nat
    requires workers > 0
  {
    Sum(Ahead(total, workers, pos))
  }

  lemma RemainingShrinks(total: nat, workers: nat, pos: seq<nat>, w: nat)
    requires workers > 0 && w < |pos| && pos[w] < RangeStart(w + 1, total, workers)
    ensures Remaining(total, workers, pos[w := pos[w] + 1]) == Remaining(total, workers, pos) - 1
  {
    var ahead := Ahead(total, workers, pos);
    SumUpdate(ahead, w, ahead[w] - 1);
    assert Ahead(total, workers, pos[w := pos[w] + 1]) == ahead[w := ahead[w] - 1];
  }

  /** The expert-parallel path ends with the output of the serial one, whatever the routing, the number
      of workers, their interleaving and the old contents of the slots. */
  method ParallelDecode<V>(job: Job<V>, workers: nat, slots: array<V>, out: array<V>)
    requires ValidInput(job.r, job.input) && workers > 0 && slots.Length >= |job.r.experts|
    requires out.Length >= job.r.batchSize && slots != out
    modifies slots, out
    ensures out[..] == Accumulated(job, old(out[..]), |job.r.experts|)
    ensures DecodedInOrder(job, old(out[..]), out[..])
  {
    AccumulatedIsDecoded(job, out[..]);
    ghost var writes := RunWorkers(job, workers, slots);
    var r := job.r;
    ghost var filled := slots[..];
    for i := 0 to |r.experts|
      invariant out[..] == Accumulated(job, old(out[..]), i) && slots[..] == filled
    {
      var expert := r.experts[i];
      if 0 <= expert < job.num {
        var token := if r.tokens != [] then r.tokens[i] else i / r.topK;
        if 0 <= token < r.batchSize && r.weights[i] != 0.0 {
          assert SlotOk(job, filled, writes, i, |r.experts|);
          out[token] := job.k.axpy(out[token], r.weights[i], slots[i]);
        }
      }
    }
  }
}
