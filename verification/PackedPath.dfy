/** The batched path end to end: pack the rows, run the planned experts, and add the weighted rows
    back to their tokens. It computes what the reference path adds up assignment by assignment. */
module PackedPath {
  import opened Ordering
  import opened ExecutionPlan
  import opened Reorder
  import ExpertRun
  import SmallDecode

  lemma MapOffsets(m: ReorderMap, r: Routing, num: int)
    requires WellFormed(r) && num >= 0 && Packs(m, r, num)
    ensures Offsets(m.offsets, |m.tokens|)
  {
    forall i, j | 0 <= i <= j < |m.offsets| ensures m.offsets[i] <= m.offsets[j] {
      PackedPrefix(r, num, i, j);
      assert m.offsets[i] == Start(r, num, i) && m.offsets[j] == Start(r, num, j);
    }
    assert m.offsets[0] == Start(r, num, 0) && m.offsets[num] == Start(r, num, num);
  }

  /** ReorderInputs: row p of the packed input is the token of packed entry p; an entry without a
      known token gets a cleared row. */
  method PackRows<V>(tokens: seq<int>, batchSize: nat, input: seq<V>, zero: V) returns (packed: seq<V>)
    requires |input| >= batchSize
    ensures |packed| == |tokens|
    ensures forall p: nat | p < |packed| :: packed[p] == if 0 <= tokens[p] < batchSize then input[tokens[p]] else zero
  {
    packed := [];
    for p := 0 to |tokens|
      invariant |packed| == p
      invariant forall q: nat | q < p :: packed[q] == if 0 <= tokens[q] < batchSize then input[tokens[q]] else zero
    {
      var token := tokens[p];
      packed := packed + [if token < 0 || token >= batchSize then zero else input[token]];
    }
  }

  // No entry of a built map is without a known token.
  lemma TokensKnown(m: ReorderMap, r: Routing, num: int)
    requires WellFormed(r) && num >= 0 && Packs(m, r, num)
    ensures forall p: nat | p < |m.tokens| :: 0 <= m.tokens[p] < r.batchSize
  {
    forall p: nat | p < |m.tokens| ensures 0 <= m.tokens[p] < r.batchSize { PackedEntries(m, r, num, p); }
  }

  /* ---- Adding the rows back ---- */

  // One component of the output: what the first n packed entries add to token t, for packed values x.
  function Added(m: ReorderMap, x: seq<real>, t: int, n: nat): real
    requires n <= |m.tokens| == |m.weights| == |x|
  {
    if n == 0 then 0.0 else Added(m, x, t, n - 1) + if m.tokens[n - 1] == t then m.weights[n - 1] * x[n - 1] else 0.0
  }

  // `after` has gained, over `before`, what the entries [from, to) add.
  ghost predicate HasAdded(m: ReorderMap, x: seq<real>, before: seq<real>, after: seq<real>, from: nat, to: nat) {
    && from <= to <= |m.tokens| == |m.weights| == |x| && |after| == |before|
    && forall t | 0 <= t < |before| :: after[t] == before[t] + (Added(m, x, t, to) - Added(m, x, t, from))
  }

  // No two of the entries go to the same token, so no two threads add to the same place.
  ghost predicate SafeToSplit(m: ReorderMap, from: nat, to: nat) {
    forall p, q | from <= p < q < to <= |m.tokens| :: m.tokens[p] >= 0 ==> m.tokens[p] != m.tokens[q]
  }

  predicate TokensFit(m: ReorderMap, size: nat) { forall p | 0 <= p < |m.tokens| :: m.tokens[p] < size }

  lemma {:induction false} AddedNone(m: ReorderMap, x: seq<real>, t: int, from: nat, to: nat)
    requires from <= to <= |m.tokens| == |m.weights| == |x| && forall p | from <= p < to :: m.tokens[p] != t
    ensures Added(m, x, t, to) == Added(m, x, t, from)
  {
    if from < to { AddedNone(m, x, t, from, to - 1); }
  }

  lemma AddedOne(m: ReorderMap, x: seq<real>, from: nat, to: nat, p: nat)
    requires from <= p < to <= |m.tokens| == |m.weights| == |x| && m.tokens[p] >= 0 && SafeToSplit(m, from, to)
    ensures Added(m, x, m.tokens[p], to) - Added(m, x, m.tokens[p], from) == m.weights[p] * x[p]
  {
    var t := m.tokens[p];
    forall q | from <= q < p ensures m.tokens[q] != t {}
    forall q | p + 1 <= q < to ensures m.tokens[q] != t {}
    AddedNone(m, x, t, from, p);
    AddedNone(m, x, t, p + 1, to);
    AddedNext(m, x, t, p);
  }

  lemma AddedNext(m: ReorderMap, x: seq<real>, t: int, p: nat)
    requires p < |m.tokens| == |m.weights| == |x|
    ensures Added(m, x, t, p + 1) == Added(m, x, t, p) + if m.tokens[p] == t then m.weights[p] * x[p] else 0.0
  {
  }

  method AddInOrder(m: ReorderMap, x: seq<real>, from: nat, to: nat, out: array<real>)
    requires from <= to <= |m.tokens| == |m.weights| == |x| && TokensFit(m, out.Length)
    modifies out
    ensures HasAdded(m, x, old(out[..]), out[..], from, to)
  {
    for i := from to to
      invariant HasAdded(m, x, old(out[..]), out[..], from, i)
    {
      var token := m.tokens[i];
      if token >= 0 { out[token] := out[token] + m.weights[i] * x[i]; }
    }
  }

  // Entry p is added if it is no longer pending.
  ghost predicate EntryAdded(m: ReorderMap, x: seq<real>, before: seq<real>, after: seq<real>, pending: set<int>,
                             p: nat) {
    p < |m.tokens| == |m.weights| == |x| && |after| == |before| && 0 <= m.tokens[p] < |before| ==>
      after[m.tokens[p]] == if p in pending then before[m.tokens[p]] else before[m.tokens[p]] + m.weights[p] * x[p]
  }

  // Entry p has been read, before anything was added to its token.
  predicate HeldOk(m: ReorderMap, before: seq<real>, pending: set<int>, held: map<int, real>, p: nat) {
    p in pending && p in held && p < |m.tokens| && 0 <= m.tokens[p] < |before| ==> held[p] == before[m.tokens[p]]
  }

  // The entries that are no longer pending are added, and tokens without an entry are as before.
  ghost predicate AddingOk(m: ReorderMap, x: seq<real>, before: seq<real>, after: seq<real>, from: nat, to: nat,
                           pending: set<int>, held: map<int, real>) {
    && from <= to <= |m.tokens| == |m.weights| == |x| && |after| == |before|
    && (forall p | p in pending :: from <= p < to)
    && (forall p: nat | from <= p < to :: EntryAdded(m, x, before, after, pending, p))
    && (forall p: nat :: HeldOk(m, before, pending, held, p))
    && (forall t | 0 <= t < |before| && (forall p | from <= p < to :: m.tokens[p] != t) :: after[t] == before[t])
  }

  lemma NothingAdded(m: ReorderMap, x: seq<real>, before: seq<real>, from: nat, to: nat, pending: set<int>)
    requires from <= to <= |m.tokens| == |m.weights| == |x| && pending == Upto(to) - Upto(from)
    ensures AddingOk(m, x, before, before, from, to, pending, map[])
  {
    forall p | from <= p < to ensures p in pending {}
  }

  lemma ReadKeeps(m: ReorderMap, x: seq<real>, before: seq<real>, after: seq<real>, from: nat, to: nat,
                  pending: set<int>, held: map<int, real>, p: nat, read: real)
    requires AddingOk(m, x, before, after, from, to, pending, held) && p in pending
    requires 0 <= m.tokens[p] < |after| && read == after[m.tokens[p]]
    ensures AddingOk(m, x, before, after, from, to, pending, held[p := read])
  {
    assert EntryAdded(m, x, before, after, pending, p);
    var held' := held[p := read];
    forall q: nat ensures HeldOk(m, before, pending, held', q) {
      assert HeldOk(m, before, pending, held, q);
    }
  }

  lemma WriteKeeps(m: ReorderMap, x: seq<real>, before: seq<real>, was: seq<real>, after: seq<real>, from: nat, to: nat,
                   pending: set<int>, held: map<int, real>, p: nat)
    requires AddingOk(m, x, before, was, from, to, pending, held) && p in pending && SafeToSplit(m, from, to)
    requires 0 <= m.tokens[p] < |was| ==> p in held && after == was[m.tokens[p] := held[p] + m.weights[p] * x[p]]
    requires m.tokens[p] < 0 ==> after == was
    requires m.tokens[p] < |was|
    ensures AddingOk(m, x, before, after, from, to, pending - {p}, held)
  {
    assert HeldOk(m, before, pending, held, p);
    var left := pending - {p};
    forall q: nat ensures HeldOk(m, before, left, held, q) { assert HeldOk(m, before, pending, held, q); }
    forall q: nat | from <= q < to ensures EntryAdded(m, x, before, after, left, q) {
      assert EntryAdded(m, x, before, was, pending, q);
      if q != p && m.tokens[q] >= 0 { assert m.tokens[q] != m.tokens[p]; }
    }
  }

  method WriteEntry(m: ReorderMap, x: seq<real>, ghost before: seq<real>, from: nat, to: nat,
                    pending: set<int>, held: map<int, real>, p: nat, out: array<real>)
    requires AddingOk(m, x, before, out[..], from, to, pending, held) && p in pending && SafeToSplit(m, from, to)
    requires m.tokens[p] < out.Length && (m.tokens[p] >= 0 ==> p in held)
    modifies out
    ensures AddingOk(m, x, before, out[..], from, to, pending - {p}, held)
  {
    ghost var was := out[..];
    var token := m.tokens[p];
    if token >= 0 { out[token] := held[p] + m.weights[p] * x[p]; }
    WriteKeeps(m, x, before, was, out[..], from, to, pending, held, p);
  }

  // Added by several threads: an addition is a read and, later, a write, and those of different entries
  // interleave in any way.
  method AddInAnyOrder(m: ReorderMap, x: seq<real>, from: nat, to: nat, out: array<real>)
    requires from <= to <= |m.tokens| == |m.weights| == |x| && TokensFit(m, out.Length) && SafeToSplit(m, from, to)
    modifies out
    ensures HasAdded(m, x, old(out[..]), out[..], from, to)
  {
    ghost var before := out[..];
    var pending, held: map<int, real> := Upto(to) - Upto(from), map[];
    NothingAdded(m, x, before, from, to, pending);
    while pending != {}
      invariant AddingOk(m, x, before, out[..], from, to, pending, held)
      decreases |pending| + |pending - held.Keys|
    {
      SomeMember(pending);
      var p: nat :| p in pending;
      var token := m.tokens[p];
      if token >= 0 && p !in held {
        var read := out[token];
        ReadKeeps(m, x, before, out[..], from, to, pending, held, p, read);
        ReadShrinks(pending, held, p, read);
        held := held[p := read];
      } else {
        WriteEntry(m, x, before, from, to, pending, held, p, out);
        WriteShrinks(pending, held.Keys, p);
        pending := pending - {p};
      }
    }
    AllAdded(m, x, before, out[..], from, to, pending, held);
  }

  lemma ReadShrinks(pending: set<int>, held: map<int, real>, p: int, v: real)
    requires p in pending && p !in held
    ensures |pending - held[p := v].Keys| < |pending - held.Keys|
  {
    assert pending - held[p := v].Keys == pending - held.Keys - {p};
  }

  lemma WriteShrinks(pending: set<int>, held: set<int>, p: int)
    requires p in pending
    ensures |pending - {p}| + |pending - {p} - held| < |pending| + |pending - held|
  {
    SubsetSize(pending - {p} - held, pending - held);
  }

  // The two halves of an addition.
  datatype Adding = Adding(out: seq<real>, held: map<nat, real>)

  function Read(m: ReorderMap, s: Adding, p: nat): Adding
    requires p < |m.tokens| && 0 <= m.tokens[p] < |s.out|
  {
    s.(held := s.held[p := s.out[m.tokens[p]]])
  }

  function Write(m: ReorderMap, x: seq<real>, s: Adding, p: nat): Adding
    requires p < |m.tokens| == |m.weights| == |x| && 0 <= m.tokens[p] < |s.out| && p in s.held
  {
    s.(out := s.out[m.tokens[p] := s.held[p] + m.weights[p] * x[p]])
  }

  // Without `SafeToSplit` some interleaving of two entries for one token loses an addition: what the first
  // added is gone, which shows exactly if it was not zero.
  lemma LostAddition(m: ReorderMap, x: seq<real>, s: Adding, p: nat, q: nat)
    requires p < |m.tokens| == |m.weights| == |x| && q < |m.tokens| && p != q
    requires m.tokens[p] == m.tokens[q] && 0 <= m.tokens[p] < |s.out|
    ensures var t := m.tokens[p];
      var both := Read(m, Read(m, s, p), q);
      var raced := Write(m, x, Write(m, x, both, p), q);
      var inTurn := Write(m, x, Read(m, Write(m, x, Read(m, s, p), p), q), q);
      && raced.out[t] == s.out[t] + m.weights[q] * x[q]
      && inTurn.out[t] == s.out[t] + m.weights[p] * x[p] + m.weights[q] * x[q]
      && (raced.out == inTurn.out <==> m.weights[p] * x[p] == 0.0)
  {
    var t := m.tokens[p];
    var raced := Write(m, x, Write(m, x, Read(m, Read(m, s, p), q), p), q);
    var inTurn := Write(m, x, Read(m, Write(m, x, Read(m, s, p), p), q), q);
    assert raced.out == s.out[t := raced.out[t]] && inTurn.out == s.out[t := inTurn.out[t]];
  }

  /* ---- When the additions of an expert may be split ---- */

  // No token is routed to the expert twice.
  ghost predicate NoRepeat(r: Routing, num: int, e: int)
    requires WellFormed(r)
  {
    forall i: nat, j: nat | i < j < |r.experts| && Sends(r, num, e, i) && Sends(r, num, e, j) ::
      TokenOf(r, i) != TokenOf(r, j)
  }

  predicate Sends(r: Routing, num: int, e: int, i: nat)
    requires WellFormed(r) && i < |r.experts|
  {
    Routed(r, num, i) && r.experts[i] == e
  }

  lemma RepeatFree(r: Routing, num: int, e: int, i: nat, j: nat)
    requires WellFormed(r) && NoRepeat(r, num, e) && i < |r.experts| && j < |r.experts| && i != j
    requires Sends(r, num, e, i) && Sends(r, num, e, j)
    ensures TokenOf(r, i) != TokenOf(r, j)
  {}

  lemma SplitFree(m: ReorderMap, from: nat, to: nat, p: nat, q: nat)
    requires SafeToSplit(m, from, to) && from <= p < to <= |m.tokens| && from <= q < to && p != q
    requires m.tokens[p] >= 0 && m.tokens[q] >= 0
    ensures m.tokens[p] != m.tokens[q]
  {}

  lemma SlotsDiffer(r: Routing, num: int, i: nat, j: nat)
    requires WellFormed(r) && i < |r.experts| && j < |r.experts| && i != j && Routed(r, num, i) && Routed(r, num, j)
    ensures Slot(r, num, i) != Slot(r, num, j)
  {
    SlotHolds(r, num, i);
    SlotHolds(r, num, j);
  }

  // A packed entry in an expert's range comes from an assignment to that expert.
  lemma EntryOfExpert(m: ReorderMap, r: Routing, num: int, e: nat, p: nat) returns (i: nat)
    requires WellFormed(r) && num >= 0 && Packs(m, r, num) && e < num
    requires m.offsets[e] <= p < m.offsets[e + 1] && p < |m.tokens|
    ensures i < |r.experts| && Sends(r, num, e, i) && Slot(r, num, i) == p && m.tokens[p] == TokenOf(r, i)
  {
    PackedEntries(m, r, num, p);
    SlotOnto(r, num, num, p);
    MapOffsets(m, r, num);
    i := PackedOrder(r, num, num)[p];
    NextOwnerStarts(m.offsets, |m.tokens|, e, r.experts[i]);
    NextOwnerStarts(m.offsets, |m.tokens|, r.experts[i], e);
  }

  // The slot of an assignment lies in its expert's range and holds its token.
  lemma SlotInRange(m: ReorderMap, r: Routing, num: int, e: nat, i: nat) returns (p: nat)
    requires WellFormed(r) && num >= 0 && Packs(m, r, num) && e < num && i < |r.experts| && Sends(r, num, e, i)
    ensures p == Slot(r, num, i) && m.offsets[e] <= p < m.offsets[e + 1] && p < |m.tokens|
    ensures m.tokens[p] == TokenOf(r, i) >= 0
  {
    SlotHolds(r, num, i);
    p := Slot(r, num, i);
    PackedEntries(m, r, num, p);
  }

  // Two rows of an expert that no token reaches twice have different tokens.
  lemma RowsDiffer(m: ReorderMap, r: Routing, num: int, e: nat, p: nat, q: nat)
    requires WellFormed(r) && num >= 0 && Packs(m, r, num) && e < num && NoRepeat(r, num, e)
    requires m.offsets[e] <= p < q < m.offsets[e + 1] && q < |m.tokens|
    ensures m.tokens[p] != m.tokens[q]
  {
    var i := EntryOfExpert(m, r, num, e, p);
    var j := EntryOfExpert(m, r, num, e, q);
    assert i != j;
    RepeatFree(r, num, e, i, j);
  }

  // Two assignments to an expert whose rows are safe to split have different tokens.
  lemma AssignmentsDiffer(m: ReorderMap, r: Routing, num: int, e: nat, i: nat, j: nat, from: nat, to: nat)
    requires WellFormed(r) && num >= 0 && Packs(m, r, num) && e < num && i < j < |r.experts|
    requires from == m.offsets[e] && to == m.offsets[e + 1] && to <= |m.tokens| && SafeToSplit(m, from, to)
    requires Sends(r, num, e, i) && Sends(r, num, e, j)
    ensures TokenOf(r, i) != TokenOf(r, j)
  {
    var p := SlotInRange(m, r, num, e, i);
    var q := SlotInRange(m, r, num, e, j);
    SlotsDiffer(r, num, i, j);
    SplitFree(m, from, to, p, q);
  }

  /** In a built map the rows of an expert may be split over threads exactly if no token is routed to it
      twice. */
  lemma SafeIffNoRepeat(m: ReorderMap, r: Routing, num: int, e: nat)
    requires WellFormed(r) && num >= 0 && Packs(m, r, num) && e < num
    ensures 0 <= m.offsets[e] <= m.offsets[e + 1] <= |m.tokens|
    ensures SafeToSplit(m, m.offsets[e], m.offsets[e + 1]) <==> NoRepeat(r, num, e)
  {
    MapOffsets(m, r, num);
    NextOwnerStarts(m.offsets, |m.tokens|, e, e);
    if NoRepeat(r, num, e) {
      forall p, q | m.offsets[e] <= p < q < m.offsets[e + 1] ensures m.tokens[p] >= 0 ==> m.tokens[p] != m.tokens[q] {
        RowsDiffer(m, r, num, e, p, q);
      }
    }
    if SafeToSplit(m, m.offsets[e], m.offsets[e + 1]) {
      forall i: nat, j: nat | i < j < |r.experts| && Sends(r, num, e, i) && Sends(r, num, e, j)
        ensures TokenOf(r, i) != TokenOf(r, j)
      {
        AssignmentsDiffer(m, r, num, e, i, j, m.offsets[e], m.offsets[e + 1]);
      }
    }
  }

  lemma AllAdded(m: ReorderMap, x: seq<real>, before: seq<real>, after: seq<real>, from: nat, to: nat,
                 pending: set<int>, held: map<int, real>)
    requires AddingOk(m, x, before, after, from, to, pending, held) && pending == {} && SafeToSplit(m, from, to)
    ensures HasAdded(m, x, before, after, from, to)
  {
    forall t | 0 <= t < |before| ensures after[t] == before[t] + (Added(m, x, t, to) - Added(m, x, t, from)) {
      if p: nat :| from <= p < to && m.tokens[p] == t {
        AddedOne(m, x, from, to, p);
        assert EntryAdded(m, x, before, after, pending, p);
      } else {
        AddedNone(m, x, t, from, to);
      }
    }
  }

  /** ReorderOutputs on one component of the rows: expert by expert, the rows of a large expert on several
      threads. That is safe when the expert has no token twice. */
  method AddRows(m: ReorderMap, x: seq<real>, pool: bool, out: array<real>)
    requires Offsets(m.offsets, |m.tokens|) && |x| == |m.tokens| == |m.weights| && TokensFit(m, out.Length)
    requires pool ==> forall e: nat | e + 1 < |m.offsets| && m.offsets[e + 1] - m.offsets[e] >= 256 ::
      0 <= m.offsets[e] && SafeToSplit(m, m.offsets[e], m.offsets[e + 1])
    modifies out
    ensures HasAdded(m, x, old(out[..]), out[..], 0, |m.tokens|)
  {
    for e := 0 to |m.offsets| - 1
      invariant 0 <= m.offsets[e] <= |m.tokens| && HasAdded(m, x, old(out[..]), out[..], 0, m.offsets[e])
    {
      NextOwnerStarts(m.offsets, |m.tokens|, e, e);
      var start, count := m.offsets[e], m.offsets[e + 1] - m.offsets[e];
      if pool && count >= 256 { AddInAnyOrder(m, x, start, start + count, out); }
      else { AddInOrder(m, x, start, start + count, out); }
    }
  }

  /** ReorderOutputs after BuildMoEReorderMap: on a pool it is safe for every routing that sends no token
      twice to an expert with 256 rows or more, and every token gains its packed rows. */
  method AddRoutedRows(m: ReorderMap, r: Routing, num: int, x: seq<real>, pool: bool, out: array<real>)
    requires WellFormed(r) && num >= 0 && Packs(m, r, num) && |x| == |m.tokens| && out.Length >= r.batchSize
    requires pool ==> forall e: nat | e < num && Load(r, num, e) >= 256 :: NoRepeat(r, num, e)
    modifies out
    ensures HasAdded(m, x, old(out[..]), out[..], 0, |m.tokens|)
  {
    MapOffsets(m, r, num);
    TokensKnown(m, r, num);
    forall e: nat | e + 1 < |m.offsets| && pool && m.offsets[e + 1] - m.offsets[e] >= 256
      ensures 0 <= m.offsets[e] && SafeToSplit(m, m.offsets[e], m.offsets[e + 1])
    {
      assert m.offsets[e + 1] == Start(r, num, e + 1) && m.offsets[e] == Start(r, num, e);
      SafeIffNoRepeat(m, r, num, e);
    }
    AddRows(m, x, pool, out);
  }

  /* ---- The same sum, assignment by assignment ---- */

  // What assignment i, worth x(i), adds to token t.
  function Share(r: Routing, x: nat -> real, t: int, i: nat): real
    requires WellFormed(r) && i < |r.experts|
  {
    if TokenOf(r, i) == t then r.weights[i] * x(i) else 0.0
  }

  // What the first n assignments add to token t, when assignment i is worth x(i); of the experts
  // below k only.
  function Direct(r: Routing, num: int, x: nat -> real, t: int, n: nat, k: int): real
    requires WellFormed(r) && n <= |r.experts|
  {
    if n == 0 then 0.0
    else Direct(r, num, x, t, n - 1, k) +
         if Routed(r, num, n - 1) && r.experts[n - 1] < k then Share(r, x, t, n - 1) else 0.0
  }

  predicate Known(r: Routing, s: seq<nat>) { forall q | 0 <= q < |s| :: s[q] < |r.experts| }

  // The sum over a list of assignments.
  function Listed(r: Routing, x: nat -> real, t: int, s: seq<nat>): real
    requires WellFormed(r) && Known(r, s)
  {
    if s == [] then 0.0
    else
      var front, last := s[..|s| - 1], s[|s| - 1];
      Listed(r, x, t, front) + Share(r, x, t, last)
  }

  lemma {:induction false} ListedAppend(r: Routing, x: nat -> real, t: int, a: seq<nat>, b: seq<nat>)
    requires WellFormed(r) && Known(r, a) && Known(r, b)
    ensures Known(r, a + b)
    ensures Listed(r, x, t, a + b) == Listed(r, x, t, a) + Listed(r, x, t, b)
  {
    if b == [] {
      assert a + b == a;
    } else {
      var front := b[..|b| - 1];
      ListedAppend(r, x, t, a, front);
      assert (a + b)[..|a + b| - 1] == a + front;
    }
  }

  lemma RowsKnown(r: Routing, num: int, e: int, n: nat)
    requires WellFormed(r) && n <= |r.experts|
    ensures Known(r, Rows(r, num, e, n))
  {
    var rows := Rows(r, num, e, n);
    forall q | 0 <= q < |rows| ensures rows[q] < |r.experts| { RowsMembers(r, num, e, n, q); }
  }

  lemma OrderKnown(r: Routing, num: int, k: nat)
    requires WellFormed(r) && k <= num
    ensures Known(r, PackedOrder(r, num, k))
  {
    var order := PackedOrder(r, num, k);
    forall q | 0 <= q < |order| ensures order[q] < |r.experts| { SlotOnto(r, num, k, q); }
  }

  lemma ListedNext(r: Routing, x: nat -> real, t: int, s: seq<nat>, i: nat)
    requires WellFormed(r) && Known(r, s) && i < |r.experts|
    ensures Known(r, s + [i])
    ensures Listed(r, x, t, s + [i]) == Listed(r, x, t, s) + Share(r, x, t, i)
  {
    assert (s + [i])[..|s|] == s;
  }

  // Splitting off the rows of one expert.
  lemma {:induction false} DirectSplit(r: Routing, num: int, x: nat -> real, t: int, n: nat, k: nat)
    requires WellFormed(r) && n <= |r.experts|
    ensures Known(r, Rows(r, num, k, n))
    ensures Direct(r, num, x, t, n, k + 1) == Direct(r, num, x, t, n, k) + Listed(r, x, t, Rows(r, num, k, n))
  {
    RowsKnown(r, num, k, n);
    if n > 0 {
      DirectSplit(r, num, x, t, n - 1, k);
      var rows := Rows(r, num, k, n - 1);
      ListedNext(r, x, t, rows, n - 1);
      assert rows + [] == rows;
    }
  }

  // Adding expert by expert adds every assignment once.
  lemma {:induction false} PackedOrderSum(r: Routing, num: int, x: nat -> real, t: int, k: nat)
    requires WellFormed(r) && k <= num
    ensures Known(r, PackedOrder(r, num, k))
    ensures Listed(r, x, t, PackedOrder(r, num, k)) == Direct(r, num, x, t, |r.experts|, k)
  {
    OrderKnown(r, num, k);
    if k > 0 {
      PackedOrderSum(r, num, x, t, k - 1);
      DirectSplit(r, num, x, t, |r.experts|, k - 1);
      ListedAppend(r, x, t, PackedOrder(r, num, k - 1), Rows(r, num, k - 1, |r.experts|));
    } else {
      DirectOfNone(r, num, x, t, |r.experts|);
    }
  }

  lemma {:induction false} DirectOfNone(r: Routing, num: int, x: nat -> real, t: int, n: nat)
    requires WellFormed(r) && n <= |r.experts|
    ensures Direct(r, num, x, t, n, 0) == 0.0
  {
    if n > 0 { DirectOfNone(r, num, x, t, n - 1); }
  }

  // The map lists the assignments of `order`, and row p is worth what assignment order[p] is.
  ghost predicate Lists(m: ReorderMap, r: Routing, packed: seq<real>, x: nat -> real, order: seq<nat>) {
    && WellFormed(r) && Known(r, order) && |order| == |m.tokens| == |m.weights| == |packed|
    && forall p: nat | p < |order| :: Entry(m, r, packed, x, order[p], p)
  }

  predicate Entry(m: ReorderMap, r: Routing, packed: seq<real>, x: nat -> real, i: nat, p: nat)
    requires WellFormed(r)
  {
    i < |r.experts| && p < |m.tokens| == |m.weights| == |packed| ==>
      m.tokens[p] == TokenOf(r, i) && m.weights[p] == r.weights[i] && packed[p] == x(i)
  }

  lemma {:induction false} AddedIsListed(m: ReorderMap, r: Routing, packed: seq<real>, x: nat -> real, t: int,
                                         order: seq<nat>, n: nat)
    requires Lists(m, r, packed, x, order) && n <= |order|
    ensures Known(r, order[..n]) && Added(m, packed, t, n) == Listed(r, x, t, order[..n])
  {
    if n > 0 {
      AddedIsListed(m, r, packed, x, t, order, n - 1);
      assert Entry(m, r, packed, x, order[n - 1], n - 1);
      assert order[..n][..n - 1] == order[..n - 1];
    }
  }

  lemma MapLists(m: ReorderMap, r: Routing, num: int, packed: seq<real>, x: nat -> real)
    requires WellFormed(r) && num >= 0 && Packs(m, r, num) && |m.tokens| == |packed|
    requires forall p: nat | p < |packed| :: packed[p] == x(PackedOrder(r, num, num)[p])
    ensures Lists(m, r, packed, x, PackedOrder(r, num, num))
  {
    var order := PackedOrder(r, num, num);
    OrderKnown(r, num, num);
    forall p: nat | p < |order| ensures Entry(m, r, packed, x, order[p], p) { PackedEntries(m, r, num, p); }
  }

  /** The packed rows add up, per token, to the sum over the assignments in routing order. */
  lemma PackedSumIsDirect(m: ReorderMap, r: Routing, num: int, packed: seq<real>, x: nat -> real, t: int)
    requires WellFormed(r) && num >= 0 && Packs(m, r, num) && |m.tokens| == |packed|
    requires forall p: nat | p < |packed| :: packed[p] == x(PackedOrder(r, num, num)[p])
    ensures Added(m, packed, t, |m.tokens|) == Direct(r, num, x, t, |r.experts|, num)
  {
    MapLists(m, r, num, packed, x);
    AddedIsListed(m, r, packed, x, t, PackedOrder(r, num, num), |m.tokens|);
    TakeEnds(PackedOrder(r, num, num));
    PackedOrderSum(r, num, x, t, num);
  }

  /* ---- Both paths compute the same ---- */

  // Each row an expert puts out depends on its own input row only.
  ghost predicate RowWise<V(!new)>(ffn: (int, seq<V>, nat) -> V, f: (int, V) -> V) {
    forall e, rows, k: nat | k < |rows| :: ffn(e, rows, k) == f(e, rows[k])
  }

  // Assignment i is worth component `at` of what its expert makes of its token.
  function Worth<V>(r: Routing, num: int, input: seq<V>, f: (int, V) -> V, at: V -> real, zero: real): nat -> real
    requires WellFormed(r) && |input| >= r.batchSize
  {
    (i: nat) => if i < |r.experts| && Routed(r, num, i) then at(f(r.experts[i], input[TokenOf(r, i)])) else zero
  }

  // What the layer is for: over the first n assignments, the sum for token t of weight times expert output,
  // where y(e, t) is what expert e makes of token t.
  function SentSum(r: Routing, num: int, y: (int, int) -> real, t: int, n: nat): real
    requires n <= |r.experts| <= |r.weights|
  {
    if n == 0 then 0.0
    else
      SentSum(r, num, y, t, n - 1) +
      if GoesTo(r, num, n - 1, t) then r.weights[n - 1] * y(r.experts[n - 1], t) else 0.0
  }

  lemma {:induction false} DirectIsSentSum(r: Routing, num: int, x: nat -> real, y: (int, int) -> real, t: int, n: nat)
    requires WellFormed(r) && n <= |r.experts|
    requires forall i: nat | i < |r.experts| && Routed(r, num, i) :: x(i) == y(r.experts[i], TokenOf(r, i))
    ensures Direct(r, num, x, t, n, num) == SentSum(r, num, y, t, n)
  {
    if n > 0 {
      DirectIsSentSum(r, num, x, y, t, n - 1);
      GoesToItsToken(r, num, n - 1, t);
    }
  }

  // The same for the usual routing, where each token owns topK consecutive assignments: its first k choices.
  function ChoiceSum(r: Routing, num: int, y: (int, int) -> real, t: nat, k: nat): real
    requires |r.experts| <= |r.weights| && r.topK > 0
  {
    if k == 0 then 0.0
    else
      var i := t * r.topK + k - 1;
      ChoiceSum(r, num, y, t, k - 1) +
      if i < |r.experts| && 0 <= r.experts[i] < num then r.weights[i] * y(r.experts[i], t) else 0.0
  }

  lemma {:induction false} BeforeItsChoices(r: Routing, num: int, y: (int, int) -> real, t: nat, n: nat)
    requires r.tokens == [] && r.topK > 0 && n <= |r.experts| <= |r.weights| && n <= t * r.topK
    ensures SentSum(r, num, y, t, n) == 0.0
  {
    if n > 0 { BeforeItsChoices(r, num, y, t, n - 1); }
  }

  lemma {:induction false} AfterItsChoices(r: Routing, num: int, y: (int, int) -> real, t: nat, m: nat, n: nat)
    requires r.tokens == [] && r.topK > 0 && m <= n <= |r.experts| <= |r.weights| && t * r.topK + r.topK <= m
    ensures SentSum(r, num, y, t, n) == SentSum(r, num, y, t, m)
  {
    if m < n { AfterItsChoices(r, num, y, t, m, n - 1); }
  }

  lemma {:induction false} AmongItsChoices(r: Routing, num: int, y: (int, int) -> real, t: nat, k: nat)
    requires r.tokens == [] && r.topK > 0 && |r.experts| <= |r.weights| && t < r.batchSize && k <= r.topK
    requires t * r.topK + k <= |r.experts|
    ensures SentSum(r, num, y, t, t * r.topK + k) == ChoiceSum(r, num, y, t, k)
  {
    if k == 0 { BeforeItsChoices(r, num, y, t, t * r.topK); } else { AmongItsChoices(r, num, y, t, k - 1); }
  }

  lemma {:induction false} NoMoreChoices(r: Routing, num: int, y: (int, int) -> real, t: nat, j: nat, k: nat)
    requires r.topK > 0 && |r.experts| <= |r.weights| && j <= k && |r.experts| <= t * r.topK + j
    ensures ChoiceSum(r, num, y, t, k) == ChoiceSum(r, num, y, t, j)
  {
    if j < k { NoMoreChoices(r, num, y, t, j, k - 1); }
  }

  /** With topK consecutive assignments per token, a token gets the weighted outputs of its own topK experts. */
  lemma TokenGetsItsChoices(r: Routing, num: int, y: (int, int) -> real, t: nat)
    requires r.tokens == [] && r.topK > 0 && |r.experts| <= |r.weights| && t < r.batchSize
    ensures SentSum(r, num, y, t, |r.experts|) == ChoiceSum(r, num, y, t, r.topK)
  {
    var first, n := t * r.topK, |r.experts|;
    if n <= first {
      BeforeItsChoices(r, num, y, t, n);
      NoMoreChoices(r, num, y, t, 0, r.topK);
    } else if n <= first + r.topK {
      AmongItsChoices(r, num, y, t, n - first);
      NoMoreChoices(r, num, y, t, n - first, r.topK);
    } else {
      AmongItsChoices(r, num, y, t, r.topK);
      AfterItsChoices(r, num, y, t, first + r.topK, n);
    }
  }

  /** From routing to output, for any plan that tiles the packed rows, any sharing of the work and any
      interleaving of the workers: what is added to token t is the sum, over its routed assignments in
      routing order, of weight times expert output. */
  lemma PackedPathIsDirect<V(!new)>(r: Routing, num: int, m: ReorderMap, input: seq<V>, l: ExpertRun.Layer<V>,
                              s: ExpertRun.State<V>, schedule: seq<nat>, end: ExpertRun.State<V>,
                              f: (int, V) -> V, at: V -> real, zero: real, t: int)
    requires WellFormed(r) && num >= 0 && Packs(m, r, num) && |input| >= r.batchSize
    requires l.offsets == m.offsets && l.total == |m.tokens| == |l.input| && Tiles(l.work, l.offsets, l.total)
    requires forall p: nat | p < |l.input| :: 0 <= m.tokens[p] < r.batchSize && l.input[p] == input[m.tokens[p]]
    requires RowWise(l.ffn, f)
    requires ExpertRun.Start(l, s) && ExpertRun.Run(l, s, schedule, end) && |s.workers| > 0
    requires forall w | 0 <= w < |end.workers| :: end.workers[w].phase == ExpertRun.Done
    ensures |end.out| == |m.tokens|
    ensures Added(m, Component(end.out, at), t, |m.tokens|) ==
            Direct(r, num, Worth(r, num, input, f, at, zero), t, |r.experts|, num)
  {
    MapOffsets(m, r, num);
    ExpertRun.FinishedRun(l, s, schedule, end);
    forall p: nat | p < |end.out|
      ensures Component(end.out, at)[p] == Worth(r, num, input, f, at, zero)(PackedOrder(r, num, num)[p])
    {
      PackedEntries(m, r, num, p);
      RowOfToken(l, end.out, f, r.experts[PackedOrder(r, num, num)[p]], p);
    }
    PackedSumIsDirect(m, r, num, Component(end.out, at), Worth(r, num, input, f, at, zero), t);
  }

  /** The batched path adds to each token the weighted outputs of the experts it was sent to. */
  lemma PackedPathIsTheLayer<V(!new)>(r: Routing, num: int, m: ReorderMap, input: seq<V>, l: ExpertRun.Layer<V>,
                              s: ExpertRun.State<V>, schedule: seq<nat>, end: ExpertRun.State<V>,
                              f: (int, V) -> V, at: V -> real, y: (int, int) -> real, t: int)
    requires WellFormed(r) && num >= 0 && Packs(m, r, num) && |input| >= r.batchSize
    requires l.offsets == m.offsets && l.total == |m.tokens| == |l.input| && Tiles(l.work, l.offsets, l.total)
    requires forall p: nat | p < |l.input| :: 0 <= m.tokens[p] < r.batchSize && l.input[p] == input[m.tokens[p]]
    requires RowWise(l.ffn, f)
    requires ExpertRun.Start(l, s) && ExpertRun.Run(l, s, schedule, end) && |s.workers| > 0
    requires forall w | 0 <= w < |end.workers| :: end.workers[w].phase == ExpertRun.Done
    requires forall e, u | 0 <= u < |input| :: y(e, u) == at(f(e, input[u]))
    ensures |end.out| == |m.tokens|
    ensures Added(m, Component(end.out, at), t, |m.tokens|) == SentSum(r, num, y, t, |r.experts|)
  {
    PackedPathIsDirect(r, num, m, input, l, s, schedule, end, f, at, 0.0, t);
    DirectIsSentSum(r, num, Worth(r, num, input, f, at, 0.0), y, t, |r.experts|);
  }

  lemma RowOfToken<V(!new)>(l: ExpertRun.Layer<V>, out: seq<V>, f: (int, V) -> V, e: nat, p: nat)
    requires ExpertRun.ValidLayer(l) && ExpertRun.IsOutput(l, out) && RowWise(l.ffn, f)
    requires e + 1 < |l.offsets| && l.offsets[e] <= p < l.offsets[e + 1]
    ensures p < |out| && p < |l.input| && out[p] == f(e, l.input[p])
  {
    NextOwnerStarts(l.offsets, l.total, e, e);
    assert ExpertRun.RowIsOutput(l, out, e, p);
    var rows, k := l.input[l.offsets[e]..l.offsets[e + 1]], p - l.offsets[e];
    assert l.ffn(e, rows, k) == f(e, rows[k]);
  }

  function Component<V>(rows: seq<V>, at: V -> real): seq<real> {
    seq(|rows|, p requires 0 <= p < |rows| => at(rows[p]))
  }

  // The decode path adds the same: an assignment of weight zero, which it skips, is worth nothing.
  lemma {:induction false} DecodePathIsDirect<V(!new)>(job: SmallDecode.Job<V>, acc: seq<V>, at: V -> real,
                                                zero: real, t: nat, n: nat)
    requires SmallDecode.ValidInput(job.r, job.input) && n <= |job.r.experts| && |acc| >= job.r.batchSize && t < |acc|
    requires forall dst, w, src :: at(job.k.axpy(dst, w, src)) == at(dst) + w * at(src)
    ensures at(SmallDecode.Accumulated(job, acc, n)[t]) ==
            at(acc[t]) + Direct(job.r, job.num, Worth(job.r, job.num, job.input, job.k.ffn, at, zero), t, n, job.num)
  {
    if n > 0 { DecodePathIsDirect(job, acc, at, zero, t, n - 1); }
  }

  // And so do the decode paths.
  lemma DecodePathIsTheLayer<V(!new)>(job: SmallDecode.Job<V>, acc: seq<V>, at: V -> real, y: (int, int) -> real,
                                      t: nat)
    requires SmallDecode.ValidInput(job.r, job.input) && |acc| >= job.r.batchSize && t < |acc|
    requires forall dst, w, src :: at(job.k.axpy(dst, w, src)) == at(dst) + w * at(src)
    requires forall e, u | 0 <= u < |job.input| :: y(e, u) == at(job.k.ffn(e, job.input[u]))
    ensures at(SmallDecode.Accumulated(job, acc, |job.r.experts|)[t]) ==
            at(acc[t]) + SentSum(job.r, job.num, y, t, |job.r.experts|)
  {
    DecodePathIsDirect(job, acc, at, 0.0, t, |job.r.experts|);
    DirectIsSentSum(job.r, job.num, Worth(job.r, job.num, job.input, job.k.ffn, at, 0.0), y, t, |job.r.experts|);
  }
}
