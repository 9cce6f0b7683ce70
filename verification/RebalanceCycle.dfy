/** The rebalance thread: how far the hot sets of two cycles lie apart, how long the thread sleeps, and
    when a layer has been stable long enough for its experts to be moved. */
module RebalanceCycle {
  import opened Ordering

  /* ---- Churn ---- */

  // Members of `current` found in `previous`, each as often as it is listed.
  function Overlap(previous: set<int>, current: seq<int>): nat {
    if current == [] then 0
    else Overlap(previous, current[..|current| - 1]) + if current[|current| - 1] in previous then 1 else 0
  }

  lemma {:induction false} OverlapIsShared(previous: set<int>, current: seq<int>)
    requires Distinct(current)
    ensures Overlap(previous, current) == |previous * Elements(current)|
  {
    if current != [] {
      var n := |current| - 1;
      OverlapIsShared(previous, current[..n]);
      SharedNext(current, n, previous);
      TakeEnds(current);
      assert previous * Elements(current) == Elements(current) * previous;
      assert previous * Elements(current[..n]) == Elements(current[..n]) * previous;
    }
  }

  lemma SomeElement(s: seq<int>)
    requires s != []
    ensures |Elements(s)| > 0
  {
    assert s[0] in Elements(s);
  }

  function Churn(previousHot: seq<int>, currentHot: seq<int>): real {
    if previousHot == [] && currentHot == [] then 0.0
    else if previousHot == [] || currentHot == [] then 1.0
    else
      var previous := Elements(previousHot);
      var overlap := Overlap(previous, currentHot);
      var union := |previous| + |currentHot| - overlap;
      if union > 0 then 1.0 - overlap as real / union as real else 0.0
  }

  method ComputeHotSetChurn(previousHot: seq<int>, currentHot: seq<int>) returns (churn: real)
    ensures churn == Churn(previousHot, currentHot)
  {
    if |previousHot| == 0 && |currentHot| == 0 { return 0.0; }
    if |previousHot| == 0 || |currentHot| == 0 { return 1.0; }
    var previous := Elements(previousHot);
    var overlap := 0;
    for i := 0 to |currentHot|
      invariant overlap == Overlap(previous, currentHot[..i])
    {
      assert currentHot[..i + 1][..i] == currentHot[..i];
      if currentHot[i] in previous { overlap := overlap + 1; }
    }
    TakeEnds(currentHot);
    var union := |previous| + |currentHot| - overlap;
    churn := if union > 0 then 1.0 - overlap as real / union as real else 0.0;
  }

  // For a hot list without repeats, churn is the share of the union outside the intersection.
  lemma ChurnIsJaccard(previousHot: seq<int>, currentHot: seq<int>)
    requires Distinct(currentHot) && previousHot != [] && currentHot != []
    ensures |Elements(previousHot) + Elements(currentHot)| > 0
    ensures Churn(previousHot, currentHot) == 1.0 -
      |Elements(previousHot) * Elements(currentHot)| as real / |Elements(previousHot) + Elements(currentHot)| as real
  {
    var a, b := Elements(previousHot), Elements(currentHot);
    SomeElement(previousHot);
    OverlapIsShared(a, currentHot);
    DistinctSize(currentHot);
    assert a + b == (a - b) + b && a == (a - b) + a * b;
  }

  lemma Ratio(a: int, b: int)
    requires 0 <= a <= b && b > 0
    ensures 0.0 <= a as real / b as real <= 1.0
    ensures a as real / b as real == 1.0 <==> a == b
    ensures a as real / b as real == 0.0 <==> a == 0
  {
    var q := a as real / b as real;
    assert q * b as real == a as real;
  }

  lemma SetShares(a: set<int>, b: set<int>)
    ensures |a * b| <= |a + b|
    ensures |a * b| == |a + b| <==> a == b
    ensures |a * b| == 0 <==> a !! b
  {
    SubsetSize(a * b, a + b);
    if a * b == a + b {
      forall x ensures x in a <==> x in b { assert x in a + b <==> x in a * b; }
      assert a == b;
    }
    if a == b { assert a * b == a + b; }
    if a * b != {} {
      SomeMember(a * b);
      var x :| x in a * b;
      assert x in a && x in b && !(a !! b);
      SubsetSize({x}, a * b);
    } else {
      forall x | x in a ensures x !in b { assert x !in a * b; }
      assert a !! b;
    }
  }

  // So it lies between 0, for equal sets, and 1, for disjoint ones.
  lemma ChurnRange(previousHot: seq<int>, currentHot: seq<int>)
    requires Distinct(currentHot)
    ensures 0.0 <= Churn(previousHot, currentHot) <= 1.0
    ensures Churn(previousHot, currentHot) == 0.0 <==> Elements(previousHot) == Elements(currentHot)
    ensures previousHot != [] || currentHot != [] ==>
      (Churn(previousHot, currentHot) == 1.0 <==> Elements(previousHot) !! Elements(currentHot))
  {
    var a, b := Elements(previousHot), Elements(currentHot);
    SetShares(a, b);
    if previousHot == [] {
      assert a == {} && a !! b;
      if currentHot != [] { SomeElement(currentHot); }
    } else if currentHot == [] {
      assert b == {} && a !! b;
      SomeElement(previousHot);
    } else {
      ChurnIsJaccard(previousHot, currentHot);
      Ratio(|a * b|, |a + b|);
    }
  }

  lemma {:induction false} OverlapBounds(previous: set<int>, current: seq<int>)
    ensures Overlap(previous, current) <= |current|
    ensures previous == {} ==> Overlap(previous, current) == 0
  {
    if current != [] { OverlapBounds(previous, current[..|current| - 1]); }
  }

  // A repeated id counts once for every time it is listed, so without the restriction to lists without
  // repeats churn is negative exactly when the overlap is more than half of the set and the list together.
  lemma ChurnNonNegative(previousHot: seq<int>, currentHot: seq<int>)
    ensures Churn(previousHot, currentHot) >= 0.0 <==>
      2 * Overlap(Elements(previousHot), currentHot) <= |Elements(previousHot)| + |currentHot|
  {
    var previous := Elements(previousHot);
    OverlapBounds(previous, currentHot);
    if previousHot == [] { assert previous == {}; }
    if previousHot != [] && currentHot != [] {
      SomeElement(previousHot);
      var overlap := Overlap(previous, currentHot);
      AtMostOne(overlap, |previous| + |currentHot| - overlap);
    }
  }

  lemma AtMostOne(a: int, b: int)
    requires b > 0
    ensures 1.0 - a as real / b as real >= 0.0 <==> a <= b
  {
    var q := a as real / b as real;
    assert q * b as real == a as real;
    if q <= 1.0 { assert (1.0 - q) * b as real >= 0.0; } else { assert (q - 1.0) * b as real > 0.0; }
  }

  // One id listed three times.
  lemma RepeatsCanGoNegative()
    ensures Churn([1], [1, 1, 1]) == -2.0
  {
    assert Elements([1]) == {1};
    assert [1, 1, 1][..2] == [1, 1] && [1, 1][..1] == [1] && [1][..0] == [];
    assert Overlap({1}, []) == 0 && Overlap({1}, [1]) == 1 && Overlap({1}, [1, 1]) == 2;
    assert Overlap({1}, [1, 1, 1]) == 3;
  }

  // The profiler's hot list: its `topK` busiest experts, each listed once, however ties are broken. So the
  // rebalance thread only ever compares lists without repeats.
  method HotExperts(loads: seq<real>, topK: int) returns (hot: seq<int>)
    ensures Distinct(hot) && |hot| == (if topK <= 0 then 0 else Min(topK, |loads|))
    ensures forall e | e in hot :: 0 <= e < |loads|
    ensures forall e, out | e in hot && 0 <= out < |loads| && out !in hot :: loads[out] <= loads[e]
  {
    if topK <= 0 { return []; }
    var all: seq<int> := seq(|loads|, i => i);
    var busier := (a: int, b: int) =>
      (if 0 <= a < |loads| then loads[a] else 0.0) >= (if 0 <= b < |loads| then loads[b] else 0.0);
    var ranked := Sort(all, busier);
    SameElements(ranked, all);
    DistinctPermutation(ranked, all);
    var k := Min(topK, |loads|);
    hot := ranked[..k];
    forall e | e in hot ensures 0 <= e < |loads| {
      assert e in ranked && e in all;
    }
    forall e, out | e in hot && 0 <= out < |loads| && out !in hot ensures loads[out] <= loads[e] {
      assert all[out] == out && out in ranked;
      var i :| 0 <= i < k && ranked[i] == e;
      var j :| 0 <= j < |ranked| && ranked[j] == out;
      assert j >= k;
      assert busier(ranked[i], ranked[j]);
    }
  }

  /* ---- The interval ---- */

  function Max(a: int, b: int): int { if a >= b then a else b }
  function Min(a: int, b: int): int { if a <= b then a else b }

  function Shortest(base: nat): int { Max(250, base / 4) }
  function Longest(base: nat): int { Max(base, base * 4) }

  // The factors 0.7 and 1.3, truncated.
  function NextInterval(current: nat, base: nat, anyHigh: bool, allLow: bool): nat {
    if anyHigh then Max(Shortest(base), current * 7 / 10)
    else if allLow then Min(Longest(base), current * 13 / 10)
    else current
  }

  datatype Flags = Flags(anyHigh: bool, allLow: bool)

  // After a high cycle the least interval that is no shorter than 250, than a quarter of the base, and than
  // 0.7 of the current one, each rounded down; after a calm one the greatest that is no longer than four times
  // the base and 1.3 of the current one; otherwise the current one.
  ghost predicate FollowsFlags(current: nat, base: nat, flags: Flags, next: nat) {
    && (flags.anyHigh ==>
          forall n: nat :: next <= n <==> n >= 250 && 4 * n + 3 >= base && 10 * n + 9 >= 7 * current)
    && (!flags.anyHigh && flags.allLow ==>
          forall n: nat :: n <= next <==> n <= 4 * base && 10 * n <= 13 * current)
    && (!flags.anyHigh && !flags.allLow ==> next == current)
  }

  lemma IntervalFollowsFlags(current: nat, base: nat, flags: Flags)
    ensures FollowsFlags(current, base, flags, NextInterval(current, base, flags.anyHigh, flags.allLow))
  {}

  // The interval after any sequence of cycles.
  function IntervalAfter(current: nat, base: nat, cycles: seq<Flags>): nat {
    if cycles == [] then current
    else
      var last := cycles[|cycles| - 1];
      NextInterval(IntervalAfter(current, base, cycles[..|cycles| - 1]), base, last.anyHigh, last.allLow)
  }

  lemma {:induction false} IntervalStaysInBounds(base: nat, cycles: seq<Flags>)
    requires base >= 250
    ensures Shortest(base) <= IntervalAfter(base, base, cycles) <= Longest(base)
  {
    if cycles != [] { IntervalStaysInBounds(base, cycles[..|cycles| - 1]); }
  }

  // A shorter base starts below the lower bound, and what holds of every base is this.
  lemma {:induction false} IntervalStaysPositive(base: nat, cycles: seq<Flags>)
    requires base > 0
    ensures Min(base, 250) <= IntervalAfter(base, base, cycles) <= Max(250, Longest(base))
  {
    if cycles != [] { IntervalStaysPositive(base, cycles[..|cycles| - 1]); }
  }

  // A high cycle is meant to shorten the sleep. It never lengthens it exactly from a base of 250.
  lemma HighNeverLengthens(base: nat)
    requires base > 0
    ensures base >= 250 <==> forall cycles, low ::
      NextInterval(IntervalAfter(base, base, cycles), base, true, low) <= IntervalAfter(base, base, cycles)
  {
    if base >= 250 {
      forall cycles, low
        ensures NextInterval(IntervalAfter(base, base, cycles), base, true, low) <= IntervalAfter(base, base, cycles)
      {
        IntervalStaysInBounds(base, cycles);
      }
    } else {
      assert NextInterval(IntervalAfter(base, base, []), base, true, false) == 250;
    }
  }

  function AfterCalm(current: nat, base: nat, cycles: nat): nat {
    if cycles == 0 then current else NextInterval(AfterCalm(current, base, cycles - 1), base, false, true)
  }

  lemma {:induction false} CalmGrows(current: nat, base: nat, cycles: nat)
    requires base > 0 && current >= 4 && cycles > 0
    ensures Min(current + cycles, Longest(base)) <= AfterCalm(current, base, cycles) <= Longest(base)
  {
    if cycles > 1 { CalmGrows(current, base, cycles - 1); }
  }

  lemma {:induction false} CalmStalls(current: nat, base: nat, cycles: nat)
    requires base > 0 && current < 4
    ensures AfterCalm(current, base, cycles) == current < Longest(base)
  {
    if cycles > 0 { CalmStalls(current, base, cycles - 1); }
  }

  // Calm cycles bring the interval to its upper bound, for good, exactly if it starts at 4 or more:
  // truncation keeps 1, 2 and 3 where they are.
  lemma CalmReachesCap(current: nat, base: nat)
    requires base > 0
    ensures current >= 4 <==> exists n: nat :: AfterCalm(current, base, n) == Longest(base)
    ensures current >= 4 ==> forall n: nat | n >= Max(1, Longest(base) - current) ::
      AfterCalm(current, base, n) == Longest(base)
  {
    if current >= 4 {
      forall n: nat | n >= Max(1, Longest(base) - current) ensures AfterCalm(current, base, n) == Longest(base) {
        CalmGrows(current, base, n);
      }
      assert AfterCalm(current, base, Max(1, Longest(base) - current)) == Longest(base);
    } else {
      forall n: nat ensures AfterCalm(current, base, n) != Longest(base) { CalmStalls(current, base, n); }
    }
  }

  /* ---- One layer over its cycles ---- */

  const StableChurn := 0.10
  const HighChurn := 0.35
  const StableCycles := 2

  // What a cycle finds of a layer. `highRate` is the verdict on its hit rate over wall-clock time.
  datatype Seen = Seen(hot: seq<int>, totalHits: nat, hasWeights: bool, highRate: bool)

  datatype LayerState = LayerState(previousHot: seq<int>, previousHits: nat, stableCycles: nat, hasBaseline: bool)

  const Fresh := LayerState([], 0, 0, false)

  function NextStableCycles(current: nat, hasPreviousHot: bool, churn: real, deltaHits: nat): nat {
    if !hasPreviousHot || deltaHits == 0 || churn > StableChurn then 0 else Min(current + 1, StableCycles)
  }

  function LayerStep(s: LayerState, o: Seen): LayerState {
    var previousHits := if s.hasBaseline then s.previousHits else o.totalHits;
    var delta := if o.totalHits >= previousHits then o.totalHits - previousHits else 0;
    LayerState(o.hot, o.totalHits,
               NextStableCycles(s.stableCycles, s.previousHot != [], Churn(s.previousHot, o.hot), delta), true)
  }

  function After(history: seq<Seen>): LayerState {
    if history == [] then Fresh else LayerStep(After(history[..|history| - 1]), history[|history| - 1])
  }

  // Cycle i was calm: it brought new hits, and the hot set, known from the cycle before, hardly moved.
  predicate Calm(history: seq<Seen>, i: int) {
    && 1 <= i < |history| && history[i - 1].hot != []
    && history[i].totalHits > history[i - 1].totalHits
    && Churn(history[i - 1].hot, history[i].hot) <= 0.10
  }

  lemma {:induction false} StableCyclesCount(history: seq<Seen>)
    ensures After(history).stableCycles ==
      if Calm(history, |history| - 1) then (if Calm(history, |history| - 2) then 2 else 1) else 0
    ensures history != [] ==> After(history).previousHot == history[|history| - 1].hot
    ensures history != [] ==> After(history).previousHits == history[|history| - 1].totalHits
    ensures After(history).hasBaseline <==> history != []
  {
    if history != [] {
      var n := |history| - 1;
      var front := history[..n];
      StableCyclesCount(front);
      assert Calm(front, n - 1) <==> Calm(history, n - 1);
    }
  }

  predicate Migrates(history: seq<Seen>, enabled: bool) {
    && enabled && history != []
    && history[|history| - 1].hot != [] && history[|history| - 1].hasWeights
    && After(history).stableCycles >= StableCycles
  }

  /** A layer's experts are moved in a cycle exactly when moving is enabled, there is something to move,
      and this cycle and the one before it were calm; so never before its third cycle. */
  lemma MigratesIffTwiceCalm(history: seq<Seen>, enabled: bool)
    ensures Migrates(history, enabled) <==>
      && enabled && history != []
      && history[|history| - 1].hot != [] && history[|history| - 1].hasWeights
      && Calm(history, |history| - 1) && Calm(history, |history| - 2)
    ensures Migrates(history, enabled) ==> |history| >= 3
  {
    StableCyclesCount(history);
  }

  /* ---- The thread ---- */

  datatype Found = NoRegistry | NoProfiler | Profiled(seen: Seen)

  datatype Entry = Entry(layer: int, found: Found)

  function HistoryOf(seen: map<int, seq<Seen>>, layer: int): seq<Seen> {
    if layer in seen then seen[layer] else []
  }

  function StateOf(states: map<int, LayerState>, layer: int): LayerState {
    if layer in states then states[layer] else Fresh
  }

  predicate OnePerLayer(entries: seq<Entry>) { forall i,
                        j | 0 <= i < j < |entries| :: entries[i].layer != entries[j].layer }

  // The verdicts of one entry, given the layer's history before this cycle.
  predicate IsHigh(history: seq<Seen>, found: Found) {
    found.Profiled? && (Churn(After(history).previousHot, found.seen.hot) >= HighChurn || found.seen.highRate)
  }

  predicate IsLow(history: seq<Seen>, found: Found, enabled: bool) {
    match found
    case NoRegistry => true
    case NoProfiler => false
    case Profiled(o) =>
      Churn(After(history).previousHot, o.hot) <= StableChurn && !(enabled && (o.hot == [] || !o.hasWeights))
  }

  // The verdicts in terms of what the layer has shown: its hot set of the cycle before, empty at first, and
  // the one it shows now.
  lemma VerdictsOf(history: seq<Seen>, found: Found, enabled: bool)
    ensures var before := if history == [] then [] else history[|history| - 1].hot;
      && (IsHigh(history, found) <==>
            found.Profiled? && (Churn(before, found.seen.hot) >= 0.35 || found.seen.highRate))
      && (IsLow(history, found, enabled) <==>
            found.NoRegistry? ||
            (found.Profiled? && Churn(before, found.seen.hot) <= 0.10 &&
             (enabled ==> found.seen.hot != [] && found.seen.hasWeights)))
  {
    StableCyclesCount(history);
  }

  // What one cycle over the entries adds to the layers' histories.
  function SeenAfter(seen: map<int, seq<Seen>>, entries: seq<Entry>, n: nat): map<int, seq<Seen>>
    requires n <= |entries|
  {
    if n == 0 then seen
    else SeenWith(SeenAfter(seen, entries, n - 1), entries[n - 1])
  }

  function SeenWith(seen: map<int, seq<Seen>>, e: Entry): map<int, seq<Seen>> {
    if e.found.Profiled? then seen[e.layer := HistoryOf(seen, e.layer) + [e.found.seen]] else seen
  }

  // It extends the history of each profiled layer by what was seen, and no other.
  lemma {:induction false} SeenAfterOf(seen: map<int, seq<Seen>>, entries: seq<Entry>, n: nat, j: nat)
    requires n <= |entries| && OnePerLayer(entries) && j < |entries|
    ensures HistoryOf(SeenAfter(seen, entries, n), entries[j].layer) ==
      HistoryOf(seen, entries[j].layer) + if j < n && entries[j].found.Profiled? then [entries[j].found.seen] else []
    ensures j >= n ==> HistoryOf(SeenAfter(seen, entries, n), entries[j].layer) == HistoryOf(seen, entries[j].layer)
  {
    if n == 0 {
      assert HistoryOf(seen, entries[j].layer) + [] == HistoryOf(seen, entries[j].layer);
    } else {
      SeenAfterOf(seen, entries, n - 1, j);
      if j == n - 1 {
        assert HistoryOf(seen, entries[j].layer) + [] == HistoryOf(seen, entries[j].layer);
      } else {
        assert entries[j].layer != entries[n - 1].layer;
      }
    }
  }

  lemma {:induction false} SeenAfterOthers(seen: map<int, seq<Seen>>, entries: seq<Entry>, n: nat, layer: int)
    requires n <= |entries| && forall j | 0 <= j < n :: entries[j].layer != layer
    ensures HistoryOf(SeenAfter(seen, entries, n), layer) == HistoryOf(seen, layer)
  {
    if n > 0 { SeenAfterOthers(seen, entries, n - 1, layer); }
  }

  predicate HighAt(seen: map<int, seq<Seen>>, e: Entry) { IsHigh(HistoryOf(seen, e.layer), e.found) }

  predicate LowAt(seen: map<int, seq<Seen>>, e: Entry, enabled: bool) { IsLow(HistoryOf(seen, e.layer), e.found,
                  enabled) }

  predicate MigratesAt(seen: map<int, seq<Seen>>, e: Entry, enabled: bool) {
    e.found.Profiled? && Migrates(HistoryOf(seen, e.layer) + [e.found.seen], enabled)
  }

  datatype Tally = Tally(flags: Flags, migrated: set<int>)

  function TallyWith(t: Tally, layer: int, high: bool, low: bool, migrate: bool): Tally {
    Tally(Flags(t.flags.anyHigh || high, t.flags.allLow && low), if migrate then t.migrated + {layer} else t.migrated)
  }

  // The verdicts of the first n entries, gathered in order.
  function TallyOf(seen: map<int, seq<Seen>>, entries: seq<Entry>, n: nat, enabled: bool): Tally
    requires n <= |entries|
  {
    if n == 0 then Tally(Flags(false, entries != []), {})
    else
      var e := entries[n - 1];
      TallyWith(TallyOf(seen, entries, n - 1, enabled), e.layer,
                HighAt(seen, e), LowAt(seen, e, enabled), MigratesAt(seen, e, enabled))
  }

  // A cycle is high if some layer is, and low if there are layers and all are.
  lemma {:induction false} TallyFlags(seen: map<int, seq<Seen>>, entries: seq<Entry>, n: nat, enabled: bool)
    requires n <= |entries|
    ensures TallyOf(seen, entries, n, enabled).flags.anyHigh <==> exists j | 0 <= j < n :: HighAt(seen, entries[j])
    ensures TallyOf(seen, entries, n, enabled).flags.allLow <==>
      entries != [] && forall j | 0 <= j < n :: LowAt(seen, entries[j], enabled)
  {
    if n > 0 { TallyFlags(seen, entries, n - 1, enabled); }
  }

  predicate Moves(seen: map<int, seq<Seen>>, e: Entry, enabled: bool, layer: int) {
    e.layer == layer && MigratesAt(seen, e, enabled)
  }

  lemma TallyNext(t: Tally, e: Entry, high: bool, low: bool, migrate: bool, layer: int)
    ensures layer in TallyWith(t, e.layer, high, low, migrate).migrated <==>
            layer in t.migrated || (e.layer == layer && migrate)
  {}

  // It moves the experts of exactly the layers whose history calls for it.
  lemma {:induction false} TallyMigrated(seen: map<int, seq<Seen>>, entries: seq<Entry>, n: nat, enabled: bool,
                                         layer: int)
    requires n <= |entries|
    ensures layer in TallyOf(seen, entries, n, enabled).migrated <==>
      exists j | 0 <= j < n :: Moves(seen, entries[j], enabled, layer)
  {
    if n > 0 {
      var e := entries[n - 1];
      TallyMigrated(seen, entries, n - 1, enabled, layer);
      TallyNext(TallyOf(seen, entries, n - 1, enabled), e,
                HighAt(seen, e), LowAt(seen, e, enabled), MigratesAt(seen, e, enabled), layer);
      assert Moves(seen, e, enabled, layer) <==> e.layer == layer && MigratesAt(seen, e, enabled);
    }
  }

  lemma SameVerdicts(a: map<int, seq<Seen>>, b: map<int, seq<Seen>>, e: Entry, enabled: bool)
    requires HistoryOf(a, e.layer) == HistoryOf(b, e.layer)
    ensures HighAt(a, e) == HighAt(b, e) && LowAt(a, e, enabled) == LowAt(b, e, enabled)
    ensures MigratesAt(a, e, enabled) == MigratesAt(b, e, enabled)
  {}

  predicate LayerOk(states: map<int, LayerState>, seen: map<int, seq<Seen>>, layer: int) {
    StateOf(states, layer) == After(HistoryOf(seen, layer))
  }

  lemma LayersStayOk(states: map<int, LayerState>, seen: map<int, seq<Seen>>, layer: int, o: Seen,
                     states': map<int, LayerState>, seen': map<int, seq<Seen>>)
    requires forall l :: LayerOk(states, seen, l)
    requires seen' == seen[layer := HistoryOf(seen, layer) + [o]]
    requires states' == states[layer := LayerStep(StateOf(states, layer), o)]
    ensures forall l :: LayerOk(states', seen', l)
  {
    var history := HistoryOf(seen, layer);
    assert (history + [o])[..|history|] == history;
    forall l ensures LayerOk(states', seen', l) {
      assert LayerOk(states, seen, l);
    }
  }

  // The update of a layer's record, field by field.
  method UpdateLayer(s: LayerState, o: Seen) returns (state: LayerState, churn: real)
    ensures state == LayerStep(s, o) && churn == Churn(s.previousHot, o.hot)
  {
    state := s;
    if !state.hasBaseline { state := state.(previousHits := o.totalHits, hasBaseline := true); }
    var delta := if o.totalHits >= state.previousHits then o.totalHits - state.previousHits else 0;
    churn := ComputeHotSetChurn(state.previousHot, o.hot);
    state := state.(stableCycles := NextStableCycles(state.stableCycles, state.previousHot != [], churn, delta));
    state := state.(previousHot := o.hot, previousHits := o.totalHits);
  }

  class RebalanceThread {
    const base: nat
    const enabled: bool
    var interval: nat
    var states: map<int, LayerState>
    ghost var seen: map<int, seq<Seen>>    // what each layer has shown so far
    ghost var cycles: seq<Flags>           // the flags of the cycles so far

    ghost predicate Valid()
      reads this
    {
      && base > 0 && interval == IntervalAfter(base, base, cycles)
      && forall layer :: LayerOk(states, seen, layer)
    }

    constructor (intervalMs: int, enabled: bool)
      ensures Valid() && this.enabled == enabled && seen == map[] && cycles == []
      ensures base == if intervalMs <= 0 then 5000 else intervalMs
    {
      base := if intervalMs <= 0 then 5000 else intervalMs;
      interval := if intervalMs <= 0 then 5000 else intervalMs;
      this.enabled := enabled;
      states, seen, cycles := map[], map[], [];
    }

    // One layer in one cycle.
    method Visit(layer: int, o: Seen) returns (high: bool, low: bool, migrate: bool)
      requires Valid()
      modifies `states, `seen
      ensures Valid() && seen == old(seen)[layer := HistoryOf(old(seen), layer) + [o]]
      ensures high <==> HighAt(old(seen), Entry(layer, Profiled(o)))
      ensures low <==> LowAt(old(seen), Entry(layer, Profiled(o)), enabled)
      ensures migrate <==> MigratesAt(old(seen), Entry(layer, Profiled(o)), enabled)
    {
      ghost var states0, history := states, HistoryOf(seen, layer);
      assert LayerOk(states, seen, layer);
      var state, churn := UpdateLayer(if layer in states then states[layer] else Fresh, o);
      assert (history + [o])[..|history|] == history;
      high := churn >= HighChurn || o.highRate;
      low := churn <= StableChurn;
      migrate := false;
      if enabled {
        if state.stableCycles >= StableCycles && o.hot != [] && o.hasWeights { migrate := true; }
        else if o.hot == [] || !o.hasWeights { low := false; }
      }
      states := states[layer := state];
      LayersStayOk(states0, seen, layer, o, states, seen[layer := history + [o]]);
      seen := seen[layer := history + [o]];
    }

    method VisitEntry(e: Entry) returns (high: bool, low: bool, migrate: bool)
      requires Valid()
      modifies `states, `seen
      ensures Valid() && seen == SeenWith(old(seen), e)
      ensures high <==> HighAt(old(seen), e)
      ensures low <==> LowAt(old(seen), e, enabled)
      ensures migrate <==> MigratesAt(old(seen), e, enabled)
    {
      match e.found
      case NoRegistry => high, low, migrate := false, true, false;
      case NoProfiler => high, low, migrate := false, false, false;
      case Profiled(o) => high, low, migrate := Visit(e.layer, o);
    }

    // All layers in one cycle.
    method VisitAll(entries: seq<Entry>) returns (anyHigh: bool, allLow: bool, migrated: set<int>)
      requires Valid() && OnePerLayer(entries)
      modifies `states, `seen
      ensures Valid() && seen == SeenAfter(old(seen), entries, |entries|)
      ensures Tally(Flags(anyHigh, allLow), migrated) == TallyOf(old(seen), entries, |entries|, enabled)
    {
      anyHigh, allLow := false, |entries| > 0;
      migrated := {};
      for i := 0 to |entries|
        invariant Valid() && seen == SeenAfter(old(seen), entries, i)
        invariant Tally(Flags(anyHigh, allLow), migrated) == TallyOf(old(seen), entries, i, enabled)
      {
        SeenAfterOf(old(seen), entries, i, i);
        SameVerdicts(old(seen), seen, entries[i], enabled);
        var high, low, migrate := VisitEntry(entries[i]);
        anyHigh, allLow := anyHigh || high, allLow && low;
        if migrate { migrated := migrated + {entries[i].layer}; }
      }
    }

    /** One turn of the loop over the registries. A layer is moved exactly when its own history, with
        what this cycle shows, says so; the sleep follows from the layers' verdicts. */
    method Cycle(entries: seq<Entry>) returns (migrated: set<int>)
      requires Valid() && OnePerLayer(entries)
      modifies this
      ensures Valid() && seen == SeenAfter(old(seen), entries, |entries|)
      ensures |cycles| == |old(cycles)| + 1 && cycles[..|old(cycles)|] == old(cycles)
      ensures Tally(cycles[|old(cycles)|], migrated) == TallyOf(old(seen), entries, |entries|, enabled)
      ensures FollowsFlags(old(interval), base, cycles[|old(cycles)|], interval)
    {
      var anyHigh, allLow;
      anyHigh, allLow, migrated := VisitAll(entries);
      IntervalFollowsFlags(interval, base, Flags(anyHigh, allLow));
      interval := NextInterval(interval, base, anyHigh, allLow);
      cycles := cycles + [Flags(anyHigh, allLow)];
      assert cycles[..|cycles| - 1] == old(cycles);
    }
  }
}
