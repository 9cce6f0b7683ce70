/** The execution plan of one batched MoE forward pass: which packed rows each active expert
    processes, the order that groups experts by NUMA node, and the balancing of work over
    threads. */
module ForwardPlan {
  import opened Arithmetic
  import opened Ordering

  // MoEActiveExpertWork: the packed rows [start, start + count) belong to `expert`.
  datatype Work = Work(expert: int, start: int, count: int, node: int, load: real, localHot: bool)

  /* ---- NUMA switches ---- */

  predicate Switch(a: Work, b: Work) { a.node >= 0 && b.node >= 0 && a.node != b.node }

  function Switches(work: seq<Work>): nat {
    if |work| < 2 then 0
    else Switches(work[..|work| - 1]) + if Switch(work[|work| - 2], work[|work| - 1]) then 1 else 0
  }

  // Items i - 1 and i sit on different known nodes.
  predicate SwitchAt(work: seq<Work>, i: nat) {
    0 < i < |work| && work[i - 1].node >= 0 && work[i].node >= 0 && work[i - 1].node != work[i].node
  }

  function SwitchPlaces(work: seq<Work>): set<nat> { set i: nat | i < |work| && SwitchAt(work, i) }

  lemma NextSwitchPlace(work: seq<Work>, n: nat)
    requires n + 1 == |work|
    ensures SwitchPlaces(work) == SwitchPlaces(work[..n]) + (if SwitchAt(work, n) then {n} else {})
    ensures n !in SwitchPlaces(work[..n])
  {
    var front := work[..n];
    forall i: nat | i < n ensures SwitchAt(front, i) <==> SwitchAt(work, i) {}
  }

  lemma {:induction false} SwitchesAreCounted(work: seq<Work>)
    ensures Switches(work) == |SwitchPlaces(work)|
  {
    if |work| < 2 {
      assert SwitchPlaces(work) == {};
    } else {
      SwitchesAreCounted(work[..|work| - 1]);
      NextSwitchPlace(work, |work| - 1);
    }
  }

  method CountSwitches(work: seq<Work>) returns (switches: nat)
    ensures switches == Switches(work) == |SwitchPlaces(work)|
  {
    SwitchesAreCounted(work);
    switches := 0;
    var i := 1;
    while i < |work|
      invariant 1 <= i
      invariant i <= |work| ==> switches == Switches(work[..i])
      invariant i > |work| ==> work == [] && switches == 0
    {
      assert work[..i + 1][..i] == work[..i];
      if Switch(work[i - 1], work[i]) { switches := switches + 1; }
      i := i + 1;
    }
    assert work[..|work|] == work;
  }

  function VerifiedNodes(work: seq<Work>): set<int> {
    if work == [] then {}
    else VerifiedNodes(work[..|work| - 1]) + (if work[|work| - 1].node >= 0 then {work[|work| - 1].node} else {})
  }

  lemma {:induction false} NodeMembers(work: seq<Work>, x: int)
    ensures x in VerifiedNodes(work) <==> x >= 0 && exists w :: w in work && w.node == x
  {
    if work != [] {
      var n := |work| - 1;
      assert work == work[..n] + [work[n]];
      NodeMembers(work[..n], x);
    }
  }

  // Verified items first, ordered by node.
  ghost predicate Grouped(work: seq<Work>) {
    forall i, j | 0 <= i < j < |work| && work[j].node >= 0 :: 0 <= work[i].node <= work[j].node
  }

  // In grouped work the node of the last item has been seen before only on the item just before it.
  lemma LastNodeIsNew(work: seq<Work>)
    requires Grouped(work) && |work| >= 2
    ensures var n := |work| - 1; var front, last, previous := work[..n], work[n].node, work[n - 1].node;
      && (last >= 0 ==> previous >= 0)
      && (last >= 0 ==> (last in VerifiedNodes(front) <==> last == previous))
  {
    var n := |work| - 1;
    var front, last := work[..n], work[n].node;
    NodeMembers(front, last);
    assert front[n - 1] in front;
    if last >= 0 && last in VerifiedNodes(front) {
      var w :| w in front && w.node == last;
      var i :| 0 <= i < n && front[i] == w;
      if i < n - 1 { assert work[i].node <= work[n - 1].node <= last; }
    }
  }

  // Grouping leaves exactly one switch between consecutive distinct nodes.
  lemma {:induction false} GroupedSwitches(work: seq<Work>)
    requires Grouped(work)
    ensures Switches(work) == if VerifiedNodes(work) == {} then 0 else |VerifiedNodes(work)| - 1
  {
    if |work| >= 2 {
      var n := |work| - 1;
      var front := work[..n];
      GroupedSwitches(front);
      LastNodeIsNew(work);
      NodeMembers(front, work[n - 1].node);
      assert front[n - 1] in front;
      assert Switches(work) == Switches(front) + if Switch(work[n - 1], work[n]) then 1 else 0;
      if work[n].node >= 0 {
        assert VerifiedNodes(work) == VerifiedNodes(front) + {work[n].node};
        assert VerifiedNodes(front) != {};
      } else {
        assert VerifiedNodes(work) == VerifiedNodes(front);
      }
    } else if |work| == 1 {
      assert work[..0] == [];
    }
  }

  // No arrangement of fully verified work has fewer.
  lemma {:induction false} SwitchesAtLeast(work: seq<Work>)
    requires forall w | w in work :: w.node >= 0
    ensures work != [] ==> Switches(work) >= |VerifiedNodes(work)| - 1
  {
    if work != [] {
      var n := |work| - 1;
      var front, last := work[..n], work[n];
      forall w | w in front ensures w.node >= 0 { assert w in work; }
      SwitchesAtLeast(front);
      if n > 0 {
        assert front[n - 1] in front && work[n - 1] in work && last in work;
        NodeMembers(front, work[n - 1].node);
      }
    }
  }

  lemma {:induction false} SwitchNeedsTwoNodes(work: seq<Work>)
    ensures Switches(work) > 0 ==> |VerifiedNodes(work)| >= 2
  {
    if |work| >= 2 {
      var n := |work| - 1;
      var front, last := work[..n], work[n];
      SwitchNeedsTwoNodes(front);
      SubsetSize(VerifiedNodes(front), VerifiedNodes(work));
      assert front[n - 1] in front;
      NodeMembers(front, work[n - 1].node);
      if Switch(work[n - 1], last) { SubsetSize({work[n - 1].node, last.node}, VerifiedNodes(work)); }
    }
  }

  /* ---- Locality ordering ---- */

  function OrderingScore(w: Work, previousBatch: set<int>): int {
    (if w.localHot then 32 else 0) + (if w.expert in previousBatch then 24 else 0) +
    (if w.node >= 0 then 4 else 0) + 3 * (if w.count < 4 then w.count else 4)
  }

  predicate RunsBefore(a: Work, b: Work, previousBatch: set<int>) {
    if (a.node >= 0) != (b.node >= 0) then a.node >= 0
    else if a.node >= 0 && a.node != b.node then a.node < b.node
    else if OrderingScore(a, previousBatch) != OrderingScore(b, previousBatch)
      then OrderingScore(a, previousBatch) > OrderingScore(b, previousBatch)
    else if a.load != b.load then a.load < b.load
    else if a.count != b.count then a.count < b.count
    else a.expert < b.expert
  }

  function LocalityOrder(previousBatch: set<int>): (Work, Work) -> bool {
    (a: Work, b: Work) => !RunsBefore(b, a, previousBatch)
  }

  // `a` may run before `b`: known nodes come first and in order; on one node, or without one, a local hot
  // expert is worth 32, one of the previous batch 24, each row up to the fourth 3; then the lighter, the
  // smaller and the earlier expert goes first.
  ghost predicate MayPrecede(a: Work, b: Work, previousBatch: set<int>) {
    && (b.node >= 0 ==> 0 <= a.node <= b.node)
    && (a.node == b.node || (a.node < 0 && b.node < 0) ==>
          var x := (if a.localHot then 32 else 0) + (if a.expert in previousBatch then 24 else 0) +
                   if a.count >= 4 then 12 else 3 * a.count;
          var y := (if b.localHot then 32 else 0) + (if b.expert in previousBatch then 24 else 0) +
                   if b.count >= 4 then 12 else 3 * b.count;
          && x >= y && (x == y ==> a.load <= b.load) && (x == y && a.load == b.load ==> a.count <= b.count)
          && (x == y && a.load == b.load && a.count == b.count ==> a.expert <= b.expert))
  }

  lemma LocalityOrderMeans(a: Work, b: Work, previousBatch: set<int>)
    ensures LocalityOrder(previousBatch)(a, b) <==> MayPrecede(a, b, previousBatch)
  {}

  ghost predicate InLocalityOrder(work: seq<Work>, previousBatch: set<int>) {
    forall i, j | 0 <= i < j < |work| :: MayPrecede(work[i], work[j], previousBatch)
  }

  lemma LocalityOrderIsTotal(previousBatch: set<int>)
    ensures TotalPreorder(LocalityOrder(previousBatch))
  {}

  lemma LocalityGroups(work: seq<Work>, previousBatch: set<int>)
    requires Sorted(work, LocalityOrder(previousBatch))
    ensures Grouped(work)
  {
    forall i, j | 0 <= i < j < |work| && work[j].node >= 0 ensures 0 <= work[i].node <= work[j].node {
      assert LocalityOrder(previousBatch)(work[i], work[j]);
    }
  }

  lemma SameNodes(a: seq<Work>, b: seq<Work>)
    requires multiset(a) == multiset(b)
    ensures VerifiedNodes(a) == VerifiedNodes(b)
  {
    SameElements(a, b);
    forall x ensures x in VerifiedNodes(a) <==> x in VerifiedNodes(b) { NodeMembers(a, x); NodeMembers(b, x); }
  }

  // Sorting by locality attains the fewest switches any order of fully verified work can have.
  lemma LocalityIsOptimal(sorted: seq<Work>, other: seq<Work>, previousBatch: set<int>)
    requires Sorted(sorted, LocalityOrder(previousBatch)) && multiset(sorted) == multiset(other)
    requires forall w | w in other :: w.node >= 0
    ensures Switches(sorted) <= Switches(other)
  {
    LocalityGroups(sorted, previousBatch);
    GroupedSwitches(sorted);
    SwitchesAtLeast(other);
    SameNodes(sorted, other);
  }

  // Not so when a residency is unknown: an unverified item can hide a switch.
  lemma UnverifiedWorkCanGainSwitches(a: Work, u: Work, b: Work)
    requires 0 <= a.node < b.node && u.node < 0
    ensures multiset([a, u, b]) == multiset([a, b, u])
    ensures Grouped([a, b, u]) && Switches([a, u, b]) == 0 && Switches([a, b, u]) == 1
  {
    assert [a, u, b][..2] == [a, u];
    assert [a, b, u][..2] == [a, b];
    assert [a, b][..1] == [a];
    assert [a, u][..1] == [a];
    assert Switches([a, b]) == 1 && Switches([a, u]) == 0;
  }

  datatype Outcome = Outcome(considered: bool, applied: bool, skippedSmallBatch: bool, skippedLowReuse: bool,
                               switchesBefore: nat, switchesAfter: nat)

  const NotConsidered := Outcome(false, false, false, false, 0, 0)

  datatype Settings = Settings(orderingEnabled: bool, minActiveExperts: int, minReuse: int)

  predicate Sorts(settings: Settings, smallDecode: bool, active: nat, reuse: int, localHotCount: int) {
    !smallDecode && settings.orderingEnabled && active >= settings.minActiveExperts &&
    (reuse >= settings.minReuse || localHotCount > 0)
  }

  // What the plan reports about the ordering that led from `work` to `final`.
  ghost predicate OutcomeAgrees(o: Outcome, work: seq<Work>, final: seq<Work>, settings: Settings, smallDecode: bool,
                                reuse: int, localHotCount: int) {
    && (o.considered <==> !smallDecode && settings.orderingEnabled)
    && (o.skippedSmallBatch <==> o.considered && |work| < settings.minActiveExperts)
    && (o.skippedLowReuse <==>
          o.considered && !o.skippedSmallBatch && reuse < settings.minReuse && localHotCount <= 0)
    && (if Sorts(settings, smallDecode, |work|, reuse, localHotCount)
        then o.switchesBefore == Switches(work) && o.switchesAfter == Switches(final)
        else o.switchesBefore == o.switchesAfter == 0 && !o.applied)
  }

  /** ApplyMoELocalityOrdering. */
  method ApplyLocalityOrdering(work: seq<Work>, previousBatch: set<int>, settings: Settings, smallDecode: bool,
                               reuse: int, localHotCount: int) returns (ordered: seq<Work>, outcome: Outcome)
    ensures multiset(ordered) == multiset(work)
    ensures OutcomeAgrees(outcome, work, ordered, settings, smallDecode, reuse, localHotCount)
    ensures if Sorts(settings, smallDecode, |work|, reuse, localHotCount)
            then Sorted(ordered, LocalityOrder(previousBatch)) else ordered == work
    ensures (!smallDecode && settings.orderingEnabled && |work| >= settings.minActiveExperts &&
             (reuse >= settings.minReuse || localHotCount > 0)) ==>
              InLocalityOrder(ordered, previousBatch)
    ensures Sorts(settings, smallDecode, |work|, reuse, localHotCount) ==>
      && Switches(ordered) == (if VerifiedNodes(work) == {} then 0 else |VerifiedNodes(work)| - 1)
      && (outcome.applied <==> |VerifiedNodes(work)| <= Switches(work) + 1)
      && ((forall w | w in work :: w.node >= 0) ==> outcome.applied)
  {
    ordered, outcome := work, NotConsidered;
    if smallDecode || !settings.orderingEnabled { return; }
    outcome := outcome.(considered := true);
    if |work| < settings.minActiveExperts { outcome := outcome.(skippedSmallBatch := true); return; }
    if !(reuse >= settings.minReuse || localHotCount > 0) { outcome := outcome.(skippedLowReuse := true); return; }
    var before := CountSwitches(work);
    LocalityOrderIsTotal(previousBatch);
    ordered := Sort(work, LocalityOrder(previousBatch));
    var after := CountSwitches(ordered);
    outcome := outcome.(switchesBefore := before, switchesAfter := after, applied := after <= before);
    LocalityGroups(ordered, previousBatch);
    GroupedSwitches(ordered);
    SameNodes(ordered, work);
    forall i, j | 0 <= i < j < |ordered| ensures MayPrecede(ordered[i], ordered[j], previousBatch) {
      LocalityOrderMeans(ordered[i], ordered[j], previousBatch);
    }
    if forall w | w in work :: w.node >= 0 { LocalityIsOptimal(ordered, work, previousBatch); }
  }

  /* ---- Balancing ---- */

  function ItemCost(w: Work): int { if w.count > 1 then w.count else 1 }

  function Cost(bucket: seq<Work>): int {
    if bucket == [] then 0 else Cost(bucket[..|bucket| - 1]) + ItemCost(bucket[|bucket| - 1])
  }

  function Flatten(buckets: seq<seq<Work>>): seq<Work> {
    if buckets == [] then [] else Flatten(buckets[..|buckets| - 1]) + buckets[|buckets| - 1]
  }

  // A bucket costs the rows of its items, an item without rows counting as one.
  lemma {:induction false} CostIsRows(bucket: seq<Work>, rows: seq<nat>)
    requires |rows| == |bucket|
    requires forall i | 0 <= i < |bucket| :: rows[i] >= 1 && rows[i] >= bucket[i].count &&
               (rows[i] == 1 || rows[i] == bucket[i].count)
    ensures Cost(bucket) == Sum(rows)
  {
    if bucket != [] { CostIsRows(bucket[..|bucket| - 1], rows[..|rows| - 1]); }
  }

  lemma CostAppend(bucket: seq<Work>, w: Work)
    ensures Cost(bucket + [w]) == Cost(bucket) + ItemCost(w)
  {
    assert (bucket + [w])[..|bucket|] == bucket;
  }

  lemma PutInFront(front: seq<Work>, more: seq<Work>, last: seq<Work>, w: Work)
    requires multiset(more) == multiset(front) + multiset{w} && |more| == |front| + 1
    ensures multiset(more + last) == multiset(front + last) + multiset{w} && |more + last| == |front + last| + 1
  {}

  lemma PutAtEnd(front: seq<Work>, last: seq<Work>, w: Work)
    ensures multiset(front + (last + [w])) == multiset(front + last) + multiset{w}
  {}

  lemma {:induction false} FlattenPut(buckets: seq<seq<Work>>, b: nat, w: Work)
    requires b < |buckets|
    ensures multiset(Flatten(buckets[b := buckets[b] + [w]])) == multiset(Flatten(buckets)) + multiset{w}
    ensures |Flatten(buckets[b := buckets[b] + [w]])| == |Flatten(buckets)| + 1
  {
    var n := |buckets| - 1;
    var front, put := buckets[..n], buckets[b := buckets[b] + [w]];
    if b < n {
      var more := front[b := front[b] + [w]];
      FlattenPut(front, b, w);
      assert put[..n] == more && put[n] == buckets[n];
      PutInFront(Flatten(front), Flatten(more), buckets[n], w);
    } else {
      assert put[..n] == front;
      PutAtEnd(Flatten(front), buckets[n], w);
    }
  }

  lemma {:induction false} FlattenEmpty(buckets: seq<seq<Work>>)
    requires forall b | 0 <= b < |buckets| :: buckets[b] == []
    ensures Flatten(buckets) == []
  {
    if buckets != [] { FlattenEmpty(buckets[..|buckets| - 1]); }
  }

  // Buckets of at most `cap` items hold at most `cap` each, and exactly that only when all are full.
  lemma {:induction false} FlattenSize(buckets: seq<seq<Work>>, cap: nat)
    requires forall b | 0 <= b < |buckets| :: |buckets[b]| <= cap
    ensures |Flatten(buckets)| <= |buckets| * cap
    ensures |Flatten(buckets)| == |buckets| * cap <==> forall b | 0 <= b < |buckets| :: |buckets[b]| == cap
  {
    if buckets != [] {
      var n := |buckets| - 1;
      FlattenSize(buckets[..n], cap);
      assert |buckets| * cap == n * cap + cap;
    }
  }

  // When all buckets are full, bucket t is exactly what the t-th even share of the list gives a thread.
  lemma {:induction false} BucketIsShare(buckets: seq<seq<Work>>, cap: nat, t: nat)
    requires t < |buckets| && forall b | 0 <= b < |buckets| :: |buckets[b]| == cap
    ensures t * cap + cap <= |Flatten(buckets)| == |buckets| * cap
    ensures Flatten(buckets)[t * cap..t * cap + cap] == buckets[t]
  {
    var n := |buckets| - 1;
    var front := Flatten(buckets[..n]);
    FlattenSize(buckets, cap);
    FlattenSize(buckets[..n], cap);
    assert |buckets| * cap == n * cap + cap;
    if t < n {
      BucketIsShare(buckets[..n], cap, t);
      ShareOfFront(front, buckets[n], t * cap, t * cap + cap);
    }
  }

  // The list is the buckets one after the other, each of the given size.
  ghost predicate SharesAreBuckets(work: seq<Work>, buckets: seq<seq<Work>>, size: nat) {
    |work| == |buckets| * size && forall t: nat | t < |buckets| :: ShareIs(work, size, t, buckets[t])
  }

  predicate ShareIs(work: seq<Work>, size: nat, t: nat, bucket: seq<Work>) {
    var from := t * size;
    from + size <= |work| && work[from..from + size] == bucket
  }

  lemma EvenShares(buckets: seq<seq<Work>>, cap: nat)
    requires forall b | 0 <= b < |buckets| :: |buckets[b]| == cap
    ensures SharesAreBuckets(Flatten(buckets), buckets, cap)
  {
    FlattenSize(buckets, cap);
    forall t: nat | t < |buckets| ensures ShareIs(Flatten(buckets), cap, t, buckets[t]) {
      BucketIsShare(buckets, cap, t);
    }
  }

  lemma ShareOfFront(front: seq<Work>, last: seq<Work>, from: nat, to: nat)
    requires from <= to <= |front|
    ensures (front + last)[from..to] == front[from..to]
  {}

  function Last(bucket: seq<Work>): Work
    requires bucket != []
  {
    bucket[|bucket| - 1]
  }

  // Bucket `a` exceeds bucket `b` by no more than the last item of `a`, when `b` filled later
  // or never did.
  predicate Bounded(buckets: seq<seq<Work>>, filled: seq<int>, never: int, a: nat, b: nat) {
    a < |buckets| == |filled| && b < |buckets| && buckets[a] != [] && (filled[a] < filled[b] || filled[b] == never) ==>
      Cost(buckets[a]) - ItemCost(Last(buckets[a])) <= Cost(buckets[b])
  }

  predicate FullWhenFilled(buckets: seq<seq<Work>>, filled: seq<int>, never: int, cap: nat, b: nat) {
    b < |buckets| == |filled| ==> |buckets[b]| <= cap && (|buckets[b]| == cap <==> filled[b] < never)
  }

  // No item of bucket `b` is smaller than `w`.
  predicate NoneBelow(buckets: seq<seq<Work>>, b: nat, w: Work) {
    b < |buckets| ==> forall k | 0 <= k < |buckets[b]| :: buckets[b][k].count >= w.count
  }

  /** How the greedy rule balances: `filled[b]` is the step at which bucket `b` became full, or
      `never`. A bucket exceeds one that filled later, or never did, by no more than its own
      last item, and that item is its smallest. */
  ghost predicate Balanced(buckets: seq<seq<Work>>, filled: seq<int>, never: int, cap: nat) {
    && |filled| == |buckets|
    && (forall b: nat :: FullWhenFilled(buckets, filled, never, cap, b))
    && (forall a: nat, b: nat :: Bounded(buckets, filled, never, a, b))
    && (forall b: nat | b < |buckets| && buckets[b] != [] :: NoneBelow(buckets, b, Last(buckets[b])))
  }

  function ByCost(): (Work, Work) -> bool {
    (a: Work, b: Work) => a.count > b.count || (a.count == b.count && a.expert <= b.expert)
  }

  lemma PutKeepsBalanced(buckets: seq<seq<Work>>, filled: seq<int>, step: int, never: int, cap: nat, best: nat, w: Work)
    requires Balanced(buckets, filled, never, cap) && best < |buckets| && |buckets[best]| < cap
    requires forall b | 0 <= b < |buckets| :: filled[b] < step || filled[b] == never
    requires step < never
    requires forall b | 0 <= b < |buckets| && |buckets[b]| < cap :: Cost(buckets[best]) <= Cost(buckets[b])
    requires NoneBelow(buckets, best, w)
    ensures Balanced(buckets[best := buckets[best] + [w]],
                     if |buckets[best]| + 1 == cap then filled[best := step] else filled, never, cap)
  {
    var put := buckets[best := buckets[best] + [w]];
    var filled' := if |buckets[best]| + 1 == cap then filled[best := step] else filled;
    CostAppend(buckets[best], w);
    assert FullWhenFilled(buckets, filled, never, cap, best);
    forall b: nat ensures FullWhenFilled(put, filled', never, cap, b) {
      assert FullWhenFilled(buckets, filled, never, cap, b);
    }
    forall a: nat, b: nat ensures Bounded(put, filled', never, a, b) {
      assert Bounded(buckets, filled, never, a, b) && FullWhenFilled(buckets, filled, never, cap, b);
    }
    forall b: nat | b < |put| && put[b] != [] ensures NoneBelow(put, b, Last(put[b])) {
      if b != best { assert NoneBelow(buckets, b, Last(buckets[b])); }
    }
  }

  // The cheapest bucket that is not full, or -1 when all are.
  method CheapestOpen(buckets: seq<seq<Work>>, costs: seq<int>, cap: nat) returns (best: int)
    requires |costs| == |buckets|
    ensures -1 <= best < |buckets|
    ensures best >= 0 ==> |buckets[best]| < cap
    ensures best >= 0 ==> forall b | 0 <= b < |buckets| && |buckets[b]| < cap :: costs[best] <= costs[b]
    ensures best < 0 ==> forall b | 0 <= b < |buckets| :: |buckets[b]| >= cap
  {
    best := -1;
    for bucket := 0 to |buckets|
      invariant -1 <= best < bucket
      invariant best >= 0 ==> |buckets[best]| < cap
      invariant best >= 0 ==> forall b | 0 <= b < bucket && |buckets[b]| < cap :: costs[best] <= costs[b]
      invariant best < 0 ==> forall b | 0 <= b < bucket :: |buckets[b]| >= cap
    {
      if |buckets[bucket]| < cap && (best < 0 || costs[bucket] < costs[best]) { best := bucket; }
    }
  }

  function ItemsPerThread(items: nat, threads: nat): nat
    requires threads > 0
  {
    (items + threads - 1) / threads
  }

  lemma EnoughRoom(items: nat, threads: nat)
    requires threads > 0
    ensures items <= threads * ItemsPerThread(items, threads)
    ensures items % threads == 0 ==> items == threads * ItemsPerThread(items, threads)
    ensures items % threads == 0 ==> ItemsPerThread(items, threads) == items / threads
    ensures threads * ItemsPerThread(items, threads) < items + threads
  {
    var cap := ItemsPerThread(items, threads);
    assert items + threads - 1 == threads * cap + (items + threads - 1) % threads;
    if items % threads == 0 {
      var q := items / threads;
      assert items == threads * q;
      assert (items + threads - 1) / threads == q by { DivUnique(items + threads - 1, threads, q, threads - 1); }
    }
  }

  // The state of the greedy loop after placing the first `i` items.
  ghost predicate Filling(parts: seq<seq<Work>>, costs: seq<int>, filled: seq<int>, byCost: seq<Work>, i: nat,
                          cap: nat) {
    && i <= |byCost| && |costs| == |parts|
    && (forall b | 0 <= b < |parts| :: costs[b] == Cost(parts[b]))
    && multiset(Flatten(parts)) == multiset(byCost[..i]) && |Flatten(parts)| == i
    && Balanced(parts, filled, |byCost|, cap)
    && (forall b | 0 <= b < |parts| :: filled[b] < i || filled[b] == |byCost|)
    && NoneSmaller(parts, byCost[i..])
  }

  // No placed item is smaller than one still to come.
  ghost predicate NoneSmaller(parts: seq<seq<Work>>, rest: seq<Work>) {
    forall b: nat, w | w in rest :: NoneBelow(parts, b, w)
  }

  lemma NoneSmallerStep(parts: seq<seq<Work>>, byCost: seq<Work>, i: nat, best: nat)
    requires i < |byCost| && Sorted(byCost, ByCost()) && best < |parts| && NoneSmaller(parts, byCost[i..])
    ensures NoneSmaller(parts[best := parts[best] + [byCost[i]]], byCost[i + 1..])
    ensures NoneBelow(parts, best, byCost[i])
  {
    assert byCost[i..][0] == byCost[i] && byCost[i] in byCost[i..];
    var put := parts[best := parts[best] + [byCost[i]]];
    forall b: nat, w | w in byCost[i + 1..] ensures NoneBelow(put, b, w) {
      var k :| 0 <= k < |byCost[i + 1..]| && byCost[i + 1..][k] == w;
      assert byCost[i..][k + 1] == w;
      assert ByCost()(byCost[i], byCost[i + 1 + k]);
      assert NoneBelow(parts, b, w);
    }
  }

  // The greedy step on the contents and costs of the buckets.
  lemma FillContents(parts: seq<seq<Work>>, costs: seq<int>, byCost: seq<Work>, i: nat, best: nat)
    requires i < |byCost| && |costs| == |parts| && best < |parts|
    requires forall b | 0 <= b < |parts| :: costs[b] == Cost(parts[b])
    requires multiset(Flatten(parts)) == multiset(byCost[..i]) && |Flatten(parts)| == i
    ensures var put, paid := parts[best := parts[best] + [byCost[i]]], costs[best := costs[best] + ItemCost(byCost[i])];
      && (forall b | 0 <= b < |put| :: paid[b] == Cost(put[b]))
      && multiset(Flatten(put)) == multiset(byCost[..i + 1]) && |Flatten(put)| == i + 1
  {
    FlattenPut(parts, best, byCost[i]);
    CostAppend(parts[best], byCost[i]);
    TakeNext(byCost, i);
  }

  lemma FillStep(parts: seq<seq<Work>>, costs: seq<int>, filled: seq<int>, byCost: seq<Work>, i: nat, cap: nat,
                 best: nat)
    requires Filling(parts, costs, filled, byCost, i, cap) && i < |byCost| && Sorted(byCost, ByCost())
    requires best < |parts| && |parts[best]| < cap
    requires forall b | 0 <= b < |parts| && |parts[b]| < cap :: costs[best] <= costs[b]
    ensures Filling(parts[best := parts[best] + [byCost[i]]], costs[best := costs[best] + ItemCost(byCost[i])],
                    if |parts[best]| + 1 == cap then filled[best := i] else filled, byCost, i + 1, cap)
  {
    NoneSmallerStep(parts, byCost, i, best);
    PutKeepsBalanced(parts, filled, i, |byCost|, cap, best, byCost[i]);
    FillContents(parts, costs, byCost, i, best);
  }

  lemma BalancedSizes(buckets: seq<seq<Work>>, filled: seq<int>, never: int, cap: nat)
    requires Balanced(buckets, filled, never, cap)
    ensures forall b | 0 <= b < |buckets| :: |buckets[b]| <= cap
    ensures |Flatten(buckets)| == |buckets| * cap <==> forall b | 0 <= b < |buckets| :: |buckets[b]| == cap
  {
    forall b | 0 <= b < |buckets| ensures |buckets[b]| <= cap { assert FullWhenFilled(buckets, filled, never, cap, b); }
    FlattenSize(buckets, cap);
  }

  lemma EmptyIsFilling(threads: nat, byCost: seq<Work>, cap: nat)
    requires cap > 0
    ensures Filling(seq(threads, _ => []), seq(threads, _ => 0), seq(threads, _ => |byCost|), byCost, 0, cap)
  {
    FlattenEmpty(seq(threads, _ => []));
    TakeEnds(byCost);
  }

  // The greedy loop: each item goes to the cheapest bucket that is not full. Since the buckets
  // together have room for every item, the fallback to the last bucket is never taken.
  method GreedyFill(byCost: seq<Work>, threads: nat, cap: nat) returns (parts: seq<seq<Work>>, ghost filled: seq<int>)
    requires Sorted(byCost, ByCost()) && cap > 0 && |byCost| <= threads * cap
    ensures |parts| == threads && Balanced(parts, filled, |byCost|, cap)
    ensures multiset(Flatten(parts)) == multiset(byCost) && |Flatten(parts)| == |byCost|
  {
    parts := seq(threads, _ => []);
    var costs := seq(threads, _ => 0);
    filled := seq(threads, _ => |byCost|);
    EmptyIsFilling(threads, byCost, cap);
    for i := 0 to |byCost|
      invariant |parts| == threads && Filling(parts, costs, filled, byCost, i, cap)
    {
      var best := CheapestOpen(parts, costs, cap);
      BalancedSizes(parts, filled, |byCost|, cap);
      if best < 0 { assert false; }
      FillStep(parts, costs, filled, byCost, i, cap, best);
      filled := if |parts[best]| + 1 == cap then filled[best := i] else filled;
      costs := costs[best := costs[best] + ItemCost(byCost[i])];
      parts := parts[best := parts[best] + [byCost[i]]];
    }
    TakeEnds(byCost);
  }

  /** BalanceMoEParallelExpertWork. The buckets are returned for the statement only. */
  method BalanceWork(work: seq<Work>, threads: int)
    returns (balanced: seq<Work>, ghost buckets: seq<seq<Work>>, ghost filled: seq<int>)
    ensures multiset(balanced) == multiset(work)
    ensures threads > 1 && |work| > 1 ==>
      && |buckets| == threads && balanced == Flatten(buckets)
      && Balanced(buckets, filled, |work|, ItemsPerThread(|work|, threads))
      && (|work| % threads == 0 ==> forall b | 0 <= b < threads :: |buckets[b]| == ItemsPerThread(|work|, threads))
      && (|work| % threads == 0 ==> SharesAreBuckets(balanced, buckets, |work| / threads))
    ensures threads <= 1 || |work| <= 1 ==> balanced == work
  {
    balanced, buckets, filled := work, [], [];
    if threads <= 1 || |work| <= 1 { return; }
    var cap := ItemsPerThread(|work|, threads);
    EnoughRoom(|work|, threads);
    var byCost := Sort(work, ByCost());
    var parts;
    parts, filled := GreedyFill(byCost, threads, cap);
    balanced, buckets := Flatten(parts), parts;
    BalancedSizes(parts, filled, |work|, cap);
    if |work| % threads == 0 { EvenShares(parts, cap); }
  }
}
