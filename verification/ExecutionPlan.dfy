/** The execution plan built for one batched expert pass: its items tile the packed rows through
    filtering, ordering and balancing, and its flags fix how the items may be run. */
module ExecutionPlan {
  import opened Ordering
  import opened ForwardPlan

  /* ---- Tiling of the packed rows ---- */

  // The offsets table of a reorder map: expert e owns rows [offsets[e], offsets[e + 1]).
  ghost predicate Offsets(offsets: seq<int>, total: int) {
    && |offsets| >= 1 && offsets[0] == 0 && offsets[|offsets| - 1] == total
    && forall i, j | 0 <= i <= j < |offsets| :: offsets[i] <= offsets[j]
  }

  predicate Covers(w: Work, row: int) { w.start <= row < w.start + w.count }

  ghost predicate Covered(work: seq<Work>, row: int) { exists w | w in work :: Covers(w, row) }

  predicate OwnsItsRows(w: Work, offsets: seq<int>) {
    && 0 <= w.expert < |offsets| - 1 && w.count > 0
    && w.start == offsets[w.expert] && w.start + w.count == offsets[w.expert + 1]
  }

  // The work items are non-empty slices, each the rows of its own expert, that together cover
  // the rows [0, total).
  ghost predicate Tiles(work: seq<Work>, offsets: seq<int>, total: int) {
    && (forall w | w in work :: OwnsItsRows(w, offsets))
    && (forall i, j | 0 <= i < j < |work| :: work[i].expert != work[j].expert)
    && (forall row | 0 <= row < total :: Covered(work, row))
  }

  lemma NextOwnerStarts(offsets: seq<int>, total: int, e: nat, later: nat)
    requires Offsets(offsets, total) && e < |offsets| - 1 && later < |offsets| - 1
    ensures 0 <= offsets[e] <= offsets[e + 1] <= total
    ensures e < later ==> offsets[e + 1] <= offsets[later]
  {}

  // Two different items never share a row, and no item leaves the packed rows.
  lemma TilesAreDisjoint(work: seq<Work>, offsets: seq<int>, total: int, i: nat, j: nat, row: int)
    requires Offsets(offsets, total) && Tiles(work, offsets, total)
    requires i < |work| && j < |work| && Covers(work[i], row) && Covers(work[j], row)
    ensures i == j && 0 <= row < total
  {
    var a, b := work[i], work[j];
    assert a in work && b in work;
    assert OwnsItsRows(a, offsets) && OwnsItsRows(b, offsets);
    NextOwnerStarts(offsets, total, a.expert, b.expert);
    NextOwnerStarts(offsets, total, b.expert, a.expert);
  }

  lemma PermutedTiles(work: seq<Work>, permuted: seq<Work>, offsets: seq<int>, total: int)
    requires Tiles(work, offsets, total) && multiset(permuted) == multiset(work)
    ensures Tiles(permuted, offsets, total)
  {
    SameElements(permuted, work);
    forall i, j | 0 <= i < j < |work| ensures work[i] != work[j] { assert work[i].expert != work[j].expert; }
    DistinctPermutation(permuted, work);
    assert forall x, y | x in work && y in work && x.expert == y.expert :: x == y;
    forall i, j | 0 <= i < j < |permuted| ensures permuted[i].expert != permuted[j].expert {
      assert permuted[i] in work && permuted[j] in work;
    }
    forall row | 0 <= row < total ensures Covered(permuted, row) {
      assert Covered(work, row);
      var w :| w in work && Covers(w, row);
      assert w in permuted;
    }
  }

  /* ---- Active work ---- */

  // What the profiler reports of an expert; without a profiler, node -1 and load 0.
  datatype Profile = Profile(nodeOf: int -> int, loadOf: int -> real)

  function Item(offsets: seq<int>, e: nat, localHot: set<int>, profile: Profile): Work
    requires e + 1 < |offsets|
  {
    Work(e, offsets[e], offsets[e + 1] - offsets[e], profile.nodeOf(e), profile.loadOf(e), e in localHot)
  }

  // The items of the experts below `n` that have rows, in expert order.
  function ActiveItems(offsets: seq<int>, n: nat, localHot: set<int>, profile: Profile): seq<Work>
    requires n < |offsets|
  {
    if n == 0 then []
    else
      var earlier := ActiveItems(offsets, n - 1, localHot, profile);
      if offsets[n] <= offsets[n - 1] then earlier else earlier + [Item(offsets, n - 1, localHot, profile)]
  }

  lemma {:induction false} ActiveMembers(offsets: seq<int>, n: nat, localHot: set<int>, profile: Profile)
    requires n < |offsets|
    ensures forall w | w in ActiveItems(offsets, n, localHot, profile) :: OwnsItsRows(w, offsets) && w.expert < n
    ensures forall e | 0 <= e < n && offsets[e] < offsets[e + 1] ::
      Item(offsets, e, localHot, profile) in ActiveItems(offsets, n, localHot, profile)
  {
    if n > 0 { ActiveMembers(offsets, n - 1, localHot, profile); }
  }

  lemma {:induction false} ActiveInOrder(offsets: seq<int>, n: nat, localHot: set<int>, profile: Profile)
    requires n < |offsets|
    ensures forall i, j | 0 <= i < j < |ActiveItems(offsets, n, localHot, profile)| ::
      ActiveItems(offsets, n, localHot, profile)[i].expert < ActiveItems(offsets, n, localHot, profile)[j].expert
  {
    if n > 0 {
      ActiveInOrder(offsets, n - 1, localHot, profile);
      ActiveMembers(offsets, n - 1, localHot, profile);
      var earlier := ActiveItems(offsets, n - 1, localHot, profile);
      forall i | 0 <= i < |earlier| ensures earlier[i].expert < n - 1 { assert earlier[i] in earlier; }
    }
  }

  // The expert that owns a row: some offset step crosses it.
  lemma OwnerOf(offsets: seq<int>, total: int, row: int) returns (e: nat)
    requires Offsets(offsets, total) && 0 <= row < total
    ensures e < |offsets| - 1 && offsets[e] <= row < offsets[e + 1]
  {
    e := 0;
    while offsets[e + 1] <= row
      invariant e < |offsets| - 1 && offsets[e] <= row
      decreases |offsets| - e
    {
      e := e + 1;
    }
  }

  // Dropping the experts without rows loses no row.
  lemma ActiveTiles(offsets: seq<int>, total: int, localHot: set<int>, profile: Profile)
    requires Offsets(offsets, total)
    ensures Tiles(ActiveItems(offsets, |offsets| - 1, localHot, profile), offsets, total)
  {
    var n := |offsets| - 1;
    var work := ActiveItems(offsets, n, localHot, profile);
    ActiveMembers(offsets, n, localHot, profile);
    ActiveInOrder(offsets, n, localHot, profile);
    forall row | 0 <= row < total ensures Covered(work, row) {
      var e := OwnerOf(offsets, total, row);
      assert Item(offsets, e, localHot, profile) in work && Covers(Item(offsets, e, localHot, profile), row);
    }
  }

  function Experts(work: seq<Work>): seq<int> { seq(|work|, i requires 0 <= i < |work| => work[i].expert) }

  function LocalHotCount(work: seq<Work>): nat {
    if work == [] then 0 else LocalHotCount(work[..|work| - 1]) + (if work[|work| - 1].localHot then 1 else 0)
  }

  method ActiveWork(offsets: seq<int>, localHot: set<int>, profile: Profile)
    returns (work: seq<Work>, batchExperts: seq<int>, localHotCount: nat)
    requires |offsets| >= 1
    ensures work == ActiveItems(offsets, |offsets| - 1, localHot, profile)
    ensures batchExperts == Experts(work) && localHotCount == LocalHotCount(work)
  {
    work, batchExperts, localHotCount := [], [], 0;
    for e := 0 to |offsets| - 1
      invariant work == ActiveItems(offsets, e, localHot, profile)
      invariant batchExperts == Experts(work) && localHotCount == LocalHotCount(work)
    {
      var count := offsets[e + 1] - offsets[e];
      if count > 0 {
        var w := Work(e, offsets[e], count, profile.nodeOf(e), profile.loadOf(e), e in localHot);
        assert (work + [w])[..|work|] == work;
        localHotCount := localHotCount + (if w.localHot then 1 else 0);
        work, batchExperts := work + [w], batchExperts + [e];
      }
    }
  }

  /* ---- Reuse of the previous batch ---- */

  method CountReuse(current: seq<int>, previous: set<int>) returns (shared: nat)
    requires Distinct(current)
    ensures shared == |Elements(current) * previous|
  {
    shared := 0;
    assert Elements(current[..0]) * previous == {};
    for i := 0 to |current|
      invariant shared == |Elements(current[..i]) * previous|
    {
      SharedNext(current, i, previous);
      if current[i] in previous { shared := shared + 1; }
    }
    TakeEnds(current);
  }

  lemma UnionSize<T>(a: set<T>, b: set<T>)
    ensures |a| + |b| == |a + b| + |a * b|
  {
    assert a + b == (a - b) + b && a == (a - b) + a * b;
  }

  // A list with a repeated id is longer than its set of ids.
  lemma {:induction false} DistinctIffFull(s: seq<int>)
    ensures |Elements(s)| <= |s|
    ensures |Elements(s)| == |s| <==> Distinct(s)
  {
    if s != [] {
      var front, last := s[..|s| - 1], s[|s| - 1];
      DistinctIffFull(front);
      assert s == front + [last];
      ElementsAppend(front, last);
      assert Distinct(s) <==> Distinct(front) && last !in front;
    }
  }

  // current.size() + previous.size() - intersection is the size of the union exactly when the
  // previous batch lists no expert twice.
  lemma ReuseUnionIsUnion(current: seq<int>, previous: seq<int>)
    requires Distinct(current)
    ensures var shared, union := Elements(current) * Elements(previous), Elements(current) + Elements(previous);
      && |current| + |previous| - |shared| >= |union|
      && (|current| + |previous| - |shared| == |union| <==> Distinct(previous))
  {
    DistinctIffFull(current);
    DistinctIffFull(previous);
    UnionSize(Elements(current), Elements(previous));
  }

  method ReuseOf(offsets: seq<int>, localHot: set<int>, profile: Profile, current: seq<int>, previous: seq<int>)
    returns (shared: nat)
    requires |offsets| >= 1 && current == Experts(ActiveItems(offsets, |offsets| - 1, localHot, profile))
    ensures shared == |Elements(current) * Elements(previous)|
    ensures |current| + |previous| - shared >= |Elements(current) + Elements(previous)|
    ensures |current| + |previous| - shared == |Elements(current) + Elements(previous)| <==> Distinct(previous)
  {
    ActiveInOrder(offsets, |offsets| - 1, localHot, profile);
    shared := CountReuse(current, Elements(previous));
    ReuseUnionIsUnion(current, previous);
  }

  /* ---- The plan ---- */

  datatype Plan = Plan(work: seq<Work>, batchExperts: seq<int>, workers: int, reuseIntersection: nat, reuseUnion: int,
                       localHotCount: nat, smallDecode: bool, preferInner: bool, parallelize: bool, ordering: Outcome)

  datatype Batch = Batch(size: int, assignments: int, maxExpertBatch: int)

  function Max(a: int, b: int): int { if a >= b then a else b }

  method NodesOf(work: seq<Work>) returns (nodes: set<int>)
    ensures nodes == VerifiedNodes(work)
  {
    nodes := {};
    for i := 0 to |work|
      invariant nodes == VerifiedNodes(work[..i])
    {
      assert work[..i + 1][..i] == work[..i];
      if work[i].node >= 0 { nodes := nodes + {work[i].node}; }
    }
    TakeEnds(work);
  }

  // Which of the two parallel forms runs: the inner one when there are too few experts to occupy the
  // workers or the experts sit on several nodes; the outer one only on at most one known node.
  method ChooseParallelism(work: seq<Work>, batch: Batch, small: bool, workers: int, registryPresent: bool)
    returns (preferInner: bool, parallelize: bool)
    ensures preferInner <==> (!small && batch.size > 1 && |work| < workers) || |VerifiedNodes(work)| > 1
    ensures parallelize <==>
      registryPresent && !small && batch.size > 1 && |work| >= 4 && |work| >= workers && |VerifiedNodes(work)| <= 1
    ensures !(preferInner && parallelize)
  {
    preferInner := !small && batch.size > 1 && |work| < workers;
    parallelize := !preferInner && !small && batch.size > 1 && |work| >= Max(4, workers / 2) && registryPresent;
    var nodes := NodesOf(work);
    if |nodes| > 1 { preferInner, parallelize := true, false; }
  }

  ghost predicate IsBalanced(work: seq<Work>, threads: nat, buckets: seq<seq<Work>>, filled: seq<int>)
    requires threads > 0
  {
    && |buckets| == threads && work == Flatten(buckets)
    && Balanced(buckets, filled, |work|, ItemsPerThread(|work|, threads))
  }

  // Balancing happens only for experts of at most one known node, so it adds no switch.
  method Arrange(ordered: seq<Work>, parallelize: bool, workers: int)
    returns (final: seq<Work>, ghost buckets: seq<seq<Work>>, ghost filled: seq<int>)
    requires parallelize ==> |VerifiedNodes(ordered)| <= 1 && |ordered| >= workers
    ensures multiset(final) == multiset(ordered) && |final| == |ordered|
    ensures VerifiedNodes(final) == VerifiedNodes(ordered) && Switches(final) == Switches(ordered)
    ensures parallelize ==> Switches(final) == 0
    ensures parallelize && workers > 1 ==> IsBalanced(final, workers, buckets, filled)
  {
    final, buckets, filled := ordered, [], [];
    SwitchNeedsTwoNodes(ordered);
    if parallelize && |ordered| > 1 {
      final, buckets, filled := BalanceWork(ordered, Max(1, if workers < |ordered| then workers else |ordered|));
      SameElements(final, ordered);
      SameNodes(final, ordered);
      SwitchNeedsTwoNodes(final);
    }
  }

  ghost predicate FlagsAgree(plan: Plan, batch: Batch, registryPresent: bool) {
    var active := |plan.work|;
    && (plan.smallDecode <==> batch.size <= 4 && batch.assignments <= 8 && batch.maxExpertBatch <= 1)
    && (plan.preferInner <==>
          (!plan.smallDecode && batch.size > 1 && active < plan.workers) || |VerifiedNodes(plan.work)| > 1)
    && (plan.parallelize <==>
          registryPresent && !plan.smallDecode && batch.size > 1 && active >= 4 && active >= plan.workers &&
          |VerifiedNodes(plan.work)| <= 1)
    && !(plan.preferInner && plan.parallelize)
  }

  // An ordered plan crosses nodes as rarely as its verified nodes allow, balanced or not.
  ghost predicate SwitchesAgree(plan: Plan, settings: Settings) {
    var nodes := VerifiedNodes(plan.work);
    && (plan.parallelize ==> Switches(plan.work) == 0)
    && (Sorts(settings, plan.smallDecode, |plan.work|, plan.reuseIntersection, plan.localHotCount) ==>
          plan.ordering.switchesAfter == Switches(plan.work) == if nodes == {} then 0 else |nodes| - 1)
  }

  ghost predicate ReuseAgrees(plan: Plan, previousBatch: seq<int>) {
    var current, previous := Elements(plan.batchExperts), Elements(previousBatch);
    && plan.reuseIntersection == |current * previous|
    && plan.reuseUnion >= |current + previous|
    && (plan.reuseUnion == |current + previous| <==> Distinct(previousBatch))
  }

  // One item per expert with rows: its own rows, and what the profiler and the local set say of it.
  ghost predicate ItemsAreExperts(work: seq<Work>, offsets: seq<int>, localHot: set<int>, profile: Profile) {
    && (forall w | w in work ::
          && 0 <= w.expert < |offsets| - 1 && w.start == offsets[w.expert]
          && w.count == offsets[w.expert + 1] - offsets[w.expert] > 0
          && w.node == profile.nodeOf(w.expert) && w.load == profile.loadOf(w.expert)
          && (w.localHot <==> w.expert in localHot))
    && (forall e: nat | HasRows(offsets, e) :: exists w :: w in work && w.expert == e)
  }

  predicate HasRows(offsets: seq<int>, e: nat) { e + 1 < |offsets| && offsets[e] < offsets[e + 1] }

  // The experts with rows, in order, and how many of them are local.
  ghost predicate ListsActive(experts: seq<int>, localHotCount: nat, offsets: seq<int>, localHot: set<int>) {
    && (forall i, j | 0 <= i < j < |experts| :: experts[i] < experts[j])
    && (forall e :: e in experts <==> e >= 0 && HasRows(offsets, e))
    && localHotCount == |Elements(experts) * localHot|
  }

  lemma {:induction false} ActiveAreExperts(offsets: seq<int>, n: nat, localHot: set<int>, profile: Profile, w: Work)
    requires n < |offsets| && w in ActiveItems(offsets, n, localHot, profile)
    ensures 0 <= w.expert < n && w == Item(offsets, w.expert, localHot, profile) && w.count > 0
  {
    if w in ActiveItems(offsets, n - 1, localHot, profile) {
      ActiveAreExperts(offsets, n - 1, localHot, profile, w);
    }
  }

  lemma WorkIsExperts(offsets: seq<int>, localHot: set<int>, profile: Profile, final: seq<Work>)
    requires |offsets| >= 1 && multiset(final) == multiset(ActiveItems(offsets, |offsets| - 1, localHot, profile))
    ensures ItemsAreExperts(final, offsets, localHot, profile)
  {
    var active := ActiveItems(offsets, |offsets| - 1, localHot, profile);
    SameElements(final, active);
    forall w | w in final
      ensures 0 <= w.expert < |offsets| - 1 && w == Item(offsets, w.expert, localHot, profile) && w.count > 0
    {
      ActiveAreExperts(offsets, |offsets| - 1, localHot, profile, w);
    }
    ActiveMembers(offsets, |offsets| - 1, localHot, profile);
    forall e: nat | HasRows(offsets, e) ensures exists w :: w in final && w.expert == e {
      assert Item(offsets, e, localHot, profile) in final;
    }
  }

  lemma {:induction false} LocalHotCounted(offsets: seq<int>, n: nat, localHot: set<int>, profile: Profile)
    requires n < |offsets|
    ensures var active := ActiveItems(offsets, n, localHot, profile);
      LocalHotCount(active) == |Elements(Experts(active)) * localHot|
  {
    var active := ActiveItems(offsets, n, localHot, profile);
    if n == 0 {
      assert Elements(Experts(active)) * localHot == {};
    } else {
      var earlier := ActiveItems(offsets, n - 1, localHot, profile);
      LocalHotCounted(offsets, n - 1, localHot, profile);
      if active != earlier { OneMoreHot(offsets, n - 1, localHot, profile, earlier); }
    }
  }

  lemma OneMoreHot(offsets: seq<int>, e: nat, localHot: set<int>, profile: Profile, earlier: seq<Work>)
    requires e + 1 < |offsets| && earlier == ActiveItems(offsets, e, localHot, profile) && offsets[e] < offsets[e + 1]
    ensures var active := earlier + [Item(offsets, e, localHot, profile)];
      && |Elements(Experts(active)) * localHot| ==
           |Elements(Experts(earlier)) * localHot| + (if e in localHot then 1 else 0)
      && LocalHotCount(active) == LocalHotCount(earlier) + if e in localHot then 1 else 0
  {
    var active := earlier + [Item(offsets, e, localHot, profile)];
    assert active[..|earlier|] == earlier;
    ExpertsAscend(offsets, e + 1, localHot, profile);
    var ids := Experts(active);
    assert active == ActiveItems(offsets, e + 1, localHot, profile);
    SharedNext(ids, |earlier|, localHot);
    assert ids[..|earlier|] == Experts(earlier) && ids[..|earlier| + 1] == ids;
  }

  lemma ExpertsAscend(offsets: seq<int>, n: nat, localHot: set<int>, profile: Profile)
    requires n < |offsets|
    ensures var ids := Experts(ActiveItems(offsets, n, localHot, profile));
      Distinct(ids) && forall i, j | 0 <= i < j < |ids| :: ids[i] < ids[j]
  {
    ActiveInOrder(offsets, n, localHot, profile);
  }

  lemma ListedExperts(offsets: seq<int>, work: seq<Work>, localHot: set<int>, profile: Profile, e: int)
    requires ItemsAreExperts(work, offsets, localHot, profile)
    ensures e in Experts(work) <==> e >= 0 && HasRows(offsets, e)
  {
    if e in Experts(work) {
      var i :| 0 <= i < |work| && Experts(work)[i] == e;
      assert work[i] in work;
    }
    if e >= 0 && HasRows(offsets, e) {
      var w :| w in work && w.expert == e;
      var i :| 0 <= i < |work| && work[i] == w;
      assert Experts(work)[i] == e;
    }
  }

  lemma ActiveIsListed(offsets: seq<int>, localHot: set<int>, profile: Profile)
    requires |offsets| >= 1
    ensures var active := ActiveItems(offsets, |offsets| - 1, localHot, profile);
      ListsActive(Experts(active), LocalHotCount(active), offsets, localHot)
  {
    var n := |offsets| - 1;
    var active := ActiveItems(offsets, n, localHot, profile);
    ExpertsAscend(offsets, n, localHot, profile);
    LocalHotCounted(offsets, n, localHot, profile);
    WorkIsExperts(offsets, localHot, profile, active);
    forall e ensures e in Experts(active) <==> e >= 0 && HasRows(offsets, e) {
      ListedExperts(offsets, active, localHot, profile, e);
    }
  }

  /** BuildMoEForwardExecutionPlan, with the buckets of the balancing as a witness. */
  method BuildPlan(offsets: seq<int>, batch: Batch, workers: int, registryPresent: bool, localHot: set<int>,
                   previousBatch: seq<int>, profile: Profile, settings: Settings)
    returns (plan: Plan, ghost buckets: seq<seq<Work>>, ghost filled: seq<int>)
    requires |offsets| >= 1
    ensures multiset(plan.work) == multiset(ActiveItems(offsets, |offsets| - 1, localHot, profile))
    ensures plan.batchExperts == Experts(ActiveItems(offsets, |offsets| - 1, localHot, profile))
    ensures forall total | Offsets(offsets, total) :: Tiles(plan.work, offsets, total)
    ensures ItemsAreExperts(plan.work, offsets, localHot, profile)
    ensures ListsActive(plan.batchExperts, plan.localHotCount, offsets, localHot)
    ensures plan.workers == (if workers > 1 then workers else 1) && FlagsAgree(plan, batch, registryPresent)
    ensures SwitchesAgree(plan, settings) && ReuseAgrees(plan, previousBatch)
    ensures plan.localHotCount == LocalHotCount(ActiveItems(offsets, |offsets| - 1, localHot, profile))
    ensures OutcomeAgrees(plan.ordering, ActiveItems(offsets, |offsets| - 1, localHot, profile), plan.work, settings,
                          plan.smallDecode, plan.reuseIntersection, plan.localHotCount)
    ensures plan.parallelize && plan.workers > 1 ==> IsBalanced(plan.work, plan.workers, buckets, filled)
  {
    var active, batchExperts, localHotCount := ActiveWork(offsets, localHot, profile);
    var shared := ReuseOf(offsets, localHot, profile, batchExperts, previousBatch);
    var small := batch.size <= 4 && batch.assignments <= 8 && batch.maxExpertBatch <= 1;
    var previous := Elements(previousBatch);
    var ordered, outcome := ApplyLocalityOrdering(active, previous, settings, small, shared, localHotCount);
    SameElements(ordered, active);
    SameNodes(ordered, active);
    var threads := Max(1, workers);
    var preferInner, parallelize := ChooseParallelism(ordered, batch, small, threads, registryPresent);
    var final;
    final, buckets, filled := Arrange(ordered, parallelize, threads);
    PlanTiles(offsets, localHot, profile, final);
    WorkIsExperts(offsets, localHot, profile, final);
    ActiveIsListed(offsets, localHot, profile);
    plan := Plan(final, batchExperts, threads, shared, |batchExperts| + |previousBatch| - shared, localHotCount, small,
                 preferInner, parallelize, outcome);
  }

  lemma PlanTiles(offsets: seq<int>, localHot: set<int>, profile: Profile, final: seq<Work>)
    requires |offsets| >= 1 && multiset(final) == multiset(ActiveItems(offsets, |offsets| - 1, localHot, profile))
    ensures forall total | Offsets(offsets, total) :: Tiles(final, offsets, total)
  {
    forall total | Offsets(offsets, total) ensures Tiles(final, offsets, total) {
      ActiveTiles(offsets, total, localHot, profile);
      PermutedTiles(ActiveItems(offsets, |offsets| - 1, localHot, profile), final, offsets, total);
    }
  }
}
