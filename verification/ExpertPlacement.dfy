/** Transactional expert placement: page migration with per-page verification, the commit of a
    proposed local set, and the layer registry that registration and rebalancing update. */
module ExpertPlacement {
  import opened Arithmetic
  import opened Ordering
  import ES = ExpertSelection

  const MOVE_PAGES_BATCH_SIZE: nat := 4096

  // A weight tensor in memory; address 0 is the null pointer.
  datatype Buffer = Buffer(address: nat, size: nat)

  datatype Expert = Expert(w1: Buffer, w2: Buffer, w3: Buffer, nodeHint: int)

  // What the operating system answers for one buffer: the outcome of each move_pages batch,
  // whether a failed batch was refused for lack of permission, the status of each page, and
  // the node a residency query over the whole range reports.
  datatype Os = Os(batchOk: nat -> bool, denied: nat -> bool, status: nat -> int, rangeNode: int)

  predicate Present(b: Buffer) { b.address != 0 && b.size != 0 }

  // The number of whole pages inside the buffer.
  function WholePages(b: Buffer, pageSize: nat): nat
    requires pageSize > 0
  {
    var start := (b.address + pageSize - 1) / pageSize;
    var end := (b.address + b.size) / pageSize;
    if end > start then end - start else 0
  }

  // Every whole page of the buffer was moved and reported on the target node.
  ghost predicate Resident(b: Buffer, pageSize: nat, target: int, os: Os)
    requires pageSize > 0
  {
    Present(b) ==>
      && WholePages(b, pageSize) > 0
      && (forall page: nat | page < WholePages(b, pageSize) ::
            os.batchOk(page / MOVE_PAGES_BATCH_SIZE) && os.status(page) == target)
      && os.rangeNode == target
  }

  ghost predicate Verified(e: Expert, pageSize: nat, target: int, os: nat -> Os)
    requires pageSize > 0
  {
    && Resident(e.w1, pageSize, target, os(0)) && Resident(e.w2, pageSize, target, os(1))
    && Resident(e.w3, pageSize, target, os(2))
    && (Present(e.w1) || Present(e.w2) || Present(e.w3))
  }

  // Whether some batch of the buffer is refused for lack of permission.
  ghost predicate Refused(b: Buffer, pageSize: nat, os: Os)
    requires pageSize > 0
  {
    Present(b) && RefusedBelow(os, WholePages(b, pageSize))
  }

  ghost predicate RefusedBelow(os: Os, n: nat) { exists page: nat :: page < n && PageRefused(os, page) }

  predicate PageRefused(os: Os, page: nat) {
    !os.batchOk(page / MOVE_PAGES_BATCH_SIZE) && os.denied(page / MOVE_PAGES_BATCH_SIZE)
  }

  // Some buffer of the expert met a permission error.
  ghost predicate Denied(e: Expert, pageSize: nat, os: nat -> Os) {
    pageSize > 0 && (Refused(e.w1, pageSize, os(0)) || Refused(e.w2, pageSize, os(1)) || Refused(e.w3, pageSize, os(2)))
  }

  // The pages below n that were moved and reported on the target node.
  function OnTarget(os: Os, target: int, n: nat): nat {
    if n == 0 then 0
    else
      OnTarget(os, target, n - 1) +
      if os.batchOk((n - 1) / MOVE_PAGES_BATCH_SIZE) && os.status(n - 1) == target then 1 else 0
  }

  lemma {:induction false} AllOnTarget(os: Os, target: int, n: nat)
    ensures OnTarget(os, target, n) <= n
    ensures OnTarget(os, target, n) == n <==> forall page: nat | page < n ::
      os.batchOk(page / MOVE_PAGES_BATCH_SIZE) && os.status(page) == target
  {
    if n > 0 { AllOnTarget(os, target, n - 1); }
  }

  // The pages from `from` on belong to one batch.
  ghost predicate OneBatch(from: nat, size: nat, batch: nat) {
    forall page: nat | from <= page < from + size :: page / MOVE_PAGES_BATCH_SIZE == batch
  }

  lemma InBatch(batch: nat, from: nat, size: nat)
    requires from == batch * MOVE_PAGES_BATCH_SIZE && size <= MOVE_PAGES_BATCH_SIZE
    ensures OneBatch(from, size, batch)
  {}

  // A batch that failed moved nothing.
  lemma {:induction false} FailedBatch(os: Os, target: int, from: nat, size: nat, batch: nat)
    requires OneBatch(from, size, batch) && !os.batchOk(batch)
    ensures OnTarget(os, target, from + size) == OnTarget(os, target, from)
  {
    if size > 0 { FailedBatch(os, target, from, size - 1, batch); }
  }

  lemma BatchRefused(os: Os, from: nat, size: nat, batch: nat)
    requires OneBatch(from, size, batch) && size > 0
    ensures RefusedBelow(os, from + size) <==> RefusedBelow(os, from) || (!os.batchOk(batch) && os.denied(batch))
  {
    if !os.batchOk(batch) && os.denied(batch) { assert PageRefused(os, from); }
  }

  // The pages of a buffer, and of an expert's three, that end up on the target node.
  function BufferPages(b: Buffer, pageSize: nat, target: int, os: Os): nat
    requires pageSize > 0
  {
    if Present(b) then OnTarget(os, target, WholePages(b, pageSize)) else 0
  }

  function ExpertPages(e: Expert, pageSize: nat, target: int, os: nat -> Os): nat
    requires pageSize > 0
  {
    BufferPages(e.w1, pageSize, target, os(0)) + BufferPages(e.w2, pageSize, target, os(1)) +
    BufferPages(e.w3, pageSize, target, os(2))
  }

  /* ---- The pages of a buffer, in addresses ---- */

  // Page q of memory, the bytes from q * pageSize on, lies inside the buffer.
  predicate Inside(b: Buffer, pageSize: nat, q: nat) {
    q * pageSize >= b.address && q * pageSize + pageSize <= b.address + b.size
  }

  // Its place among the pages of the buffer, which are handed over 4096 at a time.
  function PlaceOf(b: Buffer, pageSize: nat, q: nat): int
    requires pageSize > 0
  {
    q - (b.address + pageSize - 1) / pageSize
  }

  // The k-th page was moved and reported on the target.
  predicate Lands(os: Os, target: int, k: int) { k >= 0 && os.batchOk(k / 4096) && os.status(k) == target }

  predicate Arrived(b: Buffer, pageSize: nat, target: int, os: Os, q: nat)
    requires pageSize > 0
  {
    Lands(os, target, PlaceOf(b, pageSize, q))
  }

  predicate TurnedAway(b: Buffer, pageSize: nat, os: Os, q: nat)
    requires pageSize > 0
  {
    var k := PlaceOf(b, pageSize, q);
    k >= 0 && !os.batchOk(k / 4096) && os.denied(k / 4096)
  }

  // The whole pages are exactly those inside the buffer, from its first on.
  lemma PagesAreInside(b: Buffer, pageSize: nat, q: nat)
    requires pageSize > 0
    ensures Inside(b, pageSize, q) <==> 0 <= PlaceOf(b, pageSize, q) < WholePages(b, pageSize)
  {
    var first, end := (b.address + pageSize - 1) / pageSize, (b.address + b.size) / pageSize;
    DivBounds(b.address + b.size, pageSize, q + 1);
    assert (q + 1) * pageSize == q * pageSize + pageSize;
    DivBounds(b.address + pageSize - 1, pageSize, q + 1);
  }

  // What the verdict, the count and the refusal say of the pages inside.
  ghost predicate SaysOfPages(b: Buffer, pageSize: nat, target: int, os: Os, onTarget: nat, verified: bool,
                              denied: bool)
    requires pageSize > 0
  {
    if b.address == 0 || b.size == 0 then verified && onTarget == 0 && !denied
    else
      && (verified <==>
            && (exists q: nat :: Inside(b, pageSize, q))
            && (forall q: nat | Inside(b, pageSize, q) :: Arrived(b, pageSize, target, os, q))
            && os.rangeNode == target)
      && onTarget == |ArrivedPages(b, pageSize, target, os)|
      && (denied <==> exists q: nat | Inside(b, pageSize, q) :: TurnedAway(b, pageSize, os, q))
  }

  lemma VerifiedPages(b: Buffer, pageSize: nat, target: int, os: Os)
    requires pageSize > 0 && Present(b)
    ensures Resident(b, pageSize, target, os) <==>
      && (exists q: nat :: Inside(b, pageSize, q))
      && (forall q: nat | Inside(b, pageSize, q) :: Arrived(b, pageSize, target, os, q))
      && os.rangeNode == target
  {
    var first := (b.address + pageSize - 1) / pageSize;
    PagesAreInside(b, pageSize, first);
    if WholePages(b, pageSize) == 0 {
      forall q: nat ensures !Inside(b, pageSize, q) { PagesAreInside(b, pageSize, q); }
    }
    if Resident(b, pageSize, target, os) {
      forall q: nat | Inside(b, pageSize, q) ensures Arrived(b, pageSize, target, os, q) {
        PagesAreInside(b, pageSize, q);
      }
    }
    if forall q: nat | Inside(b, pageSize, q) :: Arrived(b, pageSize, target, os, q) {
      forall page: nat | page < WholePages(b, pageSize)
        ensures os.batchOk(page / MOVE_PAGES_BATCH_SIZE) && os.status(page) == target
      {
        PagesAreInside(b, pageSize, first + page);
        assert Arrived(b, pageSize, target, os, first + page);
      }
    }
  }

  lemma RefusedPages(b: Buffer, pageSize: nat, os: Os)
    requires pageSize > 0 && Present(b)
    ensures Refused(b, pageSize, os) <==>
      exists q: nat | Inside(b, pageSize, q) :: TurnedAway(b, pageSize, os, q)
  {
    var first := (b.address + pageSize - 1) / pageSize;
    if page: nat :| page < WholePages(b, pageSize) && PageRefused(os, page) {
      PagesAreInside(b, pageSize, first + page);
      assert TurnedAway(b, pageSize, os, first + page);
    }
    if q: nat :| Inside(b, pageSize, q) && TurnedAway(b, pageSize, os, q) {
      PagesAreInside(b, pageSize, q);
      assert PageRefused(os, q - first);
    }
  }

  predicate LandsFrom(os: Os, target: int, first: nat, q: nat) { Lands(os, target, q - first) }

  function LandedFrom(os: Os, target: int, first: nat, n: nat): set<nat> {
    set q: nat | first <= q < first + n && LandsFrom(os, target, first, q)
  }

  lemma LandedNext(os: Os, target: int, first: nat, n: nat)
    ensures LandedFrom(os, target, first, 0) == {}
    ensures |LandedFrom(os, target, first, n + 1)| ==
      |LandedFrom(os, target, first, n)| + if Lands(os, target, n) then 1 else 0
  {
    var before, q := LandedFrom(os, target, first, n), first + n;
    assert LandsFrom(os, target, first, q) <==> Lands(os, target, n);
    assert LandedFrom(os, target, first, n + 1) == if LandsFrom(os, target, first, q) then before + {q} else before;
  }

  lemma {:induction false} CountLanded(os: Os, target: int, first: nat, n: nat)
    ensures OnTarget(os, target, n) == |LandedFrom(os, target, first, n)|
  {
    if n == 0 {
      LandedNext(os, target, first, 0);
    } else {
      CountLanded(os, target, first, n - 1);
      LandedNext(os, target, first, n - 1);
    }
  }

  function ArrivedPages(b: Buffer, pageSize: nat, target: int, os: Os): set<nat>
    requires pageSize > 0
  {
    set q: nat | q < b.address + b.size && Inside(b, pageSize, q) && Arrived(b, pageSize, target, os, q)
  }

  lemma CountArrived(b: Buffer, pageSize: nat, target: int, os: Os)
    requires pageSize > 0 && Present(b)
    ensures BufferPages(b, pageSize, target, os) == |ArrivedPages(b, pageSize, target, os)|
  {
    var first, n := (b.address + pageSize - 1) / pageSize, WholePages(b, pageSize);
    CountLanded(os, target, first, n);
    forall q: nat ensures q in ArrivedPages(b, pageSize, target, os) <==> q in LandedFrom(os, target, first, n) {
      PagesAreInside(b, pageSize, q);
      if Inside(b, pageSize, q) { PageBelow(q, pageSize, b.address + b.size); }
    }
    assert ArrivedPages(b, pageSize, target, os) == LandedFrom(os, target, first, n);
  }

  lemma SaidOfPages(b: Buffer, pageSize: nat, target: int, os: Os)
    requires pageSize > 0
    ensures SaysOfPages(b, pageSize, target, os, BufferPages(b, pageSize, target, os),
                        Resident(b, pageSize, target, os), Refused(b, pageSize, os))
  {
    if Present(b) {
      VerifiedPages(b, pageSize, target, os);
      RefusedPages(b, pageSize, os);
      CountArrived(b, pageSize, target, os);
    }
  }

  lemma PageBelow(q: nat, pageSize: nat, end: nat)
    requires pageSize > 0 && q * pageSize + pageSize <= end
    ensures q < end
  {
    MulMono(q, 1, pageSize);
  }

  method CountOnTarget(os: Os, from: nat, size: nat, batch: nat, target: int) returns (onTarget: nat)
    requires OneBatch(from, size, batch) && os.batchOk(batch)
    ensures onTarget <= size && OnTarget(os, target, from + size) == OnTarget(os, target, from) + onTarget
  {
    onTarget := 0;
    for i := 0 to size
      invariant onTarget <= i && OnTarget(os, target, from + i) == OnTarget(os, target, from) + onTarget
    {
      if os.status(from + i) == target { onTarget := onTarget + 1; }
    }
  }

  // The pages, batch by batch.
  method MovePages(pages: nat, target: int, os: Os) returns (onTarget: nat, verified: bool, denied: bool)
    ensures onTarget == OnTarget(os, target, pages) <= pages
    ensures verified <==> onTarget == pages
    ensures denied <==> RefusedBelow(os, pages)
  {
    onTarget, verified, denied := 0, true, false;
    var batch: nat := 0;
    ghost var done: nat := 0;
    while batch * MOVE_PAGES_BATCH_SIZE < pages
      invariant done == batch * MOVE_PAGES_BATCH_SIZE < pages || done == pages <= batch * MOVE_PAGES_BATCH_SIZE
      invariant onTarget == OnTarget(os, target, done) <= done
      invariant verified <==> onTarget == done
      invariant denied <==> RefusedBelow(os, done)
    {
      var from := batch * MOVE_PAGES_BATCH_SIZE;
      var size := if pages - from < MOVE_PAGES_BATCH_SIZE then pages - from else MOVE_PAGES_BATCH_SIZE;
      InBatch(batch, from, size);
      BatchRefused(os, from, size, batch);
      if os.batchOk(batch) {
        var moved := CountOnTarget(os, from, size, batch, target);
        onTarget := onTarget + moved;
        verified := verified && moved == size;
      } else {
        FailedBatch(os, target, from, size, batch);
        verified := false;
        if os.denied(batch) { denied := true; }
      }
      batch := batch + 1;
      done := from + size;
    }
  }

  method MigrateBuffer(b: Buffer, pageSize: nat, target: int, os: Os)
    returns (onTarget: nat, verified: bool, denied: bool)
    requires pageSize > 0
    ensures verified <==> Resident(b, pageSize, target, os)
    ensures onTarget == BufferPages(b, pageSize, target, os)
    ensures denied <==> Refused(b, pageSize, os)
    ensures SaysOfPages(b, pageSize, target, os, onTarget, verified, denied)
  {
    SaidOfPages(b, pageSize, target, os);
    if !Present(b) { return 0, true, false; }
    var pages := WholePages(b, pageSize);
    if pages == 0 { return 0, false, false; }
    onTarget, verified, denied := MovePages(pages, target, os);
    AllOnTarget(os, target, pages);
    verified := verified && onTarget == pages && os.rangeNode == target;
  }

  // A verified expert always has pages on the target.
  lemma VerifiedHasPages(e: Expert, pageSize: nat, target: int, os: nat -> Os)
    requires pageSize > 0 && Verified(e, pageSize, target, os)
    ensures ExpertPages(e, pageSize, target, os) > 0
  {
    AllOnTarget(os(0), target, WholePages(e.w1, pageSize));
    AllOnTarget(os(1), target, WholePages(e.w2, pageSize));
    AllOnTarget(os(2), target, WholePages(e.w3, pageSize));
  }

  method MigrateExpert(e: Expert, pageSize: nat, target: int, os: nat -> Os)
    returns (pages: nat, migrated: bool, denied: bool)
    requires pageSize > 0
    ensures pages == ExpertPages(e, pageSize, target, os)
    ensures migrated <==> Verified(e, pageSize, target, os)
    ensures denied <==> Denied(e, pageSize, os)
  {
    var p1, v1, d1 := MigrateBuffer(e.w1, pageSize, target, os(0));
    var p2, v2, d2 := MigrateBuffer(e.w2, pageSize, target, os(1));
    var p3, v3, d3 := MigrateBuffer(e.w3, pageSize, target, os(2));
    pages := p1 + p2 + p3;
    migrated := v1 && v2 && v3 && pages > 0;
    denied := d1 || d2 || d3;
    if Verified(e, pageSize, target, os) { VerifiedHasPages(e, pageSize, target, os); }
  }

  /* ---- Commit ---- */

  // `a` is listed before `b`.
  predicate Precedes(s: seq<int>, a: int, b: int) { exists p :: 0 <= p < |s| && s[p] == a && b !in s[..p + 1] }

  // A member of the proposal that is local already or was placed.
  predicate Stays(proposal: seq<int>, previous: seq<int>, placed: set<int>, id: int) {
    id in proposal && (id in previous || id in placed)
  }

  /** The committed list, given the proposal and the experts whose placement succeeded:
      every placed member of the proposal, in its order, then previous experts in theirs, never
      more than the proposal has, and fewer only when no eligible previous expert is left out. */
  ghost predicate IsCommit(committed: seq<int>, proposal: seq<int>, previous: seq<int>, placed: set<int>,
                           nExperts: int) {
    && Distinct(committed) && |committed| <= |proposal|
    && (forall id | id in proposal && (id in previous || id in placed) :: id in committed)
    && (forall id | id in committed ::
          (id in proposal && (id in previous || id in placed)) || id in ES.Eligible(previous, nExperts))
    && (|committed| < |proposal| ==> ES.Eligible(previous, nExperts) <= Elements(committed))
    && (forall i, j | 0 <= i < j < |previous| && 0 <= previous[i] < nExperts && previous[j] !in previous[..j] ::
          previous[j] in committed && previous[j] !in proposal ==> previous[i] in committed)
    && (forall i, j | 0 <= i < j < |committed| :: InCommitOrder(proposal, previous, placed, committed[i], committed[j]))
  }

  predicate InCommitOrder(proposal: seq<int>, previous: seq<int>, placed: set<int>, a: int, b: int) {
    && (Stays(proposal, previous, placed, b) ==> Stays(proposal, previous, placed, a) && Precedes(proposal, a, b))
    && (!Stays(proposal, previous, placed, a) ==> Precedes(previous, a, b))
  }

  lemma {:induction false} DistinctFit(kept: seq<int>, ids: seq<int>)
    requires Distinct(kept) && forall id | id in kept :: id in ids
    ensures |kept| <= |ids|
  {
    if kept != [] {
      var last := kept[|kept| - 1];
      assert last in kept;
      var k :| 0 <= k < |ids| && ids[k] == last;
      var rest := ids[..k] + ids[k + 1..];
      forall id | id in kept[..|kept| - 1] ensures id in rest {
        assert id in kept;
        var i :| 0 <= i < |ids| && ids[i] == id;
        assert i < k ==> rest[i] == id;
        assert i > k ==> rest[i - 1] == id;
      }
      DistinctFit(kept[..|kept| - 1], rest);
    }
  }

  // The placed members of the proposal, without repetition.
  method KeepPlaced(proposal: seq<int>, previous: seq<int>, placed: set<int>) returns (kept: seq<int>)
    ensures Distinct(kept) && |kept| <= |proposal|
    ensures forall id :: id in kept <==> id in proposal && (id in previous || id in placed)
    ensures forall i, j | 0 <= i < j < |kept| :: Precedes(proposal, kept[i], kept[j])
  {
    kept := [];
    for i := 0 to |proposal|
      invariant Distinct(kept)
      invariant forall a, b | 0 <= a < b < |kept| :: Precedes(proposal, kept[a], kept[b])
      invariant forall id :: id in kept <==> id in proposal[..i] && (id in previous || id in placed)
    {
      var id := proposal[i];
      assert proposal[..i + 1] == proposal[..i] + [id];
      if (id in previous || id in placed) && id !in kept {
        forall a | 0 <= a < |kept| ensures Precedes(proposal, kept[a], id) {
          var x := kept[a];
          assert x in kept;
          assert x in proposal[..i];
          var p :| 0 <= p < i && proposal[p] == x;
          assert id !in proposal[..p + 1];
        }
        kept := kept + [id];
      }
    }
    assert proposal[..|proposal|] == proposal;
    DistinctFit(kept, proposal);
  }

  // The next previous expert that fills the list comes after those that have.
  lemma FillsInOrder(committed: seq<int>, previous: seq<int>, n: nat, k: nat, nExperts: int)
    requires k < |previous| && n <= |committed| && 0 <= previous[k] < nExperts && previous[k] !in committed
    requires forall i | 0 <= i < k && 0 <= previous[i] < nExperts :: previous[i] in committed
    requires forall i | n <= i < |committed| :: committed[i] in previous[..k]
    ensures forall i | n <= i < |committed| :: Precedes(previous, committed[i], previous[k])
  {
    forall i | n <= i < |committed| ensures Precedes(previous, committed[i], previous[k]) {
      var p :| 0 <= p < k && previous[p] == committed[i];
      forall q | 0 <= q <= p ensures previous[q] != previous[k] {}
    }
  }

  lemma CommittedInOrder(committed: seq<int>, kept: seq<int>, proposal: seq<int>, previous: seq<int>,
                         placed: set<int>)
    requires |kept| <= |committed| && Distinct(committed) && forall i | 0 <= i < |kept| :: committed[i] == kept[i]
    requires forall id :: id in kept <==> Stays(proposal, previous, placed, id)
    requires forall i, j | 0 <= i < j < |kept| :: Precedes(proposal, kept[i], kept[j])
    requires forall i, j | |kept| <= i < j < |committed| :: Precedes(previous, committed[i], committed[j])
    ensures forall i, j | 0 <= i < j < |committed| ::
      InCommitOrder(proposal, previous, placed, committed[i], committed[j])
  {
    forall i | 0 <= i < |committed| ensures Stays(proposal, previous, placed, committed[i]) <==> i < |kept| {
      if i >= |kept| {
        forall k | 0 <= k < |kept| ensures kept[k] != committed[i] { assert committed[k] == kept[k]; }
      }
    }
  }

  // A failed newcomer must not evict a previously committed expert.
  method Commit(proposal: seq<int>, previous: seq<int>, placed: set<int>, nExperts: int) returns (committed: seq<int>)
    ensures IsCommit(committed, proposal, previous, placed, nExperts)
  {
    committed := KeepPlaced(proposal, previous, placed);
    ghost var kept := committed;
    var k := 0;
    while k < |previous|
      invariant 0 <= k <= |previous| && Distinct(committed) && |kept| <= |committed| <= |proposal|
      invariant forall id | id in kept :: id in committed
      invariant forall id | id in committed :: id in kept || (id in previous[..k] && 0 <= id < nExperts)
      invariant forall i | 0 <= i < k && 0 <= previous[i] < nExperts :: previous[i] in committed
      invariant forall i | 0 <= i < |kept| :: committed[i] == kept[i]
      invariant forall i | |kept| <= i < |committed| :: committed[i] in previous[..k]
      invariant forall i, j | |kept| <= i < j < |committed| :: Precedes(previous, committed[i], committed[j])
    {
      if |committed| >= |proposal| { break; }
      var id := previous[k];
      assert previous[..k + 1] == previous[..k] + [id];
      if 0 <= id < nExperts && id !in committed {
        FillsInOrder(committed, previous, |kept|, k, nExperts);
        committed := committed + [id];
      }
      k := k + 1;
    }
    CommittedInOrder(committed, kept, proposal, previous, placed);
    forall i, j | 0 <= i < j < |previous| && 0 <= previous[i] < nExperts && previous[j] !in previous[..j]
      ensures previous[j] in committed && previous[j] !in proposal ==> previous[i] in committed
    {
      if previous[j] in committed && previous[j] !in proposal {
        assert previous[j] in previous[..k];
        var m :| 0 <= m < k && previous[m] == previous[j];
      }
    }
  }

  // Experts lost are at most the newcomers committed, so a proposal whose every newcomer
  // failed leaves the set as it was.
  lemma CommitIsFailureSafe(committed: seq<int>, proposal: seq<int>, previous: seq<int>, placed: set<int>,
                            nExperts: int)
    requires IsCommit(committed, proposal, previous, placed, nExperts)
    requires Distinct(previous) && |previous| <= |proposal| && forall id | id in previous :: 0 <= id < nExperts
    ensures |Elements(previous) - Elements(committed)| <= |Elements(committed) - Elements(previous)|
    ensures (forall id | id in placed :: id in previous) ==> Elements(committed) == Elements(previous)
  {
    var before, after := Elements(previous), Elements(committed);
    DistinctSize(previous);
    DistinctSize(committed);
    assert ES.Eligible(previous, nExperts) == before;
    if |committed| < |proposal| { assert before - after == {}; }
    BalancedExchange(before, after);
    if forall id | id in placed :: id in previous {
      forall id | id in after ensures id in before { assert id in committed; }
      SubsetSize(after, before);
    }
  }

  lemma BalancedExchange(a: set<int>, b: set<int>)
    ensures |a - b| - |b - a| == |a| - |b|
  {
    assert a == (a - b) + (a * b);
    assert b == (b - a) + (a * b);
  }

  /* ---- The layer registry ---- */

  // What registration and rebalancing change: the registered experts, the recorded NUMA node
  // of every profiled expert (-1 when unknown) and the local expert ids.
  datatype Placement = Placement(experts: seq<Expert>, nodes: seq<int>, local: seq<int>)

  ghost predicate Sound(p: Placement) {
    && (p.experts != [] ==> |p.experts| == |p.nodes|)
    && Distinct(p.local)
    && forall id | id in p.local :: 0 <= id < |p.nodes| && p.nodes[id] >= 0
  }

  function Unassigned(n: nat): (nodes: seq<int>)
    ensures |nodes| == n && forall i | 0 <= i < n :: nodes[i] == -1
  {
    seq(n, _ => -1)
  }

  // RegisterMoEExperts, where `detected` is the node found for each expert or negative.
  ghost predicate Registers(p: Placement, experts: seq<Expert>, detected: seq<int>, q: Placement)
    requires |detected| == |experts|
  {
    if experts == [] then q == p
    else
      var nodes := if |p.nodes| == |experts| then p.nodes else Unassigned(|experts|);
      if p.experts == experts then q == p.(nodes := nodes)
      else
        && q.experts == experts && q.local == [] && |q.nodes| == |nodes|
        && forall i | 0 <= i < |nodes| :: q.nodes[i] == if detected[i] >= 0 then detected[i] else nodes[i]
  }

  // RebalanceExperts that got as far as migrating: `placed` are the proposed experts that
  // were already on the target or whose every buffer was verified there.
  ghost predicate Rebalances(p: Placement, proposal: seq<int>, placed: set<int>, moved: set<int>, nExperts: int,
                             target: nat, q: Placement) {
    && q.experts == p.experts && |q.nodes| == |p.nodes|
    && (forall i | 0 <= i < |p.nodes| :: q.nodes[i] == if i in moved then target else p.nodes[i])
    && (forall id | id in placed :: 0 <= id < nExperts && (id < |q.nodes| ==> q.nodes[id] == target))
    && moved <= placed
    && IsCommit(q.local, proposal, p.local, placed, nExperts)
  }

  lemma RegisterKeepsSound(p: Placement, experts: seq<Expert>, detected: seq<int>, q: Placement)
    requires Sound(p) && |detected| == |experts| && Registers(p, experts, detected, q)
    ensures Sound(q)
  {}

  // The newly placed experts of the proposal are ones the profiler keeps a record of.
  ghost predicate PlacesProfiled(p: Placement, proposal: seq<int>, placed: set<int>) {
    forall id | id in proposal && id in placed :: id < |p.nodes|
  }

  // A rebalance may be asked for more experts than are profiled. It leaves the placement sound exactly if
  // none of those beyond the profiled ones was placed.
  lemma RebalanceKeepsSound(p: Placement, proposal: seq<int>, placed: set<int>, moved: set<int>, nExperts: int,
                            target: nat, q: Placement)
    requires Sound(p) && Rebalances(p, proposal, placed, moved, nExperts, target, q)
    ensures Sound(q) <==> PlacesProfiled(p, proposal, placed)
  {
    if PlacesProfiled(p, proposal, placed) {
      forall id | id in q.local ensures 0 <= id < |q.nodes| && q.nodes[id] >= 0 {
        if id !in placed { assert id in p.local; }
      }
    } else {
      var id :| id in proposal && id in placed && id >= |p.nodes|;
      assert id in q.local;
    }
  }

  datatype Event =
    | Register(registered: seq<Expert>, detected: seq<int>)
    | Rebalance(proposal: seq<int>, placed: set<int>, moved: set<int>, nExperts: int, target: nat)
    | Nothing

  ghost predicate Step(p: Placement, e: Event, q: Placement) {
    match e
    case Register(experts, detected) => |detected| == |experts| && Registers(p, experts, detected, q)
    case Rebalance(proposal, placed, moved, n, target) => Rebalances(p, proposal, placed, moved, n, target, q)
    case Nothing => q == p
  }

  ghost predicate Run(states: seq<Placement>, events: seq<Event>) {
    |states| == |events| + 1 && forall i | 0 <= i < |events| :: Step(states[i], events[i], states[i + 1])
  }

  ghost predicate StepsProfiled(p: Placement, e: Event) {
    e.Rebalance? ==> PlacesProfiled(p, e.proposal, e.placed)
  }

  lemma StepKeepsSound(p: Placement, e: Event, q: Placement)
    requires Sound(p) && Step(p, e, q)
    ensures Sound(q) <==> StepsProfiled(p, e)
  {
    match e
    case Rebalance(proposal, placed, moved, n, target) => RebalanceKeepsSound(p, proposal, placed, moved, n, target, q);
    case Register(experts, detected) => RegisterKeepsSound(p, experts, detected, q);
    case Nothing =>
  }

  lemma {:induction false} SoundWhileProfiled(states: seq<Placement>, events: seq<Event>, k: nat)
    requires Run(states, events) && Sound(states[0]) && k <= |events|
    requires forall i | 0 <= i < k :: StepsProfiled(states[i], events[i])
    ensures Sound(states[k])
  {
    if k > 0 {
      SoundWhileProfiled(states, events, k - 1);
      assert Step(states[k - 1], events[k - 1], states[k]) && StepsProfiled(states[k - 1], events[k - 1]);
      StepKeepsSound(states[k - 1], events[k - 1], states[k]);
    }
  }

  /** Over a run the local ids stay distinct, in range and placed on a recorded node, in every state, exactly
      if no rebalance places an expert beyond the profiled ones. */
  lemma RunKeepsSound(states: seq<Placement>, events: seq<Event>)
    requires Run(states, events) && Sound(states[0])
    ensures (forall k | 0 <= k <= |events| :: Sound(states[k])) <==>
            (forall k | 0 <= k < |events| :: StepsProfiled(states[k], events[k]))
  {
    if forall k | 0 <= k < |events| :: StepsProfiled(states[k], events[k]) {
      forall k | 0 <= k <= |events| ensures Sound(states[k]) { SoundWhileProfiled(states, events, k); }
    }
    if forall k | 0 <= k <= |events| :: Sound(states[k]) {
      forall k | 0 <= k < |events| ensures StepsProfiled(states[k], events[k]) {
        assert Step(states[k], events[k], states[k + 1]) && Sound(states[k]) && Sound(states[k + 1]);
        StepKeepsSound(states[k], events[k], states[k + 1]);
      }
    }
  }

  // A caller that stays within the profiled experts never gets there.
  lemma CountWithinProfile(p: Placement, e: Event, q: Placement)
    requires Step(p, e, q) && (e.Rebalance? ==> e.nExperts <= |p.nodes|)
    ensures StepsProfiled(p, e)
  {}

  // The node an expert is recorded on after some rebalances: the target of the last one that
  // verified it, or where it was.
  function RecordedNode(events: seq<Event>, id: int, before: int): int {
    if events == [] then before
    else
      var last := events[|events| - 1];
      if last.Rebalance? && id in last.moved then last.target
      else RecordedNode(events[..|events| - 1], id, before)
  }

  lemma {:induction false} NodeRecordsFollowVerifiedMoves(states: seq<Placement>, events: seq<Event>, id: nat)
    requires Run(states, events) && forall e | e in events :: !e.Register?
    requires id < |states[0].nodes|
    ensures id < |states[|events|].nodes|
    ensures states[|events|].nodes[id] == RecordedNode(events, id, states[0].nodes[id])
  {
    if events != [] {
      var n := |events| - 1;
      assert events[n] in events;
      forall e | e in events[..n] ensures !e.Register? { assert e in events; }
      assert Run(states[..n + 1], events[..n]) by {
        forall i | 0 <= i < n ensures Step(states[..n + 1][i], events[..n][i], states[..n + 1][i + 1]) {
          assert Step(states[i], events[i], states[i + 1]);
        }
      }
      NodeRecordsFollowVerifiedMoves(states[..n + 1], events[..n], id);
      assert Step(states[n], events[n], states[n + 1]);
    }
  }

  // The node registration records for an expert: a valid hint, or the node on which every
  // present tensor predominantly resides. `dominant` is the residency sampled per tensor.
  predicate Agreed(e: Expert, dominant: nat -> int, n: nat) {
    && (Present(e.w1) || Present(e.w2) || Present(e.w3))
    && (Present(e.w1) ==> dominant(0) == n) && (Present(e.w2) ==> dominant(1) == n)
    && (Present(e.w3) ==> dominant(2) == n)
  }

  function DetectNode(e: Expert, nodeCount: nat, dominant: nat -> int): (node: int)
    ensures 0 <= e.nodeHint < nodeCount ==> node == e.nodeHint
    ensures !(0 <= e.nodeHint < nodeCount) ==> forall n: nat :: Agreed(e, dominant, n) <==> node == n
  {
    if 0 <= e.nodeHint < nodeCount then e.nodeHint
    else
      var first := VerifyWeight(-1, e.w1, dominant(0));
      var found := VerifyWeight(VerifyWeight(first, e.w2, dominant(1)), e.w3, dominant(2));
      if found < 0 then -1 else found
  }

  // `found` is the node agreed so far, -1 when none was sampled yet, -2 after a disagreement.
  function VerifyWeight(found: int, b: Buffer, node: int): int {
    if found == -2 || !Present(b) then found
    else if node < 0 || (found >= 0 && node != found) then -2
    else node
  }

  function For<T>(answers: (nat, nat) -> T, k: nat): nat -> T {
    (b: nat) => answers(k, b)
  }

  // The expert is recorded on the node.
  predicate RecordedOn(nodes: seq<int>, id: int, target: nat) { 0 <= id < |nodes| && nodes[id] == target }

  // A list of experts to migrate. `os(k, b)` answers for buffer b of the k-th of them.
  datatype Migration = Migration(ids: seq<int>, weights: seq<Expert>, nExperts: int, target: nat, pageSize: nat,
                                 os: (nat, nat) -> Os)

  // Place k of the list puts an expert on the target, given the records `was` from before.
  ghost predicate PlacesAt(m: Migration, was: seq<int>, id: int, k: nat) {
    && k < |m.ids| && m.ids[k] == id && 0 <= id < m.nExperts && id < |m.weights| && m.pageSize > 0
    && (RecordedOn(was, id, m.target) || Verified(m.weights[id], m.pageSize, m.target, For(m.os, k)))
  }

  ghost predicate PlacedBefore(m: Migration, was: seq<int>, id: int, n: nat) {
    exists k: nat | k < n :: PlacesAt(m, was, id, k)
  }

  // After the first n of the list.
  ghost predicate MigratedSoFar(m: Migration, was: seq<int>, n: nat, nodes: seq<int>, placed: set<int>,
                                moved: set<int>) {
    && |nodes| == |was|
    && (forall i | 0 <= i < |nodes| :: nodes[i] == if i in moved then m.target else was[i])
    && (forall id :: id in placed <==> PlacedBefore(m, was, id, n))
    && (forall id :: id in moved <==> id in placed && !RecordedOn(was, id, m.target))
  }

  // The n-th of the list is really migrated: it is in range, and neither recorded on the target before nor
  // recorded there by an earlier place in the list.
  ghost predicate Attempted(m: Migration, was: seq<int>, n: nat) {
    n < |m.ids| &&
    var id := m.ids[n];
    && 0 <= id < m.nExperts && id < |m.weights| && !RecordedOn(was, id, m.target)
    && !(id < |was| && PlacedBefore(m, was, id, n))
  }

  ghost predicate AttemptDenied(m: Migration, was: seq<int>, n: nat) {
    Attempted(m, was, n) && Denied(m.weights[m.ids[n]], m.pageSize, For(m.os, n))
  }

  ghost predicate DeniedBefore(m: Migration, was: seq<int>, n: nat) {
    exists k: nat | k < n :: AttemptDenied(m, was, k)
  }

  lemma DeniedNext(m: Migration, was: seq<int>, n: nat)
    ensures DeniedBefore(m, was, n + 1) <==> DeniedBefore(m, was, n) || AttemptDenied(m, was, n)
  {}

  // The pages the attempts of the first n places leave on the target.
  ghost function PagesMoved(m: Migration, was: seq<int>, n: nat): nat
    requires m.pageSize > 0
  {
    if n == 0 then 0
    else
      PagesMoved(m, was, n - 1) +
      if Attempted(m, was, n - 1)
      then ExpertPages(m.weights[m.ids[n - 1]], m.pageSize, m.target, For(m.os, n - 1)) else 0
  }

  // The source skips exactly the places whose expert the records, as they stand, put on the target.
  lemma AttemptIffUnrecorded(m: Migration, was: seq<int>, n: nat, nodes: seq<int>, placed: set<int>, moved: set<int>)
    requires n < |m.ids| && MigratedSoFar(m, was, n, nodes, placed, moved)
    ensures var id := m.ids[n];
      Attempted(m, was, n) <==> 0 <= id < m.nExperts && id < |m.weights| && !RecordedOn(nodes, id, m.target)
  {
    var id := m.ids[n];
    if 0 <= id < |was| { assert RecordedOn(nodes, id, m.target) <==> RecordedOn(was, id, m.target) || id in moved; }
  }

  lemma PlacedNext(m: Migration, was: seq<int>, id: int, n: nat)
    ensures PlacedBefore(m, was, id, n + 1) <==> PlacedBefore(m, was, id, n) || PlacesAt(m, was, id, n)
  {}

  lemma MigratedNext(m: Migration, was: seq<int>, n: nat, nodes: seq<int>, placed: set<int>, moved: set<int>,
                     nodes': seq<int>, placed': set<int>, moved': set<int>)
    requires n < |m.ids| && MigratedSoFar(m, was, n, nodes, placed, moved)
    requires var id := m.ids[n];
      && placed' == (if PlacesAt(m, was, id, n) then placed + {id} else placed)
      && moved' == (if PlacesAt(m, was, id, n) && !RecordedOn(was, id, m.target) then moved + {id} else moved)
      && nodes' == (if PlacesAt(m, was, id, n) && id < |nodes| then nodes[id := m.target] else nodes)
    ensures MigratedSoFar(m, was, n + 1, nodes', placed', moved')
  {
    forall id ensures id in placed' <==> PlacedBefore(m, was, id, n + 1) { PlacedNext(m, was, id, n); }
  }

  // A buffer that is there has a whole page, all of them were reported on the target, and so was the range.
  ghost predicate Landed(b: Buffer, pageSize: nat, target: int, os: Os)
    requires pageSize > 0
  {
    b.address == 0 || b.size == 0 ||
    ((exists q: nat :: Inside(b, pageSize, q)) &&
     (forall q: nat | Inside(b, pageSize, q) :: Arrived(b, pageSize, target, os, q)) && os.rangeNode == target)
  }

  lemma VerifiedHasLanded(e: Expert, pageSize: nat, target: int, os: nat -> Os)
    requires pageSize > 0
    ensures Verified(e, pageSize, target, os) <==>
      && (forall j: nat | j < 3 :: Landed([e.w1, e.w2, e.w3][j], pageSize, target, os(j)))
      && (exists j: nat | j < 3 :: [e.w1, e.w2, e.w3][j].address != 0 && [e.w1, e.w2, e.w3][j].size != 0)
  {
    var buffers := [e.w1, e.w2, e.w3];
    forall j: nat | j < 3 ensures Landed(buffers[j], pageSize, target, os(j)) <==>
      Resident(buffers[j], pageSize, target, os(j))
    {
      if Present(buffers[j]) { VerifiedPages(buffers[j], pageSize, target, os(j)); }
    }
    assert buffers[0] == e.w1 && buffers[1] == e.w2 && buffers[2] == e.w3;
  }

  // The page count of an expert is that of its three buffers, and it is denied if any of them was.
  lemma ExpertInPages(e: Expert, pageSize: nat, target: int, os: nat -> Os, pages: seq<nat>)
    requires pageSize > 0 && |pages| == 3
    requires forall j: nat | j < 3 :: var b := [e.w1, e.w2, e.w3][j];
      pages[j] == if b.address == 0 || b.size == 0 then 0 else |ArrivedPages(b, pageSize, target, os(j))|
    ensures ExpertPages(e, pageSize, target, os) == Sum(pages)
    ensures Denied(e, pageSize, os) <==> exists j: nat | j < 3 :: SomeTurnedAway([e.w1, e.w2, e.w3][j], pageSize, os(j))
  {
    var buffers := [e.w1, e.w2, e.w3];
    assert buffers[0] == e.w1 && buffers[1] == e.w2 && buffers[2] == e.w3;
    forall j: nat | j < 3
      ensures pages[j] == BufferPages(buffers[j], pageSize, target, os(j))
      ensures Refused(buffers[j], pageSize, os(j)) <==> SomeTurnedAway(buffers[j], pageSize, os(j))
    {
      if Present(buffers[j]) {
        CountArrived(buffers[j], pageSize, target, os(j));
        RefusedPages(buffers[j], pageSize, os(j));
      }
    }
    assert pages[..2][..1] == [pages[0]] && pages[..2][1] == pages[1] && [pages[0]][..0] == [];
    assert Sum(pages) == Sum(pages[..2]) + pages[2] && Sum(pages[..2]) == Sum([pages[0]]) + pages[1];
  }

  ghost predicate SomeTurnedAway(b: Buffer, pageSize: nat, os: Os)
    requires pageSize > 0
  {
    b.address != 0 && b.size != 0 && exists q: nat | Inside(b, pageSize, q) :: TurnedAway(b, pageSize, os, q)
  }

  /** A record a migration changes tells the truth: some place of the list moved the expert, and every page of
      each of its three buffers was reported on the target. */
  lemma RecordsTellTheTruth(m: Migration, was: seq<int>, n: nat, nodes: seq<int>, placed: set<int>, moved: set<int>,
                            id: nat) returns (k: nat)
    requires MigratedSoFar(m, was, n, nodes, placed, moved) && id < |nodes| && nodes[id] != was[id]
    ensures k < n && k < |m.ids| && m.ids[k] == id < |m.weights| && m.pageSize > 0 && nodes[id] == m.target
    ensures var e := m.weights[id];
      forall j: nat | j < 3 :: Landed([e.w1, e.w2, e.w3][j], m.pageSize, m.target, m.os(k, j))
  {
    assert PlacedBefore(m, was, id, n) && !RecordedOn(was, id, m.target);
    k :| k < n && PlacesAt(m, was, id, k);
    VerifiedHasLanded(m.weights[id], m.pageSize, m.target, For(m.os, k));
    var e := m.weights[id];
    forall j: nat | j < 3 ensures Landed([e.w1, e.w2, e.w3][j], m.pageSize, m.target, m.os(k, j)) {
      assert For(m.os, k)(j) == m.os(k, j);
    }
  }

  // What a rebalance of the hot set proposes as the new local ids.
  ghost predicate IsProposal(local: seq<int>, hot: seq<int>, loads: seq<real>, nExperts: int, proposal: seq<int>) {
    if local == [] then proposal == hot
    else
      (forall id | id in proposal :: id in local || id in hot) &&
      (Distinct(hot) ==>
         (exists survivors :: ES.IsSelection(local, hot, loads, nExperts, survivors, proposal)) &&
         ES.GoesByLoad(local, hot, loads, nExperts, proposal))
  }

  // GetEmaLoad for every id below the caller's expert count.
  function EmaLoads(loads: seq<real>, nExperts: int): (r: seq<real>)
    ensures ES.NonNegative(loads) ==> ES.NonNegative(r)
  {
    seq(if nExperts > 0 then nExperts else 0, i requires i >= 0 => if i < |loads| then loads[i] else 0.0)
  }

  /** MoELayerRegistry with its profiler's node records and loads. */
  class LayerRegistry {
    var experts: seq<Expert>
    var nodes: seq<int>
    var loads: seq<real>
    var local: seq<int>
    var disabled: bool   // rebalance_disabled_

    ghost function View(): Placement
      reads this
    {
      Placement(experts, nodes, local)
    }

    ghost predicate Valid()
      reads this
    {
      Sound(View()) && |loads| == |nodes| && ES.NonNegative(loads)
    }

    constructor (nExperts: nat)
      ensures Valid() && View() == Placement([], Unassigned(nExperts), []) && !disabled
    {
      experts, local, disabled := [], [], false;
      nodes, loads := Unassigned(nExperts), seq(nExperts, _ => 0.0);
    }

    method SwapProfiler(nExperts: nat)
      modifies this`nodes, this`loads
      ensures nodes == if |old(nodes)| == nExperts then old(nodes) else Unassigned(nExperts)
      ensures |old(loads)| == |old(nodes)| && ES.NonNegative(old(loads)) ==> |loads| == |nodes| && ES.NonNegative(loads)
    {
      if |nodes| != nExperts {
        nodes, loads := Unassigned(nExperts), seq(nExperts, _ => 0.0);
      }
    }

    /** InitMoEProfiler. Replacing the profiler happens before the check that would clear the
        local ids, so they survive without a recorded node. */
    method InitProfiler(nExperts: int)
      requires Valid()
      modifies this`nodes, this`loads
      ensures Valid() <==> nExperts <= 0 || nExperts == |old(nodes)| || (local == [] && experts == [])
    {
      if nExperts <= 0 { return; }
      ghost var before := nodes;
      SwapProfiler(nExperts);
      if |before| != nExperts && local != [] {
        assert local[0] in View().local;
        assert 0 <= local[0] < nExperts ==> View().nodes[local[0]] == -1;
      }
    }

    /** RegisterMoEExperts. */
    method Register(newExperts: seq<Expert>, nodeCount: nat, dominant: (nat,
                    nat) -> int) returns (ghost detected: seq<int>)
      requires Valid()
      modifies this`experts, this`nodes, this`loads, this`local
      ensures Valid()
      ensures |detected| == |newExperts| &&
              forall i | 0 <= i < |newExperts| :: detected[i] == DetectNode(newExperts[i], nodeCount, For(dominant, i))
      ensures Registers(old(View()), newExperts, detected, View())
    {
      detected := seq(|newExperts|, i requires 0 <= i < |newExperts| =>
        DetectNode(newExperts[i], nodeCount, For(dominant, i)));
      if newExperts == [] { return; }
      SwapProfiler(|newExperts|);
      if experts == newExperts { return; }
      experts, local := newExperts, [];
      ghost var base := nodes;
      for i := 0 to |newExperts|
        invariant |nodes| == |base| == |newExperts| && experts == newExperts && local == []
        invariant |loads| == |nodes| && ES.NonNegative(loads)
        invariant forall k | 0 <= k < i :: nodes[k] == if detected[k] >= 0 then detected[k] else base[k]
        invariant forall k | i <= k < |nodes| :: nodes[k] == base[k]
      {
        var node := DetectNode(newExperts[i], nodeCount, For(dominant, i));
        if node >= 0 { nodes := nodes[i := node]; }
      }
    }

    // The proposed local ids and the experts whose pages have to move for them.
    method Propose(hot: seq<int>, nExperts: int) returns (proposal: seq<int>, toMigrate: seq<int>)
      requires Valid()
      ensures IsProposal(local, hot, loads, nExperts, proposal)
      ensures proposal != [] ==> forall id :: id in toMigrate <==> id in proposal && id !in local
      ensures proposal == [] ==> toMigrate == hot
    {
      if local == [] {
        proposal := hot;
      } else {
        ghost var survivors;
        proposal, survivors := ES.Select(local, hot, EmaLoads(loads, nExperts), nExperts);
        if Distinct(hot) {
          ES.SelectionDependsOnScores(local, hot, EmaLoads(loads, nExperts), loads, nExperts, survivors, proposal);
          ES.SelectionGoesByLoad(local, hot, loads, nExperts, survivors, proposal);
        }
      }
      toMigrate := hot;
      if proposal != [] {
        toMigrate := [];
        for i := 0 to |proposal|
          invariant forall id :: id in toMigrate <==> id in proposal[..i] && id !in local
        {
          assert proposal[..i + 1] == proposal[..i] + [proposal[i]];
          if proposal[i] !in local { toMigrate := toMigrate + [proposal[i]]; }
        }
        assert proposal[..|proposal|] == proposal;
      }
    }

    /** The migration loop of RebalanceExpertsInternal. Placed are exactly the listed experts that were
        recorded on the target already or whose every buffer verified there; recorded anew are those of the
        second kind. `os(k, b)` answers for buffer b of the k-th of the list. */
    method MigrateAll(toMigrate: seq<int>, weights: seq<Expert>, nExperts: int, target: nat, pageSize: nat,
                      os: (nat, nat) -> Os) returns (placed: set<int>, ghost moved: set<int>, pages: nat)
      requires pageSize > 0
      modifies this`nodes, this`disabled
      ensures var m := Migration(toMigrate, weights, nExperts, target, pageSize, os);
        && MigratedSoFar(m, old(nodes), |toMigrate|, nodes, placed, moved)
        && (disabled <==> old(disabled) || DeniedBefore(m, old(nodes), |toMigrate|))
        && pages == PagesMoved(m, old(nodes), |toMigrate|)
    {
      placed, moved, pages := {}, {}, 0;
      ghost var was := nodes;
      ghost var m := Migration(toMigrate, weights, nExperts, target, pageSize, os);
      for k := 0 to |toMigrate|
        invariant MigratedSoFar(m, was, k, nodes, placed, moved)
        invariant disabled <==> old(disabled) || DeniedBefore(m, was, k)
        invariant pages == PagesMoved(m, was, k)
      {
        AttemptIffUnrecorded(m, was, k, nodes, placed, moved);
        DeniedNext(m, was, k);
        ghost var nodes0, placed0, moved0 := nodes, placed, moved;
        var id := toMigrate[k];
        if 0 <= id < nExperts && id < |weights| {
          if id < |nodes| && nodes[id] == target {
            placed := placed + {id};
          } else {
            var n, migrated, denied := MigrateExpert(weights[id], pageSize, target, For(os, k));
            pages := pages + n;
            disabled := disabled || denied;
            if migrated {
              if id < |nodes| { nodes := nodes[id := target]; }
              placed, moved := placed + {id}, moved + {id};
            }
          }
        }
        MigratedNext(m, was, k, nodes0, placed0, moved0, nodes, placed, moved);
      }
    }

    /** RebalanceExperts with a profiler; `target` is the resolved node and `numa` whether the
        system supports migration at all. */
    method Rebalance(hot: seq<int>, weights: seq<Expert>, nExperts: int, target: nat, pageSize: nat, numa: bool,
                     os: (nat, nat) -> Os) returns (pages: nat, ghost event: Event, ghost m: Migration)
      requires Valid() && pageSize > 0
      modifies this`nodes, this`local, this`disabled
      ensures Step(old(View()), event, View()) && (Valid() <==> StepsProfiled(old(View()), event))
      ensures event.Rebalance? <==> !old(disabled) && hot != [] && weights != [] && numa
      ensures !event.Rebalance? ==> View() == old(View()) && disabled == old(disabled) && pages == 0
      ensures m == Migration(m.ids, weights, nExperts, target, pageSize, os)
      ensures event.Rebalance? ==>
        && event.nExperts == nExperts && event.target == target
        && IsProposal(old(local), hot, old(loads), nExperts, event.proposal)
        && (forall id ::
          id in m.ids <==> if event.proposal == [] then id in hot else id in event.proposal && id !in old(local))
        && MigratedSoFar(m, old(nodes), |m.ids|, nodes, event.placed, event.moved)
        && (disabled <==> DeniedBefore(m, old(nodes), |m.ids|))
        && pages == PagesMoved(m, old(nodes), |m.ids|)
    {
      pages, event, m := 0, Nothing, Migration([], weights, nExperts, target, pageSize, os);
      if disabled || hot == [] || weights == [] || !numa { return; }
      ghost var before := View();
      var previous := local;
      var proposal, toMigrate := Propose(hot, nExperts);
      m := m.(ids := toMigrate);
      var placed;
      ghost var moved;
      placed, moved, pages := MigrateAll(toMigrate, weights, nExperts, target, pageSize, os);
      local := Commit(proposal, previous, placed, nExperts);
      event := Event.Rebalance(proposal, placed, moved, nExperts, target);
      assert moved <= placed by { forall id | id in moved ensures id in placed {} }
      assert Rebalances(before, proposal, placed, moved, nExperts, target, View());
      StepKeepsSound(before, event, View());
    }
  }
}
