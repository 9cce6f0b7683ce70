/** The sticky local expert set of the NUMA rebalancer: `SelectLocalExpertsWithHysteresis`. */
module ExpertSelection {
  import opened Ordering

  const HYSTERESIS_RATIO := 0.15

  datatype Entry = Entry(load: real, id: int)

  function Score(loads: seq<real>, id: int): real {
    if 0 <= id < |loads| then loads[id] else 0.0
  }

  ghost predicate NonNegative(loads: seq<real>) {
    forall i | 0 <= i < |loads| :: loads[i] >= 0.0
  }

  // The ids of `ids` that name an expert.
  function Eligible(ids: seq<int>, nExperts: int): set<int> {
    set id | id in ids && 0 <= id < nExperts
  }

  // `challenger` is busy enough to take the place of `incumbent`.
  predicate Beats(loads: seq<real>, challenger: int, incumbent: int) {
    Score(loads, challenger) > Score(loads, incumbent) * (1.0 + HYSTERESIS_RATIO)
  }

  // `top` holds the `size` most loaded members of `pool` (all of it when it is small).
  ghost predicate IsTop(top: set<int>, pool: set<int>, size: nat, loads: seq<real>) {
    && top <= pool
    && |top| == (if |pool| <= size then |pool| else size)
    && forall kept, dropped | kept in top && dropped in pool - top :: Score(loads, dropped) <= Score(loads, kept)
  }

  // No hot expert left outside could displace a selected one.
  ghost predicate Stable(selected: set<int>, hot: set<int>, loads: seq<real>) {
    forall out, ins | out in hot - selected && ins in selected :: !Beats(loads, out, ins)
  }

  /** What a selection is, whatever the order in which equal loads were sorted.
      `survivors` are the previously local experts left after truncation to the target size. */
  ghost predicate IsSelection(previous: seq<int>, hot: seq<int>, loads: seq<real>, nExperts: int,
                              survivors: set<int>, selected: seq<int>) {
    var chosen := Elements(selected);
    var hotIds := Eligible(hot, nExperts);
    && IsTop(survivors, Eligible(previous, nExperts), |hot|, loads)
    && Distinct(selected)
    && chosen <= survivors + hotIds
    && |chosen| == (if |survivors + hotIds| <= |hot| then |survivors + hotIds| else |hot|)
       // the evicted are the least loaded survivors, the admitted the most loaded newcomers
    && (forall e, k | e in survivors - chosen && k in chosen :: Score(loads, e) <= Score(loads, k))
    && (forall r, a | r in hotIds - survivors - chosen && a in chosen - survivors :: Score(loads, r) <= Score(loads, a))
       // every admitted newcomer beats every evicted survivor
    && (forall e, a | e in survivors - chosen && a in chosen - survivors :: Beats(loads, a, e))
    && Stable(chosen, hotIds, loads)
  }

  /* ---- The algorithm ---- */

  ghost predicate Scored(entries: seq<Entry>, loads: seq<real>) {
    forall i | 0 <= i < |entries| :: entries[i].load == Score(loads, entries[i].id)
  }

  function Ids(entries: seq<Entry>): (ids: seq<int>)
    ensures |ids| == |entries| && forall i | 0 <= i < |ids| :: ids[i] == entries[i].id
  {
    seq(|entries|, i requires 0 <= i < |entries| => entries[i].id)
  }

  lemma EligibleAppend(ids: seq<int>, id: int, nExperts: int)
    ensures Eligible(ids + [id], nExperts) == Eligible(ids, nExperts) + (if 0 <= id < nExperts then {id} else {})
  {
    ElementsAppend(ids, id);
    assert forall x :: x in ids + [id] <==> x in Elements(ids + [id]);
  }

  // First occurrences of the in-range previously local experts, with their loads.
  method RankPrevious(previous: seq<int>, loads: seq<real>, nExperts: int) returns (ranked: seq<Entry>)
    ensures Scored(ranked, loads) && Distinct(Ids(ranked))
    ensures Elements(Ids(ranked)) == Eligible(previous, nExperts)
  {
    ranked := [];
    for i := 0 to |previous|
      invariant Scored(ranked, loads) && Distinct(Ids(ranked))
      invariant Elements(Ids(ranked)) == Eligible(previous[..i], nExperts)
    {
      var id := previous[i];
      assert previous[..i + 1] == previous[..i] + [id];
      EligibleAppend(previous[..i], id, nExperts);
      if 0 <= id < nExperts && id !in Ids(ranked) {
        ElementsAppend(Ids(ranked), id);
        assert Ids(ranked + [Entry(Score(loads, id), id)]) == Ids(ranked) + [id];
        ranked := ranked + [Entry(Score(loads, id), id)];
      }
    }
    assert previous[..|previous|] == previous;
  }

  // The hot experts that are not local, in the order they are listed.
  method Candidates(hot: seq<int>, survivors: set<int>, loads: seq<real>,
                    nExperts: int) returns (candidates: seq<Entry>)
    ensures Scored(candidates, loads)
    ensures Elements(Ids(candidates)) == Eligible(hot, nExperts) - survivors
    ensures Distinct(hot) ==> Distinct(Ids(candidates))
    ensures |candidates| <= |hot|
  {
    candidates := [];
    for i := 0 to |hot|
      invariant Scored(candidates, loads) && |candidates| <= i
      invariant Elements(Ids(candidates)) == Eligible(hot[..i], nExperts) - survivors
      invariant Distinct(hot) ==> Distinct(Ids(candidates))
    {
      var id := hot[i];
      assert hot[..i + 1] == hot[..i] + [id];
      EligibleAppend(hot[..i], id, nExperts);
      if 0 <= id < nExperts && id !in survivors {
        ElementsAppend(Ids(candidates), id);
        assert Ids(candidates + [Entry(Score(loads, id), id)]) == Ids(candidates) + [id];
        assert Distinct(hot) ==> id !in hot[..i];
        assert id in Ids(candidates) ==> id in Elements(Ids(candidates));
        candidates := candidates + [Entry(Score(loads, id), id)];
      }
    }
    assert hot[..|hot|] == hot;
  }

  function Descending(): (Entry, Entry) -> bool {
    (a: Entry, b: Entry) => a.load >= b.load
  }

  function Ascending(): (Entry, Entry) -> bool {
    (a: Entry, b: Entry) => a.load <= b.load
  }

  lemma Permuted(r: seq<Entry>, s: seq<Entry>, loads: seq<real>)
    requires multiset(r) == multiset(s) && Scored(s, loads)
    ensures Scored(r, loads) && |r| == |s|
    ensures Elements(Ids(r)) == Elements(Ids(s))
    ensures Distinct(Ids(s)) ==> Distinct(Ids(r))
  {
    SameElements(r, s);
    assert forall x | x in s :: x.load == Score(loads, x.id);
    forall i | 0 <= i < |r| ensures r[i].load == Score(loads, r[i].id) { assert r[i] in s; }
    assert Scored(r, loads);
    forall id ensures id in Ids(r) <==> id in Ids(s) {
      if id in Ids(r) { var i :| 0 <= i < |r| && Ids(r)[i] == id; assert r[i] in s; }
      if id in Ids(s) { var i :| 0 <= i < |s| && Ids(s)[i] == id; assert s[i] in r; }
    }
    if Distinct(Ids(s)) {
      assert Distinct(s) by { forall i, j | 0 <= i < j < |s| ensures s[i] != s[j] { assert Ids(s)[i] != Ids(s)[j]; } }
      DistinctPermutation(r, s);
    }
  }

  // partial_sort, then cut to the target size.
  method Truncate(ranked: seq<Entry>, size: nat, loads: seq<real>) returns (kept: seq<Entry>)
    requires Scored(ranked, loads) && Distinct(Ids(ranked))
    ensures Scored(kept, loads) && Distinct(Ids(kept)) && |kept| <= size
    ensures IsTop(Elements(Ids(kept)), Elements(Ids(ranked)), size, loads)
  {
    DistinctSize(Ids(ranked));
    kept := ranked;
    if |ranked| > size {
      var sorted := Sort(ranked, Descending());
      Permuted(sorted, ranked, loads);
      kept := sorted[..size];
      DistinctSize(Ids(kept));
      assert forall j | 0 <= j < size :: Ids(kept)[j] == Ids(sorted)[j] && Ids(sorted)[j] in Elements(Ids(kept));
      forall k, d | k in Elements(Ids(kept)) && d in Elements(Ids(ranked)) - Elements(Ids(kept))
        ensures Score(loads, d) <= Score(loads, k)
      {
        var i :| 0 <= i < |kept| && Ids(kept)[i] == k;
        assert d in Ids(sorted);
        var j :| 0 <= j < |sorted| && Ids(sorted)[j] == d;
        assert Descending()(sorted[i], sorted[j]);
      }
      forall id | id in Ids(kept) ensures id in Ids(ranked) {
        var i :| 0 <= i < |kept| && Ids(kept)[i] == id;
        assert Ids(sorted)[i] == id;
        assert id in Elements(Ids(sorted));
      }
    }
  }

  // The state of the admission loop: `kept` survivors remain, the first `admitted`
  // candidates have joined them, and any candidate after those has been turned down.
  ghost predicate AdmissionInv(local: seq<Entry>, candidates: seq<Entry>, target: nat, loads: seq<real>,
                               survivors: set<int>, kept: set<int>, admitted: nat, seen: nat) {
    && admitted <= seen <= |candidates|
    && kept <= survivors
    && Elements(Ids(local)) == kept + Elements(Ids(candidates[..admitted]))
    && (|local| < target ==> kept == survivors && admitted == seen)
    && (admitted < seen ==> |local| == target)
    && (admitted < seen && local != [] ==> candidates[admitted].load <= local[0].load * (1.0 + HYSTERESIS_RATIO))
    && (forall e, i | e in survivors - kept && 0 <= i < |local| :: Score(loads, e) <= local[i].load)
    && (forall e, a | e in survivors - kept && 0 <= a < admitted ::
          candidates[a].load > Score(loads, e) * (1.0 + HYSTERESIS_RATIO))
  }

  ghost predicate AdmissionPre(candidates: seq<Entry>, loads: seq<real>, survivors: set<int>) {
    && NonNegative(loads) && Scored(candidates, loads) && Sorted(candidates, Descending())
    && Distinct(Ids(candidates)) && Elements(Ids(candidates)) !! survivors
  }

  ghost predicate Ranked(local: seq<Entry>, loads: seq<real>) {
    Scored(local, loads) && Distinct(Ids(local)) && Sorted(local, Ascending())
  }

  lemma PushKeeps(local: seq<Entry>, next: seq<Entry>, candidates: seq<Entry>, target: nat, loads: seq<real>,
                  survivors: set<int>, kept: set<int>, admitted: nat, seen: nat)
    requires AdmissionPre(candidates, loads, survivors) && Ranked(local, loads)
    requires AdmissionInv(local, candidates, target, loads, survivors, kept, admitted, seen)
    requires seen < |candidates| && |local| < target
    requires multiset(next) == multiset(local + [candidates[seen]]) && Sorted(next, Ascending())
    ensures Ranked(next, loads) && |next| == |local| + 1
    ensures AdmissionInv(next, candidates, target, loads, survivors, kept, admitted + 1, seen + 1)
  {
    var c := candidates[seen];
    assert Ids(local + [c]) == Ids(local) + [c.id];
    ElementsAppend(Ids(local), c.id);
    assert candidates[..seen + 1] == candidates[..seen] + [c];
    assert Ids(candidates[..seen + 1]) == Ids(candidates[..seen]) + [c.id];
    ElementsAppend(Ids(candidates[..seen]), c.id);
    assert c.id !in Ids(local) by {
      if c.id in Ids(local) {
        assert c.id in Elements(Ids(local));
        NotAdmittedYet(candidates, survivors, kept, seen, seen);
      }
    }
    Permuted(next, local + [c], loads);
  }

  lemma NotAdmittedYet(candidates: seq<Entry>, survivors: set<int>, kept: set<int>, admitted: nat, k: nat)
    requires Distinct(Ids(candidates)) && Elements(Ids(candidates)) !! survivors && kept <= survivors
    requires admitted <= k < |candidates|
    ensures candidates[k].id !in kept + Elements(Ids(candidates[..admitted]))
  {
    assert Ids(candidates)[k] in Elements(Ids(candidates));
    assert forall j | 0 <= j < admitted :: Ids(candidates[..admitted])[j] == Ids(candidates)[j];
  }

  // The lowest ranked expert is still a survivor when a candidate beats it, and no
  // candidate has been turned down before.
  lemma EvictsASurvivor(local: seq<Entry>, candidates: seq<Entry>, target: nat, loads: seq<real>,
                        survivors: set<int>, kept: set<int>, admitted: nat, seen: nat)
    requires AdmissionPre(candidates, loads, survivors) && Ranked(local, loads) && local != []
    requires AdmissionInv(local, candidates, target, loads, survivors, kept, admitted, seen)
    requires seen < |candidates| && candidates[seen].load > local[0].load * (1.0 + HYSTERESIS_RATIO)
    ensures admitted == seen && local[0].id in kept
  {
    assert forall a | 0 <= a < seen :: Descending()(candidates[a], candidates[seen]);
    assert Ids(local)[0] in Elements(Ids(local));
    assert local[0].load >= 0.0;
  }

  lemma ReplaceKeeps(local: seq<Entry>, next: seq<Entry>, candidates: seq<Entry>, target: nat, loads: seq<real>,
                     survivors: set<int>, kept: set<int>, admitted: nat, seen: nat)
    requires AdmissionPre(candidates, loads, survivors) && Ranked(local, loads) && local != []
    requires AdmissionInv(local, candidates, target, loads, survivors, kept, admitted, seen)
    requires seen < |candidates| && |local| == target
    requires candidates[seen].load > local[0].load * (1.0 + HYSTERESIS_RATIO)
    requires multiset(next) == multiset(local[0 := candidates[seen]]) && Sorted(next, Ascending())
    ensures Ranked(next, loads) && |next| == |local|
    ensures AdmissionInv(next, candidates, target, loads, survivors, kept - {local[0].id}, admitted + 1, seen + 1)
  {
    EvictsASurvivor(local, candidates, target, loads, survivors, kept, admitted, seen);
    var c, lowest := candidates[seen], local[0];
    var swapped := local[0 := c];
    SwapIds(local, candidates, survivors, kept, admitted);
    Permuted(next, swapped, loads);
    forall e, i | e in survivors - (kept - {lowest.id}) && 0 <= i < |next| ensures Score(loads, e) <= next[i].load {
      SameElements(next, swapped);
      assert next[i] in swapped;
      assert lowest.load >= 0.0;
      assert forall k | 0 < k < |local| :: Ascending()(local[0], local[k]);
    }
    forall e, a | e in survivors - (kept - {lowest.id}) && 0 <= a < admitted + 1
      ensures candidates[a].load > Score(loads, e) * (1.0 + HYSTERESIS_RATIO)
    {
      if a < admitted { assert Descending()(candidates[a], c); }
      assert Score(loads, e) <= lowest.load;
    }
  }

  lemma ReplaceFirst(ids: seq<int>, c: int)
    requires Distinct(ids) && ids != [] && c !in ids
    ensures Distinct(ids[0 := c]) && Elements(ids[0 := c]) == Elements(ids) - {ids[0]} + {c}
  {
    assert ids == [ids[0]] + ids[1..] && ids[0 := c] == [c] + ids[1..];
    assert Elements(ids) == {ids[0]} + Elements(ids[1..]) && Elements(ids[0 := c]) == {c} + Elements(ids[1..]);
    assert ids[0] !in ids[1..];
  }

  lemma AdmittedApart(candidates: seq<Entry>, survivors: set<int>, admitted: nat)
    requires Elements(Ids(candidates)) !! survivors && admitted <= |candidates|
    ensures Elements(Ids(candidates[..admitted])) !! survivors
  {
    assert forall a | 0 <= a < admitted ::
      Ids(candidates[..admitted])[a] == Ids(candidates)[a] && Ids(candidates)[a] in Elements(Ids(candidates));
  }

  // What replacing the lowest entry by the next candidate does to the local ids.
  lemma SwapIds(local: seq<Entry>, candidates: seq<Entry>, survivors: set<int>, kept: set<int>, admitted: nat)
    requires Distinct(Ids(candidates)) && Elements(Ids(candidates)) !! survivors && kept <= survivors
    requires local != [] && Distinct(Ids(local)) && local[0].id in kept && admitted < |candidates|
    requires Elements(Ids(local)) == kept + Elements(Ids(candidates[..admitted]))
    ensures var swapped := local[0 := candidates[admitted]];
      && Distinct(Ids(swapped))
      && Elements(Ids(swapped)) == kept - {local[0].id} + Elements(Ids(candidates[..admitted + 1]))
  {
    var c, ids, joined := candidates[admitted], Ids(local), Ids(candidates[..admitted]);
    NotAdmittedYet(candidates, survivors, kept, admitted, admitted);
    assert c.id !in ids by { assert c.id in ids ==> c.id in Elements(ids); }
    ReplaceFirst(ids, c.id);
    assert Ids(local[0 := c]) == ids[0 := c.id];
    AdmittedApart(candidates, survivors, admitted);
    TakeNext(candidates, admitted);
    assert Ids(candidates[..admitted + 1]) == joined + [c.id];
    ElementsAppend(joined, c.id);
  }

  // The admission loop. Its guarantee needs distinct candidates and non-negative loads;
  // without them it still only mixes local experts and candidates, within the target size.
  method Admit(start: seq<Entry>, candidates: seq<Entry>, target: nat, loads: seq<real>)
    returns (local: seq<Entry>, ghost kept: set<int>, ghost admitted: nat)
    requires |start| <= target && Ranked(start, loads)
    requires Scored(candidates, loads) && Sorted(candidates, Descending())
    ensures |local| <= target
    ensures forall x | x in local :: x in start || x in candidates
    ensures AdmissionPre(candidates, loads, Elements(Ids(start))) ==>
              Ranked(local, loads) &&
              AdmissionInv(local, candidates, target, loads, Elements(Ids(start)), kept, admitted, |candidates|)
  {
    ghost var survivors := Elements(Ids(start));
    ghost var sound := AdmissionPre(candidates, loads, survivors);
    local, kept, admitted := start, survivors, 0;
    assert candidates[..0] == [];
    var i := 0;
    while i < |candidates|
      invariant 0 <= i <= |candidates| && |local| <= target
      invariant forall x | x in local :: x in start || x in candidates
      invariant sound ==> Ranked(local, loads) &&
                          AdmissionInv(local, candidates, target, loads, survivors, kept, admitted, i)
    {
      ghost var before := local;
      if |local| < target {
        local := Sort(local + [candidates[i]], Ascending());
        SameElements(local, before + [candidates[i]]);
        if sound {
          PushKeeps(before, local, candidates, target, loads, survivors, kept, admitted, i);
          admitted := admitted + 1;
        }
      } else if local == [] {
        if sound { assert AdmissionInv(local, candidates, target, loads, survivors, kept, admitted, |candidates|); }
        break;
      } else if candidates[i].load > local[0].load * (1.0 + HYSTERESIS_RATIO) {
        local := Sort(local[0 := candidates[i]], Ascending());
        SameElements(local, before[0 := candidates[i]]);
        if sound {
          ReplaceKeeps(before, local, candidates, target, loads, survivors, kept, admitted, i);
          kept, admitted := kept - {before[0].id}, admitted + 1;
        }
      } else if sound && admitted < i {
        assert Descending()(candidates[admitted], candidates[i]);
      }
      i := i + 1;
    }
  }

  // The admission loop has seen every candidate.
  ghost predicate Concluded(hot: seq<int>, loads: seq<real>, nExperts: int, survivors: set<int>,
                            candidates: seq<Entry>, local: seq<Entry>, kept: set<int>, admitted: nat) {
    && Elements(Ids(candidates)) == Eligible(hot, nExperts) - survivors
    && AdmissionPre(candidates, loads, survivors) && Ranked(local, loads) && |local| <= |hot|
    && AdmissionInv(local, candidates, |hot|, loads, survivors, kept, admitted, |candidates|)
  }

  lemma ChosenIds(hot: seq<int>, loads: seq<real>, nExperts: int, survivors: set<int>,
                  candidates: seq<Entry>, local: seq<Entry>, kept: set<int>, admitted: nat)
    requires Concluded(hot, loads, nExperts, survivors, candidates, local, kept, admitted)
    ensures var chosen, pool := Elements(Ids(local)), survivors + Eligible(hot, nExperts);
      && chosen <= pool && survivors - chosen == survivors - kept
      && |chosen| == (if |pool| <= |hot| then |pool| else |hot|)
  {
    var chosen, pool := Elements(Ids(local)), survivors + Eligible(hot, nExperts);
    var joined := Elements(Ids(candidates[..admitted]));
    assert joined <= Elements(Ids(candidates)) by {
      assert forall a | 0 <= a < admitted :: Ids(candidates[..admitted])[a] == Ids(candidates)[a];
    }
    DistinctSize(Ids(local));
    SubsetSize(chosen, pool);
    if |local| < |hot| {
      assert candidates[..admitted] == candidates;
      assert chosen == pool;
    }
  }

  // A newcomer is one of the admitted prefix; an expert left out comes after it.
  lemma NewcomerIsAdmitted(hot: seq<int>, loads: seq<real>, nExperts: int, survivors: set<int>,
                           candidates: seq<Entry>, local: seq<Entry>, kept: set<int>, admitted: nat,
                            id: int) returns (i: nat)
    requires Concluded(hot, loads, nExperts, survivors, candidates, local, kept, admitted)
    requires id in Elements(Ids(local)) - survivors
    ensures i < admitted && candidates[i].id == id
  {
    assert id in Ids(candidates[..admitted]);
    i :| 0 <= i < admitted && Ids(candidates[..admitted])[i] == id;
  }

  lemma OutsiderIsRejected(hot: seq<int>, loads: seq<real>, nExperts: int, survivors: set<int>,
                           candidates: seq<Entry>, local: seq<Entry>, kept: set<int>, admitted: nat,
                            id: int) returns (i: nat)
    requires Concluded(hot, loads, nExperts, survivors, candidates, local, kept, admitted)
    requires id in Eligible(hot, nExperts) - survivors - Elements(Ids(local))
    ensures admitted <= i < |candidates| && candidates[i].id == id
    ensures Score(loads, id) <= candidates[admitted].load
  {
    assert forall a | 0 <= a < admitted ::
      Ids(candidates[..admitted])[a] == Ids(candidates)[a] &&
      Ids(candidates)[a] in Elements(Ids(candidates[..admitted]));
    assert id in Ids(candidates);
    i :| 0 <= i < |candidates| && Ids(candidates)[i] == id;
    assert i > admitted ==> Descending()(candidates[admitted], candidates[i]);
  }

  lemma AdmissionSelects(previous: seq<int>, hot: seq<int>, loads: seq<real>, nExperts: int, survivors: set<int>,
                         candidates: seq<Entry>, local: seq<Entry>, kept: set<int>, admitted: nat)
    requires IsTop(survivors, Eligible(previous, nExperts), |hot|, loads)
    requires Concluded(hot, loads, nExperts, survivors, candidates, local, kept, admitted)
    ensures IsSelection(previous, hot, loads, nExperts, survivors, Ids(local))
  {
    var chosen, hotIds := Elements(Ids(local)), Eligible(hot, nExperts);
    ChosenIds(hot, loads, nExperts, survivors, candidates, local, kept, admitted);
    forall e, k | e in survivors - chosen && k in chosen ensures Score(loads, e) <= Score(loads, k) {
      var i :| 0 <= i < |local| && Ids(local)[i] == k;
    }
    forall r, a | r in hotIds - survivors - chosen && a in chosen - survivors
      ensures Score(loads, r) <= Score(loads, a)
    {
      var i := NewcomerIsAdmitted(hot, loads, nExperts, survivors, candidates, local, kept, admitted, a);
      var k := OutsiderIsRejected(hot, loads, nExperts, survivors, candidates, local, kept, admitted, r);
      assert Descending()(candidates[i], candidates[k]);
    }
    forall e, a | e in survivors - chosen && a in chosen - survivors ensures Beats(loads, a, e) {
      var i := NewcomerIsAdmitted(hot, loads, nExperts, survivors, candidates, local, kept, admitted, a);
    }
    forall o, n | o in hotIds - chosen && n in chosen ensures !Beats(loads, o, n) {
      var i :| 0 <= i < |local| && Ids(local)[i] == n;
      assert i > 0 ==> Ascending()(local[0], local[i]);
      assert local[i].load >= 0.0;
      if o !in survivors {
        var k := OutsiderIsRejected(hot, loads, nExperts, survivors, candidates, local, kept, admitted, o);
      }
    }
  }

  // What a selection means in terms of the loads, an expert beyond the list having none: an expert that stays
  // local or joins has at least the load of every local one that goes, and one that joins more than 1.15
  // times it; a hot expert left outside has at most 1.15 times the load of any selected one, and at most the
  // load of any that joined.
  ghost predicate GoesByLoad(previous: seq<int>, hot: seq<int>, loads: seq<real>, nExperts: int, selected: seq<int>) {
    && (forall e, a | 0 <= e < nExperts && e in previous && e !in selected && a in selected ::
          && (if e < |loads| then loads[e] else 0.0) <= (if 0 <= a < |loads| then loads[a] else 0.0)
          && (a !in previous ==> 0 <= a < |loads| && loads[a] > 1.15 * if e < |loads| then loads[e] else 0.0))
    && (forall o, n | 0 <= o < nExperts && o in hot && o !in selected && n in selected ::
          && (if o < |loads| then loads[o] else 0.0) <= 1.15 * (if 0 <= n < |loads| then loads[n] else 0.0)
          && (n !in previous ==>
                (if o < |loads| then loads[o] else 0.0) <= if 0 <= n < |loads| then loads[n] else 0.0))
  }

  lemma SelectionGoesByLoad(previous: seq<int>, hot: seq<int>, loads: seq<real>, nExperts: int, survivors: set<int>,
                            selected: seq<int>)
    requires NonNegative(loads) && IsSelection(previous, hot, loads, nExperts, survivors, selected)
    ensures GoesByLoad(previous, hot, loads, nExperts, selected)
  {
    forall e, a | 0 <= e < nExperts && e in previous && e !in selected && a in selected
      ensures Score(loads, e) <= Score(loads, a)
      ensures a !in previous ==> 0 <= a < |loads| && Score(loads, a) > 1.15 * Score(loads, e)
    {
      LeavesForMore(previous, hot, loads, nExperts, survivors, selected, e, a);
    }
    forall o, n | 0 <= o < nExperts && o in hot && o !in selected && n in selected
      ensures Score(loads, o) <= 1.15 * Score(loads, n)
      ensures n !in previous ==> Score(loads, o) <= Score(loads, n)
    {
      StaysOutside(previous, hot, loads, nExperts, survivors, selected, o, n);
    }
  }

  // Whoever goes was no more loaded than the survivor that was evicted, if anybody joined at all.
  lemma LeavesForMore(previous: seq<int>, hot: seq<int>, loads: seq<real>, nExperts: int, survivors: set<int>,
                      selected: seq<int>, e: int, a: int)
    requires NonNegative(loads) && IsSelection(previous, hot, loads, nExperts, survivors, selected)
    requires 0 <= e < nExperts && e in previous && e !in selected && a in selected
    ensures Score(loads, e) <= Score(loads, a)
    ensures a !in previous ==> 0 <= a < |loads| && Score(loads, a) > 1.15 * Score(loads, e)
  {
    var chosen, local := Elements(selected), Eligible(previous, nExperts);
    if e !in survivors && a !in survivors {
      var out := Evicted(previous, hot, loads, nExperts, survivors, selected, a);
      assert Beats(loads, a, out);
    }
    if a !in previous && e in survivors { assert Beats(loads, a, e); }
  }

  lemma Evicted(previous: seq<int>, hot: seq<int>, loads: seq<real>, nExperts: int, survivors: set<int>,
                selected: seq<int>, a: int) returns (out: int)
    requires IsSelection(previous, hot, loads, nExperts, survivors, selected)
    requires a in selected && a !in survivors && survivors < Eligible(previous, nExperts)
    ensures out in survivors - Elements(selected)
  {
    var chosen, local := Elements(selected), Eligible(previous, nExperts);
    SmallerSubset(survivors, local);
    SubsetSize(chosen, survivors + Eligible(hot, nExperts));
    if survivors <= chosen { SubsetSize(survivors + {a}, chosen); }
    out :| out in survivors && out !in chosen;
  }

  lemma SmallerSubset(a: set<int>, b: set<int>)
    requires a < b
    ensures |a| < |b|
  {
    SubsetSize(a, b);
  }

  lemma StaysOutside(previous: seq<int>, hot: seq<int>, loads: seq<real>, nExperts: int, survivors: set<int>,
                     selected: seq<int>, o: int, n: int)
    requires NonNegative(loads) && IsSelection(previous, hot, loads, nExperts, survivors, selected)
    requires 0 <= o < nExperts && o in hot && o !in selected && n in selected
    ensures Score(loads, o) <= 1.15 * Score(loads, n)
    ensures n !in previous ==> Score(loads, o) <= Score(loads, n)
  {
    var chosen, hotIds := Elements(selected), Eligible(hot, nExperts);
    assert o in hotIds - chosen && n in chosen && !Beats(loads, o, n);
    if n !in previous { assert n in chosen - survivors; }
  }

  /** SelectLocalExpertsWithHysteresis. */
  method Select(previous: seq<int>, hot: seq<int>, loads: seq<real>, nExperts: int)
    returns (selected: seq<int>, ghost survivors: set<int>)
    ensures |selected| <= |hot|
    ensures forall id | id in selected :: 0 <= id < nExperts && (id in previous || id in hot)
    ensures Distinct(hot) && NonNegative(loads) ==> IsSelection(previous, hot, loads, nExperts, survivors, selected)
    ensures Distinct(hot) && NonNegative(loads) ==> GoesByLoad(previous, hot, loads, nExperts, selected)
  {
    var ranked := RankPrevious(previous, loads, nExperts);
    var truncated := Truncate(ranked, |hot|, loads);
    survivors := Elements(Ids(truncated));
    var found := Candidates(hot, Elements(Ids(truncated)), loads, nExperts);
    var candidates := Sort(found, Descending());
    Permuted(candidates, found, loads);
    var start := Sort(truncated, Ascending());
    Permuted(start, truncated, loads);
    var local;
    ghost var kept, admitted;
    local, kept, admitted := Admit(start, candidates, |hot|, loads);
    selected := Ids(local);
    forall id | id in selected ensures 0 <= id < nExperts && (id in previous || id in hot) {
      var i :| 0 <= i < |local| && selected[i] == id;
      assert local[i] in start || local[i] in candidates;
      if local[i] in start {
        var k :| 0 <= k < |start| && start[k] == local[i];
        assert Ids(start)[k] in Elements(Ids(start));
      } else {
        var k :| 0 <= k < |candidates| && candidates[k] == local[i];
        assert Ids(candidates)[k] in Elements(Ids(candidates));
      }
    }
    if Distinct(hot) && NonNegative(loads) {
      AdmissionSelects(previous, hot, loads, nExperts, survivors, candidates, local, kept, admitted);
      SelectionGoesByLoad(previous, hot, loads, nExperts, survivors, selected);
    }
  }

  // Only the loads of ids that name an expert matter.
  lemma SelectionDependsOnScores(previous: seq<int>, hot: seq<int>, loads: seq<real>, loads': seq<real>, nExperts: int,
                                 survivors: set<int>, selected: seq<int>)
    requires forall id | 0 <= id < nExperts :: Score(loads, id) == Score(loads', id)
    requires IsSelection(previous, hot, loads, nExperts, survivors, selected)
    ensures IsSelection(previous, hot, loads', nExperts, survivors, selected)
  {}

  /* ---- What the rebalancer gets out of it ---- */

  // With hot ids that name experts the set always has exactly the hot set's size.
  lemma SelectionSize(previous: seq<int>, hot: seq<int>, loads: seq<real>, nExperts: int, survivors: set<int>,
                      selected: seq<int>)
    requires IsSelection(previous, hot, loads, nExperts, survivors, selected)
    requires Distinct(hot) && forall id | id in hot :: 0 <= id < nExperts
    ensures |selected| == |hot|
  {
    DistinctSize(selected);
    DistinctSize(hot);
    assert Eligible(hot, nExperts) == Elements(hot);
    SubsetSize(Elements(hot), survivors + Elements(hot));
  }

  // A full set of distinct experts is selected again exactly when it is stable.
  lemma KeptIffStable(previous: seq<int>, hot: seq<int>, loads: seq<real>, nExperts: int, survivors: set<int>,
                      selected: seq<int>)
    requires IsSelection(previous, hot, loads, nExperts, survivors, selected)
    requires Distinct(previous) && |previous| == |hot| && forall id | id in previous :: 0 <= id < nExperts
    ensures Elements(selected) == Elements(previous) <==> Stable(Elements(previous), Eligible(hot, nExperts), loads)
  {
    var chosen := Elements(selected);
    DistinctSize(previous);
    assert Eligible(previous, nExperts) == Elements(previous);
    SubsetSize(survivors, Elements(previous));
    SubsetSize(survivors, survivors + Eligible(hot, nExperts));
    if Stable(survivors, Eligible(hot, nExperts), loads) && chosen != survivors {
      var e, a := OneEach(survivors, chosen);
    }
  }

  // Rerunning the selection on its own result, with the same hot set and loads, changes
  // nothing, however either run broke its ties.
  lemma SelectionIsAFixpoint(previous: seq<int>, hot: seq<int>, loads: seq<real>, nExperts: int,
                             survivors: set<int>, selected: seq<int>, survivors': set<int>, again: seq<int>)
    requires Distinct(hot) && forall id | id in hot :: 0 <= id < nExperts
    requires IsSelection(previous, hot, loads, nExperts, survivors, selected)
    requires IsSelection(selected, hot, loads, nExperts, survivors', again)
    ensures Elements(again) == Elements(selected)
  {
    SelectionSize(previous, hot, loads, nExperts, survivors, selected);
    forall id | id in selected ensures 0 <= id < nExperts { assert id in Elements(selected); }
    KeptIffStable(selected, hot, loads, nExperts, survivors', again);
  }

  lemma TopIsUnique(top: set<int>, top': set<int>, pool: set<int>, size: nat, loads: seq<real>)
    requires IsTop(top, pool, size, loads) && IsTop(top', pool, size, loads)
    requires forall x, y | x in pool && y in pool :: Score(loads, x) == Score(loads, y) ==> x == y
    ensures top == top'
  {
    if top != top' { var x, y := OneEach(top, top'); }
  }

  // When no two experts have the same load, ties cannot matter and the set is determined.
  lemma TieFreeSelectionIsUnique(previous: seq<int>, hot: seq<int>, loads: seq<real>, nExperts: int,
                                 survivors: set<int>, selected: seq<int>, survivors': set<int>, selected': seq<int>)
    requires IsSelection(previous, hot, loads, nExperts, survivors, selected)
    requires IsSelection(previous, hot, loads, nExperts, survivors', selected')
    requires forall x, y | x in Eligible(previous + hot, nExperts) && y in Eligible(previous + hot, nExperts) ::
               Score(loads, x) == Score(loads, y) ==> x == y
    ensures Elements(selected) == Elements(selected')
  {
    assert Eligible(previous + hot, nExperts) == Eligible(previous, nExperts) + Eligible(hot, nExperts);
    TopIsUnique(survivors, survivors', Eligible(previous, nExperts), |hot|, loads);
    if Elements(selected) != Elements(selected') {
      var x, y := OneEach(Elements(selected), Elements(selected'));
      ExchangeIsATie(previous, hot, loads, nExperts, survivors, selected, selected', x, y);
    }
  }

  // Two selections from the same survivors can differ only by experts of equal load.
  lemma ExchangeIsATie(previous: seq<int>, hot: seq<int>, loads: seq<real>, nExperts: int, survivors: set<int>,
                       selected: seq<int>, selected': seq<int>, x: int, y: int)
    requires IsSelection(previous, hot, loads, nExperts, survivors, selected)
    requires IsSelection(previous, hot, loads, nExperts, survivors, selected')
    requires x in Elements(selected) - Elements(selected') && y in Elements(selected') - Elements(selected)
    ensures Score(loads, x) == Score(loads, y)
  {
    var yWins, xWins := Beats(loads, y, x), Beats(loads, x, y);
  }

  lemma OneEach(a: set<int>, b: set<int>) returns (x: int, y: int)
    requires |a| == |b| && a != b
    ensures x in a - b && y in b - a
  {
    if forall z | z in a :: z in b { SubsetSize(a, b); }
    if forall z | z in b :: z in a { SubsetSize(b, a); }
    x :| x in a && x !in b;
    y :| y in b && y !in a;
  }

  method SelectTwice(previous: seq<int>, hot: seq<int>, loads: seq<real>, nExperts: int)
    returns (first: seq<int>, second: seq<int>)
    requires Distinct(hot) && NonNegative(loads) && forall id | id in hot :: 0 <= id < nExperts
    ensures Elements(first) == Elements(second) && |first| == |second| == |hot|
  {
    ghost var survivors, survivors';
    first, survivors := Select(previous, hot, loads, nExperts);
    second, survivors' := Select(first, hot, loads, nExperts);
    SelectionIsAFixpoint(previous, hot, loads, nExperts, survivors, first, survivors', second);
    SelectionSize(previous, hot, loads, nExperts, survivors, first);
    SelectionSize(first, hot, loads, nExperts, survivors', second);
  }
}
