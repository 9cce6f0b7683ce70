/** Routing of tokens to experts, and the counting sort that packs the assignments by expert. */
module Reorder {
  import opened Arithmetic

  // MoERouteResult: assignment i sends a token to experts[i] with weights[i]. Without explicit
  // tokens, each token owns topK consecutive assignments.
  datatype Routing = Routing(experts: seq<int>, weights: seq<real>, tokens: seq<int>, batchSize: int, topK: int)

  predicate WellFormed(r: Routing) {
    && |r.weights| >= |r.experts|
    && (if r.tokens == [] then r.topK > 0 else |r.tokens| >= |r.experts|)
  }

  function TokenOf(r: Routing, i: nat): int
    requires WellFormed(r) && i < |r.experts|
  {
    if r.tokens != [] then r.tokens[i] else i / r.topK
  }

  // Assignments with an unknown expert or token are skipped everywhere.
  predicate Routed(r: Routing, num: int, i: nat)
    requires WellFormed(r) && i < |r.experts|
  {
    0 <= r.experts[i] < num && 0 <= TokenOf(r, i) < r.batchSize
  }

  // The assignments below `n` that go to expert e, in routing order.
  function Rows(r: Routing, num: int, e: int, n: nat): seq<nat>
    requires WellFormed(r) && n <= |r.experts|
  {
    if n == 0 then []
    else Rows(r, num, e, n - 1) + (if Routed(r, num, n - 1) && r.experts[n - 1] == e then [n - 1] else [])
  }

  // All the assignments of the experts below k, expert by expert: the packed order.
  function PackedOrder(r: Routing, num: int, k: nat): seq<nat>
    requires WellFormed(r)
  {
    if k == 0 then [] else PackedOrder(r, num, k - 1) + Rows(r, num, k - 1, |r.experts|)
  }

  /* ---- The packed order is a permutation of the routed assignments ---- */

  lemma {:induction false} RowsMembers(r: Routing, num: int, e: int, n: nat, p: nat)
    requires WellFormed(r) && n <= |r.experts| && p < |Rows(r, num, e, n)|
    ensures var i := Rows(r, num, e, n)[p];
      i < n && Routed(r, num, i) && r.experts[i] == e && |Rows(r, num, e, i)| == p
  {
    if p < |Rows(r, num, e, n - 1)| { RowsMembers(r, num, e, n - 1, p); }
  }

  lemma {:induction false} RowsPrefix(r: Routing, num: int, e: int, m: nat, n: nat)
    requires WellFormed(r) && m <= n <= |r.experts|
    ensures Rows(r, num, e, m) <= Rows(r, num, e, n)
  {
    if m < n { RowsPrefix(r, num, e, m, n - 1); }
  }

  lemma {:induction false} PackedPrefix(r: Routing, num: int, j: nat, k: nat)
    requires WellFormed(r) && j <= k
    ensures PackedOrder(r, num, j) <= PackedOrder(r, num, k)
  {
    if j < k { PackedPrefix(r, num, j, k - 1); }
  }

  // Where the rows of expert k start, how many it has, and where its next row goes once the
  // assignments below i are placed.
  function Start(r: Routing, num: int, k: nat): nat requires WellFormed(r) { |PackedOrder(r, num, k)| }

  function Load(r: Routing, num: int, e: int): nat requires WellFormed(r) { |Rows(r, num, e, |r.experts|)| }

  function Cursor(r: Routing, num: int, e: nat, i: nat): nat
    requires WellFormed(r) && i <= |r.experts|
  {
    Start(r, num, e) + |Rows(r, num, e, i)|
  }

  lemma CursorNext(r: Routing, num: int, e: nat, i: nat)
    requires WellFormed(r) && i < |r.experts|
    ensures Cursor(r, num, e, i + 1) == Cursor(r, num, e, i) + if Routed(r, num, i) && r.experts[i] == e then 1 else 0
  {}

  // Where assignment i lands: behind the earlier experts, and behind the earlier assignments of
  // its own expert.
  function Slot(r: Routing, num: int, i: nat): nat
    requires WellFormed(r) && i < |r.experts| && Routed(r, num, i)
  {
    |PackedOrder(r, num, r.experts[i])| + |Rows(r, num, r.experts[i], i)|
  }

  lemma SlotHolds(r: Routing, num: int, i: nat)
    requires WellFormed(r) && i < |r.experts| && Routed(r, num, i)
    ensures |Rows(r, num, r.experts[i], i)| < |Rows(r, num, r.experts[i], |r.experts|)|
    ensures Slot(r, num, i) < |PackedOrder(r, num, r.experts[i] + 1)| <= |PackedOrder(r, num, num)|
    ensures PackedOrder(r, num, num)[Slot(r, num, i)] == i
  {
    var e := r.experts[i];
    RowsPrefix(r, num, e, i + 1, |r.experts|);
    PackedPrefix(r, num, e + 1, num);
    assert Rows(r, num, e, i + 1)[|Rows(r, num, e, i)|] == i;
    assert PackedOrder(r, num, e + 1)[Slot(r, num, i)] == i;
  }

  lemma {:induction false} SlotOnto(r: Routing, num: int, k: nat, p: nat)
    requires WellFormed(r) && k <= num && p < |PackedOrder(r, num, k)|
    ensures var i := PackedOrder(r, num, k)[p];
      i < |r.experts| && Routed(r, num, i) && r.experts[i] < k && Slot(r, num, i) == p
  {
    var before := |PackedOrder(r, num, k - 1)|;
    if p < before { SlotOnto(r, num, k - 1, p); } else { RowsMembers(r, num, k - 1, |r.experts|, p - before); }
  }

  /* ---- The reorder map ---- */

  datatype ReorderMap = ReorderMap(offsets: seq<int>, tokens: seq<int>, weights: seq<real>, maxExpertBatch: int)

  datatype Option<T> = None | Some(value: T)

  // Room reserved for routing: experts, tokens, and experts per token.
  datatype Workspace = Workspace(maxExperts: int, maxTokens: int, maxTopK: int)

  // The map lists the packed order: one entry per routed assignment, expert by expert, each
  // expert's own in routing order.
  ghost predicate Packs(map_: ReorderMap, r: Routing, num: int)
    requires WellFormed(r) && num >= 0
  {
    var order := PackedOrder(r, num, num);
    && |map_.offsets| == num + 1
    && (forall e: nat | e <= num :: map_.offsets[e] == Start(r, num, e))
    && |map_.tokens| == |map_.weights| == |order|
    && PlacedBelow(map_.tokens, map_.weights, r, num, |r.experts|)
    && (forall e: nat | e < num :: Load(r, num, e) <= map_.maxExpertBatch)
    && (map_.maxExpertBatch == 0 || exists e: nat | e < num :: Load(r, num, e) == map_.maxExpertBatch)
  }

  predicate Placed(tokens: seq<int>, weights: seq<real>, r: Routing, num: int, i: nat)
    requires WellFormed(r) && i < |r.experts| && Routed(r, num, i)
  {
    Entry(tokens, weights, Slot(r, num, i), TokenOf(r, i), r.weights[i])
  }

  predicate Entry(tokens: seq<int>, weights: seq<real>, p: nat, token: int, weight: real) {
    p < |tokens| == |weights| && tokens[p] == token && weights[p] == weight
  }

  method CountRows(r: Routing, num: int) returns (counts: seq<int>)
    requires WellFormed(r) && num >= 0
    ensures |counts| == num && forall e | 0 <= e < num :: counts[e] == Load(r, num, e)
  {
    counts := seq(num, _ => 0);
    for i := 0 to |r.experts|
      invariant |counts| == num && forall e | 0 <= e < num :: counts[e] == |Rows(r, num, e, i)|
    {
      if Routed(r, num, i) { counts := counts[r.experts[i] := counts[r.experts[i]] + 1]; }
    }
  }

  method PrefixSums(r: Routing, num: int, counts: seq<int>) returns (offsets: seq<int>, largest: int)
    requires WellFormed(r) && num >= 0
    requires |counts| == num && forall e | 0 <= e < num :: counts[e] == Load(r, num, e)
    ensures |offsets| == num + 1 && forall e: nat | e <= num :: offsets[e] == Start(r, num, e)
    ensures forall e: nat | e < num :: Load(r, num, e) <= largest
    ensures largest == 0 || exists e: nat | e < num :: Load(r, num, e) == largest
  {
    offsets, largest := [0], 0;
    ghost var busiest: nat := 0;
    for e := 0 to num
      invariant |offsets| == e + 1 && forall k: nat | k <= e :: offsets[k] == Start(r, num, k)
      invariant forall k: nat | k < e :: Load(r, num, k) <= largest
      invariant largest == 0 || (busiest < e && Load(r, num, busiest) == largest)
    {
      assert Start(r, num, e + 1) == Start(r, num, e) + Load(r, num, e);
      offsets := offsets + [offsets[e] + counts[e]];
      if largest < counts[e] { largest, busiest := counts[e], e; }
    }
  }

  ghost predicate PlacedBelow(tokens: seq<int>, weights: seq<real>, r: Routing, num: int, n: nat)
    requires WellFormed(r) && n <= |r.experts|
  {
    forall i: nat | i < n && Routed(r, num, i) :: Placed(tokens, weights, r, num, i)
  }

  ghost predicate CursorsAt(cursor: seq<int>, r: Routing, num: int, i: nat)
    requires WellFormed(r) && i <= |r.experts| && num >= 0
  {
    |cursor| == num + 1 && forall e: nat | e < num :: cursor[e] == Cursor(r, num, e, i)
  }

  lemma DifferentSlots(r: Routing, num: int, i: nat, j: nat)
    requires WellFormed(r) && j < i < |r.experts| && Routed(r, num, i) && Routed(r, num, j)
    ensures Slot(r, num, i) != Slot(r, num, j)
  {
    SlotHolds(r, num, i);
    SlotHolds(r, num, j);
  }

  lemma EntryPut(tokens: seq<int>, weights: seq<real>, p: nat, t: int, w: real, q: nat, token: int, weight: real)
    requires p < |tokens| == |weights| && q != p && Entry(tokens, weights, q, token, weight)
    ensures Entry(tokens[p := t], weights[p := w], q, token, weight)
  {}

  lemma StillPlaced(tokens: seq<int>, weights: seq<real>, r: Routing, num: int, i: nat, j: nat)
    requires WellFormed(r) && j < i < |r.experts| && num >= 0 && Routed(r, num, i) && Routed(r, num, j)
    requires Slot(r, num, i) < |tokens| == |weights| && Placed(tokens, weights, r, num, j)
    ensures Placed(tokens[Slot(r, num, i) := TokenOf(r, i)], weights[Slot(r, num, i) := r.weights[i]], r, num, j)
  {
    DifferentSlots(r, num, i, j);
    EntryPut(tokens, weights, Slot(r, num, i), TokenOf(r, i), r.weights[i],
             Slot(r, num, j), TokenOf(r, j), r.weights[j]);
  }

  lemma JustPlaced(tokens: seq<int>, weights: seq<real>, r: Routing, num: int, i: nat)
    requires WellFormed(r) && i < |r.experts| && Routed(r, num, i) && Slot(r, num, i) < |tokens| == |weights|
    ensures Placed(tokens[Slot(r, num, i) := TokenOf(r, i)], weights[Slot(r, num, i) := r.weights[i]], r, num, i)
  {}

  // Writing one assignment leaves the earlier ones in place.
  lemma PlaceNext(tokens: seq<int>, weights: seq<real>, r: Routing, num: int, i: nat, p: nat)
    requires WellFormed(r) && i < |r.experts| && num >= 0 && Routed(r, num, i) && p == Slot(r, num, i)
    requires p < |tokens| == |weights| && PlacedBelow(tokens, weights, r, num, i)
    ensures PlacedBelow(tokens[p := TokenOf(r, i)], weights[p := r.weights[i]], r, num, i + 1)
  {
    var token, weight := TokenOf(r, i), r.weights[i];
    forall j: nat | j < i + 1 && Routed(r, num, j)
      ensures Placed(tokens[p := token], weights[p := weight], r, num, j)
    {
      if j < i { StillPlaced(tokens, weights, r, num, i, j); } else { JustPlaced(tokens, weights, r, num, i); }
    }
  }

  lemma SlotBelow(r: Routing, num: int, i: nat)
    requires WellFormed(r) && i < |r.experts| && num >= 0 && Routed(r, num, i)
    ensures Slot(r, num, i) < |PackedOrder(r, num, num)|
  {
    SlotHolds(r, num, i);
  }

  lemma PlaceNone(tokens: seq<int>, weights: seq<real>, r: Routing, num: int, i: nat)
    requires WellFormed(r) && i < |r.experts| && !Routed(r, num, i) && PlacedBelow(tokens, weights, r, num, i)
    ensures PlacedBelow(tokens, weights, r, num, i + 1)
  {}

  lemma AdvanceCursor(cursor: seq<int>, r: Routing, num: int, i: nat)
    requires WellFormed(r) && i < |r.experts| && num >= 0 && CursorsAt(cursor, r, num, i)
    ensures Routed(r, num, i) ==>
      && cursor[r.experts[i]] == Slot(r, num, i)
      && CursorsAt(cursor[r.experts[i] := cursor[r.experts[i]] + 1], r, num, i + 1)
    ensures !Routed(r, num, i) ==> CursorsAt(cursor, r, num, i + 1)
  {
    forall e: nat { CursorNext(r, num, e, i); }
  }

  // The assignments below i are placed, and the cursors stand behind them.
  ghost predicate ScatteredBelow(tokens: seq<int>, weights: seq<real>, cursor: seq<int>, r: Routing, num: int, i: nat)
    requires WellFormed(r) && num >= 0 && i <= |r.experts|
  {
    && |tokens| == |weights| == |PackedOrder(r, num, num)|
    && CursorsAt(cursor, r, num, i) && PlacedBelow(tokens, weights, r, num, i)
  }

  lemma ScatterNext(tokens: seq<int>, weights: seq<real>, cursor: seq<int>, r: Routing, num: int, i: nat)
    requires WellFormed(r) && num >= 0 && i < |r.experts| && ScatteredBelow(tokens, weights, cursor, r, num, i)
    ensures !Routed(r, num, i) ==> ScatteredBelow(tokens, weights, cursor, r, num, i + 1)
    ensures Routed(r, num, i) ==>
      var e, pos := r.experts[i], cursor[r.experts[i]];
      && 0 <= pos < |tokens|
      && ScatteredBelow(tokens[pos := TokenOf(r, i)], weights[pos := r.weights[i]], cursor[e := pos + 1], r, num, i + 1)
  {
    AdvanceCursor(cursor, r, num, i);
    if Routed(r, num, i) {
      SlotBelow(r, num, i);
      PlaceNext(tokens, weights, r, num, i, cursor[r.experts[i]]);
    } else {
      PlaceNone(tokens, weights, r, num, i);
    }
  }

  method Scatter(r: Routing, num: int, offsets: seq<int>, total: int) returns (tokens: seq<int>, weights: seq<real>)
    requires WellFormed(r) && num >= 0
    requires |offsets| == num + 1 && forall e: nat | e <= num :: offsets[e] == Start(r, num, e)
    requires total == |PackedOrder(r, num, num)|
    ensures |tokens| == |weights| == total && PlacedBelow(tokens, weights, r, num, |r.experts|)
  {
    tokens, weights := seq(total, _ => 0), seq(total, _ => 0.0);
    var cursor := offsets;
    for i := 0 to |r.experts|
      invariant ScatteredBelow(tokens, weights, cursor, r, num, i)
    {
      ScatterNext(tokens, weights, cursor, r, num, i);
      if Routed(r, num, i) {
        var pos := cursor[r.experts[i]];
        cursor := cursor[r.experts[i] := pos + 1];
        if 0 <= pos < total {
          tokens, weights := tokens[pos := TokenOf(r, i)], weights[pos := r.weights[i]];
        }
      }
    }
  }

  // Read backwards: every packed entry is one routed assignment, in its place, and none is missing.
  lemma PackedEntries(map_: ReorderMap, r: Routing, num: int, p: nat)
    requires WellFormed(r) && num >= 0 && Packs(map_, r, num) && p < |map_.tokens|
    ensures var i := PackedOrder(r, num, num)[p];
      && i < |r.experts| && Routed(r, num, i)
      && map_.tokens[p] == TokenOf(r, i) && map_.weights[p] == r.weights[i]
      && map_.offsets[r.experts[i]] <= p < map_.offsets[r.experts[i] + 1]
  {
    SlotOnto(r, num, num, p);
    var i := PackedOrder(r, num, num)[p];
    SlotHolds(r, num, i);
    assert Placed(map_.tokens, map_.weights, r, num, i);
  }

  /* ---- The map in the routing's own terms ---- */

  // Assignment i sends token t to a known expert: it names the token, or lies among the token's topK.
  predicate GoesTo(r: Routing, num: int, i: nat, t: int) {
    && i < |r.experts| && 0 <= r.experts[i] < num && 0 <= t < r.batchSize
    && if r.tokens != [] then i < |r.tokens| && r.tokens[i] == t else t * r.topK <= i < t * r.topK + r.topK
  }

  lemma GoesToItsToken(r: Routing, num: int, i: nat, t: int)
    requires WellFormed(r) && i < |r.experts|
    ensures GoesTo(r, num, i, t) <==> Routed(r, num, i) && TokenOf(r, i) == t
  {
    if r.tokens == [] && t >= 0 {
      DivBounds(i, r.topK, t);
      DivBounds(i, r.topK, t + 1);
      assert (t + 1) * r.topK == t * r.topK + r.topK;
    }
  }

  // `order` lists the assignments that go somewhere, each once, by expert and then in routing order; row p of
  // the map is the token and weight of assignment order[p], and lies in the range of its expert.
  ghost predicate GroupsByExpert(map_: ReorderMap, r: Routing, num: int, order: seq<nat>) {
    && |order| == |map_.tokens| == |map_.weights| && num >= 0 && |map_.offsets| == num + 1
    && map_.offsets[0] == 0 && map_.offsets[num] == |order|
    && (forall p: nat | p < |order| :: RowIs(map_, r, num, p, order[p]))
    && (forall p: nat, q: nat | p < q < |order| && order[p] < |r.experts| && order[q] < |r.experts| ::
          r.experts[order[p]] < r.experts[order[q]] ||
          (r.experts[order[p]] == r.experts[order[q]] && order[p] < order[q]))
    && (forall i: nat, t: int | GoesTo(r, num, i, t) :: i in order)
    && (forall e: nat | e < num :: map_.offsets[e + 1] - map_.offsets[e] <= map_.maxExpertBatch)
    && (map_.maxExpertBatch == 0 ||
        exists e: nat | e < num :: map_.offsets[e + 1] - map_.offsets[e] == map_.maxExpertBatch)
  }

  predicate RowIs(map_: ReorderMap, r: Routing, num: int, p: nat, i: nat) {
    && p < |map_.tokens| == |map_.weights| && i < |r.experts| <= |r.weights| && |map_.offsets| == num + 1
    && GoesTo(r, num, i, map_.tokens[p]) && map_.weights[p] == r.weights[i]
    && map_.offsets[r.experts[i]] <= p < map_.offsets[r.experts[i] + 1]
  }

  lemma RowIsAssignment(map_: ReorderMap, r: Routing, num: int, p: nat)
    requires WellFormed(r) && num >= 0 && Packs(map_, r, num) && p < |map_.tokens|
    ensures RowIs(map_, r, num, p, PackedOrder(r, num, num)[p])
  {
    PackedEntries(map_, r, num, p);
    var i := PackedOrder(r, num, num)[p];
    GoesToItsToken(r, num, i, map_.tokens[p]);
  }

  // Positions in the packed order follow the experts, and for one expert the routing.
  lemma PackedInOrder(r: Routing, num: int, p: nat, q: nat)
    requires WellFormed(r) && num >= 0 && p < q < |PackedOrder(r, num, num)|
    ensures var i, j := PackedOrder(r, num, num)[p], PackedOrder(r, num, num)[q];
      && i < |r.experts| && j < |r.experts|
      && (r.experts[i] < r.experts[j] || (r.experts[i] == r.experts[j] && i < j))
  {
    SlotOnto(r, num, num, p);
    SlotOnto(r, num, num, q);
    var i, j := PackedOrder(r, num, num)[p], PackedOrder(r, num, num)[q];
    if r.experts[j] < r.experts[i] {
      SlotHolds(r, num, j);
      PackedPrefix(r, num, r.experts[j] + 1, r.experts[i]);
    } else if r.experts[i] == r.experts[j] && j < i {
      RowsPrefix(r, num, r.experts[i], j, i);
    }
  }

  /** A built map groups the routed assignments by expert. */
  lemma MapGroups(map_: ReorderMap, r: Routing, num: int)
    requires WellFormed(r) && num >= 0 && Packs(map_, r, num)
    ensures GroupsByExpert(map_, r, num, PackedOrder(r, num, num))
  {
    var order := PackedOrder(r, num, num);
    forall p: nat | p < |order| ensures RowIs(map_, r, num, p, order[p]) { RowIsAssignment(map_, r, num, p); }
    forall p: nat, q: nat | p < q < |order| && order[p] < |r.experts| && order[q] < |r.experts|
      ensures r.experts[order[p]] < r.experts[order[q]] ||
        (r.experts[order[p]] == r.experts[order[q]] && order[p] < order[q])
    {
      PackedInOrder(r, num, p, q);
    }
    forall i: nat, t: int | GoesTo(r, num, i, t) ensures i in order {
      GoesToItsToken(r, num, i, t);
      SlotHolds(r, num, i);
    }
    LoadsAreRanges(map_, r, num);
  }

  lemma LoadsAreRanges(map_: ReorderMap, r: Routing, num: int)
    requires WellFormed(r) && num >= 0 && Packs(map_, r, num)
    ensures map_.offsets[0] == 0 && map_.offsets[num] == |PackedOrder(r, num, num)|
    ensures forall e: nat | e < num :: map_.offsets[e + 1] - map_.offsets[e] <= map_.maxExpertBatch
    ensures map_.maxExpertBatch == 0 ||
      exists e: nat | e < num :: map_.offsets[e + 1] - map_.offsets[e] == map_.maxExpertBatch
  {
    forall e: nat | e < num ensures map_.offsets[e + 1] - map_.offsets[e] == Load(r, num, e) {
      assert map_.offsets[e + 1] == Start(r, num, e + 1) && map_.offsets[e] == Start(r, num, e);
    }
    if map_.maxExpertBatch != 0 {
      var e: nat :| e < num && Load(r, num, e) == map_.maxExpertBatch;
      assert map_.offsets[e + 1] - map_.offsets[e] == Load(r, num, e);
    }
  }

  /** BuildMoEReorderMap: count, sum, scatter. */
  method BuildReorderMap(r: Routing, num: int, ws: Workspace) returns (res: Option<ReorderMap>)
    requires WellFormed(r)
    ensures res.Some? <==>
      && num > 0 && |r.experts| > 0 && |r.experts| <= ws.maxTokens * ws.maxTopK
      && num <= ws.maxExperts && r.batchSize <= ws.maxTokens && r.topK <= ws.maxTopK
    ensures res.Some? ==> Packs(res.value, r, num)
    ensures res.Some? ==> GroupsByExpert(res.value, r, num, PackedOrder(r, num, num))
  {
    if num <= 0 || |r.experts| <= 0 { return None; }
    if ws.maxExperts < num || ws.maxTokens < r.batchSize || ws.maxTopK < r.topK { return None; }
    if |r.experts| > ws.maxTokens * ws.maxTopK { return None; }
    var counts := CountRows(r, num);
    var offsets, largest := PrefixSums(r, num, counts);
    var tokens, weights := Scatter(r, num, offsets, offsets[num]);
    res := Some(ReorderMap(offsets, tokens, weights, largest));
    MapGroups(res.value, r, num);
  }
}
