/** The byte-budgeted cache of dequantized experts that `ForwardMoE` keeps per layer. A request
    looks up under the lock, dequantizes outside it, and installs under the lock again, so
    between the two sections any number of other requests may run. The timestamped map is
    proved to be a list ordered by recency. */
module DequantCache {
  import Ordering

  datatype Option<T> = None | Some(value: T)

  datatype Entry<V> = Entry(bytes: nat, lastUsed: nat, weights: V)

  datatype Slot<V> = Slot(id: int, bytes: nat, weights: V)

  /* ---- The recency-ordered list: most recently used first ---- */

  function TotalBytes<V>(order: seq<Slot<V>>): nat {
    if order == [] then 0 else order[0].bytes + TotalBytes(order[1..])
  }

  ghost predicate UniqueIds<V>(order: seq<Slot<V>>) {
    forall i, j | 0 <= i < j < |order| :: order[i].id != order[j].id
  }

  predicate Cached<V>(order: seq<Slot<V>>, id: int) {
    exists i | 0 <= i < |order| :: order[i].id == id
  }

  function Find<V>(order: seq<Slot<V>>, id: int): (i: nat)
    requires Cached(order, id)
    ensures i < |order| && order[i].id == id
    ensures forall j | 0 <= j < i :: order[j].id != id
  {
    if order[0].id == id then 0
    else
      assert Cached(order[1..], id) by {
        var i :| 0 <= i < |order| && order[i].id == id;
        assert order[1..][i - 1].id == id;
      }
      1 + Find(order[1..], id)
  }

  function Touch<V>(order: seq<Slot<V>>, id: int): seq<Slot<V>> {
    if !Cached(order, id) then order
    else var i := Find(order, id); [order[i]] + order[..i] + order[i + 1..]
  }

  // The longest prefix that fits in `room` bytes.
  function Fitting<V>(order: seq<Slot<V>>, room: int): seq<Slot<V>> {
    if order == [] || order[0].bytes > room then [] else [order[0]] + Fitting(order[1..], room - order[0].bytes)
  }

  function Insert<V>(order: seq<Slot<V>>, slot: Slot<V>, budget: nat): seq<Slot<V>> {
    if Cached(order, slot.id) then Touch(order, slot.id)
    else if slot.bytes > budget then order
    else [slot] + Fitting(order, budget - slot.bytes)
  }

  lemma {:induction false} TotalAppend<V>(a: seq<Slot<V>>, b: seq<Slot<V>>)
    ensures TotalBytes(a + b) == TotalBytes(a) + TotalBytes(b)
  {
    if a == [] {
      assert a + b == b;
    } else {
      assert (a + b)[1..] == a[1..] + b;
      TotalAppend(a[1..], b);
    }
  }

  lemma {:induction false} BytesAddUp<V>(order: seq<Slot<V>>, bytes: seq<nat>)
    requires |bytes| == |order| && forall i | 0 <= i < |order| :: bytes[i] == order[i].bytes
    ensures TotalBytes(order) == Ordering.Sum(bytes)
  {
    if order != [] {
      var n := |order| - 1;
      BytesAddUp(order[..n], bytes[..n]);
      assert order == order[..n] + [order[n]];
      TotalAppend(order[..n], [order[n]]);
    }
  }

  // `Fitting` keeps a prefix that fits, and every prefix that fits is part of it.
  lemma {:induction false} FittingIsLongest<V>(order: seq<Slot<V>>, room: int, k: nat)
    requires k <= |order| && room >= 0
    ensures Fitting(order, room) <= order && TotalBytes(Fitting(order, room)) <= room
    ensures TotalBytes(order[..k]) <= room <==> k <= |Fitting(order, room)|
  {
    if order != [] {
      var rest := room - order[0].bytes;
      if k > 0 {
        assert order[..k] == [order[0]] + order[1..][..k - 1];
        TotalAppend([order[0]], order[1..][..k - 1]);
      }
      if rest >= 0 {
        FittingIsLongest(order[1..], rest, if k > 0 then k - 1 else 0);
        TotalAppend([order[0]], Fitting(order[1..], rest));
      }
    }
  }

  lemma TouchKeeps<V>(order: seq<Slot<V>>, id: int)
    requires UniqueIds(order)
    ensures UniqueIds(Touch(order, id)) && TotalBytes(Touch(order, id)) == TotalBytes(order)
    ensures forall other :: Cached(Touch(order, id), other) <==> Cached(order, other)
  {
    if Cached(order, id) {
      var i := Find(order, id);
      var before, at, after := order[..i], [order[i]], order[i + 1..];
      assert order == before + at + after;
      TotalAppend(before + at, after);
      TotalAppend(before, at);
      TotalAppend(at + before, after);
      TotalAppend(at, before);
      TouchPermutes(order, id);
    }
  }

  // Where the k-th slot after moving slot `i` to the front was, and where the k-th slot went.
  function Origin(i: nat, k: nat): nat { if k == 0 then i else if k <= i then k - 1 else k }
  function Target(i: nat, k: nat): nat { if k < i then k + 1 else if k == i then 0 else k }

  lemma TouchAt<V>(order: seq<Slot<V>>, id: int)
    requires Cached(order, id)
    ensures |Touch(order, id)| == |order|
    ensures forall k | 0 <= k < |order| :: Touch(order, id)[k] == order[Origin(Find(order, id), k)]
  {
    var i := Find(order, id);
    var first, before, after := [order[i]], order[..i], order[i + 1..];
    assert |first + before| == i + 1;
    forall k | 0 <= k < |order| ensures Touch(order, id)[k] == order[Origin(i, k)] {
      if k <= i { assert (first + before + after)[k] == (first + before)[k]; }
    }
  }

  lemma TouchPermutes<V>(order: seq<Slot<V>>, id: int)
    requires Cached(order, id)
    ensures forall other :: Cached(Touch(order, id), other) <==> Cached(order, other)
    ensures UniqueIds(order) ==> UniqueIds(Touch(order, id))
  {
    var i := Find(order, id);
    var touched := Touch(order, id);
    TouchAt(order, id);
    forall other ensures Cached(touched, other) <==> Cached(order, other) {
      if Cached(order, other) {
        var k :| 0 <= k < |order| && order[k].id == other;
        assert touched[Target(i, k)].id == other;
      }
    }
    if UniqueIds(order) {
      forall k, m | 0 <= k < m < |touched| ensures touched[k].id != touched[m].id {
        assert Origin(i, k) != Origin(i, m);
      }
    }
  }

  lemma InsertKeeps<V>(order: seq<Slot<V>>, slot: Slot<V>, budget: nat)
    requires UniqueIds(order) && TotalBytes(order) <= budget
    ensures UniqueIds(Insert(order, slot, budget)) && TotalBytes(Insert(order, slot, budget)) <= budget
    ensures slot.bytes <= budget ==> Cached(Insert(order, slot, budget), slot.id)
  {
    if Cached(order, slot.id) {
      TouchKeeps(order, slot.id);
      assert Touch(order, slot.id)[0].id == slot.id;
    } else if slot.bytes <= budget {
      FittingIsLongest(order, budget - slot.bytes, 0);
      TotalAppend([slot], Fitting(order, budget - slot.bytes));
      assert Insert(order, slot, budget)[0].id == slot.id;
    }
  }

  lemma TouchMembers<V>(order: seq<Slot<V>>, id: int)
    ensures forall x | x in Touch(order, id) :: x in order
  {}

  lemma InsertMembers<V>(order: seq<Slot<V>>, slot: Slot<V>, budget: nat)
    ensures forall x | x in Insert(order, slot, budget) :: x in order || x == slot
  {
    TouchMembers(order, slot.id);
    if slot.bytes <= budget { FittingIsLongest(order, budget - slot.bytes, 0); }
  }

  /* ---- Every interleaving of lookups, installs and clears ---- */

  datatype Op<V> = Lookup(id: int) | Install(slot: Slot<V>) | Clear

  function Step<V>(order: seq<Slot<V>>, op: Op<V>, budget: nat): seq<Slot<V>> {
    match op
    case Lookup(id) => Touch(order, id)
    case Install(slot) => Insert(order, slot, budget)
    case Clear => []
  }

  function Play<V>(order: seq<Slot<V>>, ops: seq<Op<V>>, budget: nat): seq<Slot<V>>
    decreases |ops|
  {
    if ops == [] then order else Play(Step(order, ops[0], budget), ops[1..], budget)
  }

  // Every slot holds what dequantizing its expert gives.
  ghost predicate Coherent<V>(order: seq<Slot<V>>, dequantize: int -> V) {
    forall slot | slot in order :: slot.weights == dequantize(slot.id)
  }

  ghost predicate Faithful<V>(ops: seq<Op<V>>, dequantize: int -> V) {
    forall i | 0 <= i < |ops| && ops[i].Install? :: ops[i].slot.weights == dequantize(ops[i].slot.id)
  }

  lemma StepKeeps<V>(order: seq<Slot<V>>, op: Op<V>, budget: nat)
    requires UniqueIds(order) && TotalBytes(order) <= budget
    ensures UniqueIds(Step(order, op, budget)) && TotalBytes(Step(order, op, budget)) <= budget
  {
    match op
    case Lookup(id) => TouchKeeps(order, id);
    case Install(slot) => InsertKeeps(order, slot, budget);
    case Clear =>
  }

  lemma StepCoherent<V>(order: seq<Slot<V>>, op: Op<V>, budget: nat, dequantize: int -> V)
    requires Coherent(order, dequantize)
    requires op.Install? ==> op.slot.weights == dequantize(op.slot.id)
    ensures Coherent(Step(order, op, budget), dequantize)
  {
    match op
    case Lookup(id) => TouchMembers(order, id);
    case Install(slot) => InsertMembers(order, slot, budget);
    case Clear =>
  }

  lemma {:induction false} PlayKeeps<V>(order: seq<Slot<V>>, ops: seq<Op<V>>, budget: nat, dequantize: int -> V)
    requires UniqueIds(order) && TotalBytes(order) <= budget && Coherent(order, dequantize) && Faithful(ops, dequantize)
    ensures UniqueIds(Play(order, ops, budget)) && TotalBytes(Play(order, ops, budget)) <= budget
    ensures Coherent(Play(order, ops, budget), dequantize)
    decreases |ops|
  {
    if ops != [] {
      StepKeeps(order, ops[0], budget);
      StepCoherent(order, ops[0], budget, dequantize);
      PlayKeeps(Step(order, ops[0], budget), ops[1..], budget, dequantize);
    }
  }

  /* ---- Weights that change under the cache ---- */

  // What happens to the cache when the experts may be registered anew. An install remembers the registration
  // its weights were dequantized under, which may be an earlier one.
  datatype Event = Requested(id: int) | Installed(id: int, bytes: nat, under: nat) | Registered

  // The number of registrations before the k-th event.
  function Generation(events: seq<Event>, k: nat): nat
    requires k <= |events|
  {
    if k == 0 then 0 else Generation(events, k - 1) + if events[k - 1].Registered? then 1 else 0
  }

  function OpOf<V>(e: Event, weights: (nat, int) -> V): Op<V> {
    match e
    case Requested(id) => Op.Lookup(id)
    case Installed(id, bytes, under) => Op.Install(Slot(id, bytes, weights(under, id)))
    case Registered => Op.Clear
  }

  // The cache after the first k events; `weights(g, id)` are those of expert id in registration g.
  function OrderAt<V>(events: seq<Event>, k: nat, budget: nat, weights: (nat, int) -> V): seq<Slot<V>>
    requires k <= |events|
  {
    if k == 0 then [] else Step(OrderAt(events, k - 1, budget, weights), OpOf(events[k - 1], weights), budget)
  }

  // Every entry holds the weights registered now.
  ghost predicate CurrentAt<V>(events: seq<Event>, k: nat, budget: nat, weights: (nat, int) -> V)
    requires k <= |events|
  {
    Holds(OrderAt(events, k, budget, weights), Generation(events, k), weights)
  }

  ghost predicate Holds<V>(order: seq<Slot<V>>, generation: nat, weights: (nat, int) -> V) {
    forall slot | slot in order :: slot.weights == weights(generation, slot.id)
  }

  lemma InstallHolds<V>(order: seq<Slot<V>>, slot: Slot<V>, budget: nat, generation: nat, weights: (nat, int) -> V)
    requires Holds(order, generation, weights)
    ensures Holds(Insert(order, slot, budget), generation, weights) <==>
      Cached(order, slot.id) || slot.bytes > budget || slot.weights == weights(generation, slot.id)
  {
    InsertMembers(order, slot, budget);
    var after := Insert(order, slot, budget);
    if Cached(order, slot.id) {
      TouchMembers(order, slot.id);
    } else if slot.bytes <= budget {
      assert after[0] == slot && slot in after;
    }
  }

  // The k-th event installs weights that a registration has changed in the meantime, and is not turned away
  // because the expert is cached or the entry too large.
  predicate StaleInstall<V(==)>(events: seq<Event>, k: nat, budget: nat, weights: (nat, int) -> V)
    requires k < |events|
  {
    var e := events[k];
    && e.Installed? && !Cached(OrderAt(events, k, budget, weights), e.id) && e.bytes <= budget
    && weights(e.under, e.id) != weights(Generation(events, k), e.id)
  }

  // One event from an up-to-date cache.
  lemma StepStaysCurrent<V>(events: seq<Event>, k: nat, budget: nat, weights: (nat, int) -> V)
    requires k < |events| && CurrentAt(events, k, budget, weights)
    ensures CurrentAt(events, k + 1, budget, weights) <==> !StaleInstall(events, k, budget, weights)
  {
    var order, now := OrderAt(events, k, budget, weights), Generation(events, k);
    match events[k]
    case Requested(id) => TouchMembers(order, id);
    case Registered =>
    case Installed(id, bytes, under) => InstallHolds(order, Slot(id, bytes, weights(under, id)), budget, now, weights);
  }

  lemma {:induction false} CurrentWhileFresh<V>(events: seq<Event>, n: nat, budget: nat, weights: (nat, int) -> V)
    requires n <= |events| && forall k: nat | k < n :: !StaleInstall(events, k, budget, weights)
    ensures CurrentAt(events, n, budget, weights)
  {
    if n > 0 {
      CurrentWhileFresh(events, n - 1, budget, weights);
      StepStaysCurrent(events, n - 1, budget, weights);
    }
  }

  /** Over every run the cache serves only weights of the current registration, at every moment, if and only if
      no admitted install was dequantized under an earlier registration with other weights for its expert. */
  lemma CurrentIffNoStaleInstall<V>(events: seq<Event>, budget: nat, weights: (nat, int) -> V)
    ensures (forall k: nat | k <= |events| :: CurrentAt(events, k, budget, weights)) <==>
            (forall k: nat | k < |events| :: !StaleInstall(events, k, budget, weights))
  {
    if forall k: nat | k < |events| :: !StaleInstall(events, k, budget, weights) {
      forall k: nat | k <= |events| ensures CurrentAt(events, k, budget, weights) {
        CurrentWhileFresh(events, k, budget, weights);
      }
    }
    if forall k: nat | k <= |events| :: CurrentAt(events, k, budget, weights) {
      forall k: nat | k < |events| ensures !StaleInstall(events, k, budget, weights) {
        assert CurrentAt(events, k, budget, weights) && CurrentAt(events, k + 1, budget, weights);
        StepStaysCurrent(events, k, budget, weights);
      }
    }
  }

  // The outdated weights of a stale install are then at the front of the list.
  lemma StaleInstallIsServed<V>(events: seq<Event>, k: nat, budget: nat, weights: (nat, int) -> V)
    requires k < |events| && StaleInstall(events, k, budget, weights)
    ensures var after := OrderAt(events, k + 1, budget, weights);
      after != [] && after[0] == Slot(events[k].id, events[k].bytes, weights(events[k].under, events[k].id))
    ensures !CurrentAt(events, k + 1, budget, weights)
  {
    var after := OrderAt(events, k + 1, budget, weights);
    assert after[0] in after;
  }

  // Requests that span no registration, or only one that kept their expert's weights, never do harm.
  lemma CoherentSinceClear<V>(events: seq<Event>, budget: nat, weights: (nat, int) -> V)
    requires forall k: nat | k < |events| && events[k].Installed? ::
      weights(events[k].under, events[k].id) == weights(Generation(events, k), events[k].id)
    ensures forall k: nat | k <= |events| :: CurrentAt(events, k, budget, weights)
  {
    CurrentIffNoStaleInstall(events, budget, weights);
  }

  /* ---- More memory never loses a hit ---- */

  // One request served without interruption: look up, and on a miss install.
  function Serve<V>(order: seq<Slot<V>>, requests: seq<Slot<V>>, budget: nat): seq<Slot<V>> {
    if requests == [] then order
    else Insert(Serve(order, requests[..|requests| - 1], budget), requests[|requests| - 1], budget)
  }

  // Requests for one expert always ask for the same bytes and weights.
  ghost predicate Consistent<V>(requests: seq<Slot<V>>) {
    forall i, j | 0 <= i < |requests| && 0 <= j < |requests| ::
      requests[i].id == requests[j].id ==> requests[i] == requests[j]
  }

  lemma FindInPrefix<V>(a: seq<Slot<V>>, b: seq<Slot<V>>, id: int)
    requires a <= b && Cached(a, id) && UniqueIds(b)
    ensures Cached(b, id) && Find(a, id) == Find(b, id)
  {
    assert b[Find(a, id)].id == id;
  }

  lemma PrefixUnder<T>(front: seq<T>, a: seq<T>, b: seq<T>)
    requires a <= b
    ensures front + a <= front + b
  {}

  lemma TouchKeepsPrefix<V>(a: seq<Slot<V>>, b: seq<Slot<V>>, id: int)
    requires a <= b && Cached(a, id) && UniqueIds(b)
    ensures Touch(a, id) <= Touch(b, id)
  {
    FindInPrefix(a, b, id);
    var i := Find(a, id);
    var front, rest, longer := [a[i]] + a[..i], a[i + 1..], b[i + 1..];
    assert a[i] == b[i] && a[..i] == b[..i];
    assert rest <= longer by { forall k | 0 <= k < |rest| ensures rest[k] == longer[k] {} }
    PrefixUnder(front, rest, longer);
    assert Touch(a, id) == front + rest && Touch(b, id) == front + longer;
  }

  // The larger cache holds a slot the smaller has dropped.
  lemma RefillKeepsPrefix<V>(a: seq<Slot<V>>, b: seq<Slot<V>>, slot: Slot<V>, kept: nat)
    requires a <= b && kept <= |a| && !Cached(a, slot.id) && Cached(b, slot.id) && b[Find(b, slot.id)] == slot
    ensures [slot] + a[..kept] <= Touch(b, slot.id)
  {
    var i := Find(b, slot.id);
    assert forall j | 0 <= j < |a| :: a[j].id != slot.id && a[j] == b[j];
    assert i >= |a| && a[..kept] <= b[..i] + b[i + 1..];
    PrefixUnder([slot], a[..kept], b[..i] + b[i + 1..]);
    assert [slot] + (b[..i] + b[i + 1..]) == [slot] + b[..i] + b[i + 1..];
  }

  lemma InsertKeepsPrefix<V>(a: seq<Slot<V>>, b: seq<Slot<V>>, slot: Slot<V>, small: nat, large: nat)
    requires a <= b && UniqueIds(b) && small <= large && slot.bytes <= small
    requires Cached(b, slot.id) ==> b[Find(b, slot.id)] == slot
    ensures Insert(a, slot, small) <= Insert(b, slot, large)
  {
    if Cached(a, slot.id) {
      FindInPrefix(a, b, slot.id);
      TouchKeepsPrefix(a, b, slot.id);
    } else {
      var kept := |Fitting(a, small - slot.bytes)|;
      FittingIsLongest(a, small - slot.bytes, 0);
      assert a[..kept] == b[..kept] == Fitting(a, small - slot.bytes);
      if Cached(b, slot.id) { RefillKeepsPrefix(a, b, slot, kept); }
      else { FittingGrows(a, b, slot, small - slot.bytes, large - slot.bytes); }
    }
  }

  // Both make room for a slot neither holds.
  lemma FittingGrows<V>(a: seq<Slot<V>>, b: seq<Slot<V>>, slot: Slot<V>, small: nat, large: nat)
    requires a <= b && small <= large
    ensures [slot] + Fitting(a, small) <= [slot] + Fitting(b, large)
  {
    var kept := |Fitting(a, small)|;
    FittingIsLongest(a, small, 0);
    FittingIsLongest(a, small, kept);
    assert a[..kept] == b[..kept];
    FittingIsLongest(b, large, kept);
    PrefixUnder([slot], Fitting(a, small), Fitting(b, large));
  }

  // From an empty cache, what the smaller budget keeps is always a prefix of what the larger
  // keeps, so every hit under the smaller budget is a hit under the larger.
  lemma {:induction false} LargerBudgetKeepsMore<V>(requests: seq<Slot<V>>, small: nat, large: nat)
    requires small <= large && Consistent(requests)
    requires forall i | 0 <= i < |requests| :: requests[i].bytes <= small
    ensures Serve([], requests, small) <= Serve([], requests, large)
    ensures UniqueIds(Serve([], requests, large)) && TotalBytes(Serve([], requests, large)) <= large
    ensures forall x | x in Serve([], requests, large) :: x in requests
  {
    if requests != [] {
      var earlier, slot := requests[..|requests| - 1], requests[|requests| - 1];
      LargerBudgetKeepsMore(earlier, small, large);
      var a, b := Serve([], earlier, small), Serve([], earlier, large);
      InsertKeeps(b, slot, large);
      InsertMembers(b, slot, large);
      assert requests == earlier + [slot];
      assert Cached(b, slot.id) ==> b[Find(b, slot.id)] in requests;
      InsertKeepsPrefix(a, b, slot, small, large);
    }
  }

  lemma HitsAreMonotone<V>(requests: seq<Slot<V>>, small: nat, large: nat, id: int)
    requires small <= large && Consistent(requests)
    requires forall i | 0 <= i < |requests| :: requests[i].bytes <= small
    ensures Cached(Serve([], requests, small), id) ==> Cached(Serve([], requests, large), id)
  {
    LargerBudgetKeepsMore(requests, small, large);
    if Cached(Serve([], requests, small), id) {
      FindInPrefix(Serve([], requests, small), Serve([], requests, large), id);
    }
  }

  /* ---- The timestamped map ---- */

  ghost predicate Matches<V>(entries: map<int, Entry<V>>, slot: Slot<V>, useCounter: nat) {
    slot.id in entries && entries[slot.id].bytes == slot.bytes && entries[slot.id].weights == slot.weights
    && entries[slot.id].lastUsed <= useCounter
  }

  ghost predicate Newer<V>(entries: map<int, Entry<V>>, a: int, b: int) {
    a in entries && b in entries && entries[a].lastUsed > entries[b].lastUsed
  }

  // The map holds the slots of the list, with distinct timestamps that decrease along it and
  // never exceed the use counter.
  ghost predicate Represents<V>(entries: map<int, Entry<V>>, order: seq<Slot<V>>, useCounter: nat) {
    && UniqueIds(order)
    && (forall id :: id in entries <==> Cached(order, id))
    && (forall i | 0 <= i < |order| :: Matches(entries, order[i], useCounter))
    && (forall i, j | 0 <= i < j < |order| :: Newer(entries, order[i].id, order[j].id))
  }

  function Stamp<V>(entries: map<int, Entry<V>>, id: int, time: nat): map<int, Entry<V>>
    requires id in entries
  {
    entries[id := entries[id].(lastUsed := time)]
  }

  lemma StampRepresents<V>(entries: map<int, Entry<V>>, order: seq<Slot<V>>, useCounter: nat, id: int)
    requires Represents(entries, order, useCounter) && id in entries
    ensures Represents(Stamp(entries, id, useCounter + 1), Touch(order, id), useCounter + 1)
    ensures entries[id].weights == order[Find(order, id)].weights
  {
    TouchPermutes(order, id);
    TouchAt(order, id);
    assert Matches(entries, order[Find(order, id)], useCounter);
    StampMoves(entries, order, useCounter, Find(order, id), Touch(order, id));
  }

  // A lookup, hit or miss.
  lemma TouchRepresents<V>(entries: map<int, Entry<V>>, order: seq<Slot<V>>, useCounter: nat, id: int)
    requires Represents(entries, order, useCounter)
    ensures id in entries <==> Cached(order, id)
    ensures id !in entries ==> Touch(order, id) == order
    ensures id in entries ==> Represents(Stamp(entries, id, useCounter + 1), Touch(order, id), useCounter + 1)
    ensures id in entries ==> entries[id].weights == order[Find(order, id)].weights
    ensures TotalBytes(Touch(order, id)) == TotalBytes(order)
  {
    TouchKeeps(order, id);
    if id in entries { StampRepresents(entries, order, useCounter, id); }
  }

  lemma StampMoves<V>(entries: map<int, Entry<V>>, order: seq<Slot<V>>, useCounter: nat, i: nat, touched: seq<Slot<V>>)
    requires Represents(entries, order, useCounter) && i < |order| == |touched| && order[i].id in entries
    requires UniqueIds(touched) && forall other :: Cached(touched, other) <==> Cached(order, other)
    requires forall k | 0 <= k < |order| :: touched[k] == order[Origin(i, k)]
    ensures Represents(Stamp(entries, order[i].id, useCounter + 1), touched, useCounter + 1)
  {
    var stamped := Stamp(entries, order[i].id, useCounter + 1);
    forall k | 0 <= k < |touched| ensures Matches(stamped, touched[k], useCounter + 1) {
      assert Matches(entries, order[Origin(i, k)], useCounter);
    }
    forall k, m | 0 <= k < m < |touched| ensures Newer(stamped, touched[k].id, touched[m].id) {
      assert Matches(entries, order[Origin(i, m)], useCounter);
      if k > 0 { assert Newer(entries, order[Origin(i, k)].id, order[Origin(i, m)].id); }
    }
  }

  lemma EvictRepresents<V>(entries: map<int, Entry<V>>, order: seq<Slot<V>>, useCounter: nat)
    requires Represents(entries, order, useCounter) && order != []
    ensures Represents(entries - {order[|order| - 1].id}, order[..|order| - 1], useCounter)
  {
    var n := |order| - 1;
    var rest, left := entries - {order[n].id}, order[..n];
    forall id ensures id in rest <==> Cached(left, id) {
      if id in rest {
        var i :| 0 <= i < |order| && order[i].id == id;
        assert left[i].id == id;
      }
      if Cached(left, id) {
        var i :| 0 <= i < n && left[i].id == id;
        assert order[i].id == id;
      }
    }
    forall i | 0 <= i < n ensures Matches(rest, left[i], useCounter) { assert Matches(entries, order[i], useCounter); }
    forall i, j | 0 <= i < j < n ensures Newer(rest, left[i].id, left[j].id) {
      assert Newer(entries, order[i].id, order[j].id);
    }
  }

  lemma PushRepresents<V>(entries: map<int, Entry<V>>, order: seq<Slot<V>>, useCounter: nat, slot: Slot<V>)
    requires Represents(entries, order, useCounter) && slot.id !in entries
    ensures Represents(entries[slot.id := Entry(slot.bytes, useCounter + 1, slot.weights)], [slot] + order,
                       useCounter + 1)
  {
    var more, longer := entries[slot.id := Entry(slot.bytes, useCounter + 1, slot.weights)], [slot] + order;
    forall id ensures id in more <==> Cached(longer, id) {
      if Cached(order, id) { assert longer[Find(order, id) + 1].id == id; }
      assert longer[0].id == slot.id;
    }
    assert forall i | 0 < i < |longer| :: longer[i] == order[i - 1];
    forall i | 0 < i < |longer| ensures Matches(more, longer[i], useCounter + 1) {
      assert Matches(entries, order[i - 1], useCounter);
    }
    forall i, j | 0 <= i < j < |longer| ensures Newer(more, longer[i].id, longer[j].id) {
      assert Matches(entries, order[j - 1], useCounter);
      if i > 0 { assert Newer(entries, order[i - 1].id, order[j - 1].id); }
    }
  }

  // The entry a scan for the smallest timestamp finds is the last of the list.
  lemma OldestIsLast<V>(entries: map<int, Entry<V>>, order: seq<Slot<V>>, useCounter: nat, id: int)
    requires Represents(entries, order, useCounter) && id in entries
    requires forall other | other in entries :: entries[id].lastUsed <= entries[other].lastUsed
    ensures order != [] && order[|order| - 1].id == id && order[|order| - 1].bytes == entries[id].bytes
  {
    var i, n := Find(order, id), |order| - 1;
    assert Matches(entries, order[n], useCounter);
    assert i < n ==> Newer(entries, order[i].id, order[n].id);
  }

  /** The cache fields of MoELayerRegistry. `order` is the recency list they represent. */
  class LayerCache<V> {
    const budget: nat
    var entries: map<int, Entry<V>>
    var bytes: nat
    var useCounter: nat
    ghost var order: seq<Slot<V>>

    ghost predicate Valid()
      reads this
    {
      Represents(entries, order, useCounter) && bytes == TotalBytes(order) <= budget
    }

    constructor (budget: nat)
      ensures Valid() && order == [] && this.budget == budget
    {
      this.budget := budget;
      entries, bytes, useCounter, order := map[], 0, 0, [];
    }

    /** Re-registration of the experts empties the cache. */
    method Clear()
      modifies this
      ensures Valid() && order == Step(old(order), Op.Clear, budget)
    {
      entries, bytes, useCounter, order := map[], 0, 0, [];
    }

    /** The first lock section of a request. */
    method Lookup(id: int) returns (found: Option<V>)
      requires Valid()
      modifies this
      ensures Valid() && order == Step(old(order), Op.Lookup(id), budget)
      ensures found == if Cached(old(order), id) then Some(old(order)[Find(old(order), id)].weights) else None
    {
      TouchRepresents(entries, order, useCounter, id);
      if id !in entries { return None; }
      useCounter := useCounter + 1;
      entries := Stamp(entries, id, useCounter);
      order := Touch(order, id);
      found := Some(entries[id].weights);
    }

    // The scan for the smallest timestamp, in whatever order the map is iterated.
    method Oldest() returns (oldest: int)
      requires entries != map[]
      ensures oldest in entries && forall other | other in entries ::
        entries[oldest].lastUsed <= entries[other].lastUsed
    {
      var rest := entries.Keys;
      Ordering.SomeMember(rest);
      oldest :| oldest in rest;
      rest := rest - {oldest};
      while rest != {}
        invariant rest <= entries.Keys && oldest in entries
        invariant forall other | other in entries && other !in rest ::
          entries[oldest].lastUsed <= entries[other].lastUsed
        decreases |rest|
      {
        Ordering.SomeMember(rest);
        var id :| id in rest;
        if entries[id].lastUsed < entries[oldest].lastUsed { oldest := id; }
        rest := rest - {id};
      }
    }

    // The byte counter covers the evicted entry, so clamping the subtraction changes nothing.
    method EvictOldest()
      requires Valid() && entries != map[]
      modifies this`entries, this`bytes, this`order
      ensures Valid() && old(order) != [] && order == old(order)[..|old(order)| - 1]
      ensures bytes == old(bytes) - old(order)[|old(order)| - 1].bytes
    {
      var oldest := Oldest();
      OldestIsLast(entries, order, useCounter, oldest);
      EvictRepresents(entries, order, useCounter);
      LastBytes(order);
      bytes := bytes - (if bytes < entries[oldest].bytes then bytes else entries[oldest].bytes);
      entries := entries - {oldest};
      order := order[..|order| - 1];
    }

    // Evicts the least recently used entries until `size` more bytes fit.
    method MakeRoom(size: nat)
      requires Valid() && size <= budget
      modifies this`entries, this`bytes, this`order
      ensures Valid() && order == Fitting(old(order), budget - size) && bytes + size <= budget
    {
      ghost var all := order;
      assert all == all[..|order|];
      while bytes + size > budget && entries != map[]
        invariant Valid() && |order| <= |all| && order == all[..|order|]
        invariant |order| < |all| ==> TotalBytes(all[..|order| + 1]) > budget - size
        decreases |order|
      {
        assert all[..|order| - 1] == order[..|order| - 1] by { EmptyMap(entries, order, useCounter); }
        EvictOldest();
      }
      EmptyMap(entries, order, useCounter);
      RoomIsFitting(all, budget - size, |order|);
    }

    /** The second lock section: another request may have installed the expert meanwhile;
        otherwise least recently used entries make room. The byte counter never needs its
        clamp, and an entry that fits the budget is always returned. */
    method Install(id: int, size: nat, weights: V) returns (installed: Option<V>)
      requires Valid()
      modifies this
      ensures Valid() && order == Step(old(order), Op.Install(Slot(id, size, weights)), budget)
      ensures installed == if Cached(old(order), id) then Some(old(order)[Find(old(order), id)].weights)
                           else if size <= budget then Some(weights) else None
    {
      if id in entries {
        installed := Lookup(id);
        return;
      }
      if size > budget { return None; }
      ghost var before := order;
      MakeRoom(size);
      FittingNotCached(before, budget - size, id);
      Push(id, size, weights);
      installed := Some(weights);
    }

    // The new entry, once there is room.
    method Push(id: int, size: nat, weights: V)
      requires Valid() && !Cached(order, id) && bytes + size <= budget
      modifies this
      ensures Valid() && order == [Slot(id, size, weights)] + old(order)
    {
      PushRepresents(entries, order, useCounter, Slot(id, size, weights));
      TotalAppend([Slot(id, size, weights)], order);
      useCounter := useCounter + 1;
      bytes := bytes + size;
      entries := entries[id := Entry(size, useCounter, weights)];
      order := [Slot(id, size, weights)] + order;
    }
  }

  lemma FittingNotCached<V>(order: seq<Slot<V>>, room: int, id: int)
    requires !Cached(order, id) && room >= 0
    ensures !Cached(Fitting(order, room), id)
  {
    FittingIsLongest(order, room, 0);
    var kept := Fitting(order, room);
    forall k | 0 <= k < |kept| ensures kept[k].id != id { assert kept[k] == order[k]; }
  }

  lemma LastBytes<V>(order: seq<Slot<V>>)
    requires order != []
    ensures TotalBytes(order) == TotalBytes(order[..|order| - 1]) + order[|order| - 1].bytes
  {
    var last := |order| - 1;
    assert order == order[..last] + [order[last]];
    TotalAppend(order[..last], [order[last]]);
  }

  lemma EmptyMap<V>(entries: map<int, Entry<V>>, order: seq<Slot<V>>, useCounter: nat)
    requires Represents(entries, order, useCounter)
    ensures entries == map[] ==> order == []
  {
    if order != [] { assert Matches(entries, order[0], useCounter); }
  }

  lemma RoomIsFitting<V>(order: seq<Slot<V>>, room: int, k: nat)
    requires k <= |order| && 0 <= room && TotalBytes(order[..k]) <= room
    requires k < |order| ==> TotalBytes(order[..k + 1]) > room
    ensures Fitting(order, room) == order[..k]
  {
    FittingIsLongest(order, room, k);
    if k < |order| { FittingIsLongest(order, room, k + 1); }
  }
}
