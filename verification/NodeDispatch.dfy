/** The node-task dispatcher of `CpuThreadManager`: `RunConcurrentNodeTasks`, `RunOnNumaNode`
    and the persistent `NodeTaskHelper` threads, as a state machine over atomic steps.

    A call is one activation of either entry point. A call may be made from inside a task
    that is still running, so calls form a tree. Every step is one lock section or one
    atomic operation of one thread; a run is any sequence of enabled steps. */
module NodeDispatch {

  datatype Option<T> = None | Some(value: T)

  // `RunConcurrentNodeTasks(requested, task)` or `RunOnNumaNode(node, task)`.
  datatype Kind = Concurrent(requested: int) | OnNode(node: int)

  // Where the calling thread stands inside the call.
  datatype Pc =
    | Start
    | Inline(slot: nat)   // running task(slot) on the calling thread, sequentially
    | Post(next: nat)     // holds the busy flag, about to post to node `next`
    | Own                 // running task(0) while the helpers work
    | Wait(next: nat)     // waiting for the helper of node `next`
    | Handoff             // holds a pinned helper's mutex, about to post
    | Await               // waiting for the pinned helper
    | Returned

  // One run of the task of a call for one slot (node index, or 0 for `RunOnNumaNode`).
  datatype Exec = Exec(call: nat, slot: nat)

  datatype Call = Call(kind: Kind, parent: Option<Exec>, pc: Pc)

  // `Dispatch(t)` is `node_helpers_[t - 1]`, `Pinned(p)` is `pinned_node_helpers_[p]`.
  datatype HelperId = Dispatch(node: nat) | Pinned(node: nat)

  // `running` is the helper thread's private copy of the task it is inside of.
  datatype Helper = Helper(task: Option<nat>, pending: bool, done: bool, running: Option<nat>)

  datatype State = State(
    nodes: nat,
    calls: seq<Call>,
    helpers: map<HelperId, Helper>,   // a missing helper has not been created yet
    busy: Option<nat>,                // dispatch_busy_, labelled with the call that set it
    locked: map<int, nat>,            // the pinned-node mutexes held, labelled with the holder
    started: multiset<Exec>,
    finished: multiset<Exec>)

  datatype Action =
    | Begin(kind: Kind, parent: Option<Exec>)
    | Advance(call: nat, onTargetNode: bool)
    | Take(helper: HelperId)
    | Finish(helper: HelperId)

  const FreshHelper := Helper(None, false, false, None)

  function Initial(nodes: nat): State {
    State(nodes, [], map[], None, map[], multiset{}, multiset{})
  }

  function HelperAt(s: State, h: HelperId): Helper {
    if h in s.helpers then s.helpers[h] else FreshHelper
  }

  // The number of task runs the call owes its caller.
  function Width(nodes: nat, kind: Kind): nat {
    match kind
    case Concurrent(r) => if r <= 0 then 0 else if r <= nodes then r else nodes
    case OnNode(_) => 1
  }

  function SlotOf(h: HelperId): nat {
    match h
    case Dispatch(t) => t
    case Pinned(_) => 0
  }

  predicate ActiveChild(s: State, e: Exec, k: nat) {
    k < |s.calls| && s.calls[k].parent == Some(e) && s.calls[k].pc != Returned
  }

  ghost predicate NoActiveChild(s: State, e: Exec) {
    forall k :: !ActiveChild(s, e, k)
  }

  predicate OnCaller(pc: Pc, slot: nat) {
    pc == Inline(slot) || (pc == Own && slot == 0)
  }

  // The helper that serves a slot when the call hands it over.
  function HelperOf(kind: Kind, slot: nat): HelperId {
    match kind
    case Concurrent(_) => Dispatch(slot)
    case OnNode(p) => Pinned(if p >= 0 then p else 0)
  }

  // Some thread is inside this task run.
  predicate Running(s: State, e: Exec) {
    && e.call < |s.calls|
    && var call := s.calls[e.call];
       || OnCaller(call.pc, e.slot)
       || (HelperAt(s, HelperOf(call.kind, e.slot)).running == Some(e.call) &&
           SlotOf(HelperOf(call.kind, e.slot)) == e.slot)
  }

  ghost predicate Enabled(s: State, a: Action) {
    match a
    case Begin(_, parent) =>
      parent.Some? ==> Running(s, parent.value) && NoActiveChild(s, parent.value)
    case Advance(c, _) =>
      c < |s.calls| &&
      (match s.calls[c].pc
       case Start => true
       case Inline(t) => NoActiveChild(s, Exec(c, t))
       case Post(_) => true
       case Own => NoActiveChild(s, Exec(c, 0))
       case Wait(t) => t >= Width(s.nodes, s.calls[c].kind) || HelperAt(s, Dispatch(t)).done
       case Handoff => true
       case Await => s.calls[c].kind.OnNode? && s.calls[c].kind.node >= 0 &&
                     HelperAt(s, Pinned(s.calls[c].kind.node)).done
       case Returned => false)
    case Take(h) => HelperAt(s, h).pending && HelperAt(s, h).running.None? && HelperAt(s, h).task.Some?
    case Finish(h) =>
      HelperAt(s, h).running.Some? && NoActiveChild(s, Exec(HelperAt(s, h).running.value, SlotOf(h)))
  }

  function SetPc(s: State, c: nat, pc: Pc): State
    requires c < |s.calls|
  {
    s.(calls := s.calls[c := s.calls[c].(pc := pc)])
  }

  function StartInline(s: State, c: nat, slot: nat): State
    requires c < |s.calls|
  {
    SetPc(s, c, Inline(slot)).(started := s.started + multiset{Exec(c, slot)})
  }

  // NodeTaskHelper::Post.
  function PostTo(s: State, h: HelperId, c: nat): State {
    s.(helpers := s.helpers[h := HelperAt(s, h).(task := Some(c), pending := true, done := false)])
  }

  function AdvanceCall(s: State, c: nat, onTargetNode: bool): State
    requires c < |s.calls|
  {
    var call := s.calls[c];
    var width := Width(s.nodes, call.kind);
    match call.pc
    case Start =>
      (match call.kind
       case Concurrent(_) =>
         if width == 0 then SetPc(s, c, Returned)
         else if width == 1 || s.busy.Some? then StartInline(s, c, 0)
         else SetPc(s, c, Post(1)).(busy := Some(c))
       case OnNode(p) =>
         if p < 0 || p >= s.nodes || onTargetNode || p in s.locked then StartInline(s, c, 0)
         else SetPc(s, c, Handoff).(locked := s.locked[p := c]))
    case Inline(t) =>
      var after := s.(finished := s.finished + multiset{Exec(c, t)});
      if t + 1 < width then StartInline(after, c, t + 1) else SetPc(after, c, Returned)
    case Post(t) =>
      if t < width then SetPc(PostTo(s, Dispatch(t), c), c, Post(t + 1))
      else SetPc(s, c, Own).(started := s.started + multiset{Exec(c, 0)})
    case Own => SetPc(s, c, Wait(1)).(finished := s.finished + multiset{Exec(c, 0)})
    case Wait(t) =>
      if t < width then SetPc(s, c, Wait(t + 1)) else SetPc(s, c, Returned).(busy := None)
    case Handoff =>
      if call.kind.OnNode? && call.kind.node >= 0
      then SetPc(PostTo(s, Pinned(call.kind.node), c), c, Await) else s
    case Await =>
      if call.kind.OnNode? then SetPc(s, c, Returned).(locked := s.locked - {call.kind.node}) else s
    case Returned => s
  }

  function Apply(s: State, a: Action): State {
    match a
    case Begin(kind, parent) => s.(calls := s.calls + [Call(kind, parent, Start)])
    case Advance(c, onTargetNode) => if c < |s.calls| then AdvanceCall(s, c, onTargetNode) else s
    case Take(h) =>
      var helper := HelperAt(s, h);
      if helper.task.None? then s
      else s.(helpers := s.helpers[h := helper.(pending := false, running := helper.task)],
              started := s.started + multiset{Exec(helper.task.value, SlotOf(h))})
    case Finish(h) =>
      var helper := HelperAt(s, h);
      if helper.running.None? then s
      else s.(helpers := s.helpers[h := helper.(running := None, done := true)],
              finished := s.finished + multiset{Exec(helper.running.value, SlotOf(h))})
  }

  ghost predicate Run(s: State, actions: seq<Action>, t: State)
    decreases |actions|
  {
    if actions == [] then s == t
    else Enabled(s, actions[0]) && Run(Apply(s, actions[0]), actions[1..], t)
  }

  /* ---- What every step keeps ---- */

  predicate HoldsBusy(call: Call) {
    call.pc.Post? || call.pc == Own || call.pc.Wait?
  }

  predicate HoldsMutex(call: Call, p: int) {
    call.kind == OnNode(p) && (call.pc == Handoff || call.pc == Await)
  }

  // The call has posted to `h` and has not yet seen it done.
  predicate Occupies(nodes: nat, call: Call, h: HelperId) {
    match h
    case Dispatch(t) =>
      1 <= t < Width(nodes, call.kind) &&
      (match call.pc
       case Post(k) => t < k
       case Own => true
       case Wait(k) => k <= t
       case _ => false)
    case Pinned(p) => call.kind == OnNode(p) && call.pc == Await
  }

  predicate WellFormedCall(nodes: nat, call: Call) {
    var width := Width(nodes, call.kind);
    match call.pc
    case Start => true
    case Returned => true
    case Inline(t) => t < width
    case Post(k) => call.kind.Concurrent? && 2 <= width && 1 <= k <= width
    case Own => call.kind.Concurrent? && 2 <= width
    case Wait(k) => call.kind.Concurrent? && 2 <= width && 1 <= k <= width
    case Handoff => call.kind.OnNode? && 0 <= call.kind.node < nodes
    case Await => call.kind.OnNode? && 0 <= call.kind.node < nodes
  }

  // A posted task is pending, inside the helper, or done, and in exactly one of these.
  predicate Phase(helper: Helper, c: nat) {
    helper.task == Some(c) &&
    (|| (helper.pending && helper.running == None && !helper.done)
     || (!helper.pending && helper.running == Some(c) && !helper.done)
     || (!helper.pending && helper.running == None && helper.done))
  }

  function Progress(helper: Helper): (nat, nat) {
    if helper.pending then (0, 0) else if helper.running.Some? then (1, 0) else (1, 1)
  }

  // How often the task must have been started and finished for this slot.
  function Expected(s: State, call: Call, slot: nat): (nat, nat) {
    if slot >= Width(s.nodes, call.kind) then (0, 0)
    else if call.pc.Returned? then (1, 1)
    else if Occupies(s.nodes, call, HelperOf(call.kind, slot)) then Progress(HelperAt(s, HelperOf(call.kind, slot)))
    else match call.pc
         case Inline(k) => if slot < k then (1, 1) else if slot == k then (1, 0) else (0, 0)
         case Own => (1, 0)
         case Wait(_) => (1, 1)
         case _ => (0, 0)
  }

  // The flag and the mutexes are held exactly by the calls that will release them.
  ghost predicate LocksOk(s: State, c: nat)
    requires c < |s.calls|
  {
    && (HoldsBusy(s.calls[c]) <==> s.busy == Some(c))
    && (forall p :: HoldsMutex(s.calls[c], p) <==> p in s.locked && s.locked[p] == c)
  }

  ghost predicate OwnersExist(s: State) {
    && (s.busy.Some? ==> s.busy.value < |s.calls|)
    && (forall p | p in s.locked :: s.locked[p] < |s.calls|)
  }

  predicate ServedOk(s: State, c: nat, h: HelperId)
    requires c < |s.calls|
  {
    Occupies(s.nodes, s.calls[c], h) ==> Phase(HelperAt(s, h), c)
  }

  // A helper that has or runs a task has it from a call that is still waiting for it.
  predicate HelperOk(s: State, h: HelperId) {
    var helper := HelperAt(s, h);
    && (helper.pending ==> helper.task.Some?)
    && (helper.pending ==> helper.task.value < |s.calls| && Occupies(s.nodes, s.calls[helper.task.value], h))
    && (helper.running.Some? ==>
          helper.running.value < |s.calls| && Occupies(s.nodes, s.calls[helper.running.value], h))
  }

  predicate CountOk(s: State, c: nat, slot: nat) {
    (s.started[Exec(c, slot)], s.finished[Exec(c, slot)]) ==
    if c < |s.calls| then Expected(s, s.calls[c], slot) else (0, 0)
  }

  predicate ParentOk(s: State, k: nat)
    requires k < |s.calls|
  {
    s.calls[k].parent.Some? ==>
      && s.calls[k].parent.value.call < k
      && (s.calls[k].pc != Returned ==> Running(s, s.calls[k].parent.value))
  }

  predicate OnlyChild(s: State, j: nat, k: nat) {
    (k < |s.calls| && s.calls[k].parent.Some? && ActiveChild(s, s.calls[k].parent.value, j) &&
     s.calls[k].pc != Returned) ==>
      j == k
  }

  ghost predicate Inv(s: State) {
    && OwnersExist(s)
    && (forall c | 0 <= c < |s.calls| :: WellFormedCall(s.nodes, s.calls[c]))
    && (forall c | 0 <= c < |s.calls| :: LocksOk(s, c))
    && (forall c, h | 0 <= c < |s.calls| :: ServedOk(s, c, h))
    && (forall h :: HelperOk(s, h))
    && (forall c: nat, slot: nat :: CountOk(s, c, slot))
    && (forall k | 0 <= k < |s.calls| :: ParentOk(s, k))
    && (forall j: nat, k: nat :: OnlyChild(s, j, k))
  }

  lemma InitialInv(nodes: nat)
    ensures Inv(Initial(nodes))
  {}

  lemma BeginKeeps(s: State, kind: Kind, parent: Option<Exec>)
    requires Inv(s) && Enabled(s, Begin(kind, parent))
    ensures Inv(Apply(s, Begin(kind, parent)))
  {
    var t := Apply(s, Begin(kind, parent));
    forall c | 0 <= c < |t.calls| ensures LocksOk(t, c) { if c < |s.calls| { assert LocksOk(s, c); } }
    forall c, h | 0 <= c < |t.calls| ensures ServedOk(t, c, h) { if c < |s.calls| { assert ServedOk(s, c, h); } }
    forall h ensures HelperOk(t, h) { assert HelperOk(s, h); }
    forall c: nat, slot: nat ensures CountOk(t, c, slot) { assert CountOk(s, c, slot); }
    forall k | 0 <= k < |t.calls| ensures ParentOk(t, k) { if k < |s.calls| { assert ParentOk(s, k); } }
    forall j: nat, k: nat ensures OnlyChild(t, j, k) {
      assert OnlyChild(s, j, k);
      if parent.Some? { assert !ActiveChild(s, parent.value, j) && !ActiveChild(s, parent.value, k); }
    }
  }

  lemma TakeKeeps(s: State, h: HelperId)
    requires Inv(s) && Enabled(s, Take(h))
    ensures Inv(Apply(s, Take(h)))
  {
    var t := Apply(s, Take(h));
    assert HelperOk(s, h);
    var owner := HelperAt(s, h).task.value;
    forall c | 0 <= c < |t.calls| ensures LocksOk(t, c) { assert LocksOk(s, c); }
    forall c, g | 0 <= c < |t.calls| ensures ServedOk(t, c, g) { assert ServedOk(s, c, g); }
    forall g ensures HelperOk(t, g) { assert HelperOk(s, g); }
    forall c: nat, slot: nat ensures CountOk(t, c, slot) {
      assert CountOk(s, c, slot);
      assert c < |s.calls| ==> ServedOk(s, c, h);
    }
    forall k | 0 <= k < |t.calls| ensures ParentOk(t, k) { assert ParentOk(s, k); }
    forall j: nat, k: nat ensures OnlyChild(t, j, k) { assert OnlyChild(s, j, k); }
  }

  lemma FinishKeeps(s: State, h: HelperId)
    requires Inv(s) && Enabled(s, Finish(h))
    ensures Inv(Apply(s, Finish(h)))
  {
    var t := Apply(s, Finish(h));
    assert HelperOk(s, h);
    var owner := HelperAt(s, h).running.value;
    forall c | 0 <= c < |t.calls| ensures LocksOk(t, c) { assert LocksOk(s, c); }
    forall c, g | 0 <= c < |t.calls| ensures ServedOk(t, c, g) { assert ServedOk(s, c, g); }
    forall g ensures HelperOk(t, g) { assert HelperOk(s, g); }
    forall c: nat, slot: nat ensures CountOk(t, c, slot) {
      assert CountOk(s, c, slot);
      assert c < |s.calls| ==> ServedOk(s, c, h);
    }
    forall k | 0 <= k < |t.calls| ensures ParentOk(t, k) {
      assert ParentOk(s, k);
      assert !ActiveChild(s, Exec(owner, SlotOf(h)), k);
    }
    forall j: nat, k: nat ensures OnlyChild(t, j, k) { assert OnlyChild(s, j, k); }
  }

  /* `Advance` is proved one conjunct at a time, each from the few facts it needs. */

  ghost predicate LocksAll(s: State) {
    OwnersExist(s) && forall c | 0 <= c < |s.calls| :: LocksOk(s, c)
  }

  // The next step of the call posts to `h`.
  predicate PostsTo(nodes: nat, call: Call, h: HelperId) {
    match h
    case Dispatch(t) => call.pc == Post(t) && t < Width(nodes, call.kind)
    case Pinned(p) => call.kind == OnNode(p) && call.pc == Handoff
  }

  // What a step of call `c` leaves alone.
  ghost predicate Frame(s: State, c: nat, t: State) {
    && c < |s.calls| == |t.calls| && s.nodes == t.nodes
    && (forall d | 0 <= d < |s.calls| && d != c :: t.calls[d] == s.calls[d])
    && t.calls[c].kind == s.calls[c].kind && t.calls[c].parent == s.calls[c].parent
    && (forall h :: HelperAt(t, h) ==
          if PostsTo(s.nodes, s.calls[c], h)
          then HelperAt(s, h).(task := Some(c), pending := true, done := false) else HelperAt(s, h))
    && (forall e: Exec | e.call != c :: t.started[e] == s.started[e] && t.finished[e] == s.finished[e])
  }

  // A helper a call is about to post to belongs to nobody.
  lemma PostTargetFree(s: State, c: nat, d: nat, h: HelperId)
    requires c < |s.calls| && d < |s.calls| && LocksOk(s, c) && LocksOk(s, d)
    requires PostsTo(s.nodes, s.calls[c], h)
    ensures !Occupies(s.nodes, s.calls[d], h)
  {
    if h.Pinned? { assert HoldsMutex(s.calls[d], h.node) ==> !HoldsMutex(s.calls[c], h.node) || d == c; }
  }

  // The call's own bookkeeping after its step.
  ghost predicate SelfOk(s: State, c: nat, t: State)
    requires c < |s.calls| == |t.calls|
  {
    && WellFormedCall(t.nodes, t.calls[c])
    && (forall slot: nat :: CountOk(t, c, slot))
    && (forall h :: ServedOk(t, c, h))
    && (forall h :: HelperOk(t, h))
  }

  lemma FrameKeeps(s: State, c: nat, t: State)
    requires Inv(s) && Frame(s, c, t) && SelfOk(s, c, t) && LocksAll(t)
    requires s.calls[c].pc != Returned
    requires forall slot: nat | OnCaller(s.calls[c].pc, slot) :: NoActiveChild(s, Exec(c, slot))
    ensures Inv(t)
  {
    forall d, h | 0 <= d < |t.calls| ensures ServedOk(t, d, h) {
      assert ServedOk(s, d, h) && ServedOk(t, c, h);
      if d != c && PostsTo(s.nodes, s.calls[c], h) {
        assert LocksOk(s, c) && LocksOk(s, d);
        PostTargetFree(s, c, d, h);
      }
    }
    forall d: nat, slot: nat ensures CountOk(t, d, slot) {
      assert CountOk(s, d, slot) && CountOk(t, c, slot);
      if d != c && d < |s.calls| {
        var h := HelperOf(s.calls[d].kind, slot);
        if PostsTo(s.nodes, s.calls[c], h) { assert LocksOk(s, c) && LocksOk(s, d); PostTargetFree(s, c, d, h); }
      }
    }
    forall k | 0 <= k < |t.calls| ensures ParentOk(t, k) {
      assert ParentOk(s, k);
      if s.calls[k].parent.Some? && s.calls[k].pc != Returned {
        var e := s.calls[k].parent.value;
        assert ActiveChild(s, e, k);
        var h := HelperOf(s.calls[e.call].kind, e.slot);
        assert HelperAt(t, h).running == HelperAt(s, h).running;
      }
    }
    forall j: nat, k: nat ensures OnlyChild(t, j, k) { assert OnlyChild(s, j, k); }
  }

  // A step of a call that has no helper before or after it.
  lemma QuietKeeps(s: State, c: nat, t: State)
    requires Inv(s) && c < |s.calls| == |t.calls| && (s.calls[c].pc.Start? || s.calls[c].pc.Inline?)
    requires t.helpers == s.helpers && t.nodes == s.nodes
    requires t.calls == s.calls[c := s.calls[c].(pc := t.calls[c].pc)]
    requires WellFormedCall(t.nodes, t.calls[c]) && LocksAll(t)
    requires t.calls[c].pc.Inline? || t.calls[c].pc in {Post(1), Handoff, Returned}
    requires forall slot: nat :: CountOk(t, c, slot)
    requires forall e: Exec | e.call != c :: t.started[e] == s.started[e] && t.finished[e] == s.finished[e]
    requires forall slot: nat | OnCaller(s.calls[c].pc, slot) :: NoActiveChild(s, Exec(c, slot))
    ensures Inv(t)
  {
    assert WellFormedCall(s.nodes, s.calls[c]);
    forall h ensures ServedOk(t, c, h) && HelperOk(t, h) { assert ServedOk(s, c, h) && HelperOk(s, h); }
    FrameKeeps(s, c, t);
  }

  lemma ClaimKeeps(s: State, c: nat, onTargetNode: bool)
    requires Inv(s) && Enabled(s, Advance(c, onTargetNode)) && s.calls[c].pc.Start? && s.calls[c].kind.Concurrent?
    requires s.busy == None && 2 <= Width(s.nodes, s.calls[c].kind)
    ensures Inv(AdvanceCall(s, c, onTargetNode))
  {
    var t := AdvanceCall(s, c, onTargetNode);
    assert WellFormedCall(s.nodes, s.calls[c]) && LocksOk(s, c);
    assert LocksAll(t) by { forall d | 0 <= d < |t.calls| ensures LocksOk(t, d) { assert LocksOk(s, d); } }
    forall slot: nat ensures CountOk(t, c, slot) { assert CountOk(s, c, slot); }
    QuietKeeps(s, c, t);
  }

  lemma FallbackKeeps(s: State, c: nat, onTargetNode: bool)
    requires Inv(s) && Enabled(s, Advance(c, onTargetNode)) && s.calls[c].pc.Start? && s.calls[c].kind.Concurrent?
    requires s.busy.Some? || Width(s.nodes, s.calls[c].kind) < 2
    ensures Inv(AdvanceCall(s, c, onTargetNode))
  {
    var t := AdvanceCall(s, c, onTargetNode);
    assert WellFormedCall(s.nodes, s.calls[c]) && LocksOk(s, c);
    assert LocksAll(t) by { forall d | 0 <= d < |t.calls| ensures LocksOk(t, d) { assert LocksOk(s, d); } }
    forall slot: nat ensures CountOk(t, c, slot) { assert CountOk(s, c, slot); }
    QuietKeeps(s, c, t);
  }

  lemma StartOnNodeKeeps(s: State, c: nat, onTargetNode: bool)
    requires Inv(s) && Enabled(s, Advance(c, onTargetNode)) && s.calls[c].pc.Start? && s.calls[c].kind.OnNode?
    ensures Inv(AdvanceCall(s, c, onTargetNode))
  {
    var t := AdvanceCall(s, c, onTargetNode);
    assert WellFormedCall(s.nodes, s.calls[c]) && LocksOk(s, c);
    assert LocksAll(t) by { forall d | 0 <= d < |t.calls| ensures LocksOk(t, d) { assert LocksOk(s, d); } }
    forall slot: nat ensures CountOk(t, c, slot) { assert CountOk(s, c, slot); }
    QuietKeeps(s, c, t);
  }

  // One slot of an inline call ends, and the next, if there is one, starts.
  lemma InlineCounts(s: State, c: nat, onTargetNode: bool, slot: nat)
    requires c < |s.calls| && s.calls[c].pc.Inline? && WellFormedCall(s.nodes, s.calls[c]) && CountOk(s, c, slot)
    ensures CountOk(AdvanceCall(s, c, onTargetNode), c, slot)
  {
    var k, width := s.calls[c].pc.slot, Width(s.nodes, s.calls[c].kind);
    var t := AdvanceCall(s, c, onTargetNode);
    assert t.calls[c].pc == if k + 1 < width then Inline(k + 1) else Returned;
    if slot == k {
      assert t.finished[Exec(c, slot)] == s.finished[Exec(c, slot)] + 1;
      assert t.started[Exec(c, slot)] == s.started[Exec(c, slot)];
    } else if slot == k + 1 && k + 1 < width {
      assert t.started[Exec(c, slot)] == s.started[Exec(c, slot)] + 1;
      assert t.finished[Exec(c, slot)] == s.finished[Exec(c, slot)];
    } else {
      assert t.started[Exec(c, slot)] == s.started[Exec(c, slot)];
      assert t.finished[Exec(c, slot)] == s.finished[Exec(c, slot)];
    }
  }

  // Only the call's place and its own task runs change.
  lemma InlineFrame(s: State, c: nat, onTargetNode: bool)
    requires c < |s.calls| && s.calls[c].pc.Inline? && WellFormedCall(s.nodes, s.calls[c])
    ensures var t := AdvanceCall(s, c, onTargetNode);
      && t.nodes == s.nodes && t.helpers == s.helpers && t.busy == s.busy && t.locked == s.locked
      && |t.calls| == |s.calls| && (t.calls[c].pc.Inline? || t.calls[c].pc == Returned)
      && t.calls == s.calls[c := s.calls[c].(pc := t.calls[c].pc)] && WellFormedCall(t.nodes, t.calls[c])
    ensures var t := AdvanceCall(s, c, onTargetNode);
      forall e: Exec | e.call != c :: t.started[e] == s.started[e] && t.finished[e] == s.finished[e]
  {}

  lemma InlineKeeps(s: State, c: nat, onTargetNode: bool)
    requires Inv(s) && Enabled(s, Advance(c, onTargetNode)) && s.calls[c].pc.Inline?
    ensures Inv(AdvanceCall(s, c, onTargetNode))
  {
    assert WellFormedCall(s.nodes, s.calls[c]);
    InlineFrame(s, c, onTargetNode);
    var t := AdvanceCall(s, c, onTargetNode);
    UnlockedKeeps(s, c, t);
    forall slot: nat ensures CountOk(t, c, slot) {
      assert CountOk(s, c, slot);
      InlineCounts(s, c, onTargetNode, slot);
    }
    QuietKeeps(s, c, t);
  }

  // The locks of a call that held none and holds none.
  lemma UnlockedKeeps(s: State, c: nat, t: State)
    requires LocksAll(s) && c < |s.calls| == |t.calls| && t.busy == s.busy && t.locked == s.locked
    requires t.calls == s.calls[c := s.calls[c].(pc := t.calls[c].pc)]
    requires s.calls[c].pc.Inline? && (t.calls[c].pc.Inline? || t.calls[c].pc == Returned)
    ensures LocksAll(t)
  {
    forall d | 0 <= d < |t.calls| ensures LocksOk(t, d) { assert LocksOk(s, d); }
  }

  lemma PostKeeps(s: State, c: nat, onTargetNode: bool)
    requires Inv(s) && Enabled(s, Advance(c, onTargetNode)) && s.calls[c].pc.Post?
    requires s.calls[c].pc.next < Width(s.nodes, s.calls[c].kind)
    ensures Inv(AdvanceCall(s, c, onTargetNode))
  {
    var t := AdvanceCall(s, c, onTargetNode);
    assert WellFormedCall(s.nodes, s.calls[c]) && LocksOk(s, c);
    var target := Dispatch(s.calls[c].pc.next);
    assert HelperOk(s, target);
    var running := HelperAt(s, target).running;
    if running.Some? {
      assert LocksOk(s, running.value);
      PostTargetFree(s, c, running.value, target);
    }
    assert LocksAll(t) by { forall d | 0 <= d < |t.calls| ensures LocksOk(t, d) { assert LocksOk(s, d); } }
    forall h ensures ServedOk(t, c, h) && HelperOk(t, h) { assert ServedOk(s, c, h) && HelperOk(s, h); }
    forall slot: nat ensures CountOk(t, c, slot) { assert CountOk(s, c, slot); }
    FrameKeeps(s, c, t);
  }

  lemma PostedKeeps(s: State, c: nat, onTargetNode: bool)
    requires Inv(s) && Enabled(s, Advance(c, onTargetNode)) && s.calls[c].pc.Post?
    requires s.calls[c].pc.next >= Width(s.nodes, s.calls[c].kind)
    ensures Inv(AdvanceCall(s, c, onTargetNode))
  {
    var t := AdvanceCall(s, c, onTargetNode);
    assert WellFormedCall(s.nodes, s.calls[c]) && LocksOk(s, c);
    assert LocksAll(t) by { forall d | 0 <= d < |t.calls| ensures LocksOk(t, d) { assert LocksOk(s, d); } }
    forall h ensures ServedOk(t, c, h) && HelperOk(t, h) { assert ServedOk(s, c, h) && HelperOk(s, h); }
    forall slot: nat ensures CountOk(t, c, slot) { assert CountOk(s, c, slot); }
    FrameKeeps(s, c, t);
  }

  lemma OwnKeeps(s: State, c: nat, onTargetNode: bool)
    requires Inv(s) && Enabled(s, Advance(c, onTargetNode)) && s.calls[c].pc.Own?
    ensures Inv(AdvanceCall(s, c, onTargetNode))
  {
    var t := AdvanceCall(s, c, onTargetNode);
    assert WellFormedCall(s.nodes, s.calls[c]) && LocksOk(s, c);
    assert LocksAll(t) by { forall d | 0 <= d < |t.calls| ensures LocksOk(t, d) { assert LocksOk(s, d); } }
    forall h ensures ServedOk(t, c, h) && HelperOk(t, h) { assert ServedOk(s, c, h) && HelperOk(s, h); }
    forall slot: nat ensures CountOk(t, c, slot) { assert CountOk(s, c, slot); }
    FrameKeeps(s, c, t);
  }

  lemma WaitKeeps(s: State, c: nat, onTargetNode: bool)
    requires Inv(s) && Enabled(s, Advance(c, onTargetNode)) && s.calls[c].pc.Wait?
    requires s.calls[c].pc.next < Width(s.nodes, s.calls[c].kind)
    ensures Inv(AdvanceCall(s, c, onTargetNode))
  {
    var t := AdvanceCall(s, c, onTargetNode);
    assert WellFormedCall(s.nodes, s.calls[c]) && LocksOk(s, c);
    assert ServedOk(s, c, Dispatch(s.calls[c].pc.next));
    assert LocksAll(t) by { forall d | 0 <= d < |t.calls| ensures LocksOk(t, d) { assert LocksOk(s, d); } }
    forall h ensures ServedOk(t, c, h) && HelperOk(t, h) { assert ServedOk(s, c, h) && HelperOk(s, h); }
    forall slot: nat ensures CountOk(t, c, slot) { assert CountOk(s, c, slot); }
    FrameKeeps(s, c, t);
  }

  // The last wait is over and the busy flag is given back.
  lemma ReleaseKeeps(s: State, c: nat, onTargetNode: bool)
    requires Inv(s) && Enabled(s, Advance(c, onTargetNode)) && s.calls[c].pc.Wait?
    requires s.calls[c].pc.next >= Width(s.nodes, s.calls[c].kind)
    ensures Inv(AdvanceCall(s, c, onTargetNode))
  {
    var t := AdvanceCall(s, c, onTargetNode);
    assert WellFormedCall(s.nodes, s.calls[c]) && LocksOk(s, c);
    assert LocksAll(t) by { forall d | 0 <= d < |t.calls| ensures LocksOk(t, d) { assert LocksOk(s, d); } }
    forall h ensures ServedOk(t, c, h) && HelperOk(t, h) { assert ServedOk(s, c, h) && HelperOk(s, h); }
    forall slot: nat ensures CountOk(t, c, slot) { assert CountOk(s, c, slot); }
    FrameKeeps(s, c, t);
  }

  lemma HandoffKeeps(s: State, c: nat, onTargetNode: bool)
    requires Inv(s) && Enabled(s, Advance(c, onTargetNode)) && s.calls[c].pc.Handoff?
    ensures Inv(AdvanceCall(s, c, onTargetNode))
  {
    var t := AdvanceCall(s, c, onTargetNode);
    assert WellFormedCall(s.nodes, s.calls[c]) && LocksOk(s, c);
    var target := Pinned(s.calls[c].kind.node);
    assert HelperOk(s, target);
    var running := HelperAt(s, target).running;
    if running.Some? && PostsTo(s.nodes, s.calls[c], target) {
      assert LocksOk(s, running.value);
      PostTargetFree(s, c, running.value, target);
    }
    assert LocksAll(t) by { forall d | 0 <= d < |t.calls| ensures LocksOk(t, d) { assert LocksOk(s, d); } }
    forall h ensures ServedOk(t, c, h) && HelperOk(t, h) { assert ServedOk(s, c, h) && HelperOk(s, h); }
    forall slot: nat ensures CountOk(t, c, slot) { assert CountOk(s, c, slot); }
    FrameKeeps(s, c, t);
  }

  lemma AwaitKeeps(s: State, c: nat, onTargetNode: bool)
    requires Inv(s) && Enabled(s, Advance(c, onTargetNode)) && s.calls[c].pc.Await?
    ensures Inv(AdvanceCall(s, c, onTargetNode))
  {
    var t := AdvanceCall(s, c, onTargetNode);
    assert WellFormedCall(s.nodes, s.calls[c]) && LocksOk(s, c);
    assert ServedOk(s, c, Pinned(s.calls[c].kind.node));
    assert LocksAll(t) by { forall d | 0 <= d < |t.calls| ensures LocksOk(t, d) { assert LocksOk(s, d); } }
    forall h ensures ServedOk(t, c, h) && HelperOk(t, h) { assert ServedOk(s, c, h) && HelperOk(s, h); }
    forall slot: nat ensures CountOk(t, c, slot) { assert CountOk(s, c, slot); }
    FrameKeeps(s, c, t);
  }

  lemma StepKeeps(s: State, a: Action)
    requires Inv(s) && Enabled(s, a)
    ensures Inv(Apply(s, a))
  {
    match a
    case Begin(kind, parent) => BeginKeeps(s, kind, parent);
    case Take(h) => TakeKeeps(s, h);
    case Finish(h) => FinishKeeps(s, h);
    case Advance(c, o) =>
      match s.calls[c].pc
      case Start =>
        if s.calls[c].kind.OnNode? { StartOnNodeKeeps(s, c, o); }
        else if s.busy == None && 2 <= Width(s.nodes, s.calls[c].kind) { ClaimKeeps(s, c, o); }
        else { FallbackKeeps(s, c, o); }
      case Inline(_) => InlineKeeps(s, c, o);
      case Post(t) => if t < Width(s.nodes, s.calls[c].kind) { PostKeeps(s, c, o); } else { PostedKeeps(s, c, o); }
      case Own => OwnKeeps(s, c, o);
      case Wait(k) => if k < Width(s.nodes, s.calls[c].kind) { WaitKeeps(s, c, o); } else { ReleaseKeeps(s, c, o); }
      case Handoff => HandoffKeeps(s, c, o);
      case Await => AwaitKeeps(s, c, o);
  }

  lemma {:induction false} RunKeeps(s: State, actions: seq<Action>, t: State)
    requires Inv(s) && Run(s, actions, t)
    ensures Inv(t)
    decreases |actions|
  {
    if actions != [] {
      StepKeeps(s, actions[0]);
      RunKeeps(Apply(s, actions[0]), actions[1..], t);
    }
  }

  /* ---- What callers rely on, over every run ---- */

  // When a call returns, its task has run to completion exactly once for every node it asked for and the
  // machine has, or once for a call on one node, and never for another; no helper still has or is inside it.
  lemma ReturnedCallsAreComplete(nodes: nat, actions: seq<Action>, t: State, c: nat)
    requires Run(Initial(nodes), actions, t) && c < |t.calls| && t.calls[c].pc == Returned
    ensures match t.calls[c].kind
      case Concurrent(r) =>
        forall slot: nat :: t.started[Exec(c, slot)] == t.finished[Exec(c, slot)] ==
                            if slot < r && slot < nodes then 1 else 0
      case OnNode(_) =>
        forall slot: nat :: t.started[Exec(c, slot)] == t.finished[Exec(c, slot)] == if slot == 0 then 1 else 0
    ensures forall h :: !(HelperAt(t, h).pending && HelperAt(t, h).task == Some(c)) && HelperAt(t, h).running != Some(c)
  {
    InitialInv(nodes);
    RunKeeps(Initial(nodes), actions, t);
    RunNodes(Initial(nodes), actions, t);
    forall slot: nat
      ensures t.started[Exec(c, slot)] == t.finished[Exec(c, slot)] ==
              if slot < Width(nodes, t.calls[c].kind) then 1 else 0
    {
      assert CountOk(t, c, slot);
    }
    forall h ensures !(HelperAt(t, h).pending && HelperAt(t, h).task == Some(c)) && HelperAt(t, h).running != Some(c) {
      assert HelperOk(t, h);
    }
  }

  // The calling thread has just begun this slot: in a call it runs alone, or as its share of a spread one.
  predicate StartsOn(pc: Pc, slot: nat) { pc == Inline(slot) || (slot == 0 && pc == Own) }

  // Where a task run starts: for node 0 on the calling thread, for another node on the helper of that node,
  // or on the calling thread in a call that runs everything there; for a call on one node, on its helper or
  // on the calling thread.
  lemma RunsWhereItBelongs(s: State, a: Action, t: State, e: Exec)
    requires Inv(s) && Enabled(s, a) && t == Apply(s, a) && t.started[e] > s.started[e]
    ensures e.call < |s.calls| <= |t.calls|
    ensures a.Take? ==> match s.calls[e.call].kind
      case Concurrent(_) => e.slot > 0 && a.helper.Dispatch? && a.helper.node == e.slot
      case OnNode(p) => e.slot == 0 && a.helper.Pinned? && a.helper.node == p
    ensures !a.Take? ==> a.Advance? && a.call == e.call && StartsOn(t.calls[e.call].pc, e.slot)
  {
    match a
    case Take(h) => assert HelperOk(s, h) && WellFormedCall(s.nodes, s.calls[HelperAt(s, h).task.value]);
    case Advance(c, o) => StartsOwn(s, c, o, t, e);
    case _ =>
  }

  lemma StartsOwn(s: State, c: nat, onTargetNode: bool, t: State, e: Exec)
    requires c < |s.calls| && t == AdvanceCall(s, c, onTargetNode) && t.started[e] > s.started[e]
    ensures c == e.call && |t.calls| == |s.calls| && StartsOn(t.calls[c].pc, e.slot)
  {
    match s.calls[c].pc
    case Start => assert t == s || t == StartInline(s, c, 0) || t.started == s.started;
    case Inline(k) => assert |t.calls| == |s.calls|;
    case Post(_) => assert |t.calls| == |s.calls|;
    case _ =>
  }

  // A call that is posting to the node helpers, running its own share, or waiting for them.
  predicate Dispatching(call: Call) { call.pc.Post? || call.pc.Own? || call.pc.Wait? }

  ghost predicate DispatcherTaken(s: State) { exists d: nat | d < |s.calls| :: Dispatching(s.calls[d]) }

  predicate HandedOver(call: Call, p: int) { call.kind == OnNode(p) && (call.pc.Handoff? || call.pc.Await?) }

  ghost predicate HelperTaken(s: State, p: int) { exists d: nat | d < |s.calls| :: HandedOver(s.calls[d], p) }

  // When a call runs everything on its own thread: with nothing to spread, or when another call is inside
  // the dispatcher or holds the node's helper. It then does not wait.
  lemma InlineOnlyForCause(s: State, c: nat, onTargetNode: bool)
    requires Inv(s) && c < |s.calls| && s.calls[c].pc == Start
    ensures var pc := Apply(s, Advance(c, onTargetNode)).calls[c].pc;
      match s.calls[c].kind
      case Concurrent(r) =>
        && (pc == Returned <==> r <= 0 || s.nodes == 0)
        && (pc == Inline(0) <==> r > 0 && s.nodes > 0 && (r == 1 || s.nodes == 1 || DispatcherTaken(s)))
      case OnNode(p) => pc == Inline(0) <==> p < 0 || p >= s.nodes || onTargetNode || HelperTaken(s, p)
  {
    forall d: nat | d < |s.calls| ensures LocksOk(s, d) && WellFormedCall(s.nodes, s.calls[d]) {}
    if s.busy.Some? { assert LocksOk(s, s.busy.value) && Dispatching(s.calls[s.busy.value]); }
    if s.calls[c].kind.OnNode? {
      var p := s.calls[c].kind.node;
      if p in s.locked { assert LocksOk(s, s.locked[p]) && HandedOver(s.calls[s.locked[p]], p); }
      if HelperTaken(s, p) {
        var d: nat :| d < |s.calls| && HandedOver(s.calls[d], p);
        assert HoldsMutex(s.calls[d], p);
      }
    }
  }

  lemma {:induction false} RunNodes(s: State, actions: seq<Action>, t: State)
    requires Run(s, actions, t)
    ensures t.nodes == s.nodes
    decreases |actions|
  {
    if actions != [] { RunNodes(Apply(s, actions[0]), actions[1..], t); }
  }

  // At every moment no task run has been started twice, and a helper has at most one task:
  // while one is pending it is inside none, and a post never replaces an unfinished one.
  lemma NothingRunsTwice(nodes: nat, actions: seq<Action>, t: State)
    requires Run(Initial(nodes), actions, t)
    ensures forall e: Exec :: t.finished[e] <= t.started[e] <= 1
    ensures forall h :: HelperAt(t, h).pending ==> HelperAt(t, h).running.None?
    ensures forall c: nat, h | c < |t.calls| && PostsTo(t.nodes, t.calls[c], h) ::
              !HelperAt(t, h).pending && HelperAt(t, h).running.None?
  {
    InitialInv(nodes);
    RunKeeps(Initial(nodes), actions, t);
    forall e: Exec ensures t.finished[e] <= t.started[e] <= 1 {
      assert CountOk(t, e.call, e.slot);
    }
    forall h ensures HelperAt(t, h).pending ==> HelperAt(t, h).running.None? {
      assert HelperOk(t, h);
      if HelperAt(t, h).pending { assert ServedOk(t, HelperAt(t, h).task.value, h); }
    }
    forall c: nat, h | c < |t.calls| && PostsTo(t.nodes, t.calls[c], h)
      ensures !HelperAt(t, h).pending && HelperAt(t, h).running.None?
    {
      assert HelperOk(t, h) && LocksOk(t, c);
      var helper := HelperAt(t, h);
      if helper.pending { assert LocksOk(t, helper.task.value); PostTargetFree(t, c, helper.task.value, h); }
      if helper.running.Some? {
        assert LocksOk(t, helper.running.value);
        PostTargetFree(t, c, helper.running.value, h);
      }
    }
  }

  // The helper whose answer the call is waiting for.
  function AwaitedHelper(s: State, c: nat): Option<HelperId>
    requires c < |s.calls|
  {
    match s.calls[c].pc
    case Wait(t) => if t < Width(s.nodes, s.calls[c].kind) then Some(Dispatch(t)) else None
    case Await => if s.calls[c].kind.OnNode? then Some(HelperOf(s.calls[c].kind, 0)) else None
    case _ => None
  }

  // `c` cannot go on before the open call `d` has returned: either its own thread is inside the task run
  // that made `d`, or the helper it waits for is, whosever task that helper runs.
  predicate WaitsFor(s: State, c: nat, d: nat) {
    && c < |s.calls| && d < |s.calls| && s.calls[d].pc != Returned && s.calls[d].parent.Some?
    && var e := s.calls[d].parent.value;
       || (e.call == c && OnCaller(s.calls[c].pc, e.slot))
       || (AwaitedHelper(s, c).Some? &&
           var h := AwaitedHelper(s, c).value; HelperAt(s, h).running == Some(e.call) && SlotOf(h) == e.slot)
  }

  // The helper a call waits for is never inside another call's task, so what blocks a call was made from
  // its own task runs, later than itself.
  lemma WaitsForLater(s: State, c: nat, d: nat)
    requires Inv(s) && WaitsFor(s, c, d)
    ensures s.calls[d].parent.value.call == c && c < d
  {
    assert ParentOk(s, d) && WellFormedCall(s.nodes, s.calls[c]);
    if AwaitedHelper(s, c).Some? {
      var h := AwaitedHelper(s, c).value;
      assert ServedOk(s, c, h) && HelperOk(s, h);
    }
  }

  lemma {:induction false} WaitsForIsAcyclic(s: State, path: seq<nat>)
    requires Inv(s) && |path| >= 2
    requires forall i | 0 <= i < |path| - 1 :: WaitsFor(s, path[i], path[i + 1])
    ensures path[0] < path[|path| - 1]
    decreases |path|
  {
    assert WaitsFor(s, path[|path| - 2], path[|path| - 1]);
    WaitsForLater(s, path[|path| - 2], path[|path| - 1]);
    if |path| > 2 { WaitsForIsAcyclic(s, path[..|path| - 1]); }
  }

  // The step that unblocks the youngest call.
  function Unblocking(s: State, c: nat): (a: Action)
    requires c < |s.calls|
    ensures !a.Begin?
  {
    var call := s.calls[c];
    var h := if call.pc.Wait? then Dispatch(call.pc.next) else HelperOf(call.kind, 0);
    if ((call.pc.Wait? && call.pc.next < Width(s.nodes, call.kind)) || call.pc.Await?) && !HelperAt(s, h).done
    then (if HelperAt(s, h).pending then Take(h) else Finish(h))
    else Advance(c, false)
  }

  // No deadlock: while a call is open, some thread can take a step that is not a new call.
  lemma SomethingIsEnabled(s: State, c: nat) returns (a: Action)
    requires Inv(s) && c < |s.calls| && s.calls[c].pc != Returned
    ensures !a.Begin? && Enabled(s, a)
    decreases |s.calls| - c
  {
    if d: nat :| c < d < |s.calls| && s.calls[d].pc != Returned {
      a := SomethingIsEnabled(s, d);
    } else {
      a := Unblocking(s, c);
      assert WellFormedCall(s.nodes, s.calls[c]);
      forall slot: nat ensures NoActiveChild(s, Exec(c, slot)) {
        forall k: nat ensures !ActiveChild(s, Exec(c, slot), k) {
          if k < |s.calls| { assert ParentOk(s, k); }
        }
      }
      if s.calls[c].pc.Wait? { assert ServedOk(s, c, Dispatch(s.calls[c].pc.next)); }
      if s.calls[c].pc.Await? { assert ServedOk(s, c, Pinned(s.calls[c].kind.node)); }
    }
  }

  /* ---- Every open call comes to an end once no new calls are made ---- */

  // Steps the calling thread still has ahead of it.
  function CallerLeft(pc: Pc, width: nat): int {
    match pc
    case Start => 2 * width + 4
    case Post(k) => 2 * width + 3 - k
    case Own => width + 2
    case Wait(k) => width + 1 - k
    case Handoff => 2
    case Await => 1
    case Inline(_) => 1
    case Returned => 0
  }

  // Starts and ends of task runs still ahead in the first `n` slots of the call.
  function RunsLeft(s: State, c: nat, n: nat): int {
    if n == 0 then 0
    else RunsLeft(s, c, n - 1) + 2 - s.started[Exec(c, n - 1)] - s.finished[Exec(c, n - 1)]
  }

  function CallLeft(s: State, c: nat): int
    requires c < |s.calls|
  {
    var width := Width(s.nodes, s.calls[c].kind);
    CallerLeft(s.calls[c].pc, width) + RunsLeft(s, c, width)
  }

  function StepsLeft(s: State, n: nat): int
    requires n <= |s.calls|
  {
    if n == 0 then 0 else StepsLeft(s, n - 1) + CallLeft(s, n - 1)
  }

  lemma {:induction false} RunsLeftShrinks(s: State, t: State, c: nat, n: nat, slot: nat)
    requires forall k: nat ::
      s.started[Exec(c, k)] <= t.started[Exec(c, k)] && s.finished[Exec(c, k)] <= t.finished[Exec(c, k)]
    ensures RunsLeft(t, c, n) <= RunsLeft(s, c, n)
    ensures (slot < n && s.started[Exec(c, slot)] + s.finished[Exec(c, slot)] <
                         t.started[Exec(c, slot)] + t.finished[Exec(c, slot)]) ==> RunsLeft(t, c, n) < RunsLeft(s, c, n)
  {
    if n > 0 { RunsLeftShrinks(s, t, c, n - 1, slot); }
  }

  lemma {:induction false} RunsLeftSame(s: State, t: State, c: nat, n: nat)
    requires forall k: nat ::
      s.started[Exec(c, k)] == t.started[Exec(c, k)] && s.finished[Exec(c, k)] == t.finished[Exec(c, k)]
    ensures RunsLeft(t, c, n) == RunsLeft(s, c, n)
  {
    if n > 0 { RunsLeftSame(s, t, c, n - 1); }
  }

  lemma {:induction false} StepsLeftShrinks(s: State, t: State, n: nat, c: nat)
    requires n <= |s.calls| == |t.calls|
    requires forall d | 0 <= d < n && d != c :: CallLeft(t, d) == CallLeft(s, d)
    requires c < n ==> CallLeft(t, c) < CallLeft(s, c)
    ensures if c < n then StepsLeft(t, n) < StepsLeft(s, n) else StepsLeft(t, n) == StepsLeft(s, n)
  {
    if n > 0 { StepsLeftShrinks(s, t, n - 1, c); }
  }

  lemma {:induction false} StepsLeftNatural(s: State, n: nat)
    requires Inv(s) && n <= |s.calls|
    ensures StepsLeft(s, n) >= 0
  {
    if n > 0 {
      StepsLeftNatural(s, n - 1);
      assert WellFormedCall(s.nodes, s.calls[n - 1]);
      RunsLeftNatural(s, n - 1, Width(s.nodes, s.calls[n - 1].kind));
    }
  }

  lemma {:induction false} RunsLeftNatural(s: State, c: nat, n: nat)
    requires Inv(s)
    ensures RunsLeft(s, c, n) >= 0
  {
    if n > 0 { RunsLeftNatural(s, c, n - 1); assert CountOk(s, c, n - 1); }
  }

  // Only the call `c` has moved, and it has moved on.
  ghost predicate Moved(s: State, c: nat, t: State) {
    && c < |s.calls| == |t.calls| && s.nodes == t.nodes
    && (forall d | 0 <= d < |s.calls| && d != c :: t.calls[d] == s.calls[d])
    && (forall e: Exec | e.call != c :: t.started[e] == s.started[e] && t.finished[e] == s.finished[e])
    && CallLeft(t, c) < CallLeft(s, c)
  }

  lemma MovedShrinks(s: State, c: nat, t: State)
    requires Moved(s, c, t)
    ensures StepsLeft(t, |s.calls|) < StepsLeft(s, |s.calls|)
  {
    forall d | 0 <= d < |s.calls| && d != c ensures CallLeft(t, d) == CallLeft(s, d) {
      RunsLeftSame(s, t, d, Width(s.nodes, s.calls[d].kind));
    }
    StepsLeftShrinks(s, t, |s.calls|, c);
  }

  lemma StartConcurrentMoves(s: State, c: nat, onTargetNode: bool)
    requires Enabled(s, Advance(c, onTargetNode)) && WellFormedCall(s.nodes, s.calls[c])
    requires s.calls[c].pc.Start? && s.calls[c].kind.Concurrent?
    ensures Moved(s, c, AdvanceCall(s, c, onTargetNode))
  {
    var t := AdvanceCall(s, c, onTargetNode);
    RunsLeftShrinks(s, t, c, Width(s.nodes, s.calls[c].kind), 0);
  }

  lemma StartOnNodeMoves(s: State, c: nat, onTargetNode: bool)
    requires Enabled(s, Advance(c, onTargetNode)) && WellFormedCall(s.nodes, s.calls[c])
    requires s.calls[c].pc.Start? && s.calls[c].kind.OnNode?
    ensures Moved(s, c, AdvanceCall(s, c, onTargetNode))
  {
    var t := AdvanceCall(s, c, onTargetNode);
    RunsLeftShrinks(s, t, c, Width(s.nodes, s.calls[c].kind), 0);
  }

  lemma DispatchMoves(s: State, c: nat, onTargetNode: bool)
    requires Enabled(s, Advance(c, onTargetNode)) && WellFormedCall(s.nodes, s.calls[c])
    requires s.calls[c].pc.Post? || s.calls[c].pc.Own? || s.calls[c].pc.Wait?
    ensures Moved(s, c, AdvanceCall(s, c, onTargetNode))
  {
    var t := AdvanceCall(s, c, onTargetNode);
    RunsLeftShrinks(s, t, c, Width(s.nodes, s.calls[c].kind), 0);
  }

  lemma PinnedMoves(s: State, c: nat, onTargetNode: bool)
    requires Enabled(s, Advance(c, onTargetNode)) && WellFormedCall(s.nodes, s.calls[c])
    requires s.calls[c].pc.Handoff? || s.calls[c].pc.Await?
    ensures Moved(s, c, AdvanceCall(s, c, onTargetNode))
  {
    var t := AdvanceCall(s, c, onTargetNode);
    RunsLeftShrinks(s, t, c, Width(s.nodes, s.calls[c].kind), 0);
  }

  lemma InlineMoves(s: State, c: nat, onTargetNode: bool)
    requires Enabled(s, Advance(c, onTargetNode)) && WellFormedCall(s.nodes, s.calls[c])
    requires s.calls[c].pc.Inline?
    ensures Moved(s, c, AdvanceCall(s, c, onTargetNode))
  {
    var t, k, width := AdvanceCall(s, c, onTargetNode), s.calls[c].pc.slot, Width(s.nodes, s.calls[c].kind);
    InlineFrame(s, c, onTargetNode);
    forall slot: nat
      ensures t.started[Exec(c, slot)] >= s.started[Exec(c, slot)]
      ensures t.finished[Exec(c, slot)] == s.finished[Exec(c, slot)] + if slot == k then 1 else 0
    {
      InlineRuns(s, c, onTargetNode, slot);
    }
    RunsLeftShrinks(s, t, c, width, k);
  }

  lemma InlineRuns(s: State, c: nat, onTargetNode: bool, slot: nat)
    requires c < |s.calls| && s.calls[c].pc.Inline?
    ensures var t := AdvanceCall(s, c, onTargetNode);
      && t.started[Exec(c, slot)] >= s.started[Exec(c, slot)]
      && t.finished[Exec(c, slot)] == s.finished[Exec(c, slot)] + if slot == s.calls[c].pc.slot then 1 else 0
  {}

  lemma StepShrinks(s: State, a: Action)
    requires Inv(s) && Enabled(s, a) && !a.Begin?
    ensures |Apply(s, a).calls| == |s.calls|
    ensures StepsLeft(Apply(s, a), |s.calls|) < StepsLeft(s, |s.calls|)
  {
    var t := Apply(s, a);
    match a {
      case Take(h) =>
        assert HelperOk(s, h);
        var c := HelperAt(s, h).task.value;
        RunsLeftShrinks(s, t, c, Width(s.nodes, s.calls[c].kind), SlotOf(h));
        MovedShrinks(s, c, t);
      case Finish(h) =>
        assert HelperOk(s, h);
        var c := HelperAt(s, h).running.value;
        RunsLeftShrinks(s, t, c, Width(s.nodes, s.calls[c].kind), SlotOf(h));
        MovedShrinks(s, c, t);
      case Advance(c, o) =>
        assert WellFormedCall(s.nodes, s.calls[c]);
        match s.calls[c].pc {
          case Start =>
            if s.calls[c].kind.OnNode? { StartOnNodeMoves(s, c, o); } else { StartConcurrentMoves(s, c, o); }
          case Inline(_) => InlineMoves(s, c, o);
          case Handoff => PinnedMoves(s, c, o);
          case Await => PinnedMoves(s, c, o);
          case _ => DispatchMoves(s, c, o);
        }
        MovedShrinks(s, c, t);
    }
  }

  // A run without new calls is shorter than the steps left, and if nothing more can
  // happen at its end then every call has returned.
  lemma {:induction false} QuietRunsDrain(s: State, actions: seq<Action>, t: State)
    requires Inv(s) && Run(s, actions, t)
    requires forall a | a in actions :: !a.Begin?
    ensures |actions| <= StepsLeft(s, |s.calls|)
    ensures (forall a: Action :: !a.Begin? ==> !Enabled(t, a)) ==> forall c | 0 <= c < |t.calls| ::
      t.calls[c].pc == Returned
    decreases |actions|
  {
    if actions == [] {
      StepsLeftNatural(s, |s.calls|);
      if c :| 0 <= c < |t.calls| && t.calls[c].pc != Returned { var a := SomethingIsEnabled(t, c); }
    } else {
      assert !actions[0].Begin?;
      StepKeeps(s, actions[0]);
      StepShrinks(s, actions[0]);
      QuietRunsDrain(Apply(s, actions[0]), actions[1..], t);
    }
  }
}
