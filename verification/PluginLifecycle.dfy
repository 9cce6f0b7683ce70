/** The backend registry: plugins are opened, asked for a backend, registered or rolled back, and released
    at shutdown. A log of what happened to libraries and backends says what must never happen. */
module PluginLifecycle {
  import opened Ordering

  datatype Option<T> = None | Some(value: T)

  /* ---- What happens to libraries and backends ---- */

  // Every successful open of a library is a new handle; a backend made by a plugin lives in the library
  // of the handle it was made through.
  datatype Event =
    | Open(handle: nat)
    | Create(backend: nat, maker: Option<nat>)
    | Destroy(backend: nat)
    | Close(handle: nat)

  datatype World = World(acquired: set<nat>, released: set<nat>, made: map<nat, Option<nat>>, destroyed: set<nat>)

  const Untouched := World({}, {}, map[], {})

  function Alive(w: World): set<nat> { w.made.Keys - w.destroyed }

  predicate LivesIn(w: World, backend: nat, handle: nat) { backend in Alive(w) && w.made[backend] == Some(handle) }

  // A library is open while it is used and closed once; a backend is made once, destroyed once, and only
  // while its library is open.
  ghost predicate Allowed(w: World, e: Event) {
    match e
    case Open(h) => h !in w.acquired
    case Create(b, maker) => b !in w.made && (maker.Some? ==> maker.value in w.acquired - w.released)
    case Destroy(b) => b in Alive(w) && (w.made[b].Some? ==> w.made[b].value in w.acquired - w.released)
    case Close(h) => h in w.acquired - w.released && forall b :: !LivesIn(w, b, h)
  }

  function Apply(w: World, e: Event): World {
    match e
    case Open(h) => w.(acquired := w.acquired + {h})
    case Create(b, maker) => w.(made := w.made[b := maker])
    case Destroy(b) => w.(destroyed := w.destroyed + {b})
    case Close(h) => w.(released := w.released + {h})
  }

  function WorldOf(log: seq<Event>): World {
    if log == [] then Untouched else Apply(WorldOf(log[..|log| - 1]), log[|log| - 1])
  }

  ghost predicate Legal(log: seq<Event>) {
    log == [] || (Legal(log[..|log| - 1]) && Allowed(WorldOf(log[..|log| - 1]), log[|log| - 1]))
  }

  /* ---- What a legal log means ---- */

  lemma {:induction false} WorldHistory(log: seq<Event>, h: nat, b: nat)
    requires Legal(log)
    ensures h in WorldOf(log).acquired <==> Open(h) in log
    ensures h in WorldOf(log).released <==> Close(h) in log
    ensures b in WorldOf(log).destroyed <==> Destroy(b) in log
    ensures b in WorldOf(log).made <==> exists maker :: Create(b, maker) in log
    ensures forall maker :: Create(b, maker) in log ==> WorldOf(log).made[b] == maker
    ensures WorldOf(log).destroyed <= WorldOf(log).made.Keys
  {
    if log != [] {
      var front, last := log[..|log| - 1], log[|log| - 1];
      WorldHistory(front, h, b);
      assert log == front + [last];
      if last.Destroy? { WorldHistory(front, h, last.backend); }
    }
  }

  lemma {:induction false} LegalPrefix(log: seq<Event>, i: nat)
    requires Legal(log) && i <= |log|
    ensures Legal(log[..i])
    ensures i < |log| ==> Allowed(WorldOf(log[..i]), log[i])
  {
    if i < |log| {
      var front := log[..|log| - 1];
      LegalPrefix(front, i);
      assert front[..i] == log[..i];
      if i < |log| - 1 { assert front[i] == log[i]; }
    } else {
      assert log[..i] == log;
    }
  }

  /** In a legal log a close comes after the open of its handle, is the only close of it, and comes after
      the end of every backend made through it. */
  lemma ClosedOnceAndLast(log: seq<Event>, i: nat)
    requires Legal(log) && i < |log| && log[i].Close?
    ensures Open(log[i].handle) in log[..i]
    ensures forall j | 0 <= j < |log| && j != i :: log[j] != log[i]
    ensures forall b :: Create(b, Some(log[i].handle)) in log[..i] ==> Destroy(b) in log[..i]
    ensures forall b :: Create(b, Some(log[i].handle)) !in log[i..]
  {
    var h := log[i].handle;
    LegalPrefix(log, i);
    WorldHistory(log[..i], h, 0);
    forall j | 0 <= j < |log| && j != i ensures log[j] != log[i] {
      if j < i { assert log[..i][j] == log[j]; } else { CloseStays(log, i, j); }
    }
    forall b | Create(b, Some(h)) in log[..i] ensures Destroy(b) in log[..i] {
      WorldHistory(log[..i], h, b);
      assert !LivesIn(WorldOf(log[..i]), b, h);
    }
    forall b ensures Create(b, Some(h)) !in log[i..] {
      forall j | i < j < |log| ensures log[j] != Create(b, Some(h)) { CloseStays(log, i, j); }
    }
  }

  lemma CloseStays(log: seq<Event>, i: nat, j: nat)
    requires Legal(log) && i < j < |log| && log[i].Close?
    ensures log[j] != log[i] && forall b :: log[j] != Create(b, Some(log[i].handle))
  {
    LegalPrefix(log, j);
    assert log[..j][i] == log[i];
    WorldHistory(log[..j], log[i].handle, 0);
  }

  lemma {:induction false} TimesClosed(log: seq<Event>, h: nat)
    requires Legal(log)
    ensures multiset(log)[Close(h)] == if h in WorldOf(log).released then 1 else 0
    ensures multiset(log)[Open(h)] == if h in WorldOf(log).acquired then 1 else 0
  {
    if log != [] {
      var front, last := log[..|log| - 1], log[|log| - 1];
      TimesClosed(front, h);
      assert log == front + [last];
      assert WorldOf(log) == Apply(WorldOf(front), last);
    }
  }

  /** Once everything opened is closed, every open in the log is matched by exactly one close. */
  lemma EveryOpenClosedOnce(log: seq<Event>, h: nat)
    requires Legal(log) && WorldOf(log).released == WorldOf(log).acquired
    ensures multiset(log)[Open(h)] == multiset(log)[Close(h)] <= 1
    ensures Open(h) in log ==> multiset(log)[Close(h)] == 1
  {
    TimesClosed(log, h);
    WorldHistory(log, h, 0);
  }

  /* ---- The registry ---- */

  const CPU := 0
  const METAL := 1
  const NPU := 2
  const ASIC := 3
  const CustomStart := 100
  const Unknown := 255

  predicate IsValidPluginDevice(device: int) {
    device == CPU || device == METAL || device == NPU || device == ASIC || CustomStart <= device < Unknown
  }

  // How far a plugin gets: what the loader and the plugin's own code answer, and whether the registry's
  // containers can grow.
  datatype Insertion = Inserts | NoRoomForHandle | NoRoomForBackend
  datatype Plugin =
    | EmptyPath
    | CannotOpen
    | NoFactory
    | FactoryThrows
    | ReturnsNull
    | IdentificationThrows
    | Identified(device: int, insertion: Insertion)

  predicate Acceptable(plugin: Plugin) {
    plugin.Identified? && IsValidPluginDevice(plugin.device) && plugin.insertion == Inserts
  }

  datatype Choice = Own(backend: nat) | FromFallback(device: int) | Nothing

  // The live backends are the registered ones, each under one device; the retained handles are the open
  // ones, and no live backend is without its library.
  ghost predicate Owned(backends: map<int, nat>, handles: seq<nat>, w: World) {
    && (forall d | d in backends :: backends[d] in Alive(w))
    && (forall b | b in Alive(w) :: Registered(backends, b))
    && (forall d, e | d in backends && e in backends && backends[d] == backends[e] :: d == e)
    && AreOpen(handles, w)
    && (forall b | b in Alive(w) :: HasLibrary(w, handles, b))
  }

  predicate Registered(backends: map<int, nat>, b: nat) { exists d | d in backends :: backends[d] == b }

  predicate HasLibrary(w: World, handles: seq<nat>, b: nat) {
    b in w.made && w.made[b].Some? ==> w.made[b].value in handles
  }

  // All names in use are below the counters.
  predicate Named(w: World, nextHandle: nat, nextBackend: nat) {
    && (forall h | h in w.acquired :: h < nextHandle)
    && (forall b | b in w.made :: b < nextBackend)
    && w.released <= w.acquired && w.destroyed <= w.made.Keys
  }

  lemma PutOwned(backends: map<int, nat>, handles: seq<nat>, w: World, w': World, device: int, b: nat,
                 maker: Option<nat>)
    requires Owned(backends, handles, w) && b !in w.made && b !in w.destroyed
    requires maker.Some? ==> maker.value in handles
    requires w'.acquired == w.acquired && w'.released == w.released && w'.made == w.made[b := maker]
    requires w'.destroyed == if device in backends then w.destroyed + {backends[device]} else w.destroyed
    ensures Owned(backends[device := b], handles, w')
  {
    var after := backends[device := b];
    forall c | c in Alive(w') ensures Registered(after, c) && HasLibrary(w', handles, c) {
      if c == b {
        assert after[device] == b;
      } else {
        assert c in Alive(w) && Registered(backends, c) && HasLibrary(w, handles, c);
        var d :| d in backends && backends[d] == c;
        assert after[d] == c;
      }
    }
  }

  // One library was opened since w, and it made backend b.
  ghost predicate Pending(backends: map<int, nat>, handles: seq<nat>, w: World, w': World, b: nat, h: nat) {
    && Owned(backends, handles, w) && b !in w.made && b !in w.destroyed && h !in w.acquired && h !in w.released
    && w' == w.(acquired := w.acquired + {h}, made := w.made[b := Some(h)])
  }

  lemma LoadedOwned(backends: map<int, nat>, handles: seq<nat>, w: World, w': World, device: int, b: nat, h: nat)
    requires Pending(backends, handles, w, w', b, h) && device !in backends
    ensures Owned(backends[device := b], handles + [h], w') && LivesIn(w', b, h)
  {
    var after := backends[device := b];
    assert h !in handles;
    forall c | c in Alive(w') ensures Registered(after, c) && HasLibrary(w', handles + [h], c) {
      if c == b {
        assert after[device] == b;
      } else {
        assert c in Alive(w) && Registered(backends, c) && HasLibrary(w, handles, c);
        var d :| d in backends && backends[d] == c;
        assert after[d] == c;
      }
    }
  }

  lemma NoneLivesIn(backends: map<int, nat>, handles: seq<nat>, w: World, w': World, h: nat)
    requires Owned(backends, handles, w) && h !in w.acquired && w'.made == w.made && w'.destroyed == w.destroyed
    ensures forall b :: !LivesIn(w', b, h)
  {
    forall b ensures !LivesIn(w', b, h) { assert b in Alive(w) ==> HasLibrary(w, handles, b); }
  }

  lemma OnlyOneLivesIn(backends: map<int, nat>, handles: seq<nat>, w: World, w': World, h: nat, b: nat)
    requires Owned(backends, handles, w) && h !in w.acquired && b !in w.made && b !in w.destroyed
    requires w'.made == w.made[b := Some(h)] && w'.destroyed == w.destroyed
    ensures LivesIn(w', b, h) && forall c | LivesIn(w', c, h) :: c == b
  {
    forall c | LivesIn(w', c, h) ensures c == b { assert c in Alive(w) ==> HasLibrary(w, handles, c); }
  }

  lemma EndOwned(backends: map<int, nat>, handles: seq<nat>, w: World, w': World, d: int)
    requires Owned(backends, handles, w) && d in backends
    requires w' == w.(destroyed := w.destroyed + {backends[d]})
    ensures Owned(backends - {d}, handles, w')
  {
    forall b | b in Alive(w') ensures Registered(backends - {d}, b) && HasLibrary(w', handles, b) {
      assert Registered(backends, b) && HasLibrary(w, handles, b);
      var e :| e in backends && backends[e] == b;
      assert e in backends - {d};
    }
  }

  function Closes(handles: seq<nat>): seq<Event> {
    seq(|handles|, k requires 0 <= k < |handles| => Close(handles[|handles| - 1 - k]))
  }

  // A log that ends with the closes of the handles closes the one opened last first.
  lemma LastOpenedClosesFirst(before: seq<Event>, log: seq<Event>, handles: seq<nat>)
    requires log == before + Closes(handles)
    ensures |log| == |before| + |handles| && log[..|before|] == before
    ensures forall k | 0 <= k < |handles| :: log[|log| - 1 - k] == Close(handles[k])
  {}

  ghost predicate AreOpen(handles: seq<nat>, w: World) {
    Distinct(handles) && forall h :: h in handles <==> h in w.acquired - w.released
  }

  lemma StillOpen(handles: seq<nat>, w: World, w': World)
    requires AreOpen(handles, w) && handles != []
    requires w' == w.(released := w.released + {handles[|handles| - 1]})
    ensures AreOpen(handles[..|handles| - 1], w')
  {
    var n := |handles| - 1;
    forall h ensures h in handles[..n] <==> h in w'.acquired - w'.released {
      assert h in handles <==> h in w.acquired - w.released;
      assert handles == handles[..n] + [handles[n]];
      if h in handles[..n] { var k :| 0 <= k < n && handles[k] == h; }
    }
  }

  lemma NothingOwned(w: World)
    requires Alive(w) == {} && w.released == w.acquired
    ensures Owned(map[], [], w)
  {}

  // A plugin that was opened, and perhaps made a backend, and released again.
  lemma RolledBackOwned(backends: map<int, nat>, handles: seq<nat>, w: World, w': World)
    requires Owned(backends, handles, w)
    requires w'.acquired - w'.released == w.acquired - w.released && Alive(w') == Alive(w)
    requires forall b | b in Alive(w) :: w'.made[b] == w.made[b]
    ensures Owned(backends, handles, w')
  {
    forall b | b in Alive(w) ensures HasLibrary(w', handles, b) { assert HasLibrary(w, handles, b); }
  }

  class BackendRegistry {
    var backends: map<int, nat>
    var handles: seq<nat>
    var defaultDevice: int
    var initialized: bool
    const hasFallback: bool
    ghost var log: seq<Event>
    ghost var world: World
    var nextHandle: nat      // names for the opens and backends to come
    var nextBackend: nat

    ghost predicate Logged()
      reads this
    {
      Legal(log) && world == WorldOf(log) && Named(world, nextHandle, nextBackend)
    }

    ghost predicate Owns()
      reads this
    {
      Owned(backends, handles, world)
    }

    ghost predicate Valid()
      reads this
    {
      && Logged() && Owns()
      && (initialized <==> backends != map[])
      && (!hasFallback && backends != map[] ==> defaultDevice in backends)
    }

    constructor (hasFallback: bool)
      ensures Valid() && backends == map[] && handles == [] && defaultDevice == CPU && log == []
      ensures this.hasFallback == hasFallback
    {
      backends, handles, defaultDevice, initialized := map[], [], CPU, false;
      this.hasFallback := hasFallback;
      log, world, nextHandle, nextBackend := [], Untouched, 0, 0;
    }

    ghost method Emit(e: Event)
      requires Legal(log) && world == WorldOf(log) && Allowed(world, e)
      modifies `log, `world
      ensures log == old(log) + [e] && world == Apply(old(world), e)
      ensures Legal(log) && world == WorldOf(log)
    {
      assert (log + [e])[..|log|] == log;
      log, world := log + [e], Apply(world, e);
    }

    // backends_[device] = a new backend; the one it replaces, if any, is destroyed.
    method Put(device: int, maker: Option<nat>)
      requires Logged() && Owns() && (maker.Some? ==> maker.value in handles)
      modifies `backends, `log, `world, `nextBackend
      ensures Logged() && Owns()
      ensures backends == old(backends)[device := old(nextBackend)] && nextBackend == old(nextBackend) + 1
      ensures world.acquired == old(world).acquired && world.released == old(world).released
    {
      var b := nextBackend;
      ghost var w := world;
      Emit(Create(b, maker));
      nextBackend := nextBackend + 1;
      if device in backends {
        assert HasLibrary(w, handles, backends[device]);
        Emit(Destroy(backends[device]));
      }
      PutOwned(backends, handles, w, world, device, b, maker);
      backends := backends[device := b];
    }

    /** Register. A null backend is ignored. */
    method Register(device: int, present: bool)
      requires Valid()
      modifies this
      ensures Valid() && handles == old(handles)
      ensures present ==> backends == old(backends)[device := old(nextBackend)]
      ensures present ==> defaultDevice == if old(backends) == map[] then device else old(defaultDevice)
      ensures !present ==> backends == old(backends) && defaultDevice == old(defaultDevice) && log == old(log)
    {
      if !present { return; }
      var wasEmpty := |backends| == 0;
      Put(device, None);
      if wasEmpty { defaultDevice := device; }
      initialized := true;
    }

    // The ANE backend only where no NPU is registered yet; the QNN backend in any case.
    method PutNpu(ane: bool, qnn: bool)
      requires Logged() && Owns()
      modifies `backends, `log, `world, `nextBackend
      ensures Logged() && Owns() && world.acquired == old(world).acquired && world.released == old(world).released
      ensures forall d :: d in backends <==> d in old(backends) || ((ane || qnn) && d == NPU)
    {
      if ane && NPU !in backends { Put(NPU, None); }
      if qnn { Put(NPU, None); }
    }

    /** RegisterCpuBackend. `metal`, `ane` and `qnn` say whether those backends are available and come up. */
    method RegisterCpuBackend(metal: bool, ane: bool, qnn: bool)
      requires Valid()
      modifies this
      ensures Valid() && handles == old(handles) && CPU in backends
      ensures CPU in old(backends) ==> backends == old(backends) && log == old(log)
      ensures CPU in old(backends) ==> defaultDevice == old(defaultDevice)
      ensures CPU !in old(backends) ==>
        forall d :: d in backends <==>
          (d in old(backends) || d == CPU || (metal && d == METAL) || ((ane || qnn) && d == NPU))
      ensures CPU !in old(backends) ==>
        defaultDevice == (if metal then METAL else if old(backends) == map[] then CPU else old(defaultDevice))
    {
      if CPU in backends { return; }
      if metal {
        Put(METAL, None);
        defaultDevice, initialized := METAL, true;
      }
      ghost var chosen: int, before := defaultDevice, backends;
      assert chosen in before || hasFallback || !initialized;
      PutNpu(ane, qnn);
      assert chosen in before ==> chosen in backends;
      Put(CPU, None);
      assert CPU in backends && (chosen in before ==> chosen in backends);
      if !initialized { defaultDevice, initialized := CPU, true; }
    }

    // The state a load that fails leaves behind.
    twostate predicate Unchanged()
      reads this
    {
      && backends == old(backends) && handles == old(handles)
      && defaultDevice == old(defaultDevice) && initialized == old(initialized)
    }

    method OpenLibrary() returns (handle: nat)
      requires Logged()
      modifies `log, `world, `nextHandle
      ensures Logged() && handle == old(nextHandle)
      ensures handle !in old(world).acquired && handle !in old(world).released
      ensures world == old(world).(acquired := old(world).acquired + {handle})
    {
      handle := nextHandle;
      Emit(Open(handle));
      nextHandle := nextHandle + 1;
    }

    // The library gave no backend.
    method CloseUnused(handle: nat, ghost w: World)
      requires Logged() && Owned(backends, handles, w) && handle !in w.acquired && handle !in w.released
      requires world == w.(acquired := w.acquired + {handle})
      modifies `log, `world
      ensures Logged() && Owns() && Alive(world) == Alive(w)
      ensures world.acquired - world.released == w.acquired - w.released
    {
      NoneLivesIn(backends, handles, w, world, handle);
      Emit(Close(handle));
      RolledBackOwned(backends, handles, w, world);
    }

    method MakeBackend(handle: nat, ghost w: World) returns (b: nat)
      requires Logged() && Owned(backends, handles, w) && handle !in w.acquired && handle !in w.released
      requires world == w.(acquired := w.acquired + {handle})
      modifies `log, `world, `nextBackend
      ensures Logged() && b == old(nextBackend) && Pending(backends, handles, w, world, b, handle)
    {
      b := nextBackend;
      Emit(Create(b, Some(handle)));
      nextBackend := nextBackend + 1;
    }

    // dlopen and the call of the factory. If that gives a backend, it is pending: made, not yet registered.
    method OpenPlugin(plugin: Plugin) returns (made: bool, handle: nat, b: nat)
      requires Logged() && Owns()
      modifies `log, `world, `nextHandle, `nextBackend
      ensures Logged() && (made <==> plugin.Identified? || plugin.IdentificationThrows?)
      ensures made ==> handle == old(nextHandle) && b == old(nextBackend)
      ensures made ==> Pending(backends, handles, old(world), world, b, handle)
      ensures !made ==> Owns() && Alive(world) == Alive(old(world))
      ensures !made ==> world.acquired - world.released == old(world).acquired - old(world).released
    {
      made, handle, b := false, nextHandle, nextBackend;
      if plugin.EmptyPath? || plugin.CannotOpen? { return; }
      handle := OpenLibrary();
      if plugin.NoFactory? || plugin.FactoryThrows? || plugin.ReturnsNull? {
        CloseUnused(handle, old(world));
        return;
      }
      b := MakeBackend(handle, old(world));
      made := true;
    }

    // backend.reset() and the close of the handle it came through.
    method Discard(b: nat, handle: nat, ghost w: World)
      requires Logged() && Pending(backends, handles, w, world, b, handle)
      modifies `log, `world
      ensures Logged() && Owns() && Alive(world) == Alive(w)
      ensures world.acquired - world.released == w.acquired - w.released
    {
      OnlyOneLivesIn(backends, handles, w, world, handle, b);
      Emit(Destroy(b));
      assert forall c | LivesIn(world, c, handle) :: LivesIn(old(world), c, handle);
      Emit(Close(handle));
      RolledBackOwned(backends, handles, w, world);
    }

    /** LoadPlugin. It succeeds exactly when the plugin identifies itself with a valid device that is not
        taken and the containers can grow; otherwise the registry is as before and the library, if it was
        opened, is closed again. */
    method LoadPlugin(plugin: Plugin) returns (ok: bool)
      requires Valid()
      modifies this
      ensures Valid()
      ensures ok <==> Acceptable(plugin) && plugin.device !in old(backends)
      ensures ok ==> plugin.Identified? && (0 <= plugin.device <= 3 || 100 <= plugin.device <= 254)
      ensures !ok && plugin.Identified? && (0 <= plugin.device <= 3 || 100 <= plugin.device <= 254) ==>
        plugin.device in old(backends) || plugin.insertion != Inserts
      ensures ok ==> backends == old(backends)[plugin.device := old(nextBackend)]
      ensures ok ==> handles == old(handles) + [old(nextHandle)]
      ensures ok ==> LivesIn(world, old(nextBackend), old(nextHandle))
      ensures ok ==> defaultDevice == if old(backends) == map[] then plugin.device else old(defaultDevice)
      ensures !ok ==> Unchanged() && Alive(world) == Alive(old(world))
      ensures !ok ==> world.acquired - world.released == old(world).acquired - old(world).released
    {
      var made, handle, b := OpenPlugin(plugin);
      if !made { return false; }
      if plugin.IdentificationThrows? || !IsValidPluginDevice(plugin.device) || plugin.device in backends ||
         plugin.insertion == NoRoomForHandle
      {
        Discard(b, handle, old(world));
        return false;
      }
      if plugin.insertion == NoRoomForBackend {
        RollBack(b, handle, old(world));
        return false;
      }
      Publish(plugin.device, b, handle, old(world));
      ok := true;
    }

    // The handle was retained and the map could not grow: the handle entry goes again, then the backend.
    method RollBack(b: nat, handle: nat, ghost w: World)
      requires Logged() && Pending(backends, handles, w, world, b, handle)
      modifies `handles, `log, `world
      ensures Logged() && Owns() && handles == old(handles) && Alive(world) == Alive(w)
      ensures world.acquired - world.released == w.acquired - w.released
    {
      handles := handles + [handle];
      handles := handles[..|handles| - 1];
      assert handles == old(handles);
      Discard(b, handle, w);
    }

    // The handle is retained before the backend is published.
    method Publish(device: int, b: nat, handle: nat, ghost w: World)
      requires Logged() && Pending(backends, handles, w, world, b, handle) && device !in backends
      requires !hasFallback && backends != map[] ==> defaultDevice in backends
      modifies `handles, `backends, `defaultDevice, `initialized
      ensures Valid() && LivesIn(world, b, handle)
      ensures backends == old(backends)[device := b] && handles == old(handles) + [handle]
      ensures defaultDevice == if old(backends) == map[] then device else old(defaultDevice)
    {
      LoadedOwned(backends, handles, w, world, device, b, handle);
      handles := handles + [handle];
      var wasEmpty := |backends| == 0;
      backends := backends[device := b];
      if wasEmpty { defaultDevice := device; }
      initialized := true;
    }

    // backends.clear(), in the map's own order.
    method EndAll(all: map<int, nat>) returns (ghost ends: seq<Event>)
      requires Logged() && Owned(all, handles, world)
      modifies `log, `world
      ensures Logged() && log == old(log) + ends && |ends| == |all| && forall e | e in ends :: e.Destroy?
      ensures Alive(world) == {} && world.acquired == old(world).acquired && world.released == old(world).released
      ensures AreOpen(handles, world)
    {
      var ending := all;
      ends := [];
      while |ending| > 0
        invariant Logged() && log == old(log) + ends && |ends| == |all| - |ending| && forall e | e in ends :: e.Destroy?
        invariant world.acquired == old(world).acquired && world.released == old(world).released
        invariant Owned(ending, handles, world)
        decreases |ending|
      {
        SomeMember(ending.Keys);
        var d :| d in ending;
        ghost var w := world;
        assert HasLibrary(world, handles, ending[d]);
        Emit(Destroy(ending[d]));
        ends := ends + [Destroy(ending[d])];
        EndOwned(ending, handles, w, world, d);
        assert (ending - {d}).Keys == ending.Keys - {d};
        ending := ending - {d};
      }
      assert ending == map[];
      assert forall b :: b in Alive(world) ==> Registered(ending, b);
    }

    // The handles, from the last to the first.
    method CloseAll(closing: seq<nat>)
      requires Logged() && Alive(world) == {} && AreOpen(closing, world)
      modifies `log, `world
      ensures Logged() && log == old(log) + Closes(closing)
      ensures Alive(world) == {} && world.released == world.acquired == old(world).acquired
      decreases |closing|
    {
      if |closing| > 0 {
        var n := |closing| - 1;
        var last := closing[n];
        ghost var w := world;
        assert last in closing;
        Emit(Close(last));
        StillOpen(closing, w, world);
        CloseAll(closing[..n]);
        assert Closes(closing) == [Close(last)] + Closes(closing[..n]);
      } else {
        forall h | h in world.acquired ensures h in world.released {
          assert h in closing <==> h in world.acquired - world.released;
        }
      }
    }

    method ReleaseAll() returns (ghost ends: seq<Event>)
      requires Logged() && Owns()
      modifies `log, `world
      ensures Logged() && Alive(world) == {} && world.released == world.acquired == old(world).acquired
      ensures log == old(log) + ends + Closes(handles)
      ensures |ends| == |backends| && forall e | e in ends :: e.Destroy?
    {
      ends := EndAll(backends);
      ghost var before := log;
      CloseAll(handles);
      assert log == before + Closes(handles);
    }

    /** Shutdown: the backends end first, then the handles are closed, last opened first. */
    method Shutdown() returns (ghost ends: seq<Event>)
      requires Valid()
      modifies this
      ensures Valid() && backends == map[] && handles == [] && defaultDevice == CPU && !initialized
      ensures Alive(world) == {} && world.released == world.acquired == old(world).acquired
      ensures log == old(log) + ends + Closes(old(handles))
      ensures |ends| == |old(backends)| && forall e | e in ends :: e.Destroy?
    {
      ends := ReleaseAll();
      backends, handles, defaultDevice, initialized := map[], [], CPU, false;
      NothingOwned(world);
    }

    // A registry that retains no handle, as after a shutdown, has closed each one it ever opened exactly once.
    lemma NothingLeftOpen()
      requires Valid() && handles == []
      ensures forall h | Open(h) in log :: multiset(log)[Close(h)] == 1
    {
      assert world.released == world.acquired by {
        forall h | h in world.acquired ensures h in world.released {
          assert h in handles <==> h in world.acquired - world.released;
        }
      }
      forall h | Open(h) in log ensures multiset(log)[Close(h)] == 1 { EveryOpenClosedOnce(log, h); }
    }

    /* ---- Choosing a backend ---- */

    // `fallback` is the set of devices the process-wide registry behind this one holds, if there is one.
    function Get(device: int, fallback: set<int>): Choice
      reads this
    {
      if device in backends then Own(backends[device])
      else if device != CPU && hasFallback && device in fallback then FromFallback(device)
      else Nothing
    }

    method SetDefault(device: int, fallback: set<int>) returns (ok: bool)
      requires Valid()
      modifies `defaultDevice
      ensures Valid() && (ok <==> device in backends || (device != 0 && hasFallback && device in fallback))
      ensures defaultDevice == if ok then device else old(defaultDevice)
    {
      ok := Get(device, fallback) != Nothing;
      if ok { defaultDevice := device; }
    }

    /** GetDefault never comes back empty-handed. It registers the CPU backend if nothing is registered, and
        the chosen default is answered, here or by the fallback, unless the fallback has since lost it. */
    method GetDefault(fallback: set<int>, metal: bool, ane: bool, qnn: bool) returns (choice: Choice)
      requires Valid()
      modifies this
      ensures Valid() && choice != Nothing && backends != map[] && handles == old(handles)
      ensures old(backends) != map[] ==> backends == old(backends) && log == old(log)
      ensures Get(old(defaultDevice), fallback) != Nothing && old(backends) != map[] ==>
        choice == Get(old(defaultDevice), fallback) && defaultDevice == old(defaultDevice)
      ensures choice.Own? && defaultDevice in backends ==> choice.backend == backends[defaultDevice]
      ensures choice.Own? ==> exists d | d in backends :: choice.backend == backends[d]
      ensures choice.FromFallback? ==> choice.device == defaultDevice != 0
      ensures choice.FromFallback? ==> hasFallback && defaultDevice in fallback && defaultDevice !in backends
      ensures !hasFallback ==> choice == Own(backends[defaultDevice])
      ensures !hasFallback && old(backends) != map[] ==> defaultDevice == old(defaultDevice)
      ensures choice.Own? ==> choice.backend in Alive(world)
    {
      if !initialized { RegisterCpuBackend(metal, ane, qnn); }
      choice := Get(defaultDevice, fallback);
      if choice != Nothing { return; }
      if CPU in backends {
        defaultDevice := CPU;
        return Own(backends[CPU]);
      }
      SomeMember(backends.Keys);
      var d :| d in backends;
      choice := Own(backends[d]);
    }
  }
}
