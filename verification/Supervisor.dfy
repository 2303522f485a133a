/** The engine supervisor: six per-model tables and the GPU owner, changed under one lock.

    A `Table` is the value of all of them between two critical sections; the class below does the
    updates in place and is proved against the functions on tables. */
module Supervisor {
  import opened GpuOwnership

  import opened Wrappers

  datatype ModelState = Loading | Warming | Ready | Unloading

  /** One spawned engine. `generation` tells two engines of one model apart. */
  datatype Handle = Handle(generation: nat, gpus: seq<Gpu>)

  datatype Table = Table(
    handles: map<Model, Handle>,
    ports: map<Model, nat>,
    hosts: map<Model, string>,
    overrides: map<Model, Option<string>>,
    watchers: map<Model, nat>,
    state: map<Model, ModelState>,
    owner: map<Gpu, Model>)

  const EMPTY := Table(map[], map[], map[], map[], map[], map[], map[])

  datatype Request = Request(model: Model, gpus: seq<Gpu>, name: string, port: nat, host: string, overrides: Option<string>, pinRefused: bool)

  /** What happens after the claim: an exception before the handle is stored, a cancellation before it
      is stored, or an exception (of the driver's host lookup) between storing it and the watcher. */
  datatype Trouble = Smooth | FailsBeforeStore | CancelledBeforeStore | FailsAfterStore

  datatype Outcome = AlreadyRunning | PinUnsupported | GpuConflict(gpus: seq<Gpu>) | Failed | Cancelled | FailedLate | Loaded

  function LoadOutcome(b: Table, r: Request, trouble: Trouble): Outcome {
    if r.model in b.handles then AlreadyRunning
    else if r.pinRefused then PinUnsupported
    else if Conflicts(b.owner, r.model, r.gpus) != [] then GpuConflict(Conflicts(b.owner, r.model, r.gpus))
    else match trouble
      case Smooth => Loaded
      case FailsBeforeStore => Failed
      case CancelledBeforeStore => Cancelled
      case FailsAfterStore => FailedLate
  }

  /** Only an `Exception` gives the claim back; a cancellation does not. */
  function LoadTable(b: Table, r: Request, g: nat, trouble: Trouble): Table {
    var h := Handle(g, r.gpus);
    match LoadOutcome(b, r, trouble)
    case Loaded =>
      Table(b.handles[r.model := h], b.ports[r.model := r.port], b.hosts[r.model := r.host],
            b.overrides[r.model := r.overrides], b.watchers[r.model := g], b.state[r.model := Loading],
            Assign(b.owner, r.model, r.gpus))
    case Failed => b.(owner := Without(Assign(b.owner, r.model, r.gpus), r.model))
    case Cancelled => b.(owner := Assign(b.owner, r.model, r.gpus))
    case FailedLate =>
      b.(handles := b.handles[r.model := h], ports := b.ports[r.model := r.port],
         owner := Without(Assign(b.owner, r.model, r.gpus), r.model))
    case _ => b
  }

  /** Everything about the model is dropped, whatever was there. */
  function Teardown(b: Table, m: Model): Table {
    Table(b.handles - {m}, b.ports - {m}, b.hosts - {m}, b.overrides - {m}, b.watchers - {m}, b.state - {m}, Without(b.owner, m))
  }

  predicate UnloadRefused(b: Table, m: Model, force: bool) {
    m in b.state && b.state[m] != Ready && !force
  }

  class Supervisor {
    const gpus: GpuOwnership
    var handles: map<Model, Handle>
    var ports: map<Model, nat>
    var hosts: map<Model, string>
    var overrides: map<Model, Option<string>>
    var watchers: map<Model, nat>
    var state: map<Model, ModelState>
    /** Watcher tasks that `unload` has cancelled. */
    var cancelled: set<nat>

    constructor ()
      ensures View() == EMPTY && cancelled == {} && fresh(gpus)
    {
      gpus := new GpuOwnership();
      handles, ports, hosts, overrides, watchers, state := map[], map[], map[], map[], map[], map[];
      cancelled := {};
    }

    ghost function View(): Table
      reads this, gpus
    {
      Table(handles, ports, hosts, overrides, watchers, state, gpus.owner)
    }

    /** `load`, its lock held throughout; `g` is the generation the driver hands out. */
    method Load(r: Request, g: nat, trouble: Trouble) returns (outcome: Outcome)
      modifies this, gpus
      ensures outcome == LoadOutcome(old(View()), r, trouble)
      ensures View() == LoadTable(old(View()), r, g, trouble)
      ensures cancelled == old(cancelled)
    {
      hide Conflicts, Assign, Without;
      if r.model in handles {
        return AlreadyRunning;
      }
      if r.pinRefused {
        return PinUnsupported;
      }
      var conflicts := gpus.Claim(r.model, r.gpus, r.name);
      if conflicts != [] {
        return GpuConflict(conflicts);
      }
      if trouble.CancelledBeforeStore? {
        return Cancelled;
      }
      if trouble.FailsBeforeStore? {
        gpus.Release(r.model);
        return Failed;
      }
      Store(r, g, trouble.FailsAfterStore?);
      if trouble.FailsAfterStore? {
        gpus.Release(r.model);
        return FailedLate;
      }
      return Loaded;
    }

    /** The stores after the spawn; `late` is the host lookup raising between the second and the third. */
    method Store(r: Request, g: nat, late: bool)
      modifies this`handles, this`ports, this`hosts, this`overrides, this`watchers, this`state
      ensures handles == old(handles)[r.model := Handle(g, r.gpus)] && ports == old(ports)[r.model := r.port]
      ensures late ==> hosts == old(hosts) && overrides == old(overrides) && watchers == old(watchers) && state == old(state)
      ensures !late ==> hosts == old(hosts)[r.model := r.host] && overrides == old(overrides)[r.model := r.overrides]
      ensures !late ==> watchers == old(watchers)[r.model := g] && state == old(state)[r.model := Loading]
    {
      handles := handles[r.model := Handle(g, r.gpus)];
      ports := ports[r.model := r.port];
      if late {
        return;
      }
      hosts := hosts[r.model := r.host];
      overrides := overrides[r.model := r.overrides];
      state := state[r.model := Loading];
      watchers := watchers[r.model := g];
    }

    /** `unload`: refused, or everything is released in the `finally`, also when terminating the engine
        raised or was cancelled. */
    method Unload(m: Model, force: bool) returns (refused: bool)
      modifies this, gpus
      ensures refused <==> UnloadRefused(old(View()), m, force)
      ensures View() == if refused then old(View()) else Teardown(old(View()), m)
      ensures cancelled == old(cancelled) + if !refused && m in old(watchers) then {old(watchers)[m]} else {}
    {
      hide Without;
      if m in state && state[m] != Ready && !force {
        return true;
      }
      StopWatcher(m);
      if m in handles {
        state := state[m := Unloading];
      }
      Drop(m);
      return false;
    }

    method StopWatcher(m: Model)
      modifies this`watchers, this`cancelled
      ensures watchers == old(watchers) - {m}
      ensures cancelled == old(cancelled) + if m in old(watchers) then {old(watchers)[m]} else {}
    {
      if m in watchers {
        cancelled := cancelled + {watchers[m]};
      }
      watchers := watchers - {m};
    }

    method Drop(m: Model)
      modifies this`handles, this`ports, this`hosts, this`overrides, this`state, gpus
      ensures handles == old(handles) - {m} && ports == old(ports) - {m} && hosts == old(hosts) - {m}
      ensures overrides == old(overrides) - {m} && state == old(state) - {m}
      ensures gpus.owner == Without(old(gpus.owner), m)
    {
      handles := handles - {m};
      ports := ports - {m};
      hosts := hosts - {m};
      overrides := overrides - {m};
      state := state - {m};
      gpus.Release(m);
    }

    /** The locked part of `_watch_exit`; it looks only at whether the model has a handle. */
    method WatchExit(m: Model) returns (toreDown: bool)
      modifies this, gpus
      ensures toreDown <==> m in old(handles)
      ensures View() == if toreDown then Teardown(old(View()), m) else old(View())
      ensures cancelled == old(cancelled)
    {
      if m !in handles {
        return false;
      }
      watchers := watchers - {m};
      Drop(m);
      return true;
    }

    /** The load runner's two transitions; each is refused from any state but its own. */
    method Mark(m: Model, current: ModelState, next: ModelState) returns (marked: bool)
      modifies this`state
      ensures marked <==> m in old(state) && old(state)[m] == current
      ensures state == if marked then old(state)[m := next] else old(state)
    {
      if m !in state || state[m] != current {
        return false;
      }
      state := state[m := next];
      return true;
    }
  }
}
