/** Loads, unloads, engine exits and exit watchers of any number of models, in any order.

    The lock regions of module Supervisor are the steps; a watcher is a task of its own that captures
    its engine on its first tick, waits for it without the lock, and then asks for the lock. A
    cancelled watcher never reaches its lock region. */
module SupervisorProtocol {
  import opened GpuOwnership
  import opened Wrappers
  import opened Supervisor

  datatype Phase = Fresh | Waiting(engine: nat) | WantsLock(engine: nat) | Stopped | TornDown | Gone

  datatype Watcher = Watcher(model: Model, phase: Phase)

  /** `tasks` holds the watcher of every generation ever loaded, `exited` the engines that are gone. */
  datatype State = State(table: Table, tasks: map<nat, Watcher>, exited: set<nat>, issued: nat)

  datatype Step =
    | Load(r: Request, trouble: Trouble)
    | Unload(m: Model, force: bool)
    | MarkWarming(m: Model)
    | MarkReady(m: Model)
    | EngineExit(g: nat)
    | FirstTick(w: nat)
    | WaitReturns(w: nat)
    | TearDown(w: nat)

  const INIT := State(EMPTY, map[], {}, 0)

  predicate Live(p: Phase) {
    p.Fresh? || p.Waiting? || p.WantsLock?
  }

  predicate Enabled(s: State, step: Step) {
    match step
    case FirstTick(w) => w in s.tasks && s.tasks[w].phase.Fresh?
    case WaitReturns(w) => w in s.tasks && s.tasks[w].phase.Waiting? && s.tasks[w].phase.engine in s.exited
    case TearDown(w) => w in s.tasks && s.tasks[w].phase.WantsLock?
    case _ => true
  }

  function Marked(b: Table, m: Model, current: ModelState, next: ModelState): Table {
    if m in b.state && b.state[m] == current then b.(state := b.state[m := next]) else b
  }

  function StopWatcher(tasks: map<nat, Watcher>, b: Table, m: Model): map<nat, Watcher> {
    if m in b.watchers && b.watchers[m] in tasks && Live(tasks[b.watchers[m]].phase)
    then tasks[b.watchers[m] := tasks[b.watchers[m]].(phase := Phase.Stopped)]
    else tasks
  }

  function Next(s: State, step: Step): State
    requires Enabled(s, step)
  {
    match step
    case Load(r, trouble) =>
      State(LoadTable(s.table, r, s.issued, trouble),
            if LoadOutcome(s.table, r, trouble).Loaded? then s.tasks[s.issued := Watcher(r.model, Fresh)] else s.tasks,
            s.exited, s.issued + 1)
    case Unload(m, force) =>
      if UnloadRefused(s.table, m, force) then s
      else s.(table := Teardown(s.table, m), tasks := StopWatcher(s.tasks, s.table, m))
    case MarkWarming(m) => s.(table := Marked(s.table, m, Loading, Warming))
    case MarkReady(m) => s.(table := Marked(s.table, m, Warming, Ready))
    case EngineExit(g) => s.(exited := s.exited + {g})
    case FirstTick(w) =>
      var m := s.tasks[w].model;
      s.(tasks := s.tasks[w := Watcher(m, if m in s.table.handles then Waiting(s.table.handles[m].generation) else Gone)])
    case WaitReturns(w) => s.(tasks := s.tasks[w := Watcher(s.tasks[w].model, WantsLock(s.tasks[w].phase.engine))])
    case TearDown(w) =>
      var m := s.tasks[w].model;
      if m in s.table.handles then s.(table := Teardown(s.table, m), tasks := s.tasks[w := Watcher(m, TornDown)])
      else s.(tasks := s.tasks[w := Watcher(m, Gone)])
  }

  predicate ValidRun(s: State, run: seq<Step>)
    decreases |run|
  {
    |run| == 0 || (Enabled(s, run[0]) && ValidRun(Next(s, run[0]), run[1..]))
  }

  function After(s: State, run: seq<Step>): State
    requires ValidRun(s, run)
    decreases |run|
  {
    if |run| == 0 then s else After(Next(s, run[0]), run[1..])
  }

  // ----- watchers -----------------------------------------------------------------------------

  /** A watcher that can still reach its lock region watches the engine now stored for its model. */
  predicate Current(s: State, w: nat) {
    w in s.tasks && Live(s.tasks[w].phase) ==>
      var x := s.tasks[w];
      && x.model in s.table.handles && s.table.handles[x.model].generation == w
      && x.model in s.table.watchers && s.table.watchers[x.model] == w
      && (x.phase.Fresh? || x.phase.engine == w)
      && (x.phase.WantsLock? ==> w in s.exited)
  }

  ghost predicate WatchersCurrent(s: State) {
    && (forall w :: Current(s, w))
    && (forall w :: w in s.tasks ==> w < s.issued)
    && (forall m :: m in s.table.watchers ==> s.table.watchers[m] in s.tasks)
  }

  lemma LoadWatchers(s: State, r: Request, trouble: Trouble)
    requires WatchersCurrent(s)
    ensures WatchersCurrent(Next(s, Load(r, trouble)))
  {
    hide Assign, Without, Conflicts;
    var n := Next(s, Load(r, trouble));
    forall w ensures Current(n, w) {
      assert Current(s, w);
    }
  }

  lemma UnloadWatchers(s: State, m: Model, force: bool)
    requires WatchersCurrent(s)
    ensures WatchersCurrent(Next(s, Unload(m, force)))
  {
    hide Without;
    var n := Next(s, Unload(m, force));
    forall w ensures Current(n, w) {
      assert Current(s, w);
    }
  }

  lemma TearDownWatchers(s: State, w: nat)
    requires WatchersCurrent(s) && Enabled(s, TearDown(w))
    ensures WatchersCurrent(Next(s, TearDown(w)))
  {
    hide Without;
    var n := Next(s, TearDown(w));
    assert Current(s, w);
    forall v ensures Current(n, v) {
      assert Current(s, v);
    }
  }

  lemma WatchersStep(s: State, step: Step)
    requires WatchersCurrent(s) && Enabled(s, step)
    ensures WatchersCurrent(Next(s, step))
  {
    hide LoadTable, Teardown;
    match step
    case Load(r, trouble) => LoadWatchers(s, r, trouble);
    case Unload(m, force) => UnloadWatchers(s, m, force);
    case TearDown(w) => TearDownWatchers(s, w);
    case _ =>
      var n := Next(s, step);
      forall w ensures Current(n, w) {
        assert Current(s, w);
      }
  }

  lemma {:induction false} WatchersRun(s: State, run: seq<Step>)
    requires WatchersCurrent(s) && ValidRun(s, run)
    ensures WatchersCurrent(After(s, run))
    decreases |run|
  {
    hide WatchersCurrent, Next, Enabled;
    if |run| > 0 {
      WatchersStep(s, run[0]);
      WatchersRun(Next(s, run[0]), run[1..]);
    }
  }

  /** In every run, whatever failed or was cancelled in it: a watcher that tears a model down finds the
      very engine it was started for, and that engine has exited. */
  lemma WatcherTearsDownItsOwn(run: seq<Step>, w: nat)
    requires ValidRun(INIT, run) && Enabled(After(INIT, run), TearDown(w))
    ensures var s := After(INIT, run);
      var m := s.tasks[w].model;
      && m in s.table.handles && s.table.handles[m].generation == w && w in s.exited
      && Next(s, TearDown(w)).table == Teardown(s.table, m)
  {
    assert WatchersCurrent(INIT);
    WatchersRun(INIT, run);
    assert Current(After(INIT, run), w);
  }

  // ----- one domain, disjoint cards -----------------------------------------------------------

  predicate OneDomain(b: Table) {
    && b.handles.Keys == b.ports.Keys == b.hosts.Keys == b.overrides.Keys == b.state.Keys == b.watchers.Keys
    && (forall m :: m in b.handles && m in b.watchers ==> b.watchers[m] == b.handles[m].generation)
  }

  predicate Holds(b: Table, g: Gpu, m: Model) {
    g in b.owner && b.owner[g] == m
  }

  predicate LoadedOn(b: Table, g: Gpu, m: Model) {
    m in b.handles && g in b.handles[m].gpus
  }

  /** The claims are exactly the cards of the running engines. */
  ghost predicate ClaimsExact(b: Table) {
    forall g, m :: Holds(b, g, m) <==> LoadedOn(b, g, m)
  }

  ghost predicate Consistent(b: Table) {
    OneDomain(b) && ClaimsExact(b)
  }

  /** The load got as far as its claim. */
  predicate Claims(b: Table, r: Request) {
    r.model !in b.handles && !r.pinRefused && Conflicts(b.owner, r.model, r.gpus) == []
  }

  /** The two ways out of a load that the claim's undo does not cover. */
  predicate Clean(s: State, step: Step) {
    step.Load? && Claims(s.table, step.r) ==>
      (step.trouble.CancelledBeforeStore? ==> step.r.gpus == []) && !step.trouble.FailsAfterStore?
  }

  lemma TeardownExact(b: Table, m: Model)
    ensures var n := Teardown(b, m);
      && m !in n.handles && m !in n.ports && m !in n.hosts && m !in n.overrides && m !in n.watchers && m !in n.state
      && (forall g, k :: Holds(n, g, k) <==> k != m && Holds(b, g, k))
      && (forall g, k :: LoadedOn(n, g, k) <==> k != m && LoadedOn(b, g, k))
  {
  }

  lemma TeardownConsistent(b: Table, m: Model)
    requires Consistent(b)
    ensures Consistent(Teardown(b, m))
  {
    TeardownExact(b, m);
    hide Holds, LoadedOn, Without;
  }

  lemma AssignHolds(b: Table, r: Request, n: Table)
    requires Claims(b, r)
    ensures n.owner == Assign(b.owner, r.model, r.gpus) ==>
      forall g, k :: Holds(n, g, k) <==> (if g in r.gpus then k == r.model else Holds(b, g, k))
    ensures n.owner == Without(Assign(b.owner, r.model, r.gpus), r.model) ==>
      forall g, k :: Holds(n, g, k) <==> g !in r.gpus && k != r.model && Holds(b, g, k)
  {
    forall g ensures g in Assign(b.owner, r.model, r.gpus) <==> g in r.gpus || g in b.owner
      ensures g in Assign(b.owner, r.model, r.gpus) ==> Assign(b.owner, r.model, r.gpus)[g] == if g in r.gpus then r.model else b.owner[g]
    {
      AssignExact(b.owner, r.model, r.gpus, g);
    }
    hide Assign;
  }

  /** A claim that went through touches no card of a running model. */
  lemma NoOverlap(b: Table, r: Request, g: Gpu, k: Model)
    requires Claims(b, r) && ClaimsExact(b) && g in r.gpus
    ensures !Holds(b, g, k)
  {
    ConflictsExact(b.owner, r.model, r.gpus, g);
    assert Holds(b, g, r.model) <==> LoadedOn(b, g, r.model);
  }

  lemma LoadConsistent(b: Table, r: Request, g: nat, trouble: Trouble)
    requires Consistent(b)
    ensures Consistent(LoadTable(b, r, g, trouble)) <==>
      (Claims(b, r) ==> (trouble.CancelledBeforeStore? ==> r.gpus == []) && !trouble.FailsAfterStore?)
  {
    hide Consistent, LoadTable, Claims;
    if Claims(b, r) {
      match trouble
      case Smooth => StoredConsistent(b, r, g);
      case FailsBeforeStore => RevertedConsistent(b, r, g);
      case CancelledBeforeStore => LeakedConsistent(b, r, g);
      case FailsAfterStore => LateInconsistent(b, r, g);
    } else {
      RefusedKeeps(b, r, g, trouble);
    }
  }

  lemma RefusedKeeps(b: Table, r: Request, g: nat, trouble: Trouble)
    requires !Claims(b, r)
    ensures LoadTable(b, r, g, trouble) == b
  {
    hide Assign, Without;
  }

  lemma ClaimedWereFree(b: Table, r: Request)
    requires Claims(b, r) && Consistent(b)
    ensures forall c, k :: c in r.gpus ==> !Holds(b, c, k)
    ensures forall c :: !Holds(b, c, r.model)
  {
    forall c, k | c in r.gpus ensures !Holds(b, c, k) {
      NoOverlap(b, r, c, k);
    }
    forall c ensures !Holds(b, c, r.model) {
      assert Holds(b, c, r.model) <==> LoadedOn(b, c, r.model);
    }
  }

  lemma LateInconsistent(b: Table, r: Request, g: nat)
    requires Claims(b, r) && Consistent(b)
    ensures !Consistent(LoadTable(b, r, g, FailsAfterStore))
  {
    hide Assign, Without, Conflicts, ClaimsExact;
    var n := LoadTable(b, r, g, FailsAfterStore);
    assert r.model in n.handles && r.model !in n.hosts;
  }

  lemma StoredConsistent(b: Table, r: Request, g: nat)
    requires Consistent(b) && Claims(b, r)
    ensures Consistent(LoadTable(b, r, g, Smooth))
  {
    var n := LoadTable(b, r, g, Smooth);
    AssignHolds(b, r, n);
    ClaimedWereFree(b, r);
    StoredDomain(b, r, g);
    forall c, k ensures Holds(n, c, k) <==> LoadedOn(n, c, k) {
      assert LoadedOn(n, c, k) <==> if k == r.model then c in r.gpus else LoadedOn(b, c, k) by { hide Holds, Assign; }
      assert Holds(b, c, k) <==> LoadedOn(b, c, k);
      hide Holds, Assign, Conflicts, Without, LoadedOn, OneDomain;
    }
  }

  lemma StoredDomain(b: Table, r: Request, g: nat)
    requires OneDomain(b) && Claims(b, r)
    ensures OneDomain(LoadTable(b, r, g, Smooth))
  {
    hide Assign, Conflicts;
  }

  lemma RevertedConsistent(b: Table, r: Request, g: nat)
    requires Consistent(b) && Claims(b, r)
    ensures Consistent(LoadTable(b, r, g, FailsBeforeStore))
  {
    var n := LoadTable(b, r, g, FailsBeforeStore);
    AssignHolds(b, r, n);
    ClaimedWereFree(b, r);
    hide Holds, Assign, Conflicts, Without;
    forall c, k ensures Holds(n, c, k) <==> LoadedOn(n, c, k) {
      assert Holds(b, c, k) <==> LoadedOn(b, c, k);
    }
  }

  lemma LeakedConsistent(b: Table, r: Request, g: nat)
    requires Consistent(b) && Claims(b, r)
    ensures Consistent(LoadTable(b, r, g, CancelledBeforeStore)) <==> r.gpus == []
  {
    var n := LoadTable(b, r, g, CancelledBeforeStore);
    AssignHolds(b, r, n);
    hide Holds, Assign, Conflicts, Without;
    if r.gpus == [] {
      forall c, k ensures Holds(n, c, k) <==> LoadedOn(n, c, k) {
        assert Holds(b, c, k) <==> LoadedOn(b, c, k);
      }
    } else {
      assert r.gpus[0] in r.gpus;
      assert Holds(n, r.gpus[0], r.model) && !LoadedOn(n, r.gpus[0], r.model);
    }
  }

  lemma MarkedConsistent(b: Table, m: Model, current: ModelState, next: ModelState)
    requires Consistent(b)
    ensures Consistent(Marked(b, m, current, next))
  {
    var n := Marked(b, m, current, next);
    assert n.state.Keys == b.state.Keys;
    forall c, k ensures Holds(n, c, k) <==> LoadedOn(n, c, k) {
      assert Holds(b, c, k) <==> LoadedOn(b, c, k);
    }
  }

  lemma ConsistentStep(s: State, step: Step)
    requires Consistent(s.table) && Enabled(s, step)
    ensures Consistent(Next(s, step).table) <==> Clean(s, step)
  {
    hide Consistent, LoadTable, Teardown, Marked, Claims;
    match step
    case Load(r, trouble) => LoadConsistent(s.table, r, s.issued, trouble);
    case Unload(m, _) => TeardownConsistent(s.table, m);
    case MarkWarming(m) => MarkedConsistent(s.table, m, Loading, Warming);
    case MarkReady(m) => MarkedConsistent(s.table, m, Warming, Ready);
    case TearDown(w) => TeardownConsistent(s.table, s.tasks[w].model);
    case _ =>
  }

  predicate CleanRun(s: State, run: seq<Step>)
    requires ValidRun(s, run)
    decreases |run|
  {
    |run| == 0 || (Clean(s, run[0]) && CleanRun(Next(s, run[0]), run[1..]))
  }

  ghost predicate ConsistentAlong(s: State, run: seq<Step>)
    requires ValidRun(s, run)
    decreases |run|
  {
    Consistent(s.table) && (|run| > 0 ==> ConsistentAlong(Next(s, run[0]), run[1..]))
  }

  lemma {:induction false} ConsistentRun(s: State, run: seq<Step>)
    requires Consistent(s.table) && ValidRun(s, run)
    ensures ConsistentAlong(s, run) <==> CleanRun(s, run)
    ensures CleanRun(s, run) ==> Consistent(After(s, run).table)
    decreases |run|
  {
    hide Consistent, Clean, Next, Enabled;
    if |run| > 0 {
      ConsistentStep(s, run[0]);
      if Clean(s, run[0]) {
        ConsistentRun(Next(s, run[0]), run[1..]);
      }
    }
  }

  /** Over every run: the tables stay consistent between critical sections if and only if no load was
      cancelled with cards claimed and none failed after its handle was stored. */
  lemma TablesStayConsistent(run: seq<Step>)
    requires ValidRun(INIT, run)
    ensures ConsistentAlong(INIT, run) <==> CleanRun(INIT, run)
  {
    assert Consistent(INIT.table);
    ConsistentRun(INIT, run);
  }

  /** What consistency means for the cards: two running models own disjoint ones, every claim belongs to
      a running model, and a load on cards none of them owns is never refused for a conflict. */
  lemma CardsAreExclusive(run: seq<Step>, r: Request)
    requires ValidRun(INIT, run) && CleanRun(INIT, run)
    ensures var b := After(INIT, run).table;
      && (forall m, k, g :: LoadedOn(b, g, m) && LoadedOn(b, g, k) ==> m == k)
      && (forall g :: g in b.owner ==> LoadedOn(b, g, b.owner[g]))
      && (r.model !in b.handles ==>
            (Conflicts(b.owner, r.model, r.gpus) == [] <==> forall g, k :: g in r.gpus ==> !LoadedOn(b, g, k)))
  {
    assert Consistent(INIT.table);
    ConsistentRun(INIT, run);
    var b := After(INIT, run).table;
    hide After, ValidRun, CleanRun, ConsistentAlong, Conflicts;
    forall m, k, g | LoadedOn(b, g, m) && LoadedOn(b, g, k) ensures m == k {
      assert Holds(b, g, m) && Holds(b, g, k);
    }
    forall g | g in b.owner ensures LoadedOn(b, g, b.owner[g]) {
      assert Holds(b, g, b.owner[g]);
    }
    if r.model !in b.handles {
      ConflictsMeanOccupied(b, r);
    }
  }

  lemma ConflictsMeanOccupied(b: Table, r: Request)
    requires Consistent(b) && r.model !in b.handles
    ensures Conflicts(b.owner, r.model, r.gpus) == [] <==> forall g, k :: g in r.gpus ==> !LoadedOn(b, g, k)
  {
    var conflicts := Conflicts(b.owner, r.model, r.gpus);
    if conflicts == [] {
      forall g, k | g in r.gpus ensures !LoadedOn(b, g, k) {
        ConflictsExact(b.owner, r.model, r.gpus, g);
        assert Holds(b, g, k) <==> LoadedOn(b, g, k);
      }
    } else {
      var g := conflicts[0];
      ConflictsExact(b.owner, r.model, r.gpus, g);
      assert Holds(b, g, b.owner[g]);
    }
  }

  lemma PutThenDrop<V>(t: map<Model, V>, m: Model, v: V)
    ensures t[m := v] - {m} == t - {m}
  {
  }

  /** Outside its own model a load changes nothing, so dropping the model again leaves no trace of it. */
  lemma LoadThenDrop(b: Table, r: Request, g: nat, trouble: Trouble)
    ensures var t := Teardown(LoadTable(b, r, g, trouble), r.model);
      t == Teardown(b, r.model).(owner := t.owner)
  {
    hide Assign, Conflicts, Without;
    var m := r.model;
    PutThenDrop(b.handles, m, Handle(g, r.gpus));
    PutThenDrop(b.ports, m, r.port);
    PutThenDrop(b.hosts, m, r.host);
    PutThenDrop(b.overrides, m, r.overrides);
    PutThenDrop(b.watchers, m, g);
    PutThenDrop(b.state, m, Loading);
  }

  lemma LoadKeepsOtherClaims(b: Table, r: Request, g: nat, trouble: Trouble, c: Gpu, k: Model)
    requires ClaimsExact(b) && k != r.model
    ensures Holds(LoadTable(b, r, g, trouble), c, k) <==> Holds(b, c, k)
  {
    var n := LoadTable(b, r, g, trouble);
    if Claims(b, r) {
      AssignHolds(b, r, n);
      if c in r.gpus {
        NoOverlap(b, r, c, k);
      }
    }
  }

  lemma RepairedClaims(b: Table, r: Request, g: nat, trouble: Trouble, c: Gpu, k: Model)
    requires Consistent(b) && r.model !in b.handles
    ensures var t := Teardown(LoadTable(b, r, g, trouble), r.model);
      Holds(t, c, k) <==> k != r.model && LoadedOn(b, c, k)
  {
    TeardownExact(LoadTable(b, r, g, trouble), r.model);
    if k != r.model {
      LoadKeepsOtherClaims(b, r, g, trouble, c, k);
      assert Holds(b, c, k) <==> LoadedOn(b, c, k);
    }
  }

  /** Whatever a load left behind, an unload that is not refused puts the tables right again. */
  lemma UnloadRepairs(b: Table, r: Request, g: nat, trouble: Trouble)
    requires Consistent(b) && r.model !in b.handles
    ensures Consistent(Teardown(LoadTable(b, r, g, trouble), r.model))
    ensures Teardown(LoadTable(b, r, g, trouble), r.model).handles == b.handles
  {
    var t := Teardown(LoadTable(b, r, g, trouble), r.model);
    LoadThenDrop(b, r, g, trouble);
    TeardownConsistent(b, r.model);
    DropAbsent(b, r.model);
    hide Without, LoadTable, Teardown;
    forall c, k ensures Holds(t, c, k) <==> LoadedOn(t, c, k) {
      RepairedClaims(b, r, g, trouble, c, k);
    }
  }

  lemma DropAbsent(b: Table, m: Model)
    requires m !in b.handles
    ensures Teardown(b, m).handles == b.handles
  {
    assert b.handles - {m} == b.handles;
  }

  /** A load cancelled while the engine spawns leaves its card claimed by a model that is not running,
      and the next load of another model on that card is refused. */
  lemma CancelledLoadLeaks(r: Request, other: Request)
    requires r.gpus == [0] && !r.pinRefused && other.gpus == [0] && !other.pinRefused && other.model != r.model
    ensures ValidRun(INIT, [Load(r, CancelledBeforeStore)]) && !CleanRun(INIT, [Load(r, CancelledBeforeStore)])
    ensures var b := After(INIT, [Load(r, CancelledBeforeStore)]).table;
      b.handles == map[] && Holds(b, 0, r.model) && LoadOutcome(b, other, Smooth) == GpuConflict([0])
  {
    var s := Next(INIT, Load(r, CancelledBeforeStore));
    assert ValidRun(s, []) && After(s, []) == s;
    assert [Load(r, CancelledBeforeStore)][1..] == [];
    var none: map<Gpu, Model> := map[];
    assert Conflicts(none, r.model, [0]) == Conflicts(none, r.model, [0][1..]) == [];
    assert Assign(map[], r.model, [0]) == Assign(map[0 := r.model], r.model, [0][1..]) == map[0 := r.model];
    assert s.table == EMPTY.(owner := map[0 := r.model]);
    assert Conflicts(s.table.owner, other.model, [0][1..]) == [];
    assert Conflicts(s.table.owner, other.model, other.gpus) == [0];
  }
}
