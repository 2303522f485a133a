/** The life of a model over whole runs of the supervisor: what a running model's row holds, which state it
    is in, and when an unload is refused, said in terms of the steps that were taken. */
module SupervisorLifecycle {
  import opened GpuOwnership
  import opened Wrappers
  import opened Supervisor
  import opened SupervisorProtocol

  /** A load that goes through: the model is not running, its pin is supported, its cards are free or its
      own, and nothing goes wrong. */
  predicate Starts(s: State, step: Step, m: Model) {
    && step.Load? && step.r.model == m && step.trouble.Smooth?
    && m !in s.table.handles && !step.r.pinRefused
    && forall g :: g in step.r.gpus && g in s.table.owner ==> s.table.owner[g] == m
  }

  /** An unload by force or outside a load in progress, or a watcher of the model tearing it down. */
  predicate Ends(s: State, step: Step, m: Model) {
    || (step.Unload? && step.m == m && (step.force || m !in s.table.state || s.table.state[m] == Ready))
    || (step.TearDown? && step.w in s.tasks && s.tasks[step.w].model == m && m in s.table.handles)
  }

  /** The state before step `i` of a run. */
  function Before(run: seq<Step>, i: nat): State
    requires ValidRun(INIT, run) && i <= |run|
  {
    PrefixValid(INIT, run, i);
    After(INIT, run[..i])
  }

  lemma {:induction false} PrefixValid(s: State, run: seq<Step>, i: nat)
    requires ValidRun(s, run) && i <= |run|
    ensures ValidRun(s, run[..i])
    decreases |run|
  {
    hide Enabled, Next;
    if i > 0 {
      PrefixValid(Next(s, run[0]), run[1..], i - 1);
      assert run[..i][0] == run[0] && run[..i][1..] == run[1..][..i - 1];
    }
  }

  lemma {:induction false} LastStep(s: State, run: seq<Step>)
    requires ValidRun(s, run) && run != []
    ensures var n := |run| - 1;
      && ValidRun(s, run[..n]) && Enabled(After(s, run[..n]), run[n])
      && After(s, run) == Next(After(s, run[..n]), run[n])
    decreases |run|
  {
    hide Enabled, Next;
    var n := |run| - 1;
    if n == 0 {
      assert run[..0] == [] && run[1..] == [];
    } else {
      LastStep(Next(s, run[0]), run[1..]);
      assert run[..n][0] == run[0] && run[..n][1..] == run[1..][..n - 1] && run[1..][n - 1] == run[n];
    }
  }

  /** Step `i` started the model, and no later step ended it. */
  ghost predicate RunsSince(run: seq<Step>, m: Model, i: int)
    requires ValidRun(INIT, run)
  {
    && 0 <= i < |run| && Starts(Before(run, i), run[i], m)
    && forall l :: i < l < |run| ==> !Ends(Before(run, l), run[l], m)
  }

  predicate WarmedSince(run: seq<Step>, m: Model, i: int) {
    exists j :: i < j < |run| && j >= 0 && run[j] == MarkWarming(m)
  }

  /** Marked ready after having been marked warming. */
  predicate ReadySince(run: seq<Step>, m: Model, i: int) {
    exists j, k :: i < j < k < |run| && j >= 0 && run[j] == MarkWarming(m) && run[k] == MarkReady(m)
  }

  /** The row of a model: what the load that started it asked for, and how far its marks have got. */
  predicate RowIs(b: Table, m: Model, r: Request, g: nat, warmed: bool, ready: bool) {
    && m in b.handles && b.handles[m] == Handle(g, r.gpus) && m in b.watchers && b.watchers[m] == g
    && m in b.ports && b.ports[m] == r.port && m in b.hosts && b.hosts[m] == r.host
    && m in b.overrides && b.overrides[m] == r.overrides
    && m in b.state && b.state[m] == if ready then Ready else if warmed then Warming else Loading
  }

  ghost predicate RowSince(run: seq<Step>, m: Model, i: int, b: Table)
    requires ValidRun(INIT, run)
  {
    && 0 <= i < |run| && run[i].Load?
    && RowIs(b, m, run[i].r, Before(run, i).issued, WarmedSince(run, m, i), ReadySince(run, m, i))
  }

  ghost predicate LifeIs(run: seq<Step>, m: Model, b: Table)
    requires ValidRun(INIT, run)
  {
    && (m in b.state <==> exists i :: RunsSince(run, m, i))
    && (forall i :: RunsSince(run, m, i) ==> RowSince(run, m, i, b))
  }

  // ----- one step -----------------------------------------------------------------------------

  lemma StartRow(s: State, step: Step, m: Model)
    requires Enabled(s, step) && Starts(s, step, m)
    ensures RowIs(Next(s, step).table, m, step.r, s.issued, false, false)
    ensures !Ends(s, step, m)
  {
    if Conflicts(s.table.owner, m, step.r.gpus) != [] {
      ConflictsExact(s.table.owner, m, step.r.gpus, Conflicts(s.table.owner, m, step.r.gpus)[0]);
    }
    hide Conflicts, Assign, Without;
  }

  lemma EndRow(s: State, step: Step, m: Model)
    requires Enabled(s, step) && Ends(s, step, m)
    ensures m !in Next(s, step).table.state && !Starts(s, step, m)
  {
    hide Without;
  }

  lemma NotStarted(s: State, r: Request, trouble: Trouble)
    requires !Starts(s, Load(r, trouble), r.model)
    ensures !LoadOutcome(s.table, r, trouble).Loaded?
  {
    if r.model !in s.table.handles && !r.pinRefused && trouble.Smooth? {
      var g :| g in r.gpus && g in s.table.owner && s.table.owner[g] != r.model;
      ConflictsExact(s.table.owner, r.model, r.gpus, g);
    }
  }

  lemma KeepRow(s: State, step: Step, m: Model, r: Request, g: nat, warmed: bool, ready: bool)
    requires Enabled(s, step) && !Starts(s, step, m) && !Ends(s, step, m)
    requires RowIs(s.table, m, r, g, warmed, ready) && (ready ==> warmed)
    ensures RowIs(Next(s, step).table, m, r, g, warmed || step == MarkWarming(m), ready || (warmed && step == MarkReady(m)))
  {
    hide LoadTable;
    if step.Load? {
      LoadKeepsRow(s.table, step.r, s.issued, step.trouble, m, r, g, warmed, ready);
    } else {
      hide LoadOutcome, Without;
    }
  }

  lemma LoadKeepsRow(b: Table, r: Request, issued: nat, trouble: Trouble, m: Model, was: Request, g: nat, warmed: bool, ready: bool)
    requires RowIs(b, m, was, g, warmed, ready)
    ensures RowIs(LoadTable(b, r, issued, trouble), m, was, g, warmed, ready)
  {
    hide Conflicts, Assign, Without;
  }

  lemma StayAway(s: State, step: Step, m: Model)
    requires Enabled(s, step) && !Starts(s, step, m) && m !in s.table.state
    ensures m !in Next(s, step).table.state
  {
    hide LoadTable, Starts;
    if step.Load? {
      LoadStaysAway(s, step.r, step.trouble, m);
    } else {
      hide LoadOutcome, Without;
    }
  }

  lemma LoadStaysAway(s: State, r: Request, trouble: Trouble, m: Model)
    requires !Starts(s, Load(r, trouble), m) && m !in s.table.state
    ensures m !in LoadTable(s.table, r, s.issued, trouble).state
  {
    if r.model == m { NotStarted(s, r, trouble); }
    hide Conflicts, Assign, Without, Starts, LoadOutcome;
  }

  // ----- runs ---------------------------------------------------------------------------------

  /** The marks of a longer run. */
  lemma MarksGrow(run: seq<Step>, m: Model, i: nat)
    requires i < |run| - 1
    ensures var n := |run| - 1;
      && (WarmedSince(run, m, i) <==> WarmedSince(run[..n], m, i) || run[n] == MarkWarming(m))
      && (ReadySince(run, m, i) <==> ReadySince(run[..n], m, i) || (WarmedSince(run[..n], m, i) && run[n] == MarkReady(m)))
  {
    var n := |run| - 1;
    var init := run[..n];
    assert forall j :: 0 <= j < n ==> init[j] == run[j];
    WarmedGrows(init, run[n], m, i);
    ReadyGrows(init, run[n], m, i);
    assert init + [run[n]] == run;
  }

  lemma WarmedGrows(init: seq<Step>, last: Step, m: Model, i: nat)
    requires i < |init|
    ensures WarmedSince(init + [last], m, i) <==> WarmedSince(init, m, i) || last == MarkWarming(m)
  {
    var run := init + [last];
    if WarmedSince(init, m, i) {
      var j :| i < j < |init| && init[j] == MarkWarming(m);
      assert run[j] == MarkWarming(m);
    }
    if last == MarkWarming(m) { assert run[|init|] == MarkWarming(m); }
  }

  lemma ReadyGrows(init: seq<Step>, last: Step, m: Model, i: nat)
    requires i < |init|
    ensures ReadySince(init + [last], m, i) <==> ReadySince(init, m, i) || (WarmedSince(init, m, i) && last == MarkReady(m))
  {
    var run := init + [last];
    if ReadySince(init, m, i) {
      var j, k :| i < j < k < |init| && init[j] == MarkWarming(m) && init[k] == MarkReady(m);
      assert run[j] == MarkWarming(m) && run[k] == MarkReady(m);
    }
    if WarmedSince(init, m, i) && last == MarkReady(m) {
      var j :| i < j < |init| && init[j] == MarkWarming(m);
      assert run[j] == MarkWarming(m) && run[|init|] == MarkReady(m);
    }
    if ReadySince(run, m, i) {
      var j, k :| i < j < k < |run| && run[j] == MarkWarming(m) && run[k] == MarkReady(m);
      assert init[j] == MarkWarming(m);
    }
  }

  lemma BeforeGrow(run: seq<Step>, i: nat)
    requires ValidRun(INIT, run) && i < |run|
    ensures var n := |run| - 1; ValidRun(INIT, run[..n]) && Before(run, i) == Before(run[..n], i)
  {
    var n := |run| - 1;
    PrefixValid(INIT, run, n);
    assert run[..n][..i] == run[..i];
  }

  /** What one more step does to the question since when a model runs. */
  lemma SinceGrow(run: seq<Step>, m: Model, i: int)
    requires ValidRun(INIT, run) && run != []
    ensures var n := |run| - 1;
      && ValidRun(INIT, run[..n])
      && (RunsSince(run, m, i) <==>
            if i == n then Starts(Before(run, n), run[n], m)
            else RunsSince(run[..n], m, i) && !Ends(Before(run, n), run[n], m))
  {
    hide Before, Starts, Ends, RunsSince;
    var n := |run| - 1;
    PrefixValid(INIT, run, n);
    if i == n {
      SinceNow(run, m);
    } else if RunsSince(run, m, i) {
      SinceBefore(run, m, i);
    } else if RunsSince(run[..n], m, i) && !Ends(Before(run, n), run[n], m) {
      SinceStill(run, m, i);
    }
  }

  lemma SinceNow(run: seq<Step>, m: Model)
    requires ValidRun(INIT, run) && run != []
    ensures RunsSince(run, m, |run| - 1) <==> Starts(Before(run, |run| - 1), run[|run| - 1], m)
  {
    hide Before, Starts, Ends;
  }

  lemma SinceBefore(run: seq<Step>, m: Model, i: int)
    requires ValidRun(INIT, run) && i != |run| - 1 && RunsSince(run, m, i)
    ensures var n := |run| - 1;
      ValidRun(INIT, run[..n]) && RunsSince(run[..n], m, i) && !Ends(Before(run, n), run[n], m)
  {
    hide Before, Starts, Ends;
    var n := |run| - 1;
    BeforeGrow(run, i);
    assert run[..n][i] == run[i];
    forall l | i < l < n ensures !Ends(Before(run[..n], l), run[..n][l], m) {
      BeforeGrow(run, l);
    }
  }

  lemma SinceStill(run: seq<Step>, m: Model, i: int)
    requires ValidRun(INIT, run) && run != []
    requires var n := |run| - 1;
      ValidRun(INIT, run[..n]) && RunsSince(run[..n], m, i) && !Ends(Before(run, n), run[n], m)
    ensures RunsSince(run, m, i)
  {
    hide Before, Starts, Ends;
    var n := |run| - 1;
    BeforeGrow(run, i);
    assert run[..n][i] == run[i];
    forall l | i < l < |run| ensures !Ends(Before(run, l), run[l], m) {
      if l < n {
        BeforeGrow(run, l);
        assert run[..n][l] == run[l];
      }
    }
  }

  lemma RowOfLife(run: seq<Step>, m: Model, b: Table, i: int)
    requires ValidRun(INIT, run) && LifeIs(run, m, b) && RunsSince(run, m, i)
    ensures 0 <= i < |run| && run[i].Load? && m in b.state && m in b.handles
    ensures RowIs(b, m, run[i].r, Before(run, i).issued, WarmedSince(run, m, i), ReadySince(run, m, i))
    ensures b.state[m] == Ready <==> ReadySince(run, m, i)
  {
  }

  lemma ReadyMeansWarmed(run: seq<Step>, m: Model, i: int)
    requires ReadySince(run, m, i)
    ensures WarmedSince(run, m, i)
  {
  }

  /** The row of a model that runs after one more step. */
  lemma RowGrows(run: seq<Step>, m: Model, i: int)
    requires ValidRun(INIT, run) && run != [] && RunsSince(run, m, i)
    requires var n := |run| - 1; ValidRun(INIT, run[..n]) && LifeIs(run[..n], m, After(INIT, run[..n]).table)
    ensures RowSince(run, m, i, After(INIT, run).table) && m in After(INIT, run).table.state
  {
    hide Starts, Ends, WarmedSince, ReadySince, RunsSince, LifeIs, Next, Enabled, RowIs;
    var n, init := |run| - 1, run[..|run| - 1];
    var s := After(INIT, init);
    LastStep(INIT, run);
    SinceGrow(run, m, i);
    assert Before(run, n) == s;
    if i == n {
      StartRow(s, run[n], m);
      NoMarksYet(run, m);
      StartsIsLoad(s, run[n], m);
    } else {
      RowOfLife(init, m, s.table, i);
      NotStartedAgain(s, run[n], m);
      BeforeGrow(run, i);
      MarksGrow(run, m, i);
      if ReadySince(init, m, i) { ReadyMeansWarmed(init, m, i); }
      KeepRow(s, run[n], m, run[i].r, Before(run, i).issued, WarmedSince(init, m, i), ReadySince(init, m, i));
    }
    RowHasState(After(INIT, run).table, m, run[i].r, Before(run, i).issued, WarmedSince(run, m, i), ReadySince(run, m, i));
  }

  lemma StartsIsLoad(s: State, step: Step, m: Model)
    requires Starts(s, step, m)
    ensures step.Load?
  {
  }

  lemma NoMarksYet(run: seq<Step>, m: Model)
    ensures !WarmedSince(run, m, |run| - 1) && !ReadySince(run, m, |run| - 1)
  {
  }

  lemma NotStartedAgain(s: State, step: Step, m: Model)
    requires m in s.table.handles
    ensures !Starts(s, step, m)
  {
  }

  /** A model that has a state after one more step runs since some step. */
  lemma StateMeansRunning(run: seq<Step>, m: Model) returns (i: int)
    requires ValidRun(INIT, run) && run != [] && m in After(INIT, run).table.state
    requires var n := |run| - 1; ValidRun(INIT, run[..n]) && LifeIs(run[..n], m, After(INIT, run[..n]).table)
    ensures RunsSince(run, m, i)
  {
    hide Starts, Ends, RunsSince, Next, Enabled, RowIs;
    var n, init := |run| - 1, run[..|run| - 1];
    var s := After(INIT, init);
    LastStep(INIT, run);
    assert Before(run, n) == s;
    if Starts(s, run[n], m) {
      i := n;
    } else {
      if Ends(s, run[n], m) { EndRow(s, run[n], m); }
      if m !in s.table.state { StayAway(s, run[n], m); }
      i :| RunsSince(init, m, i);
      RowOfLife(init, m, s.table, i);
    }
    SinceGrow(run, m, i);
  }

  /** Over every run, for every model: it has a state exactly while it runs, that is from the load that
      started it until a step that ends it; its row then holds what that load asked for, and its state is
      READY after a mark for warming and then one for ready, WARMING after the first alone, else LOADING. */
  lemma {:induction false} LifeExactly(run: seq<Step>, m: Model)
    requires ValidRun(INIT, run)
    ensures LifeIs(run, m, After(INIT, run).table)
    decreases |run|
  {
    hide RunsSince, RowSince, Next, Enabled;
    if run == [] {
      forall i ensures !RunsSince(run, m, i) { NoStepsNoLife(run, m, i); }
    } else {
      var n := |run| - 1;
      LastStep(INIT, run);
      LifeExactly(run[..n], m);
      forall i | RunsSince(run, m, i)
        ensures m in After(INIT, run).table.state && RowSince(run, m, i, After(INIT, run).table)
      {
        RowGrows(run, m, i);
      }
      if m in After(INIT, run).table.state { var i := StateMeansRunning(run, m); }
    }
  }

  lemma NoStepsNoLife(run: seq<Step>, m: Model, i: int)
    requires run == []
    ensures !RunsSince(run, m, i)
  {
  }

  lemma RowHasState(b: Table, m: Model, r: Request, g: nat, warmed: bool, ready: bool)
    requires RowIs(b, m, r, g, warmed, ready)
    ensures m in b.state && (b.state[m] == Ready <==> ready)
  {
  }

  /** The model is in no table and owns no card, and of the others nothing has changed. */
  predicate Gone(b: Table, n: Table, m: Model) {
    && m !in n.handles && m !in n.ports && m !in n.hosts && m !in n.overrides && m !in n.watchers && m !in n.state
    && (forall g :: g in n.owner ==> n.owner[g] != m)
    && (forall g :: g in b.owner && b.owner[g] != m ==> g in n.owner && n.owner[g] == b.owner[g])
    && (forall g :: g in n.owner ==> g in b.owner)
    && n.handles == b.handles - {m} && n.state == b.state - {m} && n.watchers == b.watchers - {m}
    && n.ports == b.ports - {m} && n.hosts == b.hosts - {m} && n.overrides == b.overrides - {m}
  }

  /** Over every run: an unload changes nothing exactly if it is not forced and the model is running
      without having been marked warming and then ready since its load; otherwise the model is gone. */
  lemma UnloadExactly(run: seq<Step>, m: Model, force: bool)
    requires ValidRun(INIT, run)
    ensures var s := After(INIT, run);
      var n := Next(s, Unload(m, force));
      if !force && exists i :: RunsSince(run, m, i) && !ReadySince(run, m, i) then n == s else Gone(s.table, n.table, m)
  {
    hide RunsSince, RowSince, ReadySince, Teardown, Gone;
    LifeExactly(run, m);
    var s := After(INIT, run);
    TeardownGone(s.table, m);
    if i :| RunsSince(run, m, i) {
      RowOfLife(run, m, s.table, i);
      forall k | RunsSince(run, m, k) ensures s.table.state[m] == Ready <==> ReadySince(run, m, k) {
        RowOfLife(run, m, s.table, k);
      }
    }
  }

  lemma TeardownGone(b: Table, m: Model)
    ensures Gone(b, Teardown(b, m), m)
  {
  }

  /** A load that is refused changes nothing: of a running model, with a pin that is not supported, or on a
      card another model owns. */
  lemma RefusedLoadChangesNothing(s: State, r: Request, trouble: Trouble)
    ensures var outcome := LoadOutcome(s.table, r, trouble);
      && (outcome.AlreadyRunning? <==> r.model in s.table.handles)
      && (outcome.PinUnsupported? || outcome.GpuConflict? || outcome.AlreadyRunning? <==>
            || r.model in s.table.handles || r.pinRefused
            || exists g :: g in r.gpus && g in s.table.owner && s.table.owner[g] != r.model)
      && (outcome.PinUnsupported? || outcome.GpuConflict? || outcome.AlreadyRunning? ==>
            Next(s, Load(r, trouble)) == s.(issued := s.issued + 1))
  {
    hide Assign, Without;
    var conflicts := Conflicts(s.table.owner, r.model, r.gpus);
    if conflicts != [] {
      ConflictsExact(s.table.owner, r.model, r.gpus, conflicts[0]);
    }
    if g :| g in r.gpus && g in s.table.owner && s.table.owner[g] != r.model {
      ConflictsExact(s.table.owner, r.model, r.gpus, g);
    }
  }
}
