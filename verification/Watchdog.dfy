/** One model under the engine watchdog: passes of the probe loop and the exit-path sweep, their shared
    restart budget, and everything else that writes the model's row in between.

    Each step is one stretch between two suspension points. The model's row is listed at the start of
    the probe loop and again at the start of the sweep; what was listed may be stale when it is acted on. */
module Watchdog {
  import opened Wrappers
  import opened RestartBudget

  datatype Status = Pulled | Pulling | Idle | Loading | Loaded | Failed | Unloading

  datatype Row = Row(status: Status, prior: Option<Status>)

  /** `update_status`: every status but `failed` retires the prior status. */
  function WithStatus(r: Row, st: Status): Row {
    if st == Failed then Row(Failed, r.prior) else Row(st, None)
  }

  predicate WantsRestart(r: Row) {
    r.status == Failed && (r.prior == Some(Loaded) || r.prior == Some(Loading))
  }

  /** Where the pass stands for this model. `Charged` has taken a restart from the budget, `Refusing` and
      `Dropping` have been refused one, and each has its writes still to come. */
  datatype Place =
    | Resting
    | Probing(listed: bool)
    | Refusing
    | Sweeping(due: bool)
    | Dropping
    | Charged(sweep: bool)
    | Restarting(was: Status, sweep: bool)

  /** `history` holds the restart times since the last healthy probe and `limits` the limit in force at
      each; they are not part of the program. */
  datatype State = State(row: Row, fails: nat, events: seq<real>, limit: int, clock: real, place: Place, history: seq<real>, limits: seq<int>)

  datatype Config = Config(threshold: int, window: real)

  datatype Step =
    | Tick(now: real)
    | BeginPass(limit: int)
    | Skip
    | Healthy
    | Unhealthy(at: real)
    | WriteRefusal
    | EndProbe(leased: bool)
    | SweepOne(at: real)
    | DropFlag
    | EndPass
    | AbortPass
    | WriteRestart
    | RestartUp
    | RestartDown
    | RestartRaises
    | OnExit
    | OperatorLoad
    | OperatorSets(status: Status)
    | LoadUp
    | LoadDown

  predicate Enabled(s: State, c: Config, step: Step) {
    match step
    case Tick(t) => t >= s.clock
    case BeginPass(_) => s.place.Resting?
    case Skip | Healthy => s.place == Probing(true)
    case Unhealthy(at) => s.place == Probing(true) && at >= s.clock
    case WriteRefusal => s.place.Refusing?
    case EndProbe(_) => s.place == Probing(false)
    case SweepOne(at) => s.place == Sweeping(true) && at >= s.clock
    case DropFlag => s.place.Dropping?
    case EndPass => s.place == Sweeping(false)
    case AbortPass => true
    case WriteRestart => s.place.Charged?
    case RestartUp | RestartDown | RestartRaises => s.place.Restarting?
    case OnExit => true
    case OperatorLoad => s.row.status == Pulled || s.row.status == Failed
    case OperatorSets(st) => st != Failed && st != Loaded && st != Loading
    case LoadUp | LoadDown => s.row.status == Loading
  }

  /** `allow` followed, if it says yes, by `record`: nothing can run between the two. */
  function Ask(s: State, c: Config, at: real, sweep: bool): State {
    var kept := Recent(s.events, s.clock, c.window);
    if |kept| < s.limit then
      s.(events := kept + [at], clock := at, place := Charged(sweep), history := s.history + [at], limits := s.limits + [s.limit])
    else s.(events := kept, clock := at, place := if sweep then Dropping else Refusing)
  }

  function Back(p: Place): Place
    requires p.Restarting?
  {
    if p.sweep then Sweeping(false) else Probing(false)
  }

  function Next(s: State, c: Config, step: Step): State
    requires Enabled(s, c, step)
  {
    match step
    case Tick(t) => s.(clock := t)
    case BeginPass(limit) =>
      var listed := s.row.status == Loaded;
      s.(limit := limit, place := Probing(listed), fails := if listed then s.fails else 0)
    case Skip => s.(place := Probing(false))
    case Healthy => s.(place := Probing(false), fails := 0, events := [], history := [], limits := [])
    case Unhealthy(at) =>
      if s.fails + 1 < c.threshold then s.(fails := s.fails + 1, place := Probing(false))
      else Ask(s.(fails := 0), c, at, false)
    case WriteRefusal => s.(row := WithStatus(s.row, Failed), place := Probing(false))
    case EndProbe(leased) => s.(place := Sweeping(WantsRestart(s.row) && !leased))
    case SweepOne(at) => Ask(s, c, at, true)
    case DropFlag => s.(row := s.row.(prior := None), place := Sweeping(false))
    case EndPass => s.(place := Resting)
    case AbortPass => s.(place := Resting)
    case WriteRestart =>
      var was := if s.row.prior.Some? then s.row.prior.value else Loaded;
      s.(row := WithStatus(s.row, Loading).(prior := Some(was)), place := Restarting(was, s.place.sweep))
    case RestartUp => s.(row := WithStatus(s.row, Loaded), place := Back(s.place))
    case RestartDown => s.(row := WithStatus(s.row, Failed), place := Back(s.place))
    case RestartRaises => s.(row := Row(Failed, Some(s.place.was)), place := Back(s.place))
    case OnExit =>
      if s.row.status == Loaded then s.(row := Row(Failed, Some(Loaded)))
      else if s.row.status == Loading then s.(row := WithStatus(s.row, Failed))
      else s
    case OperatorLoad => s.(row := WithStatus(s.row, Loading))
    case OperatorSets(st) => s.(row := WithStatus(s.row, st))
    case LoadUp => s.(row := WithStatus(s.row, Loaded))
    case LoadDown => s.(row := WithStatus(s.row, Failed))
  }

  // ----- the budget object behind the steps ---------------------------------------------------

  /** The part of the shared budget that belongs to one model. */
  ghost predicate Backs(b: RestartBudget, m: Model, s: State, c: Config)
    reads b
  {
    b.limit == s.limit && b.window == c.window && EventsOf(b.events, m) == s.events
  }

  /** `allow` and, if it says yes, `record`: the two calls of either path are the step `Ask`, and leave the
      other models' restarts alone. */
  method AskBudget(b: RestartBudget, m: Model, now: real, at: real, ghost s: State, ghost c: Config, sweep: bool)
    returns (charged: bool)
    requires Backs(b, m, s, c) && now == s.clock <= at
    modifies b
    ensures charged <==> Ask(s, c, at, sweep).place == Charged(sweep)
    ensures Backs(b, m, Ask(s, c, at, sweep), c)
    ensures forall k :: k != m ==> EventsOf(b.events, k) == old(EventsOf(b.events, k))
  {
    charged := b.Allow(m, now);
    if charged {
      b.Record(m, at);
    }
  }

  /** A healthy probe forgets the model's restarts. */
  method ResetBudget(b: RestartBudget, m: Model, ghost s: State, ghost c: Config)
    requires Backs(b, m, s, c) && Enabled(s, c, Healthy)
    modifies b
    ensures Backs(b, m, Next(s, c, Healthy), c)
    ensures forall k :: k != m ==> EventsOf(b.events, k) == old(EventsOf(b.events, k))
  {
    b.Reset(m);
  }

  /** A pass starts by reading the limit, for all models at once. */
  method ReadLimit(b: RestartBudget, m: Model, limit: int, ghost s: State, ghost c: Config)
    requires Backs(b, m, s, c) && Enabled(s, c, BeginPass(limit))
    modifies b
    ensures Backs(b, m, Next(s, c, BeginPass(limit)), c) && b.events == old(b.events)
  {
    b.Reconfigure(limit);
  }

  predicate ValidRun(s: State, c: Config, run: seq<Step>)
    decreases |run|
  {
    |run| == 0 || (Enabled(s, c, run[0]) && ValidRun(Next(s, c, run[0]), c, run[1..]))
  }

  function After(s: State, c: Config, run: seq<Step>): State
    requires ValidRun(s, c, run)
    decreases |run|
  {
    if |run| == 0 then s else After(Next(s, c, run[0]), c, run[1..])
  }

  // ----- the ceiling ------------------------------------------------------------------------------

  /** Each restart comes a whole window after the one `limit` places before it. */
  predicate Spread(history: seq<real>, limits: seq<int>, window: real) {
    && |limits| == |history|
    && forall k :: 0 <= k < |history| ==> limits[k] >= 1 && (k >= limits[k] ==> history[k] - history[k - limits[k]] >= window)
  }

  predicate Timely(s: State, c: Config) {
    && Ordered(s.history)
    && (forall k :: 0 <= k < |s.history| ==> s.history[k] <= s.clock)
    && Remembers(s.events, s.history, s.clock, c.window)
  }

  predicate Bounded(s: State, c: Config) {
    Timely(s, c) && Spread(s.history, s.limits, c.window)
  }

  lemma SpreadGrows(history: seq<real>, limits: seq<int>, window: real, at: real, limit: int)
    requires Spread(history, limits, window) && limit >= 1
    requires |history| >= limit ==> at - history[|history| - limit] >= window
    ensures Spread(history + [at], limits + [limit], window)
  {
  }

  lemma TimelyGrows(s: State, c: Config, kept: seq<real>, at: real)
    requires Timely(s, c) && Remembers(kept, s.history, s.clock, c.window) && at >= s.clock
    ensures Ordered(s.history + [at])
    ensures forall k :: 0 <= k < |s.history + [at]| ==> (s.history + [at])[k] <= at
    ensures Remembers(kept + [at], s.history + [at], at, c.window)
  {
    var d := |s.history| - |kept|;
    assert (s.history + [at])[d..] == s.history[d..] + [at];
    assert forall i :: 0 <= i < d ==> (s.history + [at])[i] == s.history[i];
  }

  lemma AskBounded(s: State, c: Config, at: real, sweep: bool)
    requires Bounded(s, c) && at >= s.clock
    ensures Bounded(Ask(s, c, at, sweep), c)
  {
    var kept := Recent(s.events, s.clock, c.window);
    PurgeRemembers(s.events, s.history, s.clock, s.clock, c.window);
    if |kept| < s.limit {
      AllowedMeansSpread(s.events, s.history, s.clock, s.clock, c.window, s.limit);
      SpreadGrows(s.history, s.limits, c.window, at, s.limit);
      TimelyGrows(s, c, kept, at);
      hide Spread, Ordered, Remembers, Recent;
    } else {
      hide Spread, Ordered, Recent;
    }
  }

  lemma BoundedStep(s: State, c: Config, step: Step)
    requires Bounded(s, c) && Enabled(s, c, step)
    ensures Bounded(Next(s, c, step), c)
  {
    hide Spread, Ordered, Recent, Ask, WithStatus, WantsRestart;
    match step
    case Unhealthy(at) => if s.fails + 1 >= c.threshold { AskBounded(s.(fails := 0), c, at, false); }
    case SweepOne(at) => AskBounded(s, c, at, true);
    case Healthy => NothingYet(c);
    case _ =>
  }

  lemma NothingYet(c: Config)
    ensures Spread([], [], c.window) && Ordered([])
  {
  }

  lemma {:induction false} BoundedRun(s: State, c: Config, run: seq<Step>)
    requires Bounded(s, c) && ValidRun(s, c, run)
    ensures Bounded(After(s, c, run), c)
    decreases |run|
  {
    hide Bounded, Next, Enabled;
    if |run| > 0 {
      BoundedStep(s, c, run[0]);
      BoundedRun(Next(s, c, run[0]), c, run[1..]);
    }
  }

  function Start(row: Row, limit: int, clock: real): State {
    State(row, 0, [], limit, clock, Resting, [], [])
  }

  /** Over every run, both paths together: among the restarts since the last healthy probe, whenever the
      limit has been `limit` all along, any `limit` + 1 in a row stretch over a whole window. */
  lemma CeilingHolds(row: Row, first: int, clock: real, c: Config, run: seq<Step>, limit: int, i: nat, j: nat)
    requires ValidRun(Start(row, first, clock), c, run)
    requires var s := After(Start(row, first, clock), c, run);
      i < j < |s.history| && i + limit <= j && forall k :: 0 <= k < |s.limits| ==> s.limits[k] == limit
    ensures var s := After(Start(row, first, clock), c, run);
      s.history[j] - s.history[i] >= c.window
  {
    BoundedRun(Start(row, first, clock), c, run);
    var s := After(Start(row, first, clock), c, run);
    hide Remembers;
    assert s.history[j] - s.history[j - s.limits[j]] >= c.window;
    assert s.history[i] <= s.history[j - limit];
  }

  // ----- from unhealthy probes to a restart -------------------------------------------------------

  /** The probe asked for a restart, and was granted or refused one. */
  predicate Asked(s: State) {
    s.place.Charged? || s.place.Refusing?
  }

  /** A healthy probe, a pass that finds the row not loaded, and a probe that asked each start afresh. */
  predicate Afresh(s: State, c: Config, step: Step)
    requires Enabled(s, c, step)
  {
    || step.Healthy?
    || (step.BeginPass? && s.row.status != Loaded)
    || (step.Unhealthy? && Asked(Next(s, c, step)))
  }

  /** The unhealthy probes in a row at the end of a run that began after `n` of them. */
  function InARow(s: State, c: Config, run: seq<Step>, n: nat): nat
    requires ValidRun(s, c, run)
    decreases |run|
  {
    if run == [] then n
    else
      var more := if Afresh(s, c, run[0]) then 0 else if run[0].Unhealthy? then n + 1 else n;
      InARow(Next(s, c, run[0]), c, run[1..], more)
  }

  lemma {:induction false} FailsAreInARow(s: State, c: Config, run: seq<Step>)
    requires ValidRun(s, c, run)
    ensures After(s, c, run).fails == InARow(s, c, run, s.fails)
    decreases |run|
  {
    if run != [] {
      OneMoreInARow(s, c, run[0]);
      FailsAreInARow(Next(s, c, run[0]), c, run[1..]);
      hide Next, Enabled, Afresh;
    }
  }

  lemma OneMoreInARow(s: State, c: Config, step: Step)
    requires Enabled(s, c, step)
    ensures Next(s, c, step).fails == if Afresh(s, c, step) then 0 else if step.Unhealthy? then s.fails + 1 else s.fails
  {
    hide Recent, WithStatus, WantsRestart;
  }

  /** Over every run: an unhealthy probe asks for a restart exactly if it is the `threshold`-th in a row. */
  lemma AsksExactly(row: Row, limit: int, clock: real, c: Config, run: seq<Step>, at: real)
    requires var start := Start(row, limit, clock); ValidRun(start, c, run) && Enabled(After(start, c, run), c, Unhealthy(at))
    ensures var start := Start(row, limit, clock);
      Asked(Next(After(start, c, run), c, Unhealthy(at))) <==> InARow(start, c, run, 0) + 1 >= c.threshold
  {
    FailsAreInARow(Start(row, limit, clock), c, run);
    hide Recent, ValidRun, InARow, After;
  }

  /** What a pass finds of a loaded row whose engine does not answer. */
  datatype Probe = Probe(limit: int, at: real, leased: bool)

  function Passes(probes: seq<Probe>): seq<Step> {
    if probes == [] then []
    else [BeginPass(probes[0].limit), Unhealthy(probes[0].at), EndProbe(probes[0].leased), EndPass] + Passes(probes[1..])
  }

  /** One pass below the threshold counts the failure and leaves the rest as it was. */
  lemma PassCounts(s: State, c: Config, p: Probe)
    requires s.place.Resting? && s.row == Row(Loaded, None) && s.fails + 1 < c.threshold && p.at >= s.clock
    ensures var run := [BeginPass(p.limit), Unhealthy(p.at), EndProbe(p.leased), EndPass];
      && ValidRun(s, c, run) && After(s, c, run) == s.(fails := s.fails + 1, limit := p.limit) && NeverCharges(s, c, run)
  {
    var s1 := s.(limit := p.limit, place := Probing(true));
    var s2 := s1.(fails := s.fails + 1, place := Probing(false));
    var s3 := s2.(place := Sweeping(false));
    PassGoesOn(s, c, p);
    hide Next, Enabled, Charges;
    OneStep(s3, c, EndPass);
    OneStep(s2, c, EndProbe(p.leased), [EndPass]);
    OneStep(s1, c, Unhealthy(p.at), [EndProbe(p.leased), EndPass]);
    OneStep(s, c, BeginPass(p.limit), [Unhealthy(p.at), EndProbe(p.leased), EndPass]);
    assert [BeginPass(p.limit)] + [Unhealthy(p.at), EndProbe(p.leased), EndPass]
      == [BeginPass(p.limit), Unhealthy(p.at), EndProbe(p.leased), EndPass];
    assert [Unhealthy(p.at)] + [EndProbe(p.leased), EndPass] == [Unhealthy(p.at), EndProbe(p.leased), EndPass];
    assert [EndProbe(p.leased)] + [EndPass] == [EndProbe(p.leased), EndPass];
    assert [EndPass] + [] == [EndPass];
  }

  /** The four steps of such a pass, one by one. */
  lemma PassGoesOn(s: State, c: Config, p: Probe)
    requires s.place.Resting? && s.row == Row(Loaded, None) && s.fails + 1 < c.threshold && p.at >= s.clock
    ensures var s1 := s.(limit := p.limit, place := Probing(true));
      var s2 := s1.(fails := s.fails + 1, place := Probing(false));
      var s3 := s2.(place := Sweeping(false));
      && Enabled(s, c, BeginPass(p.limit)) && Next(s, c, BeginPass(p.limit)) == s1 && !Charges(s, c, BeginPass(p.limit))
      && Enabled(s1, c, Unhealthy(p.at)) && Next(s1, c, Unhealthy(p.at)) == s2 && !Charges(s1, c, Unhealthy(p.at))
      && Enabled(s2, c, EndProbe(p.leased)) && Next(s2, c, EndProbe(p.leased)) == s3 && !Charges(s2, c, EndProbe(p.leased))
      && Enabled(s3, c, EndPass) && Next(s3, c, EndPass) == s3.(place := Resting) && !Charges(s3, c, EndPass)
  {
    hide Ask;
  }

  lemma {:induction false} Join(s: State, c: Config, a: seq<Step>, b: seq<Step>)
    requires ValidRun(s, c, a) && ValidRun(After(s, c, a), c, b)
    ensures ValidRun(s, c, a + b) && After(s, c, a + b) == After(After(s, c, a), c, b)
    ensures NeverCharges(s, c, a + b) <==> NeverCharges(s, c, a) && NeverCharges(After(s, c, a), c, b)
    decreases |a|
  {
    hide Next, Enabled, Charges;
    if a == [] {
      assert a + b == b;
    } else {
      assert (a + b)[1..] == a[1..] + b;
      Join(Next(s, c, a[0]), c, a[1..], b);
    }
  }

  lemma {:induction false} PassesCount(s: State, c: Config, probes: seq<Probe>)
    requires s.place.Resting? && s.row == Row(Loaded, None) && s.fails + |probes| < c.threshold
    requires forall k :: 0 <= k < |probes| ==> probes[k].at >= s.clock
    ensures ValidRun(s, c, Passes(probes)) && NeverCharges(s, c, Passes(probes))
    ensures After(s, c, Passes(probes))
      == s.(fails := s.fails + |probes|, limit := if probes == [] then s.limit else probes[|probes| - 1].limit)
    decreases |probes|
  {
    if probes != [] {
      var p, rest := probes[0], probes[1..];
      var run := [BeginPass(p.limit), Unhealthy(p.at), EndProbe(p.leased), EndPass];
      PassCounts(s, c, p);
      var n := s.(fails := s.fails + 1, limit := p.limit);
      PassesCount(n, c, rest);
      Join(s, c, run, Passes(rest));
      hide ValidRun, After, NeverCharges, Next, Enabled;
    }
  }

  /** A loaded row whose engine has stopped answering: fewer than `threshold` passes leave it as it is, and
      the next probe after one less than that many asks. A restart is charged if fewer than the limit have
      been charged in the window, and refused otherwise. */
  lemma DeadEngineIsCaught(s: State, c: Config, probes: seq<Probe>, last: Probe)
    requires s.place.Resting? && s.row == Row(Loaded, None) && s.fails == 0 && c.threshold >= 1
    requires |probes| == c.threshold - 1 && last.at >= s.clock && forall k :: 0 <= k < |probes| ==> probes[k].at >= s.clock
    ensures var run := Passes(probes);
      && ValidRun(s, c, run) && NeverCharges(s, c, run) && After(s, c, run).row == s.row
    ensures var run := Passes(probes) + [BeginPass(last.limit), Unhealthy(last.at)];
      && ValidRun(s, c, run)
      && var n, recent := After(s, c, run), |Recent(s.events, s.clock, c.window)|;
      && n.row == s.row && n.place == (if recent < last.limit then Charged(false) else Refusing)
      && (n.place.Charged? ==> n.history == s.history + [last.at])
  {
    var run := Passes(probes);
    PassesCount(s, c, probes);
    var s1 := After(s, c, run);
    var s2 := Next(s1, c, BeginPass(last.limit));
    var s3 := Next(s2, c, Unhealthy(last.at));
    OneStep(s2, c, Unhealthy(last.at));
    OneStep(s1, c, BeginPass(last.limit), [Unhealthy(last.at)]);
    assert [BeginPass(last.limit)] + [Unhealthy(last.at)] == [BeginPass(last.limit), Unhealthy(last.at)];
    assert [Unhealthy(last.at)] + [] == [Unhealthy(last.at)];
    Join(s, c, run, [BeginPass(last.limit), Unhealthy(last.at)]);
    hide Recent, ValidRun, After, NeverCharges, Passes, Charges;
  }

  /** What becomes of a restart: a charged row goes to LOADING; one that comes up is loaded and carries no
      flag; one that ends in failure, or raises, keeps the flag and is tried again by a sweep. */
  lemma FailedRestartIsRetried(s: State, c: Config)
    requires s.place.Charged? && (s.row.prior.None? || s.row.prior == Some(Loaded) || s.row.prior == Some(Loading))
    ensures var n := Next(s, c, WriteRestart);
      && n.row.status == Loading
      && Next(n, c, RestartUp).row == Row(Loaded, None)
      && WantsRestart(Next(n, c, RestartDown).row) && WantsRestart(Next(n, c, RestartRaises).row)
      && Next(n, c, RestartDown).row == Next(n, c, RestartRaises).row
  {
  }

  /** An engine exit flags a row that was serving for a restart; one that was still loading goes down with the
      flag it had, so that only the watchdog's own restart is tried again; any other row is left alone. */
  lemma ExitFlagsServing(s: State, c: Config)
    ensures var n := Next(s, c, OnExit).row;
      && (s.row.status == Loaded ==> n == Row(Failed, Some(Loaded)) && WantsRestart(n))
      && (s.row.status == Loading ==> n.status == Failed && n.prior == s.row.prior)
      && (s.row.status == Loading && s.row.prior.None? ==> !WantsRestart(n))
      && (s.row.status != Loaded && s.row.status != Loading ==> n == s.row)
  {
  }

  /** Without an engine exit and without a restart of the watchdog's own, no row comes to be flagged: a load
      of an operator's that fails stays down. */
  lemma {:induction false} FlagNeedsCause(s: State, c: Config, run: seq<Step>)
    requires ValidRun(s, c, run) && s.row.prior.None? && !s.place.Restarting?
    requires forall step :: step in run ==> !step.OnExit? && !step.WriteRestart?
    ensures After(s, c, run).row.prior.None? && !WantsRestart(After(s, c, run).row)
    decreases |run|
  {
    if run != [] {
      assert run[0] in run;
      FlagNeedsCause(Next(s, c, run[0]), c, run[1..]);
    }
  }

  // ----- a refusal is final -----------------------------------------------------------------------

  /** A row that reads `loaded` carries no prior status. */
  predicate LoadedIsClean(s: State) {
    s.row.status == Loaded ==> s.row.prior.None?
  }

  lemma {:induction false} LoadedIsCleanRun(s: State, c: Config, run: seq<Step>)
    requires LoadedIsClean(s) && ValidRun(s, c, run)
    ensures LoadedIsClean(After(s, c, run))
    decreases |run|
  {
    if |run| > 0 {
      LoadedIsCleanRun(Next(s, c, run[0]), c, run[1..]);
    }
  }

  /** The row is down, nothing asks for it, and no step of the pass is in the middle of it. */
  predicate AtRest(s: State) {
    && s.row.status == Failed && !WantsRestart(s.row)
    && (s.place.Resting? || s.place == Probing(false) || s.place == Sweeping(false))
  }

  /** Somebody other than the watchdog took the row up again. */
  predicate Outside(step: Step) {
    step.OperatorLoad? || step.OperatorSets?
  }

  predicate Charges(s: State, c: Config, step: Step)
    requires Enabled(s, c, step)
  {
    Next(s, c, step).place.Charged? && !s.place.Charged?
  }

  predicate NeverCharges(s: State, c: Config, run: seq<Step>)
    requires ValidRun(s, c, run)
    decreases |run|
  {
    |run| == 0 || (!Charges(s, c, run[0]) && NeverCharges(Next(s, c, run[0]), c, run[1..]))
  }

  /** From rest, no watchdog pass restarts the row until something else loads it. */
  lemma {:induction false} RestLasts(s: State, c: Config, run: seq<Step>)
    requires AtRest(s) && ValidRun(s, c, run) && forall step :: step in run ==> !Outside(step)
    ensures AtRest(After(s, c, run)) && NeverCharges(s, c, run)
    decreases |run|
  {
    if |run| > 0 {
      assert run[0] in run;
      assert AtRest(Next(s, c, run[0]));
      RestLasts(Next(s, c, run[0]), c, run[1..]);
    }
  }

  /** A row that is leased when the sweep lists it is not restarted before the next pass, flagged or not. */
  lemma LeaseHoldsOff(s: State, c: Config, run: seq<Step>)
    requires s.place == Probing(false) && ValidRun(Next(s, c, EndProbe(true)), c, run)
    requires forall step :: step in run ==> !step.BeginPass?
    ensures NeverCharges(Next(s, c, EndProbe(true)), c, run)
  {
    NoPassNoCharge(Next(s, c, EndProbe(true)), c, run);
  }

  lemma {:induction false} NoPassNoCharge(s: State, c: Config, run: seq<Step>)
    requires s.place.Resting? || s.place == Sweeping(false)
    requires ValidRun(s, c, run) && forall step :: step in run ==> !step.BeginPass?
    ensures NeverCharges(s, c, run)
    decreases |run|
  {
    hide WantsRestart, WithStatus, Ask;
    if run != [] {
      assert run[0] in run;
      NoPassNoCharge(Next(s, c, run[0]), c, run[1..]);
    }
  }

  lemma {:induction false} Extend(s: State, c: Config, run: seq<Step>, step: Step)
    requires ValidRun(s, c, run) && Enabled(After(s, c, run), c, step)
    ensures ValidRun(s, c, run + [step]) && After(s, c, run + [step]) == Next(After(s, c, run), c, step)
    decreases |run|
  {
    hide Next, Enabled;
    if |run| == 0 {
      assert run + [step] == [step];
      assert ValidRun(Next(s, c, step), c, [step][1..]);
    } else {
      Extend(Next(s, c, run[0]), c, run[1..], step);
      assert (run + [step])[1..] == run[1..] + [step];
    }
  }

  lemma OneEvent(now: real, window: real)
    ensures Recent([0.0], now, window) == if now < window then [0.0] else []
  {
    assert [0.0][1..] == [];
    assert [0.0] + [] == [0.0];
  }

  /** No way on from here, however long, takes a restart from the budget before something else loads the
      row. */
  ghost predicate Final(s: State, c: Config) {
    forall run :: ValidRun(s, c, run) && (forall step :: step in run ==> !Outside(step)) ==> NeverCharges(s, c, run)
  }

  lemma RestIsFinal(s: State, c: Config)
    requires AtRest(s)
    ensures Final(s, c)
  {
    forall run | ValidRun(s, c, run) && (forall step :: step in run ==> !Outside(step)) ensures NeverCharges(s, c, run) {
      RestLasts(s, c, run);
    }
  }

  /** A moment when all of these restarts have left the window. */
  lemma {:induction false} WindowPassed(events: seq<real>, clock: real, window: real) returns (t: real)
    ensures t >= clock && forall i :: 0 <= i < |events| ==> t - events[i] >= window
  {
    if events == [] {
      t := clock;
    } else {
      var u := WindowPassed(events[1..], clock, window);
      t := if u - events[0] >= window then u else events[0] + window;
      assert forall i :: 1 <= i < |events| ==> events[i] == events[1..][i - 1];
    }
  }

  lemma {:induction false} NoneRecent(events: seq<real>, now: real, window: real)
    requires forall i :: 0 <= i < |events| ==> now - events[i] >= window
    ensures Recent(events, now, window) == []
  {
    if events != [] {
      NoneRecent(events[1..], now, window);
    }
  }

  /** A flagged row can be restarted from between two rows of the probe loop: once the window is past, the
      sweep of this very pass takes a restart from the budget. */
  lemma FlaggedIsRestarted(s: State, c: Config, t: real)
    requires s.place == Probing(false) && WantsRestart(s.row) && s.limit >= 1
    requires t >= s.clock && forall i :: 0 <= i < |s.events| ==> t - s.events[i] >= c.window
    ensures var run := [EndProbe(false), Tick(t), SweepOne(t)];
      ValidRun(s, c, run) && After(s, c, run).place == Charged(true) && !NeverCharges(s, c, run)
  {
    var s1 := Next(s, c, EndProbe(false));
    var s2 := Next(s1, c, Tick(t));
    NoneRecent(s.events, t, c.window);
    var s3 := Next(s2, c, SweepOne(t));
    assert s3.place == Charged(true) && Charges(s2, c, SweepOne(t));
    OneStep(s2, c, SweepOne(t));
    OneStep(s1, c, Tick(t), [SweepOne(t)]);
    OneStep(s, c, EndProbe(false), [Tick(t), SweepOne(t)]);
    hide Next;
  }

  lemma OneStep(s: State, c: Config, step: Step, rest: seq<Step> := [])
    requires Enabled(s, c, step) && ValidRun(Next(s, c, step), c, rest)
    ensures ValidRun(s, c, [step] + rest) && After(s, c, [step] + rest) == After(Next(s, c, step), c, rest)
    ensures NeverCharges(s, c, [step] + rest) <==> !Charges(s, c, step) && NeverCharges(Next(s, c, step), c, rest)
  {
    assert ([step] + rest)[1..] == rest;
  }

  /** The same row under any limit: it is leased for the rest of this pass, and the next pass reads a
      positive limit. */
  lemma FlaggedIsRestartedLater(s: State, c: Config, t: real) returns (run: seq<Step>)
    requires s.place == Probing(false) && WantsRestart(s.row)
    requires t >= s.clock && forall i :: 0 <= i < |s.events| ==> t - s.events[i] >= c.window
    ensures ValidRun(s, c, run) && !NeverCharges(s, c, run) && forall step :: step in run ==> !Outside(step)
  {
    var s1 := Next(s, c, EndProbe(true));
    var s2 := Next(s1, c, EndPass);
    var s3 := Next(s2, c, BeginPass(1));
    run := [EndProbe(false), Tick(t), SweepOne(t)];
    FlaggedIsRestarted(s3, c, t);
    hide Next, Charges;
    OneStep(s2, c, BeginPass(1), run);
    run := [BeginPass(1)] + run;
    OneStep(s1, c, EndPass, run);
    run := [EndPass] + run;
    OneStep(s, c, EndProbe(true), run);
    run := [EndProbe(true)] + run;
  }

  /** A refusal written by the probe path is final, over every run that follows, exactly when the exit
      callback has not flagged the row in the meantime; a row that still reads `loaded` is always final. */
  lemma RefusalIsFinal(s: State, c: Config)
    requires LoadedIsClean(s) && Enabled(s, c, WriteRefusal)
    ensures var n := Next(s, c, WriteRefusal);
      && (Final(n, c) <==> s.row.prior != Some(Loaded) && s.row.prior != Some(Loading))
      && (s.row.status == Loaded ==> Final(n, c))
  {
    var n := Next(s, c, WriteRefusal);
    if WantsRestart(n.row) {
      var t := WindowPassed(n.events, n.clock, c.window);
      var run := FlaggedIsRestartedLater(n, c, t);
    } else {
      RestIsFinal(n, c);
    }
  }

  /** A refusal by the sweep drops the flag, and is final for a row that is still down. */
  lemma DroppedFlagIsFinal(s: State, c: Config)
    requires Enabled(s, c, DropFlag)
    ensures AtRest(Next(s, c, DropFlag)) <==> s.row.status == Failed
    ensures s.row.status == Failed ==> Final(Next(s, c, DropFlag), c)
  {
    if s.row.status == Failed {
      RestIsFinal(Next(s, c, DropFlag), c);
    }
  }

  /** The first half of the race: refused, exited, and only then written. */
  lemma RefusedTooLate(s: State, c: Config) returns (run: seq<Step>)
    requires c.window > 0.0 && c.threshold <= 1
    requires s == State(Row(Loaded, None), 0, [0.0], 1, 0.0, Probing(true), [0.0], [1])
    ensures run == [Unhealthy(0.0), OnExit, WriteRefusal] && ValidRun(s, c, run)
    ensures After(s, c, run) == s.(row := Row(Failed, Some(Loaded)), place := Probing(false))
  {
    OneEvent(0.0, c.window);
    run := [];
    Extend(s, c, run, Unhealthy(0.0));
    run := run + [Unhealthy(0.0)];
    assert After(s, c, run) == s.(place := Refusing);
    Extend(s, c, run, OnExit);
    run := run + [OnExit];
    assert After(s, c, run) == s.(row := Row(Failed, Some(Loaded)), place := Refusing);
    Extend(s, c, run, WriteRefusal);
    run := run + [WriteRefusal];
  }

  /** The second half: the sweep finds the flag, and the window has moved on. */
  lemma SweptAfterRefusal(s: State, c: Config) returns (run: seq<Step>)
    requires c.window > 0.0
    requires s == State(Row(Failed, Some(Loaded)), 0, [0.0], 1, 0.0, Probing(false), [0.0], [1])
    ensures run == [EndProbe(false), Tick(c.window), SweepOne(c.window)] && ValidRun(s, c, run)
    ensures After(s, c, run).place == Charged(true)
  {
    OneEvent(c.window, c.window);
    run := [];
    Extend(s, c, run, EndProbe(false));
    run := run + [EndProbe(false)];
    assert After(s, c, run) == s.(place := Sweeping(true));
    Extend(s, c, run, Tick(c.window));
    run := run + [Tick(c.window)];
    assert After(s, c, run) == s.(place := Sweeping(true), clock := c.window);
    Extend(s, c, run, SweepOne(c.window));
    run := run + [SweepOne(c.window)];
  }

  /** A refusal that comes too late: the engine's exit callback runs between the refused request and the
      write, the flag survives it, and the sweep restarts the model once the window has moved on. */
  lemma LateRefusalIsUndone(c: Config) returns (s: State, first: seq<Step>, rest: seq<Step>)
    requires c.window > 0.0 && c.threshold <= 1
    ensures s.place == Probing(true) && s.row == Row(Loaded, None) && Bounded(s, c)
    ensures ValidRun(s, c, first) && |first| == 3 && first[2] == WriteRefusal
    ensures ValidRun(After(s, c, first), c, rest) && forall step :: step in rest ==> !Outside(step)
    ensures After(After(s, c, first), c, rest).place == Charged(true)
  {
    s := State(Row(Loaded, None), 0, [0.0], 1, 0.0, Probing(true), [0.0], [1]);
    first := RefusedTooLate(s, c);
    hide ValidRun, After;
    rest := SweptAfterRefusal(After(s, c, first), c);
  }
}
