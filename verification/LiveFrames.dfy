/** Subscribers of one live turn: each replays the frames from the start and then follows the runner,
    sleeping on the condition variable while it is caught up.

    Steps are the stretches between suspension points. Adding a frame and the `notify_all` that
    announces it are two steps, so that a subscriber may check, sleep or leave between them;
    `DropNotify` is a runner cancelled between the two. */
module LiveFrames {
  type Frame = string
  type SubId = nat

  datatype Phase = Emitting | WantsLock | Asleep | Woken | Terminated | Gone

  datatype Subscriber = Subscriber(cursor: nat, output: seq<Frame>, phase: Phase)

  /** `notices` counts frames added, or the finish, whose `notify_all` is still to run. */
  datatype State = State(frames: seq<Frame>, done: bool, notices: nat, subscribers: map<SubId, Subscriber>)

  /** The runner appends while its turn lives and finishes it once, as its last act. */
  datatype Step =
    | Append(data: Frame)
    | Finish
    | Notify
    | DropNotify
    | Subscribe(k: SubId)
    | Run(k: SubId)
    | Leave(k: SubId)

  const INIT := State([], false, 0, map[])

  predicate CaughtUp(s: State, cursor: nat) {
    s.done || |s.frames| > cursor
  }

  predicate Active(p: Phase) {
    p.Emitting? || p.WantsLock? || p.Woken?
  }

  predicate Enabled(s: State, step: Step) {
    match step
    case Append(_) => !s.done
    case Finish => !s.done
    case Notify => s.notices > 0
    case DropNotify => s.notices > 0
    case Subscribe(k) => k !in s.subscribers
    case Run(k) => k in s.subscribers && Active(s.subscribers[k].phase)
    case Leave(k) => k in s.subscribers
  }

  /** One scheduled stretch of `subscribe`: yield the next frame, return, ask for the lock, or look
      again under the lock and sleep. */
  function Advance(s: State, x: Subscriber): Subscriber {
    match x.phase
    case Emitting =>
      if x.cursor < |s.frames| then Subscriber(x.cursor + 1, x.output + [s.frames[x.cursor]], Emitting)
      else if s.done then x.(phase := Terminated)
      else x.(phase := WantsLock)
    case WantsLock | Woken => x.(phase := if CaughtUp(s, x.cursor) then Emitting else Asleep)
    case _ => x
  }

  /** `frames.append`: the frame is there, its notice is still to come. */
  function Added(s: State, data: Frame): State {
    s.(frames := s.frames + [data], notices := s.notices + 1)
  }

  function Marked(s: State): State {
    s.(done := true, notices := s.notices + 1)
  }

  function Awakened(x: Subscriber): Subscriber {
    if x.phase.Asleep? then x.(phase := Woken) else x
  }

  /** `notify_all`. */
  function Announced(s: State): State
    requires s.notices > 0
  {
    s.(notices := s.notices - 1, subscribers := map k | k in s.subscribers :: Awakened(s.subscribers[k]))
  }

  function Next(s: State, step: Step): State
    requires Enabled(s, step)
  {
    match step
    case Append(data) => Added(s, data)
    case Finish => Marked(s)
    case Notify => Announced(s)
    case DropNotify => s.(notices := s.notices - 1)
    case Subscribe(k) => s.(subscribers := s.subscribers[k := Subscriber(0, [], Emitting)])
    case Run(k) => s.(subscribers := s.subscribers[k := Advance(s, s.subscribers[k])])
    case Leave(k) => s.(subscribers := s.subscribers[k := s.subscribers[k].(phase := Gone)])
  }

  predicate ValidRun(s: State, run: seq<Step>)
    decreases |run|
  {
    |run| == 0 || (Enabled(s, run[0]) && ValidRun(Next(s, run[0]), run[1..]))
  }

  function After(s: State, run: seq<Step>): State
    requires ValidRun(s, run)
    decreases |run|
  {
    if |run| == 0 then s else After(Next(s, run[0]), run[1..])
  }

  // ----- nothing lost, doubled or reordered ---------------------------------------------------

  predicate Faithful(s: State, x: Subscriber) {
    && x.cursor <= |s.frames|
    && x.output == s.frames[..x.cursor]
    && (x.phase.Terminated? ==> s.done && x.cursor == |s.frames|)
  }

  ghost predicate AllFaithful(s: State) {
    forall k :: k in s.subscribers ==> Faithful(s, s.subscribers[k])
  }

  /** A subscriber sleeps although there is something to deliver and nobody is going to wake it. */
  predicate Stranded(s: State, k: SubId) {
    && k in s.subscribers && s.subscribers[k].phase.Asleep? && s.notices == 0
    && (s.done || |s.frames| > s.subscribers[k].cursor)
  }

  ghost predicate NoneStranded(s: State) {
    forall k :: !Stranded(s, k)
  }

  /** The runner was cancelled before the last outstanding notice, with a subscriber asleep behind. */
  ghost predicate LosesWakeup(s: State, step: Step) {
    step.DropNotify? && s.notices == 1 && exists k :: Behind(s, k)
  }

  predicate Behind(s: State, k: SubId) {
    && k in s.subscribers && s.subscribers[k].phase.Asleep?
    && (s.done || |s.frames| > s.subscribers[k].cursor)
  }

  lemma FaithfulStep(s: State, step: Step)
    requires AllFaithful(s) && Enabled(s, step)
    ensures AllFaithful(Next(s, step))
  {
    var n := Next(s, step);
    forall k | k in n.subscribers ensures Faithful(n, n.subscribers[k]) {
      if k in s.subscribers {
        assert Faithful(s, s.subscribers[k]);
      }
    }
  }

  lemma StrandedStep(s: State, step: Step)
    requires NoneStranded(s) && Enabled(s, step)
    ensures NoneStranded(Next(s, step)) <==> !LosesWakeup(s, step)
  {
    var n := Next(s, step);
    if LosesWakeup(s, step) {
      var k :| Behind(s, k);
      assert Stranded(n, k);
    } else {
      forall k ensures !Stranded(n, k) {
        assert !Stranded(s, k);
        assert step.DropNotify? && s.notices == 1 ==> !Behind(s, k);
      }
    }
  }

  ghost predicate NoneStrandedAlong(s: State, run: seq<Step>)
    requires ValidRun(s, run)
    decreases |run|
  {
    NoneStranded(s) && (|run| > 0 ==> NoneStrandedAlong(Next(s, run[0]), run[1..]))
  }

  ghost predicate KeepsWakeups(s: State, run: seq<Step>)
    requires ValidRun(s, run)
    decreases |run|
  {
    |run| == 0 || (!LosesWakeup(s, run[0]) && KeepsWakeups(Next(s, run[0]), run[1..]))
  }

  lemma {:induction false} FaithfulRun(s: State, run: seq<Step>)
    requires AllFaithful(s) && ValidRun(s, run)
    ensures AllFaithful(After(s, run))
    decreases |run|
  {
    hide AllFaithful, Next, Enabled;
    if |run| > 0 {
      FaithfulStep(s, run[0]);
      FaithfulRun(Next(s, run[0]), run[1..]);
    }
  }

  lemma {:induction false} StrandedRun(s: State, run: seq<Step>)
    requires NoneStranded(s) && ValidRun(s, run)
    ensures NoneStrandedAlong(s, run) <==> KeepsWakeups(s, run)
    decreases |run|
  {
    hide NoneStranded, LosesWakeup, Next, Enabled;
    if |run| > 0 {
      StrandedStep(s, run[0]);
      if NoneStranded(Next(s, run[0])) {
        StrandedRun(Next(s, run[0]), run[1..]);
      }
    }
  }

  /** In every reachable state each subscriber has put out a prefix of the turn's frames, in order and
      once each, and all of them by the time it terminates. */
  lemma OutputIsPrefix(run: seq<Step>, k: SubId)
    requires ValidRun(INIT, run) && k in After(INIT, run).subscribers
    ensures var s := After(INIT, run);
      var x := s.subscribers[k];
      x.output <= s.frames && (x.phase.Terminated? ==> s.done && x.output == s.frames)
  {
    FaithfulRun(INIT, run);
    assert Faithful(After(INIT, run), After(INIT, run).subscribers[k]);
  }

  /** Over every run: no subscriber is ever left asleep with something to deliver and no notice to come
      if and only if no cancellation swallowed the last notice while one slept behind. */
  lemma NoLostWakeup(run: seq<Step>)
    requires ValidRun(INIT, run)
    ensures NoneStrandedAlong(INIT, run) <==> KeepsWakeups(INIT, run)
  {
    assert NoneStranded(INIT);
    StrandedRun(INIT, run);
  }

  /** In particular none is left asleep when no cancellation lands inside an append or the finish. */
  lemma {:induction false} UninterruptedKeepsWakeups(s: State, run: seq<Step>)
    requires ValidRun(s, run) && DropNotify !in run
    ensures KeepsWakeups(s, run)
    decreases |run|
  {
    if |run| > 0 {
      assert run[0] in run;
      UninterruptedKeepsWakeups(Next(s, run[0]), run[1..]);
    }
  }

  // ----- delivery -----------------------------------------------------------------------------

  /** How many stretches a subscriber of a finished turn needs before it terminates. */
  function StretchesLeft(s: State, x: Subscriber): nat
    requires x.cursor <= |s.frames|
  {
    |s.frames| - x.cursor + (if x.phase.Emitting? then 1 else 2)
  }

  function Turns(k: SubId, n: nat): seq<Step> {
    if n == 0 then [] else [Run(k)] + Turns(k, n - 1)
  }

  /** Once the turn is done, a subscriber that is awake terminates with all frames after exactly that
      many stretches of its own, whatever it had put out before. */
  lemma {:induction false} FinishedTurnDrains(s: State, k: SubId)
    requires AllFaithful(s) && s.done && k in s.subscribers && Active(s.subscribers[k].phase)
    ensures var n := StretchesLeft(s, s.subscribers[k]);
      ValidRun(s, Turns(k, n)) && After(s, Turns(k, n)) == s.(subscribers := s.subscribers[k := Subscriber(|s.frames|, s.frames, Terminated)])
    decreases StretchesLeft(s, s.subscribers[k])
  {
    var x := s.subscribers[k];
    assert Faithful(s, x);
    var n := StretchesLeft(s, x);
    var t := Next(s, Run(k));
    FaithfulStep(s, Run(k));
    assert Turns(k, n)[1..] == Turns(k, n - 1);
    if t.subscribers[k].phase.Terminated? {
      assert Turns(k, 0) == [];
      assert s.frames[..x.cursor] == s.frames;
    } else {
      FinishedTurnDrains(t, k);
    }
  }

  /** While the turn is still running, an awake subscriber puts out every frame there is with as many
      stretches of its own, one more if it has first to come out of the lock; two more and it sleeps. */
  lemma {:induction false} AwakeCatchesUp(s: State, k: SubId)
    requires AllFaithful(s) && !s.done && k in s.subscribers && Active(s.subscribers[k].phase)
    requires s.subscribers[k].phase.Emitting? || s.subscribers[k].cursor < |s.frames|
    ensures var x := s.subscribers[k];
      && x.cursor <= |s.frames|
      && var n := |s.frames| - x.cursor + (if x.phase.Emitting? then 0 else 1);
      && ValidRun(s, Turns(k, n))
      && After(s, Turns(k, n)) == s.(subscribers := s.subscribers[k := Subscriber(|s.frames|, s.frames, Emitting)])
    decreases |s.frames| - s.subscribers[k].cursor, if s.subscribers[k].phase.Emitting? then 0 else 1
  {
    var x := s.subscribers[k];
    assert Faithful(s, x);
    if x.phase.Emitting? && x.cursor == |s.frames| {
      assert Turns(k, 0) == [] && s.frames[..x.cursor] == s.frames;
      assert s == s.(subscribers := s.subscribers[k := x]);
    } else {
      var n := |s.frames| - x.cursor + (if x.phase.Emitting? then 0 else 1);
      var t := Next(s, Run(k));
      FaithfulStep(s, Run(k));
      assert Turns(k, n)[1..] == Turns(k, n - 1);
      AwakeCatchesUp(t, k);
    }
  }

  /** A subscriber with nothing to deliver goes to sleep, with nothing put out. */
  lemma GoesToSleep(s: State, k: SubId)
    requires k in s.subscribers && s.subscribers[k].phase.Emitting? && !s.done && s.subscribers[k].cursor == |s.frames|
    ensures ValidRun(s, [Run(k), Run(k)])
    ensures After(s, [Run(k), Run(k)]) == s.(subscribers := s.subscribers[k := s.subscribers[k].(phase := Asleep)])
  {
    var x := s.subscribers[k];
    var t := s.(subscribers := s.subscribers[k := x.(phase := WantsLock)]);
    var u := s.(subscribers := s.subscribers[k := x.(phase := Asleep)]);
    assert t.subscribers[k := x.(phase := Asleep)] == u.subscribers;
    assert Enabled(s, Run(k)) && Next(s, Run(k)) == t && Enabled(t, Run(k)) && Next(t, Run(k)) == u;
    hide Next, Enabled;
    TwoSteps(s, t, u, Run(k));
  }

  /** A notice wakes everyone who sleeps and touches nobody else. */
  lemma NoticeWakes(s: State)
    requires s.notices > 0
    ensures Next(s, Notify).subscribers == map j | j in s.subscribers ::
      if s.subscribers[j].phase.Asleep? then s.subscribers[j].(phase := Woken) else s.subscribers[j]
  {
  }

  lemma TwoSteps(s: State, t: State, u: State, step: Step)
    requires Enabled(s, step) && Next(s, step) == t && Enabled(t, step) && Next(t, step) == u
    ensures ValidRun(s, [step, step]) && After(s, [step, step]) == u
  {
    hide Next, Enabled;
    assert [step, step][1..] == [step] && [step][1..] == [];
    assert ValidRun(u, []) && After(u, []) == u;
    assert ValidRun(t, [step]) && After(t, [step]) == u;
  }
}
