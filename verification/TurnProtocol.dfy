/** Detached chat turns: the per-chat lock, the runner, its shielded persist task, and aborts.

    Each step is one stretch of code between two suspension points. Cancellation may land on a runner
    at any moment, any number of times; requests are identified by numbers so that two posts on one
    chat stay apart. */
module TurnProtocol {
  import TurnLocks
  import LiveTurns

  type Chat = TurnLocks.Chat
  type TurnId = nat
  type AbortId = nat

  /** The persist task of a turn: `Recorded` is finished with its done-callback still to run. */
  datatype Persist = Unspawned | Recording | Recorded | CallbackRan

  /** Where a turn stands. `Replaying` has released the lock but has not left the database block yet;
      `NeverRan` is a runner cancelled before its first tick. */
  datatype Phase =
    | Preflight
    | Rejected
    | Replaying
    | Replayed
    | ReplayBroken
    | Scheduled(cancelRequested: bool)
    | NeverRan
    | Discarded
    | Streaming
    | Closing
    | Persisting
    | Tail
    | Ended

  /** One turn since it acquired its lock. `releases` counts the calls of `locks.release` made on its
      behalf, `cut` says that a cancellation ended the runner's wait for its persist task early. */
  datatype Turn = Turn(chat: Chat, phase: Phase, persist: Persist, releases: nat, aborted: bool, cut: bool, done: bool)

  datatype State = State(held: set<Chat>, turns: map<TurnId, Turn>, registry: map<Chat, TurnId>, aborts: map<AbortId, TurnId>)

  /** What can happen to one turn. `Cancel` is a cancellation landing on its runner, `Discard` is the
      clean-up an abort does for a runner that never ran. */
  datatype Move =
    | Reject
    | ReplayRelease
    | ReplayReturn
    | ReplayFail
    | Spawn
    | FirstTick
    | Cancel
    | StreamEnd
    | SpawnPersist
    | PersistEnds
    | RunCallback
    | Wake
    | Finish
    | Discard

  datatype Step =
    | Post(t: TurnId, chat: Chat)
    | Do(t: TurnId, move: Move)
    | Reap(t: TurnId)
    | AbortBegin(a: AbortId, chat: Chat)
    | AbortReturn(a: AbortId)

  const INIT := State({}, map[], map[], map[])

  /** A runner task exists for the turn. */
  predicate HasRunner(p: Phase) {
    p.Scheduled? || p.NeverRan? || p.Discarded? || p.Streaming? || p.Closing? || p.Persisting? || p.Tail? || p.Ended?
  }

  /** That task is finished, so that a `gather` on it returns. */
  predicate RunnerOver(p: Phase) {
    p.NeverRan? || p.Discarded? || p.Ended?
  }

  // ----- the life of one turn -----------------------------------------------------------------

  /** The move is possible for a turn that stands at `x`. A discard belongs to an abort. */
  predicate Fits(x: Turn, m: Move) {
    match m
    case Reject | ReplayRelease | Spawn => x.phase.Preflight?
    case ReplayReturn | ReplayFail => x.phase.Replaying?
    case FirstTick => x.phase.Scheduled?
    case Cancel => HasRunner(x.phase)
    case StreamEnd => x.phase.Streaming?
    case SpawnPersist => x.phase.Closing?
    case PersistEnds => x.persist.Recording?
    case RunCallback => x.persist.Recorded?
    case Wake => x.phase.Persisting? && x.persist.CallbackRan?
    case Finish => x.phase.Tail?
    case Discard => x.phase.NeverRan?
  }

  /** What a `CancelledError` does to a runner: nothing more once it is tearing down or emitting its
      last frames, because every await there is shielded or followed by `finish`. */
  function Cancelled(x: Turn): Turn {
    match x.phase
    case Scheduled(_) => x.(phase := Scheduled(true))
    case Streaming => x.(phase := Closing, aborted := true)
    case Persisting => x.(phase := Tail, cut := x.persist != CallbackRan)
    case _ => x
  }

  function Moved(x: Turn, m: Move): Turn
    requires Fits(x, m)
  {
    match m
    case Reject => x.(phase := Rejected)
    case ReplayRelease => x.(phase := Replaying)
    case ReplayReturn => x.(phase := Replayed)
    case ReplayFail => x.(phase := ReplayBroken)
    case Spawn => x.(phase := Scheduled(false))
    case FirstTick => x.(phase := if x.phase.cancelRequested then NeverRan else Streaming)
    case Cancel => Cancelled(x)
    case StreamEnd => x.(phase := Closing)
    case SpawnPersist => x.(phase := Persisting, persist := Recording)
    case PersistEnds => x.(persist := Recorded)
    case RunCallback => x.(persist := CallbackRan)
    case Wake => x.(phase := Tail)
    case Finish => x.(phase := Ended, done := true)
    case Discard => x.(phase := Discarded, done := true)
  }

  /** The move calls `locks.release`. */
  predicate Unlocks(m: Move) {
    m.Reject? || m.ReplayRelease? || m.ReplayFail? || m.RunCallback? || m.Discard?
  }

  /** The moved turn with the call to `locks.release` counted, if there is one. */
  function Counted(x: Turn, m: Move): Turn
    requires Fits(x, m)
  {
    if Unlocks(m) then Moved(x, m).(releases := x.releases + 1) else Moved(x, m)
  }

  // ----- all turns together -------------------------------------------------------------------

  predicate Possible(s: State, t: TurnId, m: Move) {
    t in s.turns && Fits(s.turns[t], m)
  }

  /** A spawn registers the turn, displacing whatever entry its chat had. */
  function Moves(s: State, t: TurnId, m: Move): State
    requires Possible(s, t, m)
  {
    var x := s.turns[t];
    s.(held := if Unlocks(m) then TurnLocks.Freed(s.held, x.chat) else s.held,
       turns := s.turns[t := Counted(x, m)],
       registry := if m.Spawn? then LiveTurns.Registered(s.registry, x.chat, t) else s.registry)
  }

  predicate Enabled(s: State, step: Step) {
    match step
    case Post(t, c) => t !in s.turns && TurnLocks.Grants(s.held, c)
    case Do(t, m) => Possible(s, t, m) && !m.Discard?
    case Reap(t) => t in s.turns && s.turns[t].done
    case AbortBegin(a, c) => a !in s.aborts && c in s.registry && Possible(s, s.registry[c], Cancel) && !s.turns[s.registry[c]].done
    case AbortReturn(a) => a in s.aborts && s.aborts[a] in s.turns && RunnerOver(s.turns[s.aborts[a]].phase)
  }

  /** A returning abort finds the turn done unless its runner never ran. The reaper removes an entry
      only while it is still its own. */
  function Next(s: State, step: Step): State
    requires Enabled(s, step)
  {
    match step
    case Post(t, c) =>
      s.(held := TurnLocks.Acquired(s.held, c), turns := s.turns[t := Turn(c, Preflight, Unspawned, 0, false, false, false)])
    case Do(t, m) => Moves(s, t, m)
    case Reap(t) => s.(registry := LiveTurns.Unregistered(s.registry, s.turns[t].chat, t))
    case AbortBegin(a, c) =>
      Moves(s, s.registry[c], Cancel).(aborts := s.aborts[a := s.registry[c]])
    case AbortReturn(a) =>
      (if Possible(s, s.aborts[a], Discard) then Moves(s, s.aborts[a], Discard) else s).(aborts := s.aborts - {a})
  }

  predicate ValidRun(s: State, run: seq<Step>)
    decreases |run|
  {
    |run| == 0 || (Enabled(s, run[0]) && ValidRun(Next(s, run[0]), run[1..]))
  }

  function After(s: State, run: seq<Step>): State
    requires ValidRun(s, run)
    decreases |run|
  {
    if |run| == 0 then s else After(Next(s, run[0]), run[1..])
  }

  // ----- what every turn keeps ----------------------------------------------------------------

  function ReleasesDue(x: Turn): nat {
    match x.phase
    case Preflight | Scheduled(_) | NeverRan | Streaming | Closing => 0
    case Rejected | Replaying | Replayed | Discarded => 1
    case ReplayBroken => 2
    case Persisting | Tail | Ended => if x.persist == CallbackRan then 1 else 0
  }

  predicate WellFormed(x: Turn) {
    && x.releases == ReleasesDue(x)
    && (x.persist != Unspawned <==> x.phase.Persisting? || x.phase.Tail? || x.phase.Ended?)
    && (x.cut ==> x.phase.Tail? || x.phase.Ended?)
    && ((x.phase.Tail? || x.phase.Ended?) && !x.cut ==> x.persist == CallbackRan)
    && (x.done <==> x.phase.Ended? || x.phase.Discarded?)
  }

  ghost predicate TurnsWellFormed(s: State) {
    forall t :: t in s.turns ==> WellFormed(s.turns[t])
  }

  /** Registry entries and waiting aborts point at turns that have a runner. */
  ghost predicate EntriesFollow(s: State) {
    && (forall c :: c in s.registry ==> s.registry[c] in s.turns && s.turns[s.registry[c]].chat == c && HasRunner(s.turns[s.registry[c]].phase))
    && (forall a :: a in s.aborts ==> s.aborts[a] in s.turns && HasRunner(s.turns[s.aborts[a]].phase))
  }

  /** Facts about turns that do not look at the lock set. */
  ghost predicate Books(s: State) {
    TurnsWellFormed(s) && EntriesFollow(s)
  }

  lemma TurnMoves(x: Turn, m: Move)
    requires WellFormed(x) && Fits(x, m)
    ensures WellFormed(Counted(x, m))
    ensures Counted(x, m).chat == x.chat
    ensures HasRunner(x.phase) || m.Spawn? ==> HasRunner(Counted(x, m).phase)
  {
  }

  lemma NewTurn(c: Chat)
    ensures WellFormed(Turn(c, Preflight, Unspawned, 0, false, false, false))
  {
  }

  lemma BooksMove(s: State, t: TurnId, m: Move)
    requires Books(s) && Possible(s, t, m)
    ensures Books(Moves(s, t, m)) && t in Moves(s, t, m).turns && Moves(s, t, m).aborts == s.aborts
    ensures HasRunner(s.turns[t].phase) ==> HasRunner(Moves(s, t, m).turns[t].phase)
  {
    TurnMoves(s.turns[t], m);
    hide Counted, WellFormed, HasRunner, Unlocks, Fits;
  }

  lemma BooksStep(s: State, step: Step)
    requires Books(s) && Enabled(s, step)
    ensures Books(Next(s, step))
  {
    hide Moves, WellFormed, Fits;
    match step
    case Post(_, _) => NewTurn(step.chat);
    case Do(t, m) => BooksMove(s, t, m);
    case Reap(_) =>
    case AbortBegin(_, c) => BooksMove(s, s.registry[c], Cancel);
    case AbortReturn(a) => if Possible(s, s.aborts[a], Discard) { BooksMove(s, s.aborts[a], Discard); }
  }

  lemma {:induction false} BooksRun(s: State, run: seq<Step>)
    requires Books(s) && ValidRun(s, run)
    ensures Books(After(s, run))
    decreases |run|
  {
    if |run| > 0 {
      BooksStep(s, run[0]);
      BooksRun(Next(s, run[0]), run[1..]);
    }
  }

  /** The turn is between its acquire and its first release. */
  predicate Owns(s: State, t: TurnId, c: Chat) {
    t in s.turns && s.turns[t].chat == c && s.turns[t].releases == 0
  }

  /** The lock set is exact: a chat is held while exactly one of its turns is between acquire and
      release, and no other chat is held. */
  ghost predicate LocksExact(s: State) {
    && (forall c :: c in s.held ==> exists t :: Owns(s, t, c))
    && (forall t, c :: Owns(s, t, c) ==> c in s.held)
    && (forall t, u, c :: Owns(s, t, c) && Owns(s, u, c) ==> t == u)
  }

  /** A runner that still owes its release is the one an abort finds. */
  ghost predicate OwnersRegistered(s: State) {
    forall t, c :: Owns(s, t, c) && HasRunner(s.turns[t].phase) && !s.turns[t].done ==> c in s.registry && s.registry[c] == t
  }

  ghost predicate Inv(s: State) {
    Books(s) && LocksExact(s) && OwnersRegistered(s)
  }

  /** A replay that fails on its way out calls release a second time; that is harmless exactly when
      nobody has taken the lock since the first call. */
  predicate Clean(s: State, step: Step) {
    step.Do? && step.move.ReplayFail? && step.t in s.turns ==> s.turns[step.t].chat !in s.held
  }

  /** A move that unlocks is made by a turn that has not released yet; only the failing replay has. */
  lemma ReleasesMove(x: Turn, m: Move)
    requires WellFormed(x) && Fits(x, m)
    ensures Counted(x, m).chat == x.chat
    ensures m.ReplayFail? ==> x.releases == 1
    ensures Unlocks(m) && !m.ReplayFail? ==> x.releases == 0
    ensures Counted(x, m).releases == if Unlocks(m) then x.releases + 1 else x.releases
    ensures HasRunner(Counted(x, m).phase) ==> HasRunner(x.phase) || m.Spawn?
    ensures x.done ==> Counted(x, m).done
  {
  }

  lemma LocksMove(s: State, t: TurnId, m: Move)
    requires TurnsWellFormed(s) && LocksExact(s) && Possible(s, t, m)
    ensures LocksExact(Moves(s, t, m)) <==> (m.ReplayFail? ==> s.turns[t].chat !in s.held)
  {
    ReleasesMove(s.turns[t], m);
    var n := Moves(s, t, m);
    var c := s.turns[t].chat;
    hide WellFormed, Counted, Fits;
    assert forall u, d :: u != t ==> (Owns(n, u, d) <==> Owns(s, u, d));
    if m.ReplayFail? && c in s.held {
      var u :| Owns(s, u, c);
      assert u != t;
      assert Owns(n, u, c) && c !in n.held;
    } else {
      forall d | d in n.held ensures exists u :: Owns(n, u, d) {
        var u :| Owns(s, u, d);
        assert Owns(n, u, d);
      }
      assert forall d :: Owns(n, t, d) ==> Owns(s, t, d) && !Unlocks(m);
      assert Unlocks(m) && !m.ReplayFail? ==> Owns(s, t, c);
    }
  }

  lemma RegisteredMove(s: State, t: TurnId, m: Move)
    requires Books(s) && LocksExact(s) && OwnersRegistered(s) && Possible(s, t, m)
    ensures OwnersRegistered(Moves(s, t, m))
  {
    ReleasesMove(s.turns[t], m);
    var n := Moves(s, t, m);
    hide WellFormed, Counted, Fits, HasRunner;
    forall u, d | Owns(n, u, d) && HasRunner(n.turns[u].phase) && !n.turns[u].done ensures d in n.registry && n.registry[d] == u {
      assert Owns(s, u, d);
      assert Owns(s, t, s.turns[t].chat) <==> s.turns[t].releases == 0;
    }
  }

  lemma PostKeeps(s: State, t: TurnId, c: Chat)
    requires Inv(s) && t !in s.turns && c !in s.held
    ensures Inv(Next(s, Post(t, c)))
  {
    BooksStep(s, Post(t, c));
    var n := Next(s, Post(t, c));
    hide Books;
    assert forall u, d :: u != t ==> (Owns(n, u, d) <==> Owns(s, u, d));
    forall d | d in n.held ensures exists u :: Owns(n, u, d) {
      if d == c {
        assert Owns(n, t, c);
      } else {
        var u :| Owns(s, u, d);
        assert Owns(n, u, d);
      }
    }
  }

  /** One step keeps the invariant exactly when it is not a second release of a lock in use. */
  lemma InvStep(s: State, step: Step)
    requires Inv(s) && Enabled(s, step)
    ensures LocksExact(Next(s, step)) <==> Clean(s, step)
    ensures Clean(s, step) ==> Inv(Next(s, step))
  {
    BooksStep(s, step);
    match step
    case Post(t, c) => PostKeeps(s, t, c);
    case Do(t, m) =>
      LocksMove(s, t, m);
      RegisteredMove(s, t, m);
    case Reap(t) => 
      assert forall u, d :: Owns(Next(s, step), u, d) <==> Owns(s, u, d);
    case AbortBegin(a, c) =>
      LocksMove(s, s.registry[c], Cancel);
      RegisteredMove(s, s.registry[c], Cancel);
      assert forall u, d :: Owns(Next(s, step), u, d) <==> Owns(Moves(s, s.registry[c], Cancel), u, d);
    case AbortReturn(a) =>
      if Possible(s, s.aborts[a], Discard) {
        LocksMove(s, s.aborts[a], Discard);
        RegisteredMove(s, s.aborts[a], Discard);
        assert forall u, d :: Owns(Next(s, step), u, d) <==> Owns(Moves(s, s.aborts[a], Discard), u, d);
      } else {
        assert forall u, d :: Owns(Next(s, step), u, d) <==> Owns(s, u, d);
      }
  }

  // ----- exclusion over whole runs ------------------------------------------------------------

  predicate CleanRun(s: State, run: seq<Step>)
    requires ValidRun(s, run)
    decreases |run|
  {
    |run| == 0 || (Clean(s, run[0]) && CleanRun(Next(s, run[0]), run[1..]))
  }

  /** The lock set is exact in every state the run passes through. */
  ghost predicate LocksExactAlong(s: State, run: seq<Step>)
    requires ValidRun(s, run)
    decreases |run|
  {
    LocksExact(s) && (|run| > 0 ==> LocksExactAlong(Next(s, run[0]), run[1..]))
  }

  lemma {:induction false} InvRun(s: State, run: seq<Step>)
    requires Inv(s) && ValidRun(s, run)
    ensures LocksExactAlong(s, run) <==> CleanRun(s, run)
    ensures CleanRun(s, run) ==> Inv(After(s, run))
    decreases |run|
  {
    hide Inv, LocksExact, Clean, Next, Enabled;
    InvExact(s);
    if |run| > 0 {
      InvStep(s, run[0]);
      var n := Next(s, run[0]);
      if Clean(s, run[0]) {
        InvRun(n, run[1..]);
      }
    }
  }

  lemma InvExact(s: State)
    requires Inv(s)
    ensures LocksExact(s)
  {
  }

  /** The turn has acquired its lock and its answer is not on record yet. */
  predicate InFlight(x: Turn) {
    x.phase.Preflight? || x.phase.Scheduled? || x.phase.Streaming? || x.phase.Closing? || x.persist.Recording?
  }

  /** Over every run: a chat is locked exactly while one of its turns is between acquire and release
      if and only if no replay released a second time onto somebody else's lock; and then two turns of
      one chat are never both in flight. */
  lemma OneTurnPerChat(run: seq<Step>)
    requires ValidRun(INIT, run)
    ensures LocksExactAlong(INIT, run) <==> CleanRun(INIT, run)
    ensures CleanRun(INIT, run) ==>
      var turns := After(INIT, run).turns;
      forall t, u :: t in turns && u in turns && t != u && turns[t].chat == turns[u].chat ==> !(InFlight(turns[t]) && InFlight(turns[u]))
  {
    InvRun(INIT, run);
    if CleanRun(INIT, run) {
      var s := After(INIT, run);
      hide ValidRun, After, CleanRun, LocksExactAlong;
      forall t, u | t in s.turns && u in s.turns && t != u && s.turns[t].chat == s.turns[u].chat
        ensures !(InFlight(s.turns[t]) && InFlight(s.turns[u]))
      {
        InFlightOwns(s.turns[t]);
        InFlightOwns(s.turns[u]);
        assert Owns(s, t, s.turns[t].chat) && Owns(s, u, s.turns[t].chat) ==> t == u;
      }
    }
  }

  lemma InFlightOwns(x: Turn)
    requires WellFormed(x)
    ensures InFlight(x) ==> x.releases == 0
  {
  }

  /** Nothing is left to happen that could release the lock of this turn. */
  predicate Settled(x: Turn) {
    x.phase.Rejected? || x.phase.Replayed? || x.phase.ReplayBroken? || x.phase.Discarded? || (x.phase.Ended? && x.persist.CallbackRan?)
  }

  /** Over every run, clean or not: each acquire is released once, by a failed replay twice; a runner
      that started streaming is released only after its persist task ended; a settled turn has been
      released, and with every turn settled no lock stays behind. */
  lemma ReleasedOnce(run: seq<Step>, t: TurnId)
    requires ValidRun(INIT, run) && t in After(INIT, run).turns
    ensures var x := After(INIT, run).turns[t];
      && (x.releases <= 2 && (x.releases == 2 <==> x.phase.ReplayBroken?))
      && (HasRunner(x.phase) && x.releases > 0 ==> x.phase.Discarded? || x.persist == CallbackRan)
      && (Settled(x) ==> x.releases > 0)
    ensures CleanRun(INIT, run) && (forall u :: u in After(INIT, run).turns ==> Settled(After(INIT, run).turns[u]))
      ==> After(INIT, run).held == {}
  {
    BooksRun(INIT, run);
    InvRun(INIT, run);
    var s := After(INIT, run);
    hide ValidRun, After, CleanRun, LocksExactAlong, HasRunner;
    assert WellFormed(s.turns[t]);
    if Inv(s) {
      AllSettledFree(s);
    }
  }

  lemma AllSettledFree(s: State)
    requires Inv(s)
    ensures (forall u :: u in s.turns ==> Settled(s.turns[u])) ==> s.held == {}
  {
    if c :| c in s.held {
      var u :| Owns(s, u, c);
      assert WellFormed(s.turns[u]) && !Settled(s.turns[u]);
    }
  }

  // ----- aborts -------------------------------------------------------------------------------

  /** The step lands a cancellation on the runner of `t` while it waits for a persist task whose
      callback has not run. */
  predicate CutsNow(s: State, step: Step, t: TurnId)
    requires Enabled(s, step)
  {
    Lands(s, step, t) && t in s.turns && s.turns[t].phase.Persisting? && s.turns[t].persist != CallbackRan
  }

  predicate CutDuring(s: State, run: seq<Step>, t: TurnId)
    requires ValidRun(s, run)
    decreases |run|
  {
    |run| > 0 && (CutsNow(s, run[0], t) || CutDuring(Next(s, run[0]), run[1..], t))
  }

  predicate IsCut(s: State, t: TurnId) {
    t in s.turns && s.turns[t].cut
  }

  lemma CutMove(x: Turn, m: Move)
    requires WellFormed(x) && Fits(x, m)
    ensures Counted(x, m).cut <==> x.cut || (m.Cancel? && x.phase.Persisting? && x.persist != CallbackRan)
  {
  }

  lemma CutStep(s: State, step: Step, t: TurnId)
    requires Books(s) && Enabled(s, step)
    ensures IsCut(Next(s, step), t) <==> IsCut(s, t) || CutsNow(s, step, t)
  {
    hide WellFormed, Counted, HasRunner, Fits;
    match step
    case Post(_, _) =>
    case Do(u, m) => CutMove(s.turns[u], m);
    case Reap(_) =>
    case AbortBegin(_, c) => CutMove(s.turns[s.registry[c]], Cancel);
    case AbortReturn(a) => if Possible(s, s.aborts[a], Discard) { CutMove(s.turns[s.aborts[a]], Discard); }
  }

  lemma {:induction false} CutHistory(s: State, run: seq<Step>, t: TurnId)
    requires Books(s) && ValidRun(s, run)
    ensures IsCut(After(s, run), t) <==> IsCut(s, t) || CutDuring(s, run, t)
    decreases |run|
  {
    hide Books, IsCut, CutsNow, Next, Enabled;
    if |run| > 0 {
      BooksStep(s, run[0]);
      CutStep(s, run[0], t);
      CutHistory(Next(s, run[0]), run[1..], t);
    }
  }

  /** What an abort may conclude when it returns: its turn is done, and its lock has been released
      unless a cancellation cut the runner's wait short and the persist task is still out. */
  lemma AbortReturnExact(run: seq<Step>, a: AbortId)
    requires ValidRun(INIT, run) && Enabled(After(INIT, run), AbortReturn(a))
    ensures var s := After(INIT, run);
      var t := s.aborts[a];
      var x := Next(s, AbortReturn(a)).turns[t];
      && x.done
      && (x.releases == 0 <==> CutDuring(INIT, run, t) && s.turns[t].persist != CallbackRan)
      && (x.phase.Ended? && !CutDuring(INIT, run, t) ==> x.persist == CallbackRan)
      && (CleanRun(INIT, run) && x.releases == 0 ==> x.chat in Next(s, AbortReturn(a)).held)
  {
    BooksRun(INIT, run);
    InvRun(INIT, run);
    var s := After(INIT, run);
    var t := s.aborts[a];
    CutHistory(INIT, run, t);
    AbortReturnStep(s, a, CutDuring(INIT, run, t), CleanRun(INIT, run));
  }

  lemma AbortReturnStep(s: State, a: AbortId, cut: bool, clean: bool)
    requires Books(s) && Enabled(s, AbortReturn(a)) && (cut <==> IsCut(s, s.aborts[a])) && (clean ==> Inv(s))
    ensures var t := s.aborts[a];
      var x := Next(s, AbortReturn(a)).turns[t];
      && x.done
      && (x.releases == 0 <==> cut && s.turns[t].persist != CallbackRan)
      && (x.phase.Ended? && !cut ==> x.persist == CallbackRan)
      && (clean && x.releases == 0 ==> x.chat in Next(s, AbortReturn(a)).held)
  {
    var t := s.aborts[a];
    assert WellFormed(s.turns[t]);
    assert clean && s.turns[t].releases == 0 ==> Owns(s, t, s.turns[t].chat);
  }

  // ----- what a cancellation does -----------------------------------------------------------------

  /** The step lands a cancellation on the runner of `t`. */
  predicate Lands(s: State, step: Step, t: TurnId)
    requires Enabled(s, step)
  {
    step == Do(t, Cancel) || (step.AbortBegin? && s.registry[step.chat] == t)
  }

  predicate HitsStream(s: State, step: Step, t: TurnId)
    requires Enabled(s, step)
  {
    Lands(s, step, t) && t in s.turns && s.turns[t].phase == Streaming
  }

  predicate HitDuring(s: State, run: seq<Step>, t: TurnId)
    requires ValidRun(s, run)
    decreases |run|
  {
    |run| > 0 && (HitsStream(s, run[0], t) || HitDuring(Next(s, run[0]), run[1..], t))
  }

  predicate IsAborted(s: State, t: TurnId) {
    t in s.turns && s.turns[t].aborted
  }

  lemma AbortedStep(s: State, step: Step, t: TurnId)
    requires Books(s) && Enabled(s, step)
    ensures IsAborted(Next(s, step), t) <==> IsAborted(s, t) || HitsStream(s, step, t)
  {
    hide WellFormed, Counted, HasRunner, Fits;
    match step
    case Post(_, _) =>
    case Do(u, m) => AbortedMove(s.turns[u], m);
    case Reap(_) =>
    case AbortBegin(_, c) => AbortedMove(s.turns[s.registry[c]], Cancel);
    case AbortReturn(a) => if Possible(s, s.aborts[a], Discard) { AbortedMove(s.turns[s.aborts[a]], Discard); }
  }

  lemma AbortedMove(x: Turn, m: Move)
    requires Fits(x, m)
    ensures Counted(x, m).aborted <==> x.aborted || (m.Cancel? && x.phase == Streaming)
  {
  }

  lemma {:induction false} AbortedHistory(s: State, run: seq<Step>, t: TurnId)
    requires Books(s) && ValidRun(s, run)
    ensures IsAborted(After(s, run), t) <==> IsAborted(s, t) || HitDuring(s, run, t)
    decreases |run|
  {
    hide Books, IsAborted, HitsStream, Next, Enabled;
    if |run| > 0 {
      BooksStep(s, run[0]);
      AbortedStep(s, run[0], t);
      AbortedHistory(Next(s, run[0]), run[1..], t);
    }
  }

  /** Over every run, a turn is recorded as aborted exactly when a cancellation landed on it while it was
      streaming. */
  lemma AbortedExactly(run: seq<Step>, t: TurnId)
    requires ValidRun(INIT, run) && t in After(INIT, run).turns
    ensures After(INIT, run).turns[t].aborted <==> HitDuring(INIT, run, t)
  {
    AbortedHistory(INIT, run, t);
  }

  /** The runner has taken its cancellation in: it neither streams nor waits to start streaming. */
  predicate Landed(x: Turn) {
    !x.phase.Streaming? && (x.phase.Scheduled? ==> x.phase.cancelRequested)
  }

  ghost predicate AbortsLanded(s: State) {
    forall a :: a in s.aborts ==> s.aborts[a] in s.turns && HasRunner(s.turns[s.aborts[a]].phase) && Landed(s.turns[s.aborts[a]])
  }

  lemma LandedMove(x: Turn, m: Move)
    requires Fits(x, m)
    ensures HasRunner(x.phase) && (Landed(x) || m.Cancel?) ==> HasRunner(Counted(x, m).phase) && Landed(Counted(x, m))
  {
  }

  lemma AbortsLandedStep(s: State, step: Step)
    requires AbortsLanded(s) && Enabled(s, step)
    ensures AbortsLanded(Next(s, step))
  {
    match step
    case Post(_, _) =>
    case Do(t, m) => LandedMove(s.turns[t], m);
    case Reap(_) =>
    case AbortBegin(_, c) => LandedMove(s.turns[s.registry[c]], Cancel);
    case AbortReturn(a) => if Possible(s, s.aborts[a], Discard) { LandedMove(s.turns[s.aborts[a]], Discard); }
    hide Counted, HasRunner, Landed, Unlocks, Fits;
  }

  lemma {:induction false} AbortsLandedRun(s: State, run: seq<Step>)
    requires AbortsLanded(s) && ValidRun(s, run)
    ensures AbortsLanded(After(s, run))
    decreases |run|
  {
    hide AbortsLanded, Next, Enabled;
    if |run| > 0 {
      AbortsLandedStep(s, run[0]);
      AbortsLandedRun(Next(s, run[0]), run[1..]);
    }
  }

  /** The rest of a cancelled runner's way, whatever the engine does: the end of the stream is not on it. */
  function WayOut(x: Turn): seq<Move> {
    match x.phase
    case Scheduled(_) => [FirstTick]
    case Closing => [SpawnPersist, PersistEnds, RunCallback, Wake, Finish]
    case Persisting =>
      (match x.persist
       case Recording => [PersistEnds, RunCallback, Wake, Finish]
       case Recorded => [RunCallback, Wake, Finish]
       case _ => [Wake, Finish])
    case Tail => [Finish]
    case _ => []
  }

  predicate Plays(x: Turn, moves: seq<Move>)
    decreases |moves|
  {
    |moves| == 0 || (Fits(x, moves[0]) && !moves[0].Discard? && Plays(Counted(x, moves[0]), moves[1..]))
  }

  function Played(x: Turn, moves: seq<Move>): Turn
    requires Plays(x, moves)
    decreases |moves|
  {
    if |moves| == 0 then x else Played(Counted(x, moves[0]), moves[1..])
  }

  function Steps(t: TurnId, moves: seq<Move>): seq<Step> {
    if |moves| == 0 then [] else [Do(t, moves[0])] + Steps(t, moves[1..])
  }

  lemma {:induction false} PlayRun(s: State, t: TurnId, moves: seq<Move>)
    requires t in s.turns && Plays(s.turns[t], moves)
    ensures ValidRun(s, Steps(t, moves))
    ensures var n := After(s, Steps(t, moves));
      t in n.turns && n.turns[t] == Played(s.turns[t], moves) && n.aborts == s.aborts
    ensures forall step :: step in Steps(t, moves) ==> step.Do? && step.t == t && step.move in moves
    decreases |moves|
  {
    if |moves| > 0 {
      var n := Next(s, Do(t, moves[0]));
      PlayRun(n, t, moves[1..]);
      assert Steps(t, moves)[1..] == Steps(t, moves[1..]);
      assert moves == [moves[0]] + moves[1..];
      hide Counted, Fits;
    }
  }

  lemma PlayTwo(x: Turn, m: Move, rest: seq<Move>)
    requires Fits(x, m) && !m.Discard? && Plays(Counted(x, m), rest)
    ensures Plays(x, [m] + rest) && Played(x, [m] + rest) == Played(Counted(x, m), rest)
  {
    assert ([m] + rest)[1..] == rest;
  }

  lemma PlayedOut(x: Turn)
    requires WellFormed(x) && HasRunner(x.phase) && Landed(x)
    ensures Plays(x, WayOut(x)) && RunnerOver(Played(x, WayOut(x)).phase) && StreamEnd !in WayOut(x)
    decreases if x.phase.Closing? then 6 else if x.phase.Tail? then 1 else if x.phase.Persisting? then 5 - (match x.persist case Unspawned => 0 case Recording => 0 case Recorded => 1 case CallbackRan => 2) else if x.phase.Scheduled? then 1 else 0
  {
    if WayOut(x) != [] {
      var m := WayOut(x)[0];
      var y := Counted(x, m);
      assert Fits(x, m);
      assert WellFormed(y) && HasRunner(y.phase) && Landed(y);
      assert WayOut(x) == [m] + WayOut(y);
      PlayedOut(y);
      PlayTwo(x, m, WayOut(y));
    }
  }

  lemma AbortEndsFrom(s: State, a: AbortId)
    requires Books(s) && AbortsLanded(s) && a in s.aborts
    ensures var t := s.aborts[a];
      && t in s.turns
      && var rest := Steps(t, WayOut(s.turns[t]));
      && (forall step :: step in rest ==> step.Do? && step.t == t && step.move != StreamEnd && step.move != Cancel)
      && ValidRun(s, rest) && Enabled(After(s, rest), AbortReturn(a))
  {
    var t := s.aborts[a];
    assert WellFormed(s.turns[t]);
    PlayedOut(s.turns[t]);
    PlayRun(s, t, WayOut(s.turns[t]));
    assert Cancel !in WayOut(s.turns[t]);
    hide ValidRun, After, Played, Plays, Steps, Books, AbortsLanded, WellFormed, WayOut;
  }

  /** From every reachable state in which an abort waits, its runner comes to its end by its own steps, none
      of them the end of the stream, and then the abort can return. */
  lemma AbortEnds(run: seq<Step>, a: AbortId)
    requires ValidRun(INIT, run) && a in After(INIT, run).aborts
    ensures var s := After(INIT, run);
      var t := s.aborts[a];
      && t in s.turns
      && var rest := Steps(t, WayOut(s.turns[t]));
      && (forall step :: step in rest ==> step.Do? && step.t == t && step.move != StreamEnd && step.move != Cancel)
      && ValidRun(s, rest) && Enabled(After(s, rest), AbortReturn(a))
  {
    BooksRun(INIT, run);
    AbortsLandedRun(INIT, run);
    AbortEndsFrom(After(INIT, run), a);
    hide ValidRun, After, Steps, WayOut, Enabled;
  }

  /** A turn that holds its lock behind an unfinished runner can always be aborted, and if that runner
      never ran, the abort that returns frees the chat. */
  lemma OwnerCanBeAborted(s: State, t: TurnId, a: AbortId)
    requires Inv(s) && t in s.turns && HasRunner(s.turns[t].phase) && !s.turns[t].done && s.turns[t].releases == 0 && a !in s.aborts
    ensures var c := s.turns[t].chat;
      && Enabled(s, AbortBegin(a, c))
      && Next(s, AbortBegin(a, c)).aborts[a] == t
      && (s.turns[t].phase.NeverRan? ==>
            var n := Next(s, AbortBegin(a, c));
            Enabled(n, AbortReturn(a)) && c !in Next(n, AbortReturn(a)).held)
  {
    assert Owns(s, t, s.turns[t].chat);
  }

  /** The entry a new turn displaces in the registry is not always finished, but its lock was released:
      either it is done, or its persist task is and the runner is on its last frames. */
  lemma DisplacedHasRecorded(s: State, t: TurnId)
    requires Inv(s) && Possible(s, t, Spawn) && s.turns[t].chat in s.registry
    ensures var x := s.turns[s.registry[s.turns[t].chat]];
      x.releases > 0 && (!x.done ==> (x.phase.Persisting? || x.phase.Tail?) && x.persist == CallbackRan)
  {
    var c := s.turns[t].chat;
    var u := s.registry[c];
    assert WellFormed(s.turns[t]) && WellFormed(s.turns[u]);
    assert Owns(s, t, c);
    assert u != t && !Owns(s, u, c);
  }

  /** The runner is between its persist task's callback, which released the lock, and its finish. The
      event loop queues its wake-up right behind that callback, and nothing in between suspends. */
  predicate OnLastStretch(x: Turn) {
    !x.done && (x.phase.Persisting? || x.phase.Tail?) && x.persist == CallbackRan
  }

  /** The entry a spawn displaces, if the step is one that displaces any. */
  predicate Displaces(s: State, step: Step) {
    step.Do? && step.move.Spawn? && step.t in s.turns && s.turns[step.t].chat in s.registry
    && s.registry[s.turns[step.t].chat] in s.turns
  }

  /** The spawn comes after the last stretch of the runner it displaces. */
  predicate InOrder(s: State, step: Step) {
    Displaces(s, step) ==> !OnLastStretch(s.turns[s.registry[s.turns[step.t].chat]])
  }

  predicate DisplacesFinished(s: State, step: Step) {
    Displaces(s, step) ==> s.turns[s.registry[s.turns[step.t].chat]].done
  }

  predicate InOrderAlong(s: State, run: seq<Step>)
    requires ValidRun(s, run)
    decreases |run|
  {
    |run| == 0 || (InOrder(s, run[0]) && InOrderAlong(Next(s, run[0]), run[1..]))
  }

  predicate DisplacesFinishedAlong(s: State, run: seq<Step>)
    requires ValidRun(s, run)
    decreases |run|
  {
    |run| == 0 || (DisplacesFinished(s, run[0]) && DisplacesFinishedAlong(Next(s, run[0]), run[1..]))
  }

  lemma OrderStep(s: State, step: Step)
    requires Inv(s) && Enabled(s, step)
    ensures InOrder(s, step) <==> DisplacesFinished(s, step)
  {
    hide Fits, HasRunner, LocksExact, OwnersRegistered;
    if Displaces(s, step) {
      var u := s.registry[s.turns[step.t].chat];
      assert WellFormed(s.turns[u]);
      OrderMove(s, step.t);
    }
  }

  lemma OrderMove(s: State, t: TurnId)
    requires Inv(s) && Possible(s, t, Spawn) && s.turns[t].chat in s.registry
    ensures var x := s.turns[s.registry[s.turns[t].chat]]; x.done <==> !OnLastStretch(x)
  {
    DisplacedHasRecorded(s, t);
  }

  lemma {:induction false} OrderRun(s: State, run: seq<Step>)
    requires Inv(s) && ValidRun(s, run) && CleanRun(s, run)
    ensures InOrderAlong(s, run) <==> DisplacesFinishedAlong(s, run)
    decreases |run|
  {
    hide Inv, Next, Enabled, Clean, InOrder, DisplacesFinished;
    if |run| > 0 {
      InvStep(s, run[0]);
      OrderStep(s, run[0]);
      OrderRun(Next(s, run[0]), run[1..]);
    }
  }

  /** The lock alone does not make every displaced entry a finished one; the order of scheduling does. Over
      every clean run, each spawn displaces a finished turn if and only if each comes after the last
      stretch of the runner it displaces. */
  lemma OrderKeepsDisplacedFinished(run: seq<Step>)
    requires ValidRun(INIT, run) && CleanRun(INIT, run)
    ensures InOrderAlong(INIT, run) <==> DisplacesFinishedAlong(INIT, run)
  {
    OrderRun(INIT, run);
  }

  /** The reaper leaves no entry for its turn, and every other entry alone. */
  lemma ReapedIsGone(s: State, t: TurnId, c: Chat)
    requires Books(s) && Enabled(s, Reap(t))
    ensures var n := Next(s, Reap(t));
      && (c in n.registry <==> c in s.registry && s.registry[c] != t)
      && (c in n.registry ==> n.registry[c] == s.registry[c])
      && n.held == s.held && n.turns == s.turns && n.aborts == s.aborts
  {
  }

  // ----- runs that show where the promises stop -----------------------------------------------

  lemma {:induction false} Extend(s: State, run: seq<Step>, step: Step)
    requires ValidRun(s, run) && Enabled(After(s, run), step)
    ensures ValidRun(s, run + [step]) && After(s, run + [step]) == Next(After(s, run), step)
    ensures CleanRun(s, run + [step]) <==> CleanRun(s, run) && Clean(After(s, run), step)
    decreases |run|
  {
    if |run| == 0 {
      assert run + [step] == [step];
      assert ValidRun(Next(s, step), [step][1..]);
    } else {
      Extend(Next(s, run[0]), run[1..], step);
      assert (run + [step])[1..] == run[1..] + [step];
    }
  }

  lemma Extend3(run: seq<Step>, x: Step, y: Step, z: Step) returns (longer: seq<Step>)
    requires ValidRun(INIT, run)
    requires var s := After(INIT, run);
      Enabled(s, x) && Enabled(Next(s, x), y) && Enabled(Next(Next(s, x), y), z)
    ensures longer == run + [x, y, z] && ValidRun(INIT, longer)
    ensures After(INIT, longer) == Next(Next(Next(After(INIT, run), x), y), z)
    ensures CleanRun(INIT, run) && !ReplayFails(x) && !ReplayFails(y) && !ReplayFails(z) ==> CleanRun(INIT, longer)
  {
    Extend(INIT, run, x);
    Extend(INIT, run + [x], y);
    Extend(INIT, run + [x] + [y], z);
    longer := run + [x] + [y] + [z];
  }

  predicate ReplayFails(step: Step) {
    step.Do? && step.move.ReplayFail?
  }

  /** A runner that is waiting for its persist task, and nothing else has happened. */
  lemma StreamedOnce(c: Chat) returns (run: seq<Step>)
    ensures ValidRun(INIT, run) && CleanRun(INIT, run)
    ensures After(INIT, run) == State({c}, map[0 := Turn(c, Persisting, Recording, 0, false, false, false)], map[c := 0], map[])
  {
    run := Extend3([], Post(0, c), Do(0, Spawn), Do(0, FirstTick));
    Extend(INIT, run, Do(0, StreamEnd));
    run := run + [Do(0, StreamEnd)];
    Extend(INIT, run, Do(0, SpawnPersist));
    run := run + [Do(0, SpawnPersist)];
  }

  /** An abort that arrives while a finished stream is being recorded returns with the lock held. */
  lemma AbortCanReturnLocked(c: Chat, a: AbortId) returns (run: seq<Step>)
    ensures ValidRun(INIT, run) && CleanRun(INIT, run) && Enabled(After(INIT, run), AbortReturn(a))
    ensures var n := Next(After(INIT, run), AbortReturn(a));
      c in n.held && 0 in n.turns && n.turns[0].done && n.turns[0].persist == Recording && !Enabled(n, Post(1, c))
  {
    run := StreamedOnce(c);
    Extend(INIT, run, AbortBegin(a, c));
    run := run + [AbortBegin(a, c)];
    Extend(INIT, run, Do(0, Finish));
    run := run + [Do(0, Finish)];
  }

  /** What the lock alone would let happen: a new turn, here posted right after the release, displaces an
      entry on its last stretch. The event loop's order rules this run out. */
  lemma LockAloneLetsUnfinishedBeDisplaced(c: Chat) returns (run: seq<Step>)
    ensures ValidRun(INIT, run) && CleanRun(INIT, run) && Possible(After(INIT, run), 1, Spawn)
    ensures !InOrder(After(INIT, run), Do(1, Spawn)) && !DisplacesFinished(After(INIT, run), Do(1, Spawn))
  {
    run := StreamedOnce(c);
    run := Extend3(run, Do(0, PersistEnds), Do(0, RunCallback), Post(1, c));
  }

  /** A replay that is cancelled between its release and its return frees the lock of a later turn, and
      then two turns of one chat are in flight at once. */
  lemma FailedReplayBreaksExclusion(c: Chat) returns (run: seq<Step>)
    ensures ValidRun(INIT, run) && !CleanRun(INIT, run)
    ensures var s := After(INIT, run);
      1 in s.turns && 2 in s.turns && s.turns[1].chat == s.turns[2].chat == c && InFlight(s.turns[1]) && InFlight(s.turns[2])
  {
    run := Extend3([], Post(0, c), Do(0, ReplayRelease), Post(1, c));
    Extend(INIT, run, Do(0, ReplayFail));
    run := run + [Do(0, ReplayFail)];
    Extend(INIT, run, Post(2, c));
    run := run + [Post(2, c)];
  }
}
