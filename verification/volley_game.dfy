/** The `useVolleyGame` hook: the current match state next to the stack of
    snapshots that `undo` walks back through. Game-logic changes go through
    `UpdateState`, which keeps at most 10 snapshots; timeouts push without that
    cap; side, service and name changes touch the state only. */
module VolleyGame {
  import opened Wrappers
  import opened Types
  import opened Constants
  import opened Score

  /** The most snapshots `updateState` keeps. */
  const MaxUndoDepth: nat := 10

  /** The hook's two pieces of React state. */
  datatype Engine = Engine(state: GameState, stack: seq<GameState>)

  /** The engine at mount time, before anything is loaded. */
  const InitialEngine: Engine := Engine(InitialState, [InitialState])

  /** Start-up: a saved state is adopted (as the only snapshot) only when it
      parsed and carries a configuration; `saved` is None for a missing,
      unparsable or configuration-less blob. */
  function Load(saved: Option<GameState>): (e: Engine)
    ensures saved.None? ==> e == InitialEngine
    ensures saved.Some? ==> e.state == saved.value && e.stack == [saved.value]
  {
    match saved
    case None => InitialEngine
    case Some(s) => Engine(s, [s])
  }

  /** `updateState`: the new state becomes current and is pushed; when the
      stack would exceed 10 entries the oldest one is dropped. */
  function UpdateState(e: Engine, newState: GameState): (r: Engine)
    ensures r.state == newState
    ensures r.stack == (if |e.stack| < MaxUndoDepth then e.stack else e.stack[1..]) + [newState]
    ensures |r.stack| == if |e.stack| < MaxUndoDepth then |e.stack| + 1 else |e.stack|
  {
    var pushed := e.stack + [newState];
    if |pushed| > MaxUndoDepth then
      assert pushed[1..] == e.stack[1..] + [newState];
      Engine(newState, pushed[1..])
    else Engine(newState, pushed)
  }

  /** `undo`: with one snapshot or fewer nothing happens; otherwise the current
      snapshot is dropped and the one below it becomes the state. */
  function Undo(e: Engine): (r: Engine)
    ensures |e.stack| <= 1 ==> r == e
    ensures |e.stack| > 1 ==> r.stack == e.stack[..|e.stack| - 1] && r.state == e.stack[|e.stack| - 2]
  {
    if |e.stack| <= 1 then e
    else
      var popped := e.stack[..|e.stack| - 1];
      Engine(popped[|popped| - 1], popped)
  }

  /** `canUndo` */
  predicate CanUndo(e: Engine) {
    |e.stack| > 1
  }

  /** `resetMatch(newConfig?)`: a fresh match as the only snapshot. */
  function ResetMatch(e: Engine, newConfig: Option<GameConfig>): (r: Engine)
    ensures r.stack == [r.state]
    ensures r.state.teamAName == e.state.teamAName && r.state.teamBName == e.state.teamBName
    ensures r.state.swappedSides == e.state.swappedSides
    ensures r.state.config == newConfig.GetOr(e.state.config)
    ensures r.state.scoreA == 0 && r.state.scoreB == 0 && r.state.setsA == 0 && r.state.setsB == 0
    ensures r.state.history == [] && r.state.currentSet == 1 && r.state.matchWinner == None
    ensures r.state == InitialState.(teamAName := e.state.teamAName, teamBName := e.state.teamBName,
                                     swappedSides := e.state.swappedSides,
                                     config := newConfig.GetOr(e.state.config))
    ensures !CanUndo(r)
  {
    var s := ResetState(e.state, newConfig);
    Engine(s, [s])
  }

  /** `applySettings(config)`: a reset under the new configuration; scores,
      sets, history, timeouts, serve and the clock start over. */
  function ApplySettings(e: Engine, config: GameConfig): (r: Engine)
    ensures r.state.config == config && r.stack == [r.state]
    ensures r.state.teamAName == e.state.teamAName && r.state.teamBName == e.state.teamBName
    ensures r.state == InitialState.(teamAName := e.state.teamAName, teamBName := e.state.teamBName,
                                     swappedSides := e.state.swappedSides, config := config)
  {
    ResetMatch(e, Some(config))
  }

  function ToggleSides(e: Engine): (r: Engine)
    ensures r.stack == e.stack && r.state.swappedSides != e.state.swappedSides
    ensures r.state == e.state.(swappedSides := r.state.swappedSides)
  {
    Engine(Score.ToggleSides(e.state), e.stack)
  }

  function ToggleService(e: Engine): (r: Engine)
    ensures r.stack == e.stack
    ensures r.state.servingTeam == if e.state.servingTeam == Some(A) then Some(B) else Some(A)
    ensures r.state == e.state.(servingTeam := r.state.servingTeam)
  {
    Engine(Score.ToggleService(e.state), e.stack)
  }

  function SetTeamNames(e: Engine, nameA: string, nameB: string): (r: Engine)
    ensures r.stack == e.stack && r.state.teamAName == nameA && r.state.teamBName == nameB
    ensures r.state == e.state.(teamAName := nameA, teamBName := nameB)
  {
    Engine(Score.SetTeamNames(e.state, nameA, nameB), e.stack)
  }

  /** `useTimeout(team)`: at 2 used timeouts nothing happens; otherwise the new
      state is pushed WITHOUT the 10-entry cap. */
  function UseTimeout(e: Engine, team: TeamId): (r: Engine)
    ensures e.state.Timeouts(team) >= 2 ==> r == e
    ensures e.state.Timeouts(team) < 2 ==>
              r.state.Timeouts(team) == e.state.Timeouts(team) + 1 &&
              r.state.Timeouts(Other(team)) == e.state.Timeouts(Other(team)) &&
              r.state == e.state.(timeoutsA := r.state.timeoutsA, timeoutsB := r.state.timeoutsB) &&
              r.stack == e.stack + [r.state]
  {
    match TimeoutResult(e.state, team)
    case None => e
    case Some(s) => Engine(s, e.stack + [s])
  }

  /** `addPoint(team)`: a no-op once the match is over. */
  function AddPoint(e: Engine, team: TeamId): (r: Engine)
    ensures e.state.isMatchOver ==> r == e
    ensures !e.state.isMatchOver ==> r == UpdateState(e, PointResult(e.state, team).value)
  {
    match PointResult(e.state, team)
    case None => e
    case Some(s) => UpdateState(e, s)
  }

  /** `subtractPoint(team)`: a no-op once the match is over or at score 0;
      otherwise the state with only that score lowered is pushed through
      `updateState`, with its 10-entry eviction. */
  function SubtractPoint(e: Engine, team: TeamId): (r: Engine)
    ensures e.state.isMatchOver || e.state.Score(team) == 0 ==> r == e
    ensures !e.state.isMatchOver && e.state.Score(team) > 0 ==>
              r.state.Score(team) == e.state.Score(team) - 1 &&
              r.state.Score(Other(team)) == e.state.Score(Other(team)) &&
              r.state.servingTeam == e.state.servingTeam &&
              r.state.timeoutsA == e.state.timeoutsA && r.state.timeoutsB == e.state.timeoutsB
    ensures !e.state.isMatchOver && e.state.Score(team) > 0 ==>
              r == UpdateState(e, SubtractResult(e.state, team).value)
    ensures !e.state.isMatchOver && e.state.Score(team) > 0 ==>
              r.state == e.state.(scoreA := r.state.scoreA, scoreB := r.state.scoreB)
  {
    match SubtractResult(e.state, team)
    case None => e
    case Some(s) => UpdateState(e, s)
  }

  // ---------------------------------------------------------------------------
  // Undo laws.

  /** The current state is the top snapshot: true after every pushing
      operation, undo and reset (side, service and name toggles break it). */
  predicate InSync(e: Engine) {
    |e.stack| >= 1 && e.state == e.stack[|e.stack| - 1]
  }

  /** Undo right after a push gives back the engine as it was, as long as the
      push evicted nothing. */
  lemma UndoAfterUpdate(e: Engine, newState: GameState)
    requires InSync(e) && |e.stack| < MaxUndoDepth
    ensures Undo(UpdateState(e, newState)) == e
  {
    var r := UpdateState(e, newState);
    assert r.stack[..|r.stack| - 1] == e.stack;
  }

  /** Once the stack is full, a push followed by undo loses the oldest
      snapshot. */
  lemma UndoAfterUpdateAtCapacity(e: Engine, newState: GameState)
    requires InSync(e) && |e.stack| >= MaxUndoDepth
    ensures Undo(UpdateState(e, newState)).stack == e.stack[1..]
    ensures Undo(UpdateState(e, newState)).state == e.state
  {
    var r := UpdateState(e, newState);
    assert r.stack[..|r.stack| - 1] == e.stack[1..];
  }

  /** Undo on the initial snapshot alone changes nothing. */
  lemma UndoAtBottom()
    ensures Undo(InitialEngine) == InitialEngine && !CanUndo(InitialEngine)
  {
  }

  /** Pushes through `updateState` never grow a stack of at most 10 beyond 10;
      timeouts can. */
  lemma UndoDepthBound(e: Engine, s: GameState, team: TeamId)
    requires |e.stack| <= MaxUndoDepth
    ensures |UpdateState(e, s).stack| <= MaxUndoDepth
    ensures |e.stack| == MaxUndoDepth && e.state.Timeouts(team) < 2 ==>
              |UseTimeout(e, team).stack| == MaxUndoDepth + 1
  {
  }

  /** The invariant of the hook: a non-empty stack of valid snapshots and a
      valid current state. */
  ghost predicate ValidEngine(e: Engine) {
    && |e.stack| >= 1
    && Valid(e.state)
    && (forall i :: 0 <= i < |e.stack| ==> Valid(e.stack[i]))
  }

  lemma InitialEngineValid()
    ensures ValidEngine(InitialEngine)
  {
    InitialStateValid();
  }

  lemma UpdateKeepsValid(e: Engine, s: GameState)
    requires ValidEngine(e) && Valid(s)
    ensures ValidEngine(UpdateState(e, s))
  {
    var r := UpdateState(e, s);
    forall i | 0 <= i < |r.stack|
      ensures Valid(r.stack[i])
    {
      if i < |r.stack| - 1 {
        if |e.stack| < MaxUndoDepth {
          assert r.stack[i] == r.stack[..|r.stack| - 1][i] == e.stack[i];
        } else {
          assert r.stack[i] == r.stack[..|r.stack| - 1][i] == e.stack[i + 1];
        }
      }
    }
  }

  lemma AddPointKeepsValid(e: Engine, team: TeamId)
    requires ValidEngine(e)
    ensures ValidEngine(AddPoint(e, team))
  {
    if !e.state.isMatchOver {
      PointKeepsValid(e.state, team);
      UpdateKeepsValid(e, PointResult(e.state, team).value);
    }
  }

  lemma SubtractPointKeepsValid(e: Engine, team: TeamId)
    requires ValidEngine(e)
    ensures ValidEngine(SubtractPoint(e, team))
  {
    if SubtractResult(e.state, team).Some? {
      SubtractKeepsValid(e.state, team);
      UpdateKeepsValid(e, SubtractResult(e.state, team).value);
    }
  }

  lemma UseTimeoutKeepsValid(e: Engine, team: TeamId)
    requires ValidEngine(e)
    ensures ValidEngine(UseTimeout(e, team))
  {
    if TimeoutResult(e.state, team).Some? {
      TimeoutKeepsValid(e.state, team);
      var r := UseTimeout(e, team);
      forall i | 0 <= i < |r.stack|
        ensures Valid(r.stack[i])
      {
        if i < |e.stack| {
          assert r.stack[i] == e.stack[i];
        }
      }
    }
  }

  lemma UndoKeepsValid(e: Engine)
    requires ValidEngine(e)
    ensures ValidEngine(Undo(e))
  {
    if |e.stack| > 1 {
      var r := Undo(e);
      assert r.state == e.stack[|e.stack| - 2];
      assert forall i :: 0 <= i < |r.stack| ==> r.stack[i] == e.stack[i];
    }
  }

  /** Resetting under a configuration with at least one set, and the two
      display toggles, keep the engine valid. */
  lemma ResetAndTogglesKeepValid(e: Engine, config: GameConfig)
    requires ValidEngine(e)
    ensures ValidEngine(ToggleService(e)) && ValidEngine(ToggleSides(e))
    ensures config.maxSets >= 1 ==> ValidEngine(ApplySettings(e, config))
    ensures ValidEngine(ResetMatch(e, None))
  {
    if config.maxSets >= 1 {
      ResetStateValid(e.state, Some(config));
    }
    ResetStateValid(e.state, None);
  }
}
