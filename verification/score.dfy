/** The scoring rules of `useVolleyGame`: the point target of the current set,
    the win-by-two check, the sudden-death variant and set/match completion.
    Every operation is a pure function from one GameState to the next. */
module Score {
  import opened Wrappers
  import opened Types
  import opened Constants

  /** The state a fresh match starts from (and the bottom of the undo stack). */
  const InitialState: GameState := GameState(
    "", "", 0, 0, 0, 0, 1, [], false, None, false, false, DefaultConfig, 0, false, None, 0, 0)

  /** The last possible set of a multi-set match. */
  predicate IsDecidingSet(config: GameConfig, currentSet: int) {
    config.maxSets > 1 && currentSet == config.maxSets
  }

  /** The points needed to take the current set: the tie-break target in a
      deciding set with tie-break enabled, the regular target otherwise. */
  function SetTarget(config: GameConfig, currentSet: int): (target: int)
    ensures target == config.tieBreakPoints || target == config.pointsPerSet
    ensures config.hasTieBreak && IsDecidingSet(config, currentSet) ==> target == config.tieBreakPoints
    ensures !config.hasTieBreak || config.maxSets <= 1 || currentSet != config.maxSets ==>
              target == config.pointsPerSet
  {
    if IsDecidingSet(config, currentSet) && config.hasTieBreak then config.tieBreakPoints
    else config.pointsPerSet
  }

  /** `checkStandardWin`: a team takes the set when it has reached the target
      and leads by at least two. At most one team can satisfy this, so the
      answer never depends on which team is checked first. */
  function CheckStandardWin(scoreA: int, scoreB: int, target: int): (w: Option<TeamId>)
    ensures w == Some(A) <==> scoreA >= target && scoreA >= scoreB + MinLeadToWin
    ensures w == Some(B) <==> scoreB >= target && scoreB >= scoreA + MinLeadToWin
    ensures w == None <==>
              !(scoreA >= target && scoreA >= scoreB + MinLeadToWin) &&
              !(scoreB >= target && scoreB >= scoreA + MinLeadToWin)
  {
    if scoreA >= target && scoreA >= scoreB + MinLeadToWin then Some(A)
    else if scoreB >= target && scoreB >= scoreA + MinLeadToWin then Some(B)
    else None
  }

  lemma StandardWinExamples()
    ensures CheckStandardWin(25, 23, 25) == Some(A)
    ensures CheckStandardWin(25, 24, 25) == None
    ensures CheckStandardWin(24, 26, 25) == Some(B)
    ensures CheckStandardWin(16, 15, 15) == None && CheckStandardWin(17, 15, 15) == Some(A)
  {
  }

  /** The target of the first-to-three play-off of the sudden-death variant. */
  const SuddenDeathTarget: nat := 3

  /** The score team `t` would have if `team` scored the next point. */
  function PotentialScore(s: GameState, team: TeamId, t: TeamId): (p: nat)
    ensures p == s.Score(t) + (if t == team then 1 else 0)
  {
    if t == team then s.Score(t) + 1 else s.Score(t)
  }

  /** The running flag after a point: the timer starts on the first point of a
      match (elapsed time still 0) and otherwise keeps its state. */
  function TimerAfterPoint(s: GameState): (running: bool)
    ensures running <==> s.isTimerRunning || s.matchDurationSeconds == 0
  {
    if !s.isTimerRunning && s.matchDurationSeconds == 0 then true else s.isTimerRunning
  }

  /** Every field but the ones a set win rewrites is carried over. */
  predicate KeepsMatchSetup(s: GameState, r: GameState) {
    && r.teamAName == s.teamAName && r.teamBName == s.teamBName
    && r.swappedSides == s.swappedSides && r.config == s.config
    && r.matchDurationSeconds == s.matchDurationSeconds
  }

  /** `handleSetWin`: records the set and either opens the next set or ends the
      match. */
  function HandleSetWin(s: GameState, setWinner: TeamId, finalScoreA: nat, finalScoreB: nat,
                        timerWasRunning: bool): (r: GameState)
    ensures r.history == s.history + [SetHistory(s.currentSet, finalScoreA, finalScoreB, setWinner)]
    ensures r.Sets(setWinner) == s.Sets(setWinner) + 1
    ensures r.Sets(Other(setWinner)) == s.Sets(Other(setWinner))
    ensures r.timeoutsA == 0 && r.timeoutsB == 0
    ensures r.servingTeam == None && !r.inSuddenDeath
    ensures r.isMatchOver <==> r.matchWinner.Some?
    ensures r.matchWinner.Some? <==>
              r.setsA == SetsToWinMatch(s.config.maxSets) || r.setsB == SetsToWinMatch(s.config.maxSets)
    ensures r.matchWinner == Some(A) ==> r.setsA == SetsToWinMatch(s.config.maxSets)
    ensures r.matchWinner == Some(B) ==>
              r.setsB == SetsToWinMatch(s.config.maxSets) && r.setsA != SetsToWinMatch(s.config.maxSets)
    ensures r.isMatchOver ==>
              r.scoreA == finalScoreA && r.scoreB == finalScoreB &&
              r.currentSet == s.currentSet && !r.isTimerRunning
    ensures !r.isMatchOver ==>
              r.scoreA == 0 && r.scoreB == 0 &&
              r.currentSet == s.currentSet + 1 && r.isTimerRunning == timerWasRunning
    ensures KeepsMatchSetup(s, r)
  {
    var newSetsA := if setWinner == A then s.setsA + 1 else s.setsA;
    var newSetsB := if setWinner == B then s.setsB + 1 else s.setsB;
    var entry := SetHistory(s.currentSet, finalScoreA, finalScoreB, setWinner);
    var setsNeeded := SetsToWinMatch(s.config.maxSets);
    var matchWinner := if newSetsA == setsNeeded then Some(A)
                       else if newSetsB == setsNeeded then Some(B) else None;
    s.(scoreA := if matchWinner.Some? then finalScoreA else 0,
       scoreB := if matchWinner.Some? then finalScoreB else 0,
       setsA := newSetsA,
       setsB := newSetsB,
       history := s.history + [entry],
       currentSet := if matchWinner.Some? then s.currentSet else s.currentSet + 1,
       isMatchOver := matchWinner.Some?,
       matchWinner := matchWinner,
       inSuddenDeath := false,
       isTimerRunning := if matchWinner.Some? then false else timerWasRunning,
       servingTeam := None,
       timeoutsA := 0,
       timeoutsB := 0)
  }

  /** The law of an ordinary point: only the scorer's score moves, by exactly
      one; the scorer serves next; the timer starts if this is the first point;
      nothing else changes. */
  predicate PlainPoint(s: GameState, team: TeamId, r: GameState) {
    && r.Score(team) == s.Score(team) + 1
    && r.Score(Other(team)) == s.Score(Other(team))
    && r.servingTeam == Some(team)
    && r.isTimerRunning == TimerAfterPoint(s)
    && r == s.(scoreA := r.scoreA, scoreB := r.scoreB, servingTeam := r.servingTeam,
               isTimerRunning := r.isTimerRunning)
  }

  /** The law of the deuce point of the sudden-death variant: both scores go
      back to 0, the play-off starts, no set is recorded, the scorer serves. */
  predicate SuddenDeathReset(s: GameState, team: TeamId, r: GameState) {
    && r.scoreA == 0 && r.scoreB == 0
    && r.inSuddenDeath
    && r.servingTeam == Some(team)
    && r.isTimerRunning == TimerAfterPoint(s)
    && r == s.(scoreA := 0, scoreB := 0, inSuddenDeath := true, servingTeam := r.servingTeam,
               isTimerRunning := r.isTimerRunning)
  }

  /** Which of the three outcomes a point has. */
  datatype PointEffect = Scored | DeuceReset | SetWon(winner: TeamId)

  /** The decision of `addPoint`: the sudden-death play-off first, then the
      deuce reset of the sudden-death rule, then the win-by-two test. */
  function ClassifyPoint(s: GameState, team: TeamId): PointEffect {
    var pa := PotentialScore(s, team, A);
    var pb := PotentialScore(s, team, B);
    var target := SetTarget(s.config, s.currentSet);
    if s.config.deuceType == SuddenDeath3pt && s.inSuddenDeath then
      if pa >= SuddenDeathTarget then SetWon(A)
      else if pb >= SuddenDeathTarget then SetWon(B)
      else Scored
    else if s.config.deuceType == SuddenDeath3pt && pa == target - 1 && pb == target - 1 then
      DeuceReset
    else
      match CheckStandardWin(pa, pb, target)
      case Some(w) => SetWon(w)
      case None => Scored
  }

  /** `addPoint(team)` as a state transition: None when the match is already
      over (`addPoint` returns the state untouched), otherwise the state it
      commits; a set-winning point is exactly `handleSetWin` with the potential
      scores. */
  function PointResult(s: GameState, team: TeamId): (r: Option<GameState>)
    ensures r.None? <==> s.isMatchOver
    ensures r.Some? && ClassifyPoint(s, team) == Scored ==> PlainPoint(s, team, r.value)
    ensures r.Some? && ClassifyPoint(s, team) == DeuceReset ==> SuddenDeathReset(s, team, r.value)
    ensures r.Some? && ClassifyPoint(s, team).SetWon? ==>
              r.value.history == s.history + [SetHistory(s.currentSet, PotentialScore(s, team, A),
                                                         PotentialScore(s, team, B),
                                                         ClassifyPoint(s, team).winner)]
    ensures r.Some? && ClassifyPoint(s, team).SetWon? ==>
              r.value.isMatchOver || (r.value.isTimerRunning == TimerAfterPoint(s))
    ensures r.Some? && ClassifyPoint(s, team).SetWon? ==>
              r.value == HandleSetWin(s, ClassifyPoint(s, team).winner, PotentialScore(s, team, A),
                                      PotentialScore(s, team, B), TimerAfterPoint(s))
  {
    if s.isMatchOver then None
    else
      var pa := PotentialScore(s, team, A);
      var pb := PotentialScore(s, team, B);
      var running := TimerAfterPoint(s);
      match ClassifyPoint(s, team)
      case SetWon(w) => Some(HandleSetWin(s, w, pa, pb, running))
      case DeuceReset =>
        Some(s.(scoreA := 0, scoreB := 0, inSuddenDeath := true, isTimerRunning := running,
                servingTeam := Some(team)))
      case Scored =>
        Some(s.(scoreA := pa, scoreB := pb, isTimerRunning := running, servingTeam := Some(team)))
  }

  /** `subtractPoint(team)`: None when nothing is committed (match over, or the
      team's score is already 0); otherwise only that team's score drops by one
      and serve, timeouts and everything else stay as they are. */
  function SubtractResult(s: GameState, team: TeamId): (r: Option<GameState>)
    ensures r.Some? <==> !s.isMatchOver && s.Score(team) > 0
    ensures r.Some? ==> r.value.Score(team) == s.Score(team) - 1
    ensures r.Some? ==> r.value.Score(Other(team)) == s.Score(Other(team))
    ensures r.Some? ==> r.value == s.(scoreA := r.value.scoreA, scoreB := r.value.scoreB)
  {
    if s.isMatchOver then None
    else if team == A && s.scoreA > 0 then Some(s.(scoreA := s.scoreA - 1))
    else if team == B && s.scoreB > 0 then Some(s.(scoreB := s.scoreB - 1))
    else None
  }

  /** `useTimeout(team)`: None at two timeouts already used (the state is
      returned untouched and nothing is pushed); otherwise only that team's
      count rises by one. */
  function TimeoutResult(s: GameState, team: TeamId): (r: Option<GameState>)
    ensures r.None? <==> s.Timeouts(team) >= 2
    ensures r.Some? ==> r.value.Timeouts(team) == s.Timeouts(team) + 1
    ensures r.Some? ==> r.value.Timeouts(Other(team)) == s.Timeouts(Other(team))
    ensures r.Some? ==> r.value == s.(timeoutsA := r.value.timeoutsA, timeoutsB := r.value.timeoutsB)
  {
    if team == A && s.timeoutsA >= 2 then None
    else if team == B && s.timeoutsB >= 2 then None
    else Some(s.(timeoutsA := if team == A then s.timeoutsA + 1 else s.timeoutsA,
                 timeoutsB := if team == B then s.timeoutsB + 1 else s.timeoutsB))
  }

  /** `toggleService`: A hands the serve to B; B and "nobody yet" both give it to A. */
  function ToggleService(s: GameState): (r: GameState)
    ensures s.servingTeam == Some(A) ==> r.servingTeam == Some(B)
    ensures s.servingTeam != Some(A) ==> r.servingTeam == Some(A)
    ensures r == s.(servingTeam := r.servingTeam)
  {
    s.(servingTeam := if s.servingTeam == Some(A) then Some(B) else Some(A))
  }

  /** `toggleSides`: only the display orientation flips. */
  function ToggleSides(s: GameState): (r: GameState)
    ensures r.swappedSides != s.swappedSides
    ensures r == s.(swappedSides := r.swappedSides)
  {
    s.(swappedSides := !s.swappedSides)
  }

  /** `setTeamNames` */
  function SetTeamNames(s: GameState, nameA: string, nameB: string): (r: GameState)
    ensures r.TeamName(A) == nameA && r.TeamName(B) == nameB
    ensures r == s.(teamAName := r.teamAName, teamBName := r.teamBName)
  {
    s.(teamAName := nameA, teamBName := nameB)
  }

  /** The state `resetMatch` builds: the initial state, except that the team
      names and the side orientation are kept and the configuration is the new
      one when given, the current one otherwise. */
  function ResetState(s: GameState, newConfig: Option<GameConfig>): (r: GameState)
    ensures r.teamAName == s.teamAName && r.teamBName == s.teamBName
    ensures r.swappedSides == s.swappedSides
    ensures r.config == newConfig.GetOr(s.config)
    ensures r == InitialState.(teamAName := r.teamAName, teamBName := r.teamBName,
                               swappedSides := r.swappedSides, config := r.config)
  {
    InitialState.(teamAName := s.teamAName, teamBName := s.teamBName,
                  swappedSides := s.swappedSides, config := newConfig.GetOr(s.config))
  }

  // ---------------------------------------------------------------------------
  // Consequences of the point law.

  /** The standard rule at the regular target of 25: 25-24 does not end the set,
      26-24 does, and the recorded set carries the final score. */
  lemma WinByTwoAt25(s: GameState)
    requires !s.isMatchOver && s.config.deuceType == Standard
    requires SetTarget(s.config, s.currentSet) == 25
    requires s.scoreA == 24 && s.scoreB == 24
    ensures ClassifyPoint(s, A) == Scored
    ensures PointResult(s, A).value.scoreA == 25
    ensures var t := PointResult(s, A).value;
            ClassifyPoint(t, A) == SetWon(A) &&
            PointResult(t, A).value.history == s.history + [SetHistory(s.currentSet, 26, 24, A)]
  {
    var t := PointResult(s, A).value;
    assert t.scoreA == 25 && t.scoreB == 24 && t.currentSet == s.currentSet;
  }

  /** Sudden-death variant, before the play-off: the point that brings both
      teams to one short of the target resets the set to 0-0, starts the
      play-off and records no set. */
  lemma SuddenDeathTrigger(s: GameState, team: TeamId)
    requires !s.isMatchOver && s.config.deuceType == SuddenDeath3pt && !s.inSuddenDeath
    requires PotentialScore(s, team, A) == SetTarget(s.config, s.currentSet) - 1
    requires PotentialScore(s, team, B) == SetTarget(s.config, s.currentSet) - 1
    ensures var r := PointResult(s, team).value;
            r.scoreA == 0 && r.scoreB == 0 && r.inSuddenDeath && r.history == s.history &&
            r.setsA == s.setsA && r.setsB == s.setsB && r.currentSet == s.currentSet
  {
  }

  /** Sudden-death play-off: the first team to reach 3 takes the set, whatever
      the other team's score (no lead needed). */
  lemma SuddenDeathFirstToThree(s: GameState, team: TeamId)
    requires !s.isMatchOver && s.config.deuceType == SuddenDeath3pt && s.inSuddenDeath
    requires s.scoreA < SuddenDeathTarget && s.scoreB < SuddenDeathTarget
    ensures ClassifyPoint(s, team) == SetWon(team) <==> s.Score(team) + 1 == SuddenDeathTarget
    ensures ClassifyPoint(s, team) == Scored <==> s.Score(team) + 1 < SuddenDeathTarget
    ensures s.Score(team) + 1 == SuddenDeathTarget ==>
              var r := PointResult(s, team).value;
              r.Sets(team) == s.Sets(team) + 1 && !r.inSuddenDeath &&
              r.history[|r.history| - 1].winner == team
  {
    var r := PointResult(s, team).value;
    if s.Score(team) + 1 == SuddenDeathTarget {
      assert ClassifyPoint(s, team) == SetWon(team);
      assert r == HandleSetWin(s, team, PotentialScore(s, team, A), PotentialScore(s, team, B),
                               TimerAfterPoint(s));
    }
  }

  // ---------------------------------------------------------------------------
  // The match-state invariant.

  /** The number of sets in h won by t. */
  function Wins(h: seq<SetHistory>, t: TeamId): nat {
    if h == [] then 0
    else Wins(h[..|h| - 1], t) + (if h[|h| - 1].winner == t then 1 else 0)
  }

  /** What every state the engine produces satisfies: the set counters agree
      with the history, sets are numbered 1, 2, ...; the current set is the one
      after the last recorded set unless the match is over; the match is over
      exactly when a winner is named, who holds the needed number of sets while
      the other does not; timeouts stay within 2; the timer is stopped after the
      match; the sudden-death play-off only runs under that variant, before the
      match ends, with both scores below 3. */
  ghost predicate Valid(s: GameState) {
    var needed := SetsToWinMatch(s.config.maxSets);
    && s.config.maxSets >= 1
    && s.isMatchOver == s.matchWinner.Some?
    && s.timeoutsA <= 2 && s.timeoutsB <= 2
    && s.setsA == Wins(s.history, A) && s.setsB == Wins(s.history, B)
    && (forall i :: 0 <= i < |s.history| ==> s.history[i].setNumber == i + 1)
    && s.currentSet == |s.history| + (if s.isMatchOver then 0 else 1)
    && (if s.isMatchOver
        then s.Sets(s.matchWinner.value) == needed && s.Sets(Other(s.matchWinner.value)) < needed
        else s.setsA < needed && s.setsB < needed)
    && (s.isMatchOver ==> !s.isTimerRunning)
    && (s.inSuddenDeath ==>
          s.config.deuceType == SuddenDeath3pt && !s.isMatchOver &&
          s.scoreA < SuddenDeathTarget && s.scoreB < SuddenDeathTarget)
  }

  lemma InitialStateValid()
    ensures Valid(InitialState)
  {
  }

  lemma ResetStateValid(s: GameState, newConfig: Option<GameConfig>)
    requires newConfig.GetOr(s.config).maxSets >= 1
    ensures Valid(ResetState(s, newConfig))
  {
  }

  lemma WinsAppend(h: seq<SetHistory>, e: SetHistory, t: TeamId)
    ensures Wins(h + [e], t) == Wins(h, t) + (if e.winner == t then 1 else 0)
  {
    assert (h + [e])[..|h|] == h;
  }

  lemma {:induction false} SetWinKeepsValid(s: GameState, w: TeamId, fa: nat, fb: nat, running: bool)
    requires Valid(s) && !s.isMatchOver
    ensures Valid(HandleSetWin(s, w, fa, fb, running))
  {
    var r := HandleSetWin(s, w, fa, fb, running);
    var e := SetHistory(s.currentSet, fa, fb, w);
    WinsAppend(s.history, e, A);
    WinsAppend(s.history, e, B);
    assert forall i :: 0 <= i < |r.history| ==> r.history[i].setNumber == i + 1 by {
      forall i | 0 <= i < |r.history|
        ensures r.history[i].setNumber == i + 1
      {
        if i < |s.history| {
          assert r.history[i] == s.history[i];
        }
      }
    }
  }

  /** Every committed point keeps the invariant. */
  lemma {:induction false} PointKeepsValid(s: GameState, team: TeamId)
    requires Valid(s) && !s.isMatchOver
    ensures Valid(PointResult(s, team).value)
  {
    var pa := PotentialScore(s, team, A);
    var pb := PotentialScore(s, team, B);
    match ClassifyPoint(s, team)
    case SetWon(w) =>
      SetWinKeepsValid(s, w, pa, pb, TimerAfterPoint(s));
    case DeuceReset =>
    case Scored =>
  }

  lemma SubtractKeepsValid(s: GameState, team: TeamId)
    requires Valid(s) && SubtractResult(s, team).Some?
    ensures Valid(SubtractResult(s, team).value)
  {
  }

  lemma TimeoutKeepsValid(s: GameState, team: TeamId)
    requires Valid(s) && TimeoutResult(s, team).Some?
    ensures Valid(TimeoutResult(s, team).value)
  {
  }

  /** Under the invariant, a set win with the match still open starts the next
      set from 0-0, and one that ends the match names the set winner as match
      winner, with exactly the needed number of sets. */
  lemma SetWinOutcome(s: GameState, team: TeamId)
    requires Valid(s) && !s.isMatchOver && ClassifyPoint(s, team).SetWon?
    ensures var w := ClassifyPoint(s, team).winner;
            var r := PointResult(s, team).value;
            && (r.isMatchOver <==> s.Sets(w) + 1 == SetsToWinMatch(s.config.maxSets))
            && (r.isMatchOver ==> r.matchWinner == Some(w) && !r.isTimerRunning &&
                                  r.currentSet == s.currentSet)
            && (!r.isMatchOver ==> r.scoreA == 0 && r.scoreB == 0 && r.currentSet == s.currentSet + 1)
  {
  }
}
