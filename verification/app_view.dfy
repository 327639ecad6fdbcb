/** The decision logic of the root `App` component: which team is drawn on
    which side, the target shown for the current set, and when a point or a
    set is announced (the effect compares the state with the values it saw on
    its previous run). */
module AppView {
  import opened Wrappers
  import opened Types
  import opened Constants
  import opened Score

  /** The team drawn on the left. */
  function LeftTeam(swappedSides: bool): (t: TeamId)
    ensures t == B <==> swappedSides
  {
    if swappedSides then B else A
  }

  /** The team drawn on the right: always the other one. */
  function RightTeam(swappedSides: bool): (t: TeamId)
    ensures t == A <==> swappedSides
    ensures t != LeftTeam(swappedSides)
  {
    if swappedSides then A else B
  }

  /** Switching sides puts each team where the other one was. */
  lemma ToggleSidesSwapsBoard(s: GameState)
    ensures LeftTeam(Score.ToggleSides(s).swappedSides) == RightTeam(s.swappedSides)
    ensures RightTeam(Score.ToggleSides(s).swappedSides) == LeftTeam(s.swappedSides)
  {
  }

  /** `targetPoints`: 3 during the sudden-death play-off; otherwise the
      tie-break target in a deciding set with tie-break on, and the regular
      target in every other case. */
  function DisplayedTarget(s: GameState): (target: int)
    ensures s.inSuddenDeath ==> target == SuddenDeathTarget
    ensures !s.inSuddenDeath && s.config.maxSets > 1 && s.currentSet == s.config.maxSets && s.config.hasTieBreak ==>
              target == s.config.tieBreakPoints
    ensures !s.inSuddenDeath && !(s.config.maxSets > 1 && s.currentSet == s.config.maxSets && s.config.hasTieBreak) ==>
              target == s.config.pointsPerSet
  {
    var isDecidingSet := s.config.maxSets > 1 && s.currentSet == s.config.maxSets;
    var useTieBreak := isDecidingSet && s.config.hasTieBreak;
    if s.inSuddenDeath then 3
    else if useTieBreak then s.config.tieBreakPoints
    else s.config.pointsPerSet
  }

  /** The target on display is the one the engine plays to: reaching it with
      a two-point lead (or, in the play-off, reaching it at all) wins the set
      for the scorer. */
  lemma DisplayedTargetIsEngineTarget(s: GameState, team: TeamId)
    requires Valid(s) && !s.isMatchOver
    ensures var p := s.Score(team) + 1;
            var o := s.Score(Other(team));
            && (!s.inSuddenDeath && p >= DisplayedTarget(s) && p >= o + MinLeadToWin ==>
                  ClassifyPoint(s, team) == SetWon(team))
            && (s.inSuddenDeath ==> (ClassifyPoint(s, team) == SetWon(team) <==> p >= DisplayedTarget(s)))
  {
  }

  /** What the board says for a team: its name, or the localized home/guest
      label when the name is empty (JavaScript's `||`). */
  function TeamLabel(s: GameState, t: TeamId, lang: Language): (shown: string)
    ensures shown != ""
    ensures s.TeamName(t) != "" ==> shown == s.TeamName(t)
    ensures s.TeamName(t) == "" ==> shown == T(lang, if t == A then "home" else "guest")
  {
    if s.TeamName(t) != "" then s.TeamName(t) else T(lang, if t == A then "home" else "guest")
  }

  /** A spoken announcement about a team. */
  datatype Announcement = Announcement(team: TeamId, text: string)

  /** The point branch of the audio effect: announced exactly when some score
      went up since the previous run; the scorer is A when A's score went up,
      B otherwise. */
  function PointAnnouncement(prevScoreA: nat, prevScoreB: nat, s: GameState, lang: Language): (r: Option<Announcement>)
    ensures r.Some? <==> s.scoreA > prevScoreA || s.scoreB > prevScoreB
    ensures r.Some? ==> (r.value.team == A <==> s.scoreA > prevScoreA)
    ensures r.Some? ==> r.value.text == T(lang, "point") + " " + TeamLabel(s, r.value.team, lang)
  {
    if s.scoreA > prevScoreA || s.scoreB > prevScoreB then
      var scorer := if s.scoreA > prevScoreA then A else B;
      Some(Announcement(scorer, T(lang, "point") + " " + TeamLabel(s, scorer, lang)))
    else None
  }

  /** The set branch of the audio effect: announced when the set number went
      up and there is a recorded set, naming the winner of the last one. */
  function SetAnnouncement(prevSet: int, s: GameState, lang: Language): (r: Option<Announcement>)
    ensures r.Some? <==> s.currentSet > prevSet && |s.history| > 0
    ensures r.Some? ==> r.value.team == s.history[|s.history| - 1].winner
    ensures r.Some? ==> r.value.text == T(lang, "set") + " " + TeamLabel(s, r.value.team, lang)
  {
    if s.currentSet > prevSet && |s.history| > 0 then
      var w := s.history[|s.history| - 1].winner;
      Some(Announcement(w, T(lang, "set") + " " + TeamLabel(s, w, lang)))
    else None
  }

  /** An ordinary point is announced for the scorer, and no set is announced. */
  lemma PlainPointAnnounced(s: GameState, team: TeamId, lang: Language)
    requires !s.isMatchOver && ClassifyPoint(s, team) == Scored
    ensures var r := PointResult(s, team).value;
            && PointAnnouncement(s.scoreA, s.scoreB, r, lang).Some?
            && PointAnnouncement(s.scoreA, s.scoreB, r, lang).value.team == team
            && SetAnnouncement(s.currentSet, r, lang).None?
  {
  }

  /** A point that wins a set but not the match is announced as a set for
      the set winner; the scores drop back to 0, so no point is announced. */
  lemma SetWinAnnounced(s: GameState, team: TeamId, lang: Language)
    requires Valid(s) && !s.isMatchOver && ClassifyPoint(s, team).SetWon?
    requires !PointResult(s, team).value.isMatchOver
    ensures var r := PointResult(s, team).value;
            var w := ClassifyPoint(s, team).winner;
            && SetAnnouncement(s.currentSet, r, lang) ==
                 Some(Announcement(w, T(lang, "set") + " " + TeamLabel(r, w, lang)))
            && PointAnnouncement(s.scoreA, s.scoreB, r, lang).None?
  {
    SetWinOutcome(s, team);
  }

  /** The point that ends the match keeps the final scores and the set
      number, so it is announced as a point for the scorer and never as a
      set. */
  lemma MatchWinAnnouncedAsPoint(s: GameState, team: TeamId, lang: Language)
    requires Valid(s) && !s.isMatchOver && ClassifyPoint(s, team).SetWon?
    requires PointResult(s, team).value.isMatchOver
    ensures var r := PointResult(s, team).value;
            && SetAnnouncement(s.currentSet, r, lang).None?
            && PointAnnouncement(s.scoreA, s.scoreB, r, lang).Some?
            && PointAnnouncement(s.scoreA, s.scoreB, r, lang).value.team == team
  {
    SetWinOutcome(s, team);
  }

  /** The deuce reset of the sudden-death variant is announced neither as a
      point nor as a set. */
  lemma DeuceResetSilent(s: GameState, team: TeamId, lang: Language)
    requires !s.isMatchOver && ClassifyPoint(s, team) == DeuceReset
    ensures var r := PointResult(s, team).value;
            PointAnnouncement(s.scoreA, s.scoreB, r, lang).None? && SetAnnouncement(s.currentSet, r, lang).None?
  {
  }
}
