/** The decision logic of one team's `ScoreCard`: the match-point and
    set-point badges, the swipe and tap gestures, the two timeout buttons, the
    set dots and the name shown. */
module ScoreCard {
  import opened Wrappers
  import opened Types
  import opened Constants
  import opened Score
  import opened Text
  import opened AppView

  /** What the board hands to the card of one team. */
  datatype CardProps = CardProps(
    teamId: TeamId,
    teamName: string,
    score: int,
    opponentScore: int,
    setsWon: int,
    setsToWinMatch: int,
    timeoutsUsed: int,
    pointsToWinSet: int)

  /** The board's wiring of a card for team t. */
  function PropsFor(s: GameState, t: TeamId): (p: CardProps)
    ensures p.teamId == t && p.teamName == s.TeamName(t)
    ensures p.score == s.Score(t) && p.opponentScore == s.Score(Other(t))
    ensures p.setsWon == s.Sets(t) && p.timeoutsUsed == s.Timeouts(t)
    ensures p.setsToWinMatch == SetsToWinMatch(s.config.maxSets)
    ensures p.pointsToWinSet == DisplayedTarget(s)
  {
    CardProps(t, if t == A then s.teamAName else s.teamBName,
              if t == A then s.scoreA else s.scoreB,
              if t == A then s.scoreB else s.scoreA,
              if t == A then s.setsA else s.setsB,
              SetsToWinMatch(s.config.maxSets),
              if t == A then s.timeoutsA else s.timeoutsB,
              DisplayedTarget(s))
  }

  /** One point from the set target, ahead of the opponent, and one set short
      of the match. */
  predicate IsMatchPoint(p: CardProps) {
    p.setsWon == p.setsToWinMatch - 1 && p.score >= p.pointsToWinSet - 1 && p.score > p.opponentScore
  }

  /** One point from the set target and ahead of the opponent, when that set
      would not also take the match. */
  predicate IsSetPoint(p: CardProps) {
    !IsMatchPoint(p) && p.score >= p.pointsToWinSet - 1 && p.score > p.opponentScore
  }

  /** At most one badge shows, and none on a tie. */
  lemma BadgesExclusive(p: CardProps)
    ensures !(IsMatchPoint(p) && IsSetPoint(p))
    ensures p.score == p.opponentScore ==> !IsMatchPoint(p) && !IsSetPoint(p)
  {
  }

  /** A badge means the team's next point wins the set. Outside the
      sudden-death play-off the converse holds too: whenever the next point
      would win the set for the team, a badge is shown. */
  lemma BadgeMeansSetOnNextPoint(s: GameState, t: TeamId)
    requires Valid(s) && !s.isMatchOver
    ensures var p := PropsFor(s, t);
            && (IsMatchPoint(p) || IsSetPoint(p) ==> ClassifyPoint(s, t) == SetWon(t))
            && (!s.inSuddenDeath && ClassifyPoint(s, t) == SetWon(t) ==> IsMatchPoint(p) || IsSetPoint(p))
  {
  }

  /** The match-point badge means the team's next point wins the match. */
  lemma MatchPointMeansMatchOnNextPoint(s: GameState, t: TeamId)
    requires Valid(s) && !s.isMatchOver && IsMatchPoint(PropsFor(s, t))
    ensures PointResult(s, t).value.isMatchOver
    ensures PointResult(s, t).value.matchWinner == Some(t)
  {
    BadgeMeansSetOnNextPoint(s, t);
    SetWinOutcome(s, t);
  }

  /** In the play-off at 2-2 either team's next point wins the set, yet
      neither card shows a badge, because neither score is ahead. */
  lemma SuddenDeathTieHasNoBadge(s: GameState, t: TeamId)
    requires Valid(s) && s.inSuddenDeath && s.scoreA == 2 && s.scoreB == 2
    ensures ClassifyPoint(s, t) == SetWon(t)
    ensures !IsMatchPoint(PropsFor(s, t)) && !IsSetPoint(PropsFor(s, t))
  {
  }

  /** What a gesture on the card asks for. */
  datatype Gesture = AddPointGesture | SubtractPointGesture | NoGesture

  /** The swipe distance that counts: 50 in landscape, 80 otherwise. */
  function DragThreshold(isLandscape: bool): (d: real)
    ensures d > 0.0
  {
    if isLandscape then 50.0 else 80.0
  }

  /** The end of a vertical drag: far enough up adds a point, far enough down
      takes one away, anything in between does nothing. */
  function DragAction(offsetY: real, isLandscape: bool): (g: Gesture)
    ensures g == AddPointGesture <==> offsetY < -DragThreshold(isLandscape)
    ensures g == SubtractPointGesture <==> offsetY > DragThreshold(isLandscape)
    ensures g == NoGesture <==> -DragThreshold(isLandscape) <= offsetY <= DragThreshold(isLandscape)
  {
    var threshold := DragThreshold(isLandscape);
    if offsetY < -threshold then AddPointGesture
    else if offsetY > threshold then SubtractPointGesture
    else NoGesture
  }

  /** Swiping the same distance the other way asks for the opposite, and a
      swipe that counts in portrait also counts in landscape. */
  lemma DragMirror(offsetY: real, isLandscape: bool)
    ensures DragAction(offsetY, isLandscape) == AddPointGesture <==>
            DragAction(-offsetY, isLandscape) == SubtractPointGesture
    ensures DragAction(offsetY, false) != NoGesture ==> DragAction(offsetY, true) == DragAction(offsetY, false)
  {
  }

  /** A tap adds a point unless it ends a drag. */
  function TapAction(isDragging: bool): (g: Gesture)
    ensures g != SubtractPointGesture
    ensures g == AddPointGesture <==> !isDragging
  {
    if isDragging then NoGesture else AddPointGesture
  }

  /** Timeout button i (0 or 1) is disabled once more than i timeouts are used. */
  predicate TimeoutButtonEnabled(i: int, timeoutsUsed: int) {
    !(timeoutsUsed > i)
  }

  /** Some timeout button can be pressed exactly when the engine would grant
      a timeout. */
  lemma TimeoutButtonsMatchEngine(s: GameState, t: TeamId)
    ensures (TimeoutButtonEnabled(0, s.Timeouts(t)) || TimeoutButtonEnabled(1, s.Timeouts(t))) <==>
            TimeoutResult(s, t).Some?
  {
  }

  /** `Array.from({ length: setsToWinMatch })`: one dot per set needed, the
      first `setsWon` of them filled (a negative length gives no dots). */
  function SetDots(setsToWinMatch: int, setsWon: int): (dots: seq<bool>)
    ensures |dots| == if setsToWinMatch > 0 then setsToWinMatch else 0
    ensures forall i :: 0 <= i < |dots| ==> (dots[i] <==> i < setsWon)
  {
    if setsToWinMatch <= 0 then []
    else SetDots(setsToWinMatch - 1, setsWon) + [setsToWinMatch - 1 < setsWon]
  }

  function CountFilled(dots: seq<bool>): nat {
    if dots == [] then 0 else CountFilled(dots[..|dots| - 1]) + (if dots[|dots| - 1] then 1 else 0)
  }

  /** The number of filled dots is the sets won, clamped to the dots shown. */
  lemma {:induction false} FilledDots(n: int, setsWon: int)
    ensures CountFilled(SetDots(n, setsWon)) ==
            if n <= 0 || setsWon <= 0 then 0 else if setsWon >= n then n else setsWon
  {
    if n > 0 {
      var dots := SetDots(n, setsWon);
      assert dots[..|dots| - 1] == SetDots(n - 1, setsWon);
      FilledDots(n - 1, setsWon);
    }
  }

  /** On the engine's states the filled dots count the team's sets exactly. */
  lemma DotsCountSets(s: GameState, t: TeamId)
    requires Valid(s)
    ensures CountFilled(SetDots(PropsFor(s, t).setsToWinMatch, PropsFor(s, t).setsWon)) == s.Sets(t)
  {
    FilledDots(SetsToWinMatch(s.config.maxSets), s.Sets(t));
  }

  /** The translation key of a team's fallback label. */
  function NameKey(t: TeamId): string {
    if t == A then "home" else "guest"
  }

  /** `displayName`: the team name unless it is empty or only whitespace, in
      which case the localized home/guest label. */
  function DisplayName(teamName: string, t: TeamId, lang: Language): (shown: string)
    ensures Trim(teamName) != "" ==> shown == teamName
    ensures Trim(teamName) == "" ==> shown == T(lang, NameKey(t))
  {
    if teamName != "" && Trim(teamName) != "" then teamName else T(lang, NameKey(t))
  }

  /** A whitespace-only name shows the fallback label on the card, while the
      spoken announcement reads the blank name (it only tests for empty). */
  lemma BlankNameCardVersusAnnouncement(s: GameState, lang: Language)
    requires s.teamAName == " "
    ensures DisplayName(s.teamAName, A, lang) == T(lang, "home")
    ensures TeamLabel(s, A, lang) == " "
  {
    assert Trim(" ") == "" by {
      assert AllSpace(" ");
      TrimEmptyIffBlank(" ");
    }
  }
}
