/** The records of the scoreboard: teams, players, set history, match
    configuration, the match state and the player-queue state. */
module Types {
  import opened Wrappers

  /** The two court sides, `'A' | 'B'`. */
  datatype TeamId = A | B

  function Other(t: TeamId): (o: TeamId)
    ensures o != t
  {
    if t == A then B else A
  }

  /** `xs.find(x => keyOf(x) === key)`, as the index of the first element
      with that key; None when no element has it. */
  function FindFirst<T>(xs: seq<T>, keyOf: T -> string, key: string): (r: Option<nat>)
    ensures r.Some? ==> r.value < |xs| && keyOf(xs[r.value]) == key &&
                        forall k :: 0 <= k < r.value ==> keyOf(xs[k]) != key
    ensures r.None? ==> forall k :: 0 <= k < |xs| ==> keyOf(xs[k]) != key
  {
    if xs == [] then None
    else if keyOf(xs[0]) == key then Some(0)
    else match FindFirst(xs[1..], keyOf, key)
         case None => None
         case Some(k) => Some(k + 1)
  }

  /** A player. `isFixed` is the court side the player is tied to, or None; the
      queue hook treats it this way, although the type declaration says boolean. */
  datatype Player = Player(id: string, name: string, isFixed: Option<TeamId>)

  datatype Team = Team(id: string, name: string, players: seq<Player>)

  /** One finished set, appended to the match history. */
  datatype SetHistory = SetHistory(setNumber: int, scoreA: nat, scoreB: nat, winner: TeamId)

  /** `'standard'` (win by two) or `'sudden_death_3pt'` (reset at deuce, first to 3). */
  datatype DeuceType = Standard | SuddenDeath3pt

  datatype GameConfig = GameConfig(
    pointsPerSet: int,
    tieBreakPoints: int,
    hasTieBreak: bool,
    maxSets: int,
    deuceType: DeuceType)

  /** The whole match state the score engine works on. */
  datatype GameState = GameState(
    teamAName: string,
    teamBName: string,
    scoreA: nat,
    scoreB: nat,
    setsA: nat,
    setsB: nat,
    currentSet: int,
    history: seq<SetHistory>,
    isMatchOver: bool,
    matchWinner: Option<TeamId>,
    swappedSides: bool,
    inSuddenDeath: bool,
    config: GameConfig,
    matchDurationSeconds: nat,
    isTimerRunning: bool,
    servingTeam: Option<TeamId>,
    timeoutsA: nat,
    timeoutsB: nat)
  {
    function Score(t: TeamId): nat {
      if t == A then scoreA else scoreB
    }

    function Sets(t: TeamId): nat {
      if t == A then setsA else setsB
    }

    function Timeouts(t: TeamId): nat {
      if t == A then timeoutsA else timeoutsB
    }

    function TeamName(t: TeamId): string {
      if t == A then teamAName else teamBName
    }
  }

  datatype Language = Pt | En

  /** `'swap'` when the entering team was complete, `'cannibalized'` when it was
      topped up with players of the losing team. */
  datatype RotationAction = Swap | Cannibalized

  /** The report the queue hook builds on every rotation (names only). */
  datatype RotationReport = RotationReport(
    winnerSide: TeamId,
    winnerTeamName: string,
    loserTeamName: string,
    enteringTeamName: string,
    action: RotationAction,
    fixedStaying: seq<string>,
    comingFromQueue: seq<string>,
    recycledFromLoser: seq<string>,
    goingToQueue: seq<string>)

  /** The two teams on court, the waiting queue (index 0 is next up), the game
      counter and the last rotation report. */
  datatype PlayerQueueState = PlayerQueueState(
    courtA: Team,
    courtB: Team,
    queue: seq<Team>,
    nextGameIndex: int,
    lastReport: Option<RotationReport>)
  {
    function Court(t: TeamId): Team {
      if t == A then courtA else courtB
    }
  }
}
