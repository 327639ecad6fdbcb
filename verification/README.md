# VolleyScore-Pro core in Dafny

A model of the scoring core of the VolleyScore-Pro volleyball scoreboard,
together with proofs of the rules it promises. The model covers:

- the match engine of `useVolleyGame`: points, set and match completion, the
  standard and sudden-death deuce rules, timeouts, serve, side switching and
  the bounded undo stack;
- the player queue of `usePlayerQueue`: building two courts and a waiting
  queue from a pasted name list, and the "cannibal" rotation;
- the decision logic in the user interface:
  - the board: sides, displayed target, spoken announcements;
  - the score cards: badges, gestures, timeout buttons, set dots, names;
  - the history bar: clock, tie-break badge, set columns, goal placeholder;
  - the player manager: parsing, fixed sides, preview, saved map;
  - the team manager: the drop guard and the generator;
  - the settings form: steppers, edits, presets, change detection, factory
    reset, save.

Every operation is a pure function on immutable datatypes. React state
setters become functions from the old state to the new one. The hook's two
pieces of state, the match state and the undo stack, are one `Engine` value.

Modules, one per source file plus shared pieces:

- `Wrappers`: `Option`.
- `Types`: the records of `src/types.ts`. A player's `isFixed` is
  `Option<TeamId>`, the way the queue hook uses it, rather than the declared
  boolean.
- `Constants`: default configuration, sets to win, minimum lead, translation
  lookup (`src/constants.ts`).
- `Text`: JavaScript's `trim`, the name-list split, decimal rendering and
  `padStart`, with their inverses and shapes.
- `Score`: the state transitions of `useVolleyGame` and the match invariant
  `Valid` that every transition keeps.
- `VolleyGame`: the hook itself, with the undo stack and its laws.
- `AppView`: the root `App.tsx`.
- `ScoreCard`, `HistoryBar`, `PlayerManager`, `TeamManager`, `Settings`: the
  components of the same names.
- `PlayerQueue`: `usePlayerQueue`.

Every operation has a partner it is proved against:

- a point against the invariant `Valid`;
- a push against `Undo`;
- the formatted clock against a parser that reads it back;
- the name split against the text with its separators removed;
- the imperative preview loop against a recursive reference definition;
- the generated roster and the rotation against the multiset of players;
- a badge against the engine's verdict on the next point;
- a save against the form's change test.

## Model

| member | source | states |
|---|---|---|
| Types.FindFirst | src/components/PlayerManagerModal.tsx:53 | the index of the first element with the key, no earlier element has it; none exactly when no element has it |
| Constants.SetsToWinMatch | src/constants.ts:13 | the sets needed are the least count whose double reaches maxSets (ceil of maxSets/2) |
| Constants.SetsToWinMatchExamples | src/constants.ts:3-13 | 5 sets need 3, 3 need 2, 1 needs 1; the minimum lead is 2; the default configuration is 25 points, tie-break 15 and on, 5 sets, standard deuce |
| Constants.SetsToWinMatchMajority | src/constants.ts:13 | for at least one set the count lies in 1..n and is a strict majority for odd n, exactly half for even n |
| Constants.T | src/constants.ts:151-153 | the language's entry when present and non-empty, the key itself when missing; never empty for a non-empty key |
| Constants.TranslationExamples | src/constants.ts:40-153 | "home" is CASA in Portuguese, "guest" is GUEST in English; keys the table lacks come back unchanged |
| Score.SetTarget | src/hooks/useVolleyGame.ts:176-178 | the tie-break target exactly in the last set of a multi-set match with tie-break on; the regular target otherwise |
| Score.CheckStandardWin | src/hooks/useVolleyGame.ts:237-241 | a team is named if and only if it reached the target with a lead of two; nobody is named exactly when neither qualifies |
| Score.StandardWinExamples | src/hooks/useVolleyGame.ts:237-241 | 25-23 wins at 25, 25-24 does not, 24-26 wins for B, 16-15 does not win at 15 but 17-15 does |
| Score.TimerAfterPoint | src/hooks/useVolleyGame.ts:158-161 | after a point the timer runs exactly when it already ran or no time has elapsed yet |
| Score.HandleSetWin | src/hooks/useVolleyGame.ts:243-273 | one history entry with the set number, final scores and winner; only the winner's set count rises; timeouts, serve and sudden death cleared; a match winner exactly when a team holds the needed sets; a won match keeps the final scores and set number and stops the timer; otherwise 0-0 in the next set |
| Score.PointResult | src/hooks/useVolleyGame.ts:154-235 | nothing once the match is over; an ordinary point raises only the scorer's score by one, gives the scorer the serve and changes nothing else; the deuce point of the sudden-death rule resets to 0-0 and starts the play-off; a set-winning point is exactly `handleSetWin` with the potential scores and the timer rule, so the winner's set count rises, timeouts, serve and sudden death are cleared, and the match ends or the next set starts at 0-0 |
| Score.SubtractResult | src/hooks/useVolleyGame.ts:275-282 | a change exactly when the match is open and the team has points; then only that score drops by one |
| Score.TimeoutResult | src/hooks/useVolleyGame.ts:128-138 | refused exactly at two used timeouts; otherwise only that team's count rises by one |
| Score.ToggleService | src/hooks/useVolleyGame.ts:121-126 | A hands the serve to B; B and nobody hand it to A; nothing else changes |
| Score.ToggleSides | src/hooks/useVolleyGame.ts:117-119 | only the side orientation flips |
| Score.SetTeamNames | src/hooks/useVolleyGame.ts:145-147 | only the two names change, to the given ones |
| Score.ResetState | src/hooks/useVolleyGame.ts:103-115 | the initial state, keeping the names and side orientation, with the new configuration when given |
| Score.WinByTwoAt25 | src/hooks/useVolleyGame.ts:222-241 | from 24-24 at target 25, a point gives 25-24 and no set; the next gives the set at 26-24 |
| Score.SuddenDeathTrigger | src/hooks/useVolleyGame.ts:207-217 | under sudden death, the point bringing both teams to one short of the target resets to 0-0, starts the play-off and records no set |
| Score.SuddenDeathFirstToThree | src/hooks/useVolleyGame.ts:181-204 | in the play-off, a point wins the set if and only if it brings the scorer to 3, whatever the other score |
| Score.InitialStateValid | src/hooks/useVolleyGame.ts:12-31 | the initial state satisfies the match invariant |
| Score.ResetStateValid | src/hooks/useVolleyGame.ts:103-115 | a reset under a configuration with at least one set satisfies the invariant |
| Score.SetWinKeepsValid | src/hooks/useVolleyGame.ts:243-273 | a set win from an open valid state keeps the invariant (set counts agree with the history, sets numbered in order, winner holds the needed sets) |
| Score.PointKeepsValid | src/hooks/useVolleyGame.ts:154-235 | every committed point keeps the invariant |
| Score.SubtractKeepsValid | src/hooks/useVolleyGame.ts:275-282 | every committed subtraction keeps the invariant |
| Score.TimeoutKeepsValid | src/hooks/useVolleyGame.ts:128-138 | every granted timeout keeps the invariant |
| Score.SetWinOutcome | src/hooks/useVolleyGame.ts:243-273 | on valid states a set win ends the match exactly when the winner reaches the needed sets, and then names that team; otherwise the next set starts at 0-0 |
| VolleyGame.Load | src/hooks/useVolleyGame.ts:39-55 | a saved state with a configuration becomes the state and the only snapshot; anything else keeps the initial engine |
| VolleyGame.UpdateState | src/hooks/useVolleyGame.ts:79-87 | the new state is current and pushed; at ten snapshots the oldest is dropped, so the depth stays at ten |
| VolleyGame.Undo | src/hooks/useVolleyGame.ts:89-101 | with one snapshot or fewer nothing changes; otherwise the top snapshot is popped and the one below becomes the state |
| VolleyGame.ResetMatch | src/hooks/useVolleyGame.ts:103-115 | the initial state as the only snapshot, keeping only names and sides, with the new or the current configuration; scores, sets, history, timeouts, serve, sudden death, match end and clock start over; undo is no longer possible |
| VolleyGame.ApplySettings | src/hooks/useVolleyGame.ts:149-152 | the initial state under the given configuration as the only snapshot, names and sides unchanged, everything else started over |
| VolleyGame.ToggleSides | src/hooks/useVolleyGame.ts:117-119 | only the sides flip; the rest of the state and the undo stack are untouched |
| VolleyGame.ToggleService | src/hooks/useVolleyGame.ts:121-126 | the serve passes as toggleService says; the rest of the state and the undo stack are untouched |
| VolleyGame.SetTeamNames | src/hooks/useVolleyGame.ts:145-147 | only the names change; the rest of the state and the undo stack are untouched |
| VolleyGame.UseTimeout | src/hooks/useVolleyGame.ts:128-143 | nothing at two timeouts; otherwise only that team's count rises by one, the rest of the state is unchanged, and the state is pushed without the ten-snapshot cap |
| VolleyGame.AddPoint | src/hooks/useVolleyGame.ts:154-235 | nothing once the match is over; otherwise the point's state is pushed through updateState |
| VolleyGame.SubtractPoint | src/hooks/useVolleyGame.ts:275-282 | nothing when the match is over or the score is 0; otherwise the state with only that score lowered by one (serve, timeouts, history, sets, configuration, timer unchanged) is pushed through `updateState` with its 10-entry eviction |
| VolleyGame.UndoAfterUpdate | src/hooks/useVolleyGame.ts:79-101 | below ten snapshots, undo right after a push restores the engine exactly |
| VolleyGame.UndoAfterUpdateAtCapacity | src/hooks/useVolleyGame.ts:79-101 | at ten snapshots, push then undo restores the state but loses the oldest snapshot |
| VolleyGame.UndoAtBottom | src/hooks/useVolleyGame.ts:89-101 | undo on the initial single snapshot changes nothing and undo is not offered |
| VolleyGame.UndoDepthBound | src/hooks/useVolleyGame.ts:79-143 | pushes through updateState keep the depth within ten; a timeout at depth ten makes it eleven |
| VolleyGame.InitialEngineValid | src/hooks/useVolleyGame.ts:12-31 | the engine at mount holds only valid states |
| VolleyGame.UpdateKeepsValid | src/hooks/useVolleyGame.ts:79-87 | pushing a valid state keeps every snapshot valid, eviction included |
| VolleyGame.AddPointKeepsValid | src/hooks/useVolleyGame.ts:154-235 | addPoint keeps the engine valid |
| VolleyGame.SubtractPointKeepsValid | src/hooks/useVolleyGame.ts:275-282 | subtractPoint keeps the engine valid |
| VolleyGame.UseTimeoutKeepsValid | src/hooks/useVolleyGame.ts:128-143 | useTimeout keeps the engine valid |
| VolleyGame.UndoKeepsValid | src/hooks/useVolleyGame.ts:89-101 | undo keeps the engine valid |
| VolleyGame.ResetAndTogglesKeepValid | src/hooks/useVolleyGame.ts:103-126 | both toggles, a plain reset and a settings reset with at least one set keep the engine valid |
| AppView.LeftTeam | App.tsx:142 | B is drawn on the left exactly when the sides are swapped |
| AppView.RightTeam | App.tsx:143 | the right team is always the other one, A exactly when swapped |
| AppView.ToggleSidesSwapsBoard | App.tsx:142-143 | switching sides puts each team where the other one was |
| AppView.DisplayedTarget | App.tsx:145-147 | 3 during the play-off; otherwise the tie-break target in a deciding set with tie-break on, the regular target in every other case |
| AppView.DisplayedTargetIsEngineTarget | App.tsx:145-147 | the target on display is the one the engine plays to: reaching it with a lead of two wins the set, and in the play-off reaching it is winning |
| AppView.TeamLabel | App.tsx:65-67 | the team's name, or the localized home/guest label when the name is empty; never empty |
| AppView.PointAnnouncement | App.tsx:60-73 | announced exactly when a score went up; the scorer is A exactly when A's score went up; the text is the point word and the label |
| AppView.SetAnnouncement | App.tsx:77-85 | announced exactly when the set number went up and a set is recorded, naming the last set's winner |
| AppView.PlainPointAnnounced | App.tsx:56-93 | an ordinary point is announced for the scorer and no set is announced |
| AppView.SetWinAnnounced | App.tsx:56-93 | a set win that does not end the match is announced as a set for its winner and not as a point |
| AppView.MatchWinAnnouncedAsPoint | App.tsx:56-93 | the match-ending point is announced as a point for the scorer and never as a set |
| AppView.DeuceResetSilent | App.tsx:56-93 | the sudden-death reset is announced neither as a point nor as a set |
| ScoreCard.PropsFor | App.tsx:179-223 | a card gets its team's name, score, opponent score, sets, timeouts, the sets to win and the displayed target |
| ScoreCard.BadgesExclusive | src/components/ScoreCard.tsx:80-81 | the match-point and set-point badges never show together and neither shows on a tie |
| ScoreCard.BadgeMeansSetOnNextPoint | src/components/ScoreCard.tsx:80-81 | a badge means the next point wins the set; outside the play-off every set-winning next point shows a badge |
| ScoreCard.MatchPointMeansMatchOnNextPoint | src/components/ScoreCard.tsx:80 | the match-point badge means the next point wins the match for that team |
| ScoreCard.SuddenDeathTieHasNoBadge | src/components/ScoreCard.tsx:80-81 | at 2-2 in the play-off either next point wins the set, yet no badge shows |
| ScoreCard.DragThreshold | src/components/ScoreCard.tsx:60 | the swipe distance is positive (50 in landscape, 80 otherwise) |
| ScoreCard.DragAction | src/components/ScoreCard.tsx:199-206 | beyond the threshold upwards adds, beyond it downwards subtracts, anything in between does nothing |
| ScoreCard.DragMirror | src/components/ScoreCard.tsx:199-206 | the mirrored swipe asks for the opposite; a swipe that counts in portrait counts the same in landscape |
| ScoreCard.TapAction | src/components/ScoreCard.tsx:209-214 | a tap adds a point exactly when it does not end a drag, and never subtracts |
| ScoreCard.TimeoutButtonsMatchEngine | src/components/ScoreCard.tsx:175-186 | some timeout button is enabled exactly when the engine would grant a timeout |
| ScoreCard.SetDots | src/components/ScoreCard.tsx:150-160 | one dot per set needed (none for a non-positive count), dot i filled exactly when i is below the sets won |
| ScoreCard.FilledDots | src/components/ScoreCard.tsx:150-160 | the filled dots count the sets won, clamped to the dots shown |
| ScoreCard.DotsCountSets | src/components/ScoreCard.tsx:150-160 | on valid states the filled dots are exactly the team's sets |
| ScoreCard.DisplayName | src/components/ScoreCard.tsx:75-77 | the team name unless it is empty or blank, else the localized home/guest label |
| ScoreCard.BlankNameCardVersusAnnouncement | src/components/ScoreCard.tsx:75-77 | a blank name shows the label on the card but is read as blank by the announcement |
| HistoryBar.TimeParts | src/components/HistoryBar.tsx:17-20 | seconds = 3600 hours + 60 minutes + seconds, with minutes and seconds below 60 |
| HistoryBar.TwoDigitsValue | src/components/HistoryBar.tsx:22-23 | below 100 the padded field is two characters that read back as the number |
| HistoryBar.FormatTimeShape | src/components/HistoryBar.tsx:21-23 | "MM:SS" under an hour; "H:MM:SS" with no leading zero from an hour on |
| HistoryBar.FormatClockRoundTrip | src/components/HistoryBar.tsx:21-23 | a rendered clock reads back as its seconds |
| HistoryBar.FormatTimeRoundTrip | src/components/HistoryBar.tsx:17-24 | reading the formatted time back gives the seconds: formatting loses nothing |
| HistoryBar.TieBreakBadgeIsDecidingSet | src/components/HistoryBar.tsx:39 | the badge marks exactly the engine's deciding set, even when the tie-break target is off and the set is played to the regular target |
| HistoryBar.SetColumns | src/components/HistoryBar.tsx:64-67 | swapped: left shows B's score and lights on B's wins, right shows A's; otherwise the reverse |
| HistoryBar.ColumnsFollowBoard | src/components/HistoryBar.tsx:64-67 | the left column belongs to the team drawn on the left, and exactly one column is lit |
| HistoryBar.GoalShownBeforeFirstSet | src/components/HistoryBar.tsx:54-58 | on valid states the goal shows exactly while no set is recorded, and then no team has the sets it states |
| Text.Trim | src/hooks/usePlayerQueue.ts:46 | the trimmed name is no longer than the input and starts and ends with a non-space character |
| Text.TrimIsInfix | src/hooks/usePlayerQueue.ts:46 | the trimmed name is the infix of the input between a blank prefix and a blank suffix |
| Text.TrimEmptyIffBlank | src/components/PlayerManagerModal.tsx:46 | trimming gives the empty string exactly for blank text |
| Text.SplitNames | src/hooks/usePlayerQueue.ts:46 | one more piece than separators, and no piece holds a separator |
| Text.SplitNamesSpellsText | src/hooks/usePlayerQueue.ts:46 | the pieces joined give the text with its separators removed |
| Text.ParseNames | src/hooks/usePlayerQueue.ts:46 | every parsed name is non-empty, trimmed and free of separators |
| Text.ParseNamesAtSeparator | src/hooks/usePlayerQueue.ts:46 | a comma or newline splits the list into the names before it followed by the names after it |
| Text.ParseNamesSingle | src/hooks/usePlayerQueue.ts:46 | a text without separators is one trimmed name, or none when blank |
| Text.DecimalString | src/components/HistoryBar.tsx:22-23 | a non-negative number renders with no leading zero, one digit exactly below ten |
| Text.DecimalStringValue | src/components/HistoryBar.tsx:22-23 | the rendered number reads back as itself |
| Text.PadStartShape | src/components/HistoryBar.tsx:22-23 | padding keeps the string as a suffix, preceded by fill characters up to the width |
| PlayerQueue.MakePlayers | src/hooks/usePlayerQueue.ts:54-58 | one player per name, in order, the name as id, with the side the fixed map gives or none |
| PlayerQueue.NoneFixedWithoutMap | src/hooks/usePlayerQueue.ts:57 | with an empty map nobody is tied to a side |
| PlayerQueue.WithSide | src/hooks/usePlayerQueue.ts:61-63 | the filtered players all carry the requested side |
| PlayerQueue.NotFixedTo | src/hooks/usePlayerQueue.ts:133 | the leaving players are exactly those not tied to the given side |
| PlayerQueue.SidePartition | src/hooks/usePlayerQueue.ts:61-63 | players fixed to A, fixed to B and untied together are exactly all players |
| PlayerQueue.SliceIndex | src/hooks/usePlayerQueue.ts:66-68 | the bound slice uses: clamped to the length, counted from the end when negative |
| PlayerQueue.DistributeConserves | src/hooks/usePlayerQueue.ts:61-83 | each player ends on court A, court B or in the leftover, exactly once, even with more than six tied to a side |
| PlayerQueue.DistributeFillsCourts | src/hooks/usePlayerQueue.ts:61-83 | court A is its fixed players then the first untied ones up to six; court B the same from the rest; both full when enough untied players exist |
| PlayerQueue.DistributeUntied | src/hooks/usePlayerQueue.ts:61-83 | with nobody tied, court A is the first six, court B the next six and the rest is left over |
| PlayerQueue.DistributeWithoutFixed | src/hooks/usePlayerQueue.ts:61-73 | without a fixed map court A takes the first six players |
| PlayerQueue.DistributeWithoutFixedCourtB | src/hooks/usePlayerQueue.ts:75-83 | without a fixed map court B takes the six after court A's |
| PlayerQueue.Chunks | src/hooks/usePlayerQueue.ts:87-100 | groups of six in order, the last holding the remainder, joining back to the input |
| PlayerQueue.ChunksCount | src/hooks/usePlayerQueue.ts:90 | there are ceil(n/6) groups |
| PlayerQueue.QueueTeams | src/hooks/usePlayerQueue.ts:87-100 | ceil(n/6) queue teams holding the leftover in order; all but the last have six; ids team-q-i; names from the map at key i+2 or "Time C", "Time D", ... |
| PlayerQueue.Roster | src/hooks/usePlayerQueue.ts:54-108 | courts named from the map or "Time A"/"Time B", game index 1, no report, and everybody named is on a court or queued exactly once |
| PlayerQueue.RosterPlacesDistribution | src/hooks/usePlayerQueue.ts:102-108 | the roster's courts and queue hold the distributed players |
| PlayerQueue.GenerateRoster | src/hooks/usePlayerQueue.ts:46-51 | no roster exactly when fewer than two names parse |
| PlayerQueue.ImportPlayers | src/hooks/usePlayerQueue.ts:41-113 | fewer than two names leave the state alone; otherwise the roster of the parsed names |
| PlayerQueue.SplitLoser | src/hooks/usePlayerQueue.ts:129-159 | the loser's tied players stay; the rest leave; the queued and recycled players together are exactly the leaving ones, the recycled being the last min(needed, leaving) when needed is positive |
| PlayerQueue.RecycledAreRotating | src/hooks/usePlayerQueue.ts:130-159 | nobody tied to the losing side is recycled or queued |
| PlayerQueue.RotateQueue | src/hooks/usePlayerQueue.ts:116-219 | nothing with an empty queue; otherwise the winner stays, the next team (staying, queued, recycled players) takes the loser's side under its own id and name, the loser goes to the back, the game index rises by one, and the report names the winner side, the winner, loser and entering teams, the staying, queued, recycled and leaving players, and says cannibalized exactly when players were recycled |
| PlayerQueue.RotationKeepsQueueLength | src/hooks/usePlayerQueue.ts:177-184 | the queue keeps its length |
| PlayerQueue.NotFixedPartition | src/hooks/usePlayerQueue.ts:130-133 | staying and leaving players together are exactly the loser's players |
| PlayerQueue.RotationConservesPlayers | src/hooks/usePlayerQueue.ts:116-219 | rotation never loses or duplicates a player |
| PlayerQueue.RotationEnteringSize | src/hooks/usePlayerQueue.ts:140-162 | the entering team is topped up to six when the loser can supply the players, and never smaller than what it brought |
| PlayerQueue.RotationScenario | src/hooks/usePlayerQueue.ts:116-219 | A beats a full untied B while the next team has four: A stays, and the entering team is its four plus B's last two |
| PlayerQueue.RotationScenarioQueue | src/hooks/usePlayerQueue.ts:116-219 | in that scenario B's first four go to the queue under B's name, the game index becomes 2, and the report says cannibalized |
| PlayerQueue.ResetQueue | src/hooks/usePlayerQueue.ts:222-230 | two empty courts "Time A" and "Time B" with id "empty", no queue, no report, game index 1 |
| PlayerQueue.HasQueue | src/hooks/usePlayerQueue.ts:232 | false exactly when a rotation either way would change nothing |
| PlayerQueue.Names | src/hooks/usePlayerQueue.ts:204-207 | the report's names are the players' names, in order |
| PlayerManager.FindByName | src/components/PlayerManagerModal.tsx:53 | the index of the first player with that name, or none when no player has it |
| PlayerManager.HandleProcess | src/components/PlayerManagerModal.tsx:45-59 | nothing for blank text; otherwise the parsed names in order, each with the side of its first earlier holder |
| PlayerManager.PreviousSideIsFirstHolder | src/components/PlayerManagerModal.tsx:50-55 | a new name comes in untied, a known one on the side of its first holder |
| PlayerManager.ToggleFixed | src/components/PlayerManagerModal.tsx:61-71 | the player ends on the side exactly when not already there, otherwise untied; nobody else changes |
| PlayerManager.ToggleTwiceRestores | src/components/PlayerManagerModal.tsx:61-71 | toggling a side twice restores the list exactly when the player was not tied to the other side, and releases one that was |
| PlayerManager.ToggleSwitchesSides | src/components/PlayerManagerModal.tsx:61-71 | the other side's button moves a tied player straight across |
| PlayerManager.PreviewNamesFollowQueue | src/components/PlayerManagerModal.tsx:95-97 | the preview's names are "Time " and letter 65+i, and from the third team on equal the queue's default names |
| PlayerManager.TeamCount | src/components/PlayerManagerModal.tsx:84 | the least k with 6k at least n |
| PlayerManager.TeamCountIsCeiling | src/components/PlayerManagerModal.tsx:84 | the count is ceil(n/6) |
| PlayerManager.AllEntries | src/components/PlayerManagerModal.tsx:90-93 | every player in order, tagged with its index in the whole list |
| PlayerManager.PreviewSlice | src/components/PlayerManagerModal.tsx:88-103 | tagging a slice with pIndex plus the local index is cutting the same range out of the tagged list |
| PlayerManager.PlacedStep | src/components/PlayerManagerModal.tsx:86-104 | team k starts at 6k, holds one to six players and ends where team k+1 starts |
| PlayerManager.PreviewTeamShape | src/components/PlayerManagerModal.tsx:81-107 | team j has index j and its default name, one to six players, six unless last, the players from 6j on, the last ending at the end |
| PlayerManager.PreviewTeams | src/components/PlayerManagerModal.tsx:81-107 | the loop builds ceil(n/6) teams, equal to the recursive reference definition |
| PlayerManager.BuiltTeamsShape | src/components/PlayerManagerModal.tsx:81-107 | ceil(n/6) teams, all but the last with six, team i holding the players from 6i on with their global indices, the last ending at the last player |
| PlayerManager.FixedMapOf | src/components/PlayerManagerModal.tsx:73-75 | the map's keys are exactly the parsed names |
| PlayerManager.FixedMapLastWins | src/components/PlayerManagerModal.tsx:74-75 | a name maps to the side of its last occurrence |
| PlayerManager.FinalSave | src/components/PlayerManagerModal.tsx:73-79 | the text and team names are passed as given, every name is in the map with the side of its last occurrence |
| PlayerManager.SavedSidesReachPlayers | src/components/PlayerManagerModal.tsx:73-76 | with distinct names, every generated player carries the side chosen for it |
| PlayerManager.UntiedMapTiesNobody | src/hooks/usePlayerQueue.ts:57 | a map that ties nobody makes the same players as no map |
| PlayerManager.UntiedRoster | src/hooks/usePlayerQueue.ts:61-83 | with nobody tied, court A holds the first six names and court B the next six |
| PlayerManager.UntiedSaveFollowsPreview | src/components/PlayerManagerModal.tsx:73-107 | without tied players the saved courts are the first two previewed teams' names |
| TeamManager.FindTeam | src/components/TeamManagerModal.tsx:92 | the index of the first queue team with that id, or none |
| TeamManager.HandleDrop | src/components/TeamManagerModal.tsx:84-96 | a move exactly when the payload parses, the target is not the source and holds fewer than six; the move carries the payload's player and source and the target |
| TeamManager.DropNeverOverfills | src/components/TeamManagerModal.tsx:89-94 | an issued move leaves the target court or first matching queue team with at most six |
| TeamManager.DropOntoSourceIsNoop | src/components/TeamManagerModal.tsx:86-88 | a drop onto the source team, or with a payload that does not parse, moves nothing |
| TeamManager.DropOntoUnknownTargetIsIssued | src/components/TeamManagerModal.tsx:92-94 | a queue id no team carries counts as empty and the move is issued |
| TeamManager.QueueTeamIdsDistinct | src/hooks/usePlayerQueue.ts:95 | the generated queue ids are pairwise distinct |
| TeamManager.OnGenerate | src/hooks/usePlayerQueue.ts:41-113 | `importPlayers` with empty name and fixed maps: fewer than two names change nothing; otherwise courts "Time A" and "Time B" and everybody placed exactly once |
| TeamManager.GenerateWithoutOverrides | src/hooks/usePlayerQueue.ts:61-83 | with empty maps court A has the first six names and court B the next six, in order |
| TeamManager.CourtsWithoutOverrides | src/hooks/usePlayerQueue.ts:61-83 | with empty maps the courts are the first and second cut of the players |
| TeamManager.GenerateFourteen | src/hooks/usePlayerQueue.ts:61-83 | fourteen names fill both courts with six |
| TeamManager.GenerateFourteenQueue | src/hooks/usePlayerQueue.ts:85-100 | fourteen names leave one queue team of two, named "Time C" |
| Settings.StepDown | src/components/SettingsModal.tsx:42 | "-" calls onChange exactly when above the minimum, with a smaller value |
| Settings.StepUp | src/components/SettingsModal.tsx:47 | "+" calls onChange exactly when below the maximum, with a larger value |
| Settings.SteppersKeepBounds | src/components/SettingsModal.tsx:41-49 | an in-range value stays in range, moves by one, and "+" then "-" returns to it |
| Settings.SteppersMoveTowardsBounds | src/components/SettingsModal.tsx:41-49 | an out-of-range value only moves towards the range |
| Settings.ConfigChange | src/components/SettingsModal.tsx:142-144 | the edited key takes the value and every other key keeps its own |
| Settings.ConfigChangeLaws | src/components/SettingsModal.tsx:142-144 | edits to different keys commute, a later edit of a key overrides, writing back a key's value changes nothing |
| Settings.PresetConfig | src/components/SettingsModal.tsx:146-164 | official is the default configuration; monday is 15 points, tie-break 11 and off, one set, sudden death |
| Settings.PresetsInBounds | src/components/SettingsModal.tsx:146-164 | both presets lie in the steppers' ranges; official needs 3 sets, monday 1 and never reaches a deciding set |
| Settings.Open | src/components/SettingsModal.tsx:116-119 | the form opens on the props with the reset not armed |
| Settings.HasChangesIffEdited | src/components/SettingsModal.tsx:121-127 | save is enabled exactly when the form differs from what it was opened with; never right after opening |
| Settings.Act | src/components/SettingsModal.tsx:236-324 | an action leaves the reset flag alone; name edits touch only their name; the tie-break stepper does nothing while hidden |
| Settings.ActKeepsBounds | src/components/SettingsModal.tsx:266-299 | no single action takes the configuration out of range |
| Settings.ActionsKeepBounds | src/components/SettingsModal.tsx:266-299 | any sequence of actions keeps the configuration in range, so at least one set |
| Settings.FactoryResetClick | src/components/SettingsModal.tsx:133-140 | a press wipes exactly when armed, otherwise arms |
| Settings.FactoryResetNeedsTwoPresses | src/components/SettingsModal.tsx:133-140 | a fresh modal never wipes on the first press and always on the second, whatever is edited between |
| Settings.PropsOf | App.tsx:268-272 | the modal gets the engine's configuration and names |
| Settings.SaveAsWritten | App.tsx:274 | the save along the `onSave` path of src/components/SettingsModal.tsx:129-131: the configuration is applied and the old names stay; the `onSaveNames` prop of App.tsx:275 is not modelled |
| Settings.SaveAsWrittenDropsNames | App.tsx:274 | along that `onSave` path a renamed team keeps its old name after saving, and save stays enabled |
| Settings.Save | src/components/SettingsModal.tsx:129-131 | the match restarts with the edited configuration and names as the only snapshot |
| Settings.SaveSettlesForm | src/components/SettingsModal.tsx:121-131 | after a save the form matches the engine, so save is disabled, and the engine stays valid |

## Left out

- Persistence: the local-storage load and save of both hooks are I/O. Load is modelled only as its outcome: the saved state is adopted when it parsed and has a configuration.
- The match clock's once-a-second tick is a periodic callback. Only the running flag's changes are modelled.
- Audio, speech, wake lock, orientation, install prompts, service worker, animations, haptics and styling have no decision logic.
- The name sync (`setTeamNames`) that `importPlayers` and `rotateQueue` issue to the match hook is a cross-hook callback and is not modelled.
- PlayerQueue.DistributeFillsCourts: assumes at most six players tied to each side. Beyond that the source's `slice` with a negative count is modelled exactly (`SliceIndex`), and only conservation is proved for it.
- `fixedMap` and `teamNameMap` are plain JavaScript objects. Inherited keys such as a player named "constructor" are not modelled; the maps are Dafny maps.
- `String.fromCharCode` on a lone surrogate yields no scalar value; the model gives U+FFFD there. That happens only after some 55,000 queue teams.
- `handleDrop`: a payload `JSON.parse` rejects, or one without the two fields, is modelled as one "does not parse" case (None).
- `hasChanges` compares two `JSON.stringify` results. Both configurations list their keys in the same order, so this is modelled as structural inequality.
- Translation keys the components ask for but the table lacks (`goal`, `sets`, `tieBreak`, `setsLabel`, ...) come back unchanged. Only the entries the modelled logic reads are in the table.
- ScoreCard.DragAction: the offset is an exact real number; floating-point rounding of the drag offset is not modelled.
- PlayerManager.ToggleFixed: the source copies the array but mutates the shared player record. Under React's development double invocation of updaters that toggles twice. The model is the single, intended toggle.
- PlayerManager.PreviewTeams: the preview ignores fixed sides, as the source does, so it shows the saved courts only when nobody is tied (PlayerManager.UntiedSaveFollowsPreview).
- The player manager's pre-fill of the text box from the current teams (`src/components/PlayerManagerModal.tsx:30-41`) is an effect on opening and is not modelled.
- The settings modal's language and theme controls only change presentation.
- Settings.FactoryResetClick: the wipe (clearing storage and reloading the page) is modelled as an outcome only.
- Saving does not close the settings modal; the modal's open state is rendering.
- The root-level duplicates (`constants.ts`, `types.ts`, `components/Controls.tsx`), `src/App.tsx` and `src/components/MatchOverModal.tsx` are older copies or rendering. Only the root `App.tsx` is modelled.
- The team-manager operations `generateTeams`, `rotateTeams`, `movePlayer`, `removePlayer`, `togglePlayerFixed` and `updateTeamName` are called by `src/App.tsx:33` but defined nowhere in the hooks, and the root `App.tsx` does not render the team manager. Of these only the guard before `onMovePlayer` is modelled, together with `importPlayers` under empty maps (TeamManager.OnGenerate).
- TeamManager.OnGenerate: assumes the generator tab's `onGenerate(namesText, {}, {})` (`src/components/TeamManagerModal.tsx:215`) reaches `importPlayers`; no source file makes that binding, since `src/App.tsx:110` passes the undefined `generateTeams`. The member promises only what `importPlayers` does with empty maps.
- Settings.SaveAsWritten: models only the `onSave` path of `src/components/SettingsModal.tsx:129-131`. The modal `App.tsx` renders (`./components/SettingsModal`) is not part of this model, and the `onSaveNames` prop it receives at `App.tsx:275` is not modelled, so the dropped names hold only if that modal saves the same way.

## Findings

| source | as written | input that shows it | evidently intended | confidence | as-written member | corrected member |
|---|---|---|---|---|---|---|
| App.tsx:274 | the modal's `onSave(config, teamAName, teamBName)` is wired to `applySettings(config)` (src/hooks/useVolleyGame.ts:149-152), which ignores the names. The `onSave(config, teamAName, teamBName)` signature is that of `src/components/SettingsModal.tsx:24,130`; the modal App.tsx renders is `./components/SettingsModal` (App.tsx:9), which is not part of this model, and App.tsx:275 also passes it `onSaveNames`, which the src modal does not declare. The claim holds if the rendered modal saves as the src one does; if it also calls `onSaveNames`, the names survive | open settings with team A named "X", type "Y" in the team A field, save | the match restarts with the edited names, and save is disabled again, as `src/App.tsx:109` forwards the names to `applySettings` | medium: not executed, and the rendered modal is not part of this model | Settings.SaveAsWritten, Settings.SaveAsWrittenDropsNames | Settings.Save, Settings.SaveSettlesForm |
