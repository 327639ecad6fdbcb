/** The decision logic of the `PlayerManagerModal`: reading the pasted list
    into players that remember their earlier fixed side, toggling a player's
    side, the team preview, and the fixed-side map handed to the roster
    generator on save. */
module PlayerManager {
  import opened Wrappers
  import opened Types
  import opened Text
  import PlayerQueue
  import TeamManager

  /** A parsed player in the configuration step: a name and the side it is
      tied to, if any. */
  datatype PlayerInput = PlayerInput(name: string, fixed: Option<TeamId>)

  /** The index of the first player named `name`
      (`currentFlat.find(p => p.name === name)`). */
  function FindByName(flat: seq<Player>, name: string): (r: Option<nat>)
    ensures r.Some? ==> r.value < |flat| && flat[r.value].name == name &&
                        forall k :: 0 <= k < r.value ==> flat[k].name != name
    ensures r.None? ==> forall k :: 0 <= k < |flat| ==> flat[k].name != name
  {
    FindFirst(flat, (p: Player) => p.name, name)
  }

  /** The side a name had before: that of the first existing player with the
      same name, None when nobody has it. */
  function PreviousSide(flat: seq<Player>, name: string): Option<TeamId> {
    match FindByName(flat, name)
    case Some(k) => flat[k].isFixed
    case None => None
  }

  /** `handleProcess`: None (nothing happens) for a blank text; otherwise the
      parsed names, in order, each with the side its first namesake among the
      teams of `currentList` had. */
  function HandleProcess(text: string, currentList: seq<Team>): (r: Option<seq<PlayerInput>>)
    ensures r.None? <==> AllSpace(text)
    ensures r.Some? ==> |r.value| == |ParseNames(text)|
    ensures r.Some? ==> forall i :: 0 <= i < |r.value| ==>
              r.value[i].name == ParseNames(text)[i] &&
              r.value[i].fixed == PreviousSide(PlayerQueue.TeamsPlayers(currentList), ParseNames(text)[i])
  {
    TrimEmptyIffBlank(text);
    if Trim(text) == [] then None
    else
      var names := ParseNames(text);
      var flat := PlayerQueue.TeamsPlayers(currentList);
      Some(seq(|names|, i requires 0 <= i < |names| => PlayerInput(names[i], PreviousSide(flat, names[i]))))
  }

  /** A name nobody had before comes in rotating; a name somebody had comes
      in on the side of its first holder. */
  lemma PreviousSideIsFirstHolder(flat: seq<Player>, name: string)
    ensures (forall k :: 0 <= k < |flat| ==> flat[k].name != name) ==> PreviousSide(flat, name) == None
    ensures forall k :: 0 <= k < |flat| && flat[k].name == name &&
                        (forall k' :: 0 <= k' < k ==> flat[k'].name != name) ==>
              PreviousSide(flat, name) == flat[k].isFixed
  {
    var f := FindByName(flat, name);
    if f.Some? {
      forall k | 0 <= k < |flat| && flat[k].name == name &&
                 (forall k' :: 0 <= k' < k ==> flat[k'].name != name)
        ensures f.value == k
      {
      }
    }
  }

  /** `toggleFixed(index, side)`: a player already on `side` is released,
      any other is tied to `side`; nobody else changes. */
  function ToggleFixed(ps: seq<PlayerInput>, index: nat, side: TeamId): (r: seq<PlayerInput>)
    requires index < |ps|
    ensures |r| == |ps|
    ensures forall k :: 0 <= k < |ps| && k != index ==> r[k] == ps[k]
    ensures r[index].name == ps[index].name
    ensures r[index].fixed == Some(side) <==> ps[index].fixed != Some(side)
    ensures r[index].fixed == None || r[index].fixed == Some(side)
  {
    var p := ps[index];
    ps[index := PlayerInput(p.name, if p.fixed == Some(side) then None else Some(side))]
  }

  /** Toggling the same side twice restores the list exactly when the
      player was not tied to the other side; a player who was is released. */
  lemma ToggleTwiceRestores(ps: seq<PlayerInput>, index: nat, side: TeamId)
    requires index < |ps|
    ensures ToggleFixed(ToggleFixed(ps, index, side), index, side) == ps <==>
            ps[index].fixed != Some(Other(side))
    ensures ps[index].fixed == Some(Other(side)) ==>
              ToggleFixed(ToggleFixed(ps, index, side), index, side)[index].fixed == None
  {
    var r1 := ToggleFixed(ps, index, side);
    var r := ToggleFixed(r1, index, side);
    assert forall k :: 0 <= k < |ps| && k != index ==> r[k] == ps[k];
    match ps[index].fixed
    case None =>
      assert r1[index].fixed == Some(side);
      assert r[index] == ps[index];
    case Some(t) =>
      if t == side {
        assert r[index] == ps[index];
      } else {
        assert t == Other(side);
        assert r[index] != ps[index];
      }
  }

  /** Pressing the other side's button moves a tied player straight across. */
  lemma ToggleSwitchesSides(ps: seq<PlayerInput>, index: nat, side: TeamId)
    requires index < |ps| && ps[index].fixed == Some(Other(side))
    ensures ToggleFixed(ps, index, side)[index].fixed == Some(side)
  {
  }

  // ---------------------------------------------------------------------------
  // The team preview.

  /** A previewed player: its place in the whole list next to its data. */
  datatype PreviewPlayer = PreviewPlayer(name: string, fixed: Option<TeamId>, globalIndex: nat)

  datatype PreviewTeam = PreviewTeam(index: nat, defaultName: string, players: seq<PreviewPlayer>)

  /** The g-th parsed player as the preview shows it. */
  function Entry(ps: seq<PlayerInput>, g: nat): PreviewPlayer
    requires g < |ps|
  {
    PreviewPlayer(ps[g].name, ps[g].fixed, g)
  }

  /** The default name of the i-th previewed team: "Time A", "Time B", then
      the letter with code 65 + i. */
  function PreviewDefaultName(i: nat): string {
    if i == 0 then "Time A"
    else if i == 1 then "Time B"
    else "Time " + [PlayerQueue.CharFromCode(65 + i)]
  }

  /** The two special cases are the general rule's own values, and from the
      third team on the preview's names are the queue teams' default names,
      in the same order. */
  lemma PreviewNamesFollowQueue(i: nat)
    ensures PreviewDefaultName(i) == "Time " + [PlayerQueue.CharFromCode(65 + i)]
    ensures i >= 2 ==> PreviewDefaultName(i) == PlayerQueue.QueueTeamDefaultName(i - 2)
  {
    assert PlayerQueue.CharFromCode(65) == 'A';
    assert PlayerQueue.CharFromCode(66) == 'B';
  }

  /** The number of groups of six needed for n players, counted one group
      at a time: the least k with 6k >= n. */
  function TeamCount(n: nat): (k: nat)
    ensures PlayerQueue.TeamSize * k >= n && (k == 0 || PlayerQueue.TeamSize * (k - 1) < n)
  {
    if n == 0 then 0 else 1 + TeamCount(n - PlayerQueue.Min(PlayerQueue.TeamSize, n))
  }

  /** The count is `Math.ceil(n / 6)`. */
  lemma TeamCountIsCeiling(n: nat)
    ensures TeamCount(n) == (n + PlayerQueue.TeamSize - 1) / PlayerQueue.TeamSize
  {
    var k := TeamCount(n);
    if k > 0 {
      assert PlayerQueue.TeamSize * (k - 1) + 1 <= n <= PlayerQueue.TeamSize * k;
    }
  }

  /** Every parsed player as the preview shows it, in order. */
  function AllEntries(ps: seq<PlayerInput>): (es: seq<PreviewPlayer>)
    ensures |es| == |ps| && forall g :: 0 <= g < |ps| ==> es[g] == Entry(ps, g)
  {
    seq(|ps|, g requires 0 <= g < |ps| => Entry(ps, g))
  }

  /** The previewed team with index i cut from the indexed players: `size`
      of them from `from` on. */
  function Chunk(all: seq<PreviewPlayer>, i: nat, from: nat, size: nat): PreviewTeam
    requires from + size <= |all|
  {
    PreviewTeam(i, PreviewDefaultName(i), all[from..from + size])
  }

  /** One previewed team as the preview builds it: the players from `from`
      on, `size` of them, each tagged with its index in the whole list, which
      is the same as cutting the indexed list. */
  function PreviewSlice(ps: seq<PlayerInput>, i: nat, from: nat, size: nat): (t: PreviewTeam)
    requires from + size <= |ps|
    ensures t == Chunk(AllEntries(ps), i, from, size)
  {
    var teamSlice := ps[from..from + size];
    var withIndex := seq(|teamSlice|, k requires 0 <= k < |teamSlice| =>
                           PreviewPlayer(teamSlice[k].name, teamSlice[k].fixed, from + k));
    assert withIndex == AllEntries(ps)[from..from + size];
    PreviewTeam(i, PreviewDefaultName(i), withIndex)
  }

  /** The size of the i-th previewed team once `from` players are placed:
      the rest for the last team, six otherwise. */
  function SliceSize(playerCount: nat, numTeams: nat, i: nat, from: nat): int {
    if i == numTeams - 1 then playerCount - from else PlayerQueue.TeamSize
  }

  /** How many players the first k previewed teams hold: six each, except
      that all of them are placed once every team is built. */
  function Placed(n: nat, k: nat): nat
    requires k <= TeamCount(n)
  {
    if k == TeamCount(n) then n else PlayerQueue.TeamSize * k
  }

  /** Team k, for k below the number of teams, starts at 6k, holds between
      one and six players, and ends where the next one starts. */
  lemma PlacedStep(n: nat, k: nat)
    requires k < TeamCount(n)
    ensures Placed(n, k) == PlayerQueue.TeamSize * k
    ensures 1 <= SliceSize(n, TeamCount(n), k, Placed(n, k)) <= PlayerQueue.TeamSize
    ensures Placed(n, k) + SliceSize(n, TeamCount(n), k, Placed(n, k)) == Placed(n, k + 1)
  {
  }

  /** The first k previewed teams, each cut where the previous one ended. */
  function BuildTeams(all: seq<PreviewPlayer>, k: nat): seq<PreviewTeam>
    requires k <= TeamCount(|all|)
  {
    if k == 0 then []
    else
      var from := Placed(|all|, k - 1);
      BuildTeams(all, k - 1) + [Chunk(all, k - 1, from, SliceSize(|all|, TeamCount(|all|), k - 1, from))]
  }

  /** One more team is the next cut appended. */
  lemma BuildTeamsNext(all: seq<PreviewPlayer>, k: nat)
    requires k < TeamCount(|all|)
    ensures BuildTeams(all, k + 1) ==
            BuildTeams(all, k) + [Chunk(all, k, Placed(|all|, k), SliceSize(|all|, TeamCount(|all|), k, Placed(|all|, k)))]
  {
  }

  lemma {:induction false} BuildTeamsLength(all: seq<PreviewPlayer>, k: nat)
    requires k <= TeamCount(|all|)
    ensures |BuildTeams(all, k)| == k
  {
    if k > 0 {
      BuildTeamsLength(all, k - 1);
    }
  }

  /** Building more teams leaves the earlier ones alone: team j is always
      the slice starting at 6j. */
  lemma {:induction false} BuildTeamsAt(all: seq<PreviewPlayer>, k: nat, j: nat)
    requires j < k <= TeamCount(|all|)
    ensures |BuildTeams(all, k)| == k
    ensures BuildTeams(all, k)[j] == Chunk(all, j, Placed(|all|, j), SliceSize(|all|, TeamCount(|all|), j, Placed(|all|, j)))
  {
    BuildTeamsLength(all, k);
    BuildTeamsLength(all, k - 1);
    if j < k - 1 {
      BuildTeamsAt(all, k - 1, j);
    }
  }

  /** The previewed team with index j: its default name, between one and six
      players, six unless it is the last, and the players from 6j on, the
      last one ending at the end of the list. */
  lemma PreviewTeamShape(all: seq<PreviewPlayer>, teams: seq<PreviewTeam>, j: nat)
    requires teams == BuildTeams(all, TeamCount(|all|)) && j < TeamCount(|all|)
    ensures |teams| == TeamCount(|all|)
    ensures teams[j].index == j && teams[j].defaultName == PreviewDefaultName(j)
    ensures 1 <= |teams[j].players| <= PlayerQueue.TeamSize
    ensures j < TeamCount(|all|) - 1 ==> |teams[j].players| == PlayerQueue.TeamSize
    ensures j == TeamCount(|all|) - 1 ==> PlayerQueue.TeamSize * j + |teams[j].players| == |all|
    ensures PlayerQueue.TeamSize * j + |teams[j].players| <= |all| &&
            teams[j].players == all[PlayerQueue.TeamSize * j..PlayerQueue.TeamSize * j + |teams[j].players|]
  {
    BuildTeamsAt(all, TeamCount(|all|), j);
    PlacedStep(|all|, j);
  }

  /** `previewTeams`: the loop cuts the parsed list into the teams the
      functional definition describes, one per group of six; what those
      teams look like is `BuiltTeamsShape`. */
  method PreviewTeams(ps: seq<PlayerInput>) returns (teams: seq<PreviewTeam>)
    ensures |teams| == TeamCount(|ps|)
    ensures teams == BuildTeams(AllEntries(ps), TeamCount(|ps|))
  {
    var playerCount := |ps|;
    var numTeams := TeamCount(playerCount);
    teams := [];
    var pIndex: nat := 0;
    var i := 0;
    ghost var all := AllEntries(ps);
    while i < numTeams
      invariant i <= numTeams && teams == BuildTeams(all, i) && pIndex == Placed(playerCount, i)
      decreases numTeams - i
    {
      PlacedStep(playerCount, i);
      BuildTeamsNext(all, i);
      var sliceSize := SliceSize(playerCount, numTeams, i, pIndex);
      teams := teams + [PreviewSlice(ps, i, pIndex, sliceSize)];
      pIndex := pIndex + sliceSize;
      i := i + 1;
    }
    BuildTeamsLength(all, numTeams);
  }

  /** What the preview promises: ceil(n / 6) teams; every team but the last
      has six players and the last the remainder; team i holds the players
      from 6i on, each with its index in the whole list, and the last team
      ends at the last player, so that the teams read together give every
      player exactly once, in order. */
  lemma BuiltTeamsShape(all: seq<PreviewPlayer>, teams: seq<PreviewTeam>)
    requires teams == BuildTeams(all, TeamCount(|all|))
    ensures |teams| == TeamCount(|all|)
    ensures forall i :: 0 <= i < |teams| ==>
              teams[i].index == i && teams[i].defaultName == PreviewDefaultName(i)
    ensures forall i :: 0 <= i < |teams| ==> 1 <= |teams[i].players| <= PlayerQueue.TeamSize
    ensures forall i :: 0 <= i < |teams| - 1 ==> |teams[i].players| == PlayerQueue.TeamSize
    ensures forall i :: 0 <= i < |teams| ==>
              PlayerQueue.TeamSize * i + |teams[i].players| <= |all| &&
              teams[i].players == all[PlayerQueue.TeamSize * i..PlayerQueue.TeamSize * i + |teams[i].players|]
    ensures |teams| > 0 ==> PlayerQueue.TeamSize * (|teams| - 1) + |teams[|teams| - 1].players| == |all|
  {
    BuildTeamsLength(all, TeamCount(|all|));
    forall j | 0 <= j < TeamCount(|all|)
      ensures teams[j].index == j && teams[j].defaultName == PreviewDefaultName(j)
      ensures 1 <= |teams[j].players| <= PlayerQueue.TeamSize
      ensures j < TeamCount(|all|) - 1 ==> |teams[j].players| == PlayerQueue.TeamSize
      ensures j == TeamCount(|all|) - 1 ==> PlayerQueue.TeamSize * j + |teams[j].players| == |all|
      ensures PlayerQueue.TeamSize * j + |teams[j].players| <= |all| &&
              teams[j].players == all[PlayerQueue.TeamSize * j..PlayerQueue.TeamSize * j + |teams[j].players|]
    {
      PreviewTeamShape(all, teams, j);
    }
  }

  // ---------------------------------------------------------------------------
  // Saving.

  /** `handleFinalSave`'s map: every parsed name to its side; when a name
      occurs twice the later entry wins. */
  function FixedMapOf(ps: seq<PlayerInput>): (m: map<string, Option<TeamId>>)
    ensures forall i :: 0 <= i < |ps| ==> ps[i].name in m
    ensures forall name :: name in m ==> exists i :: 0 <= i < |ps| && ps[i].name == name
  {
    if ps == [] then map[]
    else FixedMapOf(ps[..|ps| - 1])[ps[|ps| - 1].name := ps[|ps| - 1].fixed]
  }

  /** The map holds, for each name, the side of its last occurrence. */
  lemma {:induction false} FixedMapLastWins(ps: seq<PlayerInput>, i: nat)
    requires i < |ps|
    requires forall j :: i < j < |ps| ==> ps[j].name != ps[i].name
    ensures FixedMapOf(ps)[ps[i].name] == ps[i].fixed
  {
    if i < |ps| - 1 {
      FixedMapLastWins(ps[..|ps| - 1], i);
    }
  }

  /** What the save hands to the roster generator: the text as typed, the
      team names entered in the preview, and the fixed-side map. */
  datatype SaveRequest = SaveRequest(text: string, teamNames: map<int, string>,
                                     fixedMap: map<string, Option<TeamId>>)

  function FinalSave(text: string, teamNames: map<int, string>, ps: seq<PlayerInput>): (r: SaveRequest)
    ensures r.text == text && r.teamNames == teamNames
    ensures forall i :: 0 <= i < |ps| ==> ps[i].name in r.fixedMap
    ensures forall i :: 0 <= i < |ps| && (forall j :: i < j < |ps| ==> ps[j].name != ps[i].name) ==>
              r.fixedMap[ps[i].name] == ps[i].fixed
  {
    forall i | 0 <= i < |ps| && (forall j :: i < j < |ps| ==> ps[j].name != ps[i].name)
      ensures FixedMapOf(ps)[ps[i].name] == ps[i].fixed
    {
      FixedMapLastWins(ps, i);
    }
    SaveRequest(text, teamNames, FixedMapOf(ps))
  }

  /** Round trip through the generator: when the text still parses to the
      configured names and no name repeats, every generated player carries
      exactly the side chosen for it in the configuration step. */
  lemma SavedSidesReachPlayers(text: string, teamNames: map<int, string>, ps: seq<PlayerInput>)
    requires |ParseNames(text)| == |ps|
    requires forall i :: 0 <= i < |ps| ==> ps[i].name == ParseNames(text)[i]
    requires forall i, j :: 0 <= i < j < |ps| ==> ps[i].name != ps[j].name
    ensures var req := FinalSave(text, teamNames, ps);
            forall i :: 0 <= i < |ps| ==>
              PlayerQueue.MakePlayers(ParseNames(req.text), req.fixedMap)[i].isFixed == ps[i].fixed
  {
    var req := FinalSave(text, teamNames, ps);
    forall i | 0 <= i < |ps|
      ensures PlayerQueue.MakePlayers(ParseNames(req.text), req.fixedMap)[i].isFixed == ps[i].fixed
    {
      assert forall j :: i < j < |ps| ==> ps[j].name != ps[i].name;
    }
  }

  /** A map that ties nobody places players exactly as no map at all. */
  lemma {:induction false} UntiedMapTiesNobody(names: seq<string>, fixedMap: map<string, Option<TeamId>>)
    requires forall name :: name in fixedMap ==> fixedMap[name] == None
    ensures PlayerQueue.MakePlayers(names, fixedMap) == PlayerQueue.MakePlayers(names, map[])
  {
    if names != [] {
      UntiedMapTiesNobody(names[1..], fixedMap);
    }
  }

  /** Without tied players the save produces the teams the preview showed:
      court A gets the first six names and court B the next six, in order,
      whatever the team names. */
  lemma UntiedSaveFollowsPreview(q: PlayerQueueState, text: string, teamNames: map<int, string>,
                                 ps: seq<PlayerInput>)
    requires |ParseNames(text)| == |ps| >= 2
    requires forall i :: 0 <= i < |ps| ==> ps[i].fixed == None
    ensures UntiedCourts(ParseNames(text), PlayerQueue.ImportPlayers(q, text, teamNames, FinalSave(text, teamNames, ps).fixedMap))
  {
    var names := ParseNames(text);
    var fixedMap := FinalSave(text, teamNames, ps).fixedMap;
    FixedMapUntied(ps);
    UntiedMapTiesNobody(names, fixedMap);
    UntiedRoster(names, teamNames, fixedMap);
  }

  /** Court A holds the first six names and court B the next six. */
  ghost predicate UntiedCourts(names: seq<string>, r: PlayerQueueState) {
    && PlayerQueue.Names(r.courtA.players) == names[..PlayerQueue.Min(6, |names|)]
    && PlayerQueue.Names(r.courtB.players) ==
       names[PlayerQueue.Min(6, |names|)..PlayerQueue.Min(6, |names|) + PlayerQueue.Min(6, |names| - PlayerQueue.Min(6, |names|))]
  }

  lemma {:induction false} FixedMapUntied(ps: seq<PlayerInput>)
    requires forall i :: 0 <= i < |ps| ==> ps[i].fixed == None
    ensures forall name :: name in FixedMapOf(ps) ==> FixedMapOf(ps)[name] == None
  {
    if ps != [] {
      FixedMapUntied(ps[..|ps| - 1]);
    }
  }

  /** With nobody tied, the name map changes only the team names. */
  lemma UntiedRoster(names: seq<string>, teamNames: map<int, string>, fixedMap: map<string, Option<TeamId>>)
    requires PlayerQueue.MakePlayers(names, fixedMap) == PlayerQueue.MakePlayers(names, map[])
    ensures UntiedCourts(names, PlayerQueue.Roster(names, teamNames, fixedMap))
  {
    PlayerQueue.RosterPlacesDistribution(names, teamNames, fixedMap);
    PlayerQueue.RosterPlacesDistribution(names, map[], map[]);
    TeamManager.GenerateWithoutOverrides(names);
  }
}
