/** The decision logic of the `TeamManagerModal`: the guard a drag-and-drop
    move passes before the player is moved, and the roster generator tab,
    which hands the pasted names to the queue hook without name or side
    overrides. */
module TeamManager {
  import opened Wrappers
  import opened Types
  import Text
  import opened PlayerQueue

  /** The drag payload `{ playerId, sourceTeamId }` a player item carries. */
  datatype DragPayload = DragPayload(playerId: string, sourceTeamId: string)

  /** The one call a successful drop issues: `onMovePlayer(playerId,
      sourceTeamId, targetTeamId)`. */
  datatype Move = Move(playerId: string, sourceTeamId: string, targetTeamId: string)

  /** `queue.find(x => x.id === id)`, as the index of the first team with
      that id. */
  function FindTeam(queue: seq<Team>, id: string): (r: Option<nat>)
    ensures r.Some? ==> r.value < |queue| && queue[r.value].id == id &&
                        forall k :: 0 <= k < r.value ==> queue[k].id != id
    ensures r.None? ==> forall k :: 0 <= k < |queue| ==> queue[k].id != id
  {
    FindFirst(queue, (t: Team) => t.id, id)
  }

  /** How many players the drop target holds: the court's size for "A" and
      "B" (0 when that court is missing), the size of the first queue team
      with the target id, or 0 when no team has it. */
  function Occupancy(targetId: string, teamA: Option<Team>, teamB: Option<Team>, queue: seq<Team>): nat {
    if targetId == "A" then (if teamA.Some? then |teamA.value.players| else 0)
    else if targetId == "B" then (if teamB.Some? then |teamB.value.players| else 0)
    else match FindTeam(queue, targetId)
         case Some(k) => |queue[k].players|
         case None => 0
  }

  /** `handleDrop`: a payload that does not parse (None), a drop onto the
      team the player came from, or a target that already holds six players
      moves nothing; otherwise the player is moved to the target. */
  function HandleDrop(payload: Option<DragPayload>, targetId: string, teamA: Option<Team>,
                      teamB: Option<Team>, queue: seq<Team>): (r: Option<Move>)
    ensures r.Some? <==> payload.Some? && payload.value.sourceTeamId != targetId &&
                         Occupancy(targetId, teamA, teamB, queue) < TeamSize
    ensures r.Some? ==> r.value.playerId == payload.value.playerId &&
                        r.value.sourceTeamId == payload.value.sourceTeamId &&
                        r.value.targetTeamId == targetId
  {
    match payload
    case None => None
    case Some(p) =>
      if p.sourceTeamId == targetId then None
      else if Occupancy(targetId, teamA, teamB, queue) >= TeamSize then None
      else Some(Move(p.playerId, p.sourceTeamId, targetId))
  }

  /** A move is only issued towards a team with room: after the player
      arrives the target holds at most six. */
  lemma DropNeverOverfills(payload: Option<DragPayload>, targetId: string, teamA: Option<Team>,
                           teamB: Option<Team>, queue: seq<Team>)
    requires HandleDrop(payload, targetId, teamA, teamB, queue).Some?
    ensures Occupancy(targetId, teamA, teamB, queue) + 1 <= TeamSize
    ensures targetId == "A" && teamA.Some? ==> |teamA.value.players| + 1 <= TeamSize
    ensures targetId == "B" && teamB.Some? ==> |teamB.value.players| + 1 <= TeamSize
    ensures targetId != "A" && targetId != "B" ==>
              forall k :: 0 <= k < |queue| && queue[k].id == targetId &&
                          (forall k' :: 0 <= k' < k ==> queue[k'].id != targetId) ==>
                |queue[k].players| + 1 <= TeamSize
  {
    if targetId != "A" && targetId != "B" {
      forall k | 0 <= k < |queue| && queue[k].id == targetId &&
                 (forall k' :: 0 <= k' < k ==> queue[k'].id != targetId)
        ensures |queue[k].players| + 1 <= TeamSize
      {
        var f := FindTeam(queue, targetId);
        assert f.Some?;
        assert f.value == k;
      }
    }
  }

  /** Dropping a player back onto their own team never moves anybody, and
      neither does a payload that does not parse. */
  lemma DropOntoSourceIsNoop(p: DragPayload, teamA: Option<Team>, teamB: Option<Team>, queue: seq<Team>)
    ensures HandleDrop(Some(p), p.sourceTeamId, teamA, teamB, queue) == None
    ensures forall targetId :: HandleDrop(None, targetId, teamA, teamB, queue) == None
  {
  }

  /** Dropping onto a queue team id no team carries finds room (occupancy 0),
      so the move is issued and left to the move handler. */
  lemma DropOntoUnknownTargetIsIssued(p: DragPayload, targetId: string, teamA: Option<Team>,
                                     teamB: Option<Team>, queue: seq<Team>)
    requires targetId != "A" && targetId != "B" && targetId != p.sourceTeamId
    requires forall k :: 0 <= k < |queue| ==> queue[k].id != targetId
    ensures Occupancy(targetId, teamA, teamB, queue) == 0
    ensures HandleDrop(Some(p), targetId, teamA, teamB, queue) == Some(Move(p.playerId, p.sourceTeamId, targetId))
  {
  }

  /** The queue team ids the generator hands out, `team-q-<i>`, are pairwise
      distinct, so the first team with a given id is the only one. */
  lemma QueueTeamIdsDistinct(i: nat, j: nat)
    requires i != j
    ensures QueueTeamId(i) != QueueTeamId(j)
  {
    if QueueTeamId(i) == QueueTeamId(j) {
      var prefix := "team-q-";
      assert QueueTeamId(i)[|prefix|..] == Text.DecimalString(i);
      assert QueueTeamId(j)[|prefix|..] == Text.DecimalString(j);
      Text.DecimalStringValue(i);
      Text.DecimalStringValue(j);
    }
  }

  // ---------------------------------------------------------------------------
  // The generator tab.

  /** The generator button: `onGenerate(namesText, {}, {})`, the queue hook's
      `importPlayers` with empty name and fixed maps. */
  function OnGenerate(q: PlayerQueueState, namesText: string): (r: PlayerQueueState)
    ensures |Text.ParseNames(namesText)| < 2 ==> r == q
    ensures |Text.ParseNames(namesText)| >= 2 ==>
              && r.courtA.name == "Time A" && r.courtB.name == "Time B"
              && multiset(AllPlayers(r)) == multiset(MakePlayers(Text.ParseNames(namesText), map[]))
  {
    var r := ImportPlayers(q, namesText, map[], map[]);
    assert NameOr(map[], 0, "Time A") == "Time A" && NameOr(map[], 1, "Time B") == "Time B";
    r
  }

  /** With empty maps the courts are "Time A" and "Time B" holding the first
      six and the next six names in order. */
  lemma GenerateWithoutOverrides(names: seq<string>)
    ensures Roster(names, map[], map[]).courtA.name == "Time A"
    ensures Roster(names, map[], map[]).courtB.name == "Time B"
    ensures Names(Roster(names, map[], map[]).courtA.players) == names[..Min(TeamSize, |names|)]
    ensures Names(Roster(names, map[], map[]).courtB.players) ==
            names[Min(TeamSize, |names|)..Min(2 * TeamSize, |names|)]
  {
    CourtsWithoutOverrides(names);
    var nA, nB := CutA(|names|), CutB(|names|);
    assert nA == Min(TeamSize, |names|) && nB == Min(2 * TeamSize, |names|);
    NamesOfRange(names, 0, nA);
    NamesOfRange(names, nA, nB);
    assert names[0..nA] == names[..nA];
    assert MakePlayers(names, map[])[0..nA] == MakePlayers(names, map[])[..nA];
  }

  /** The players made from a range of names carry exactly those names. */
  lemma NamesOfRange(names: seq<string>, i: nat, j: nat)
    requires i <= j <= |names|
    ensures Names(MakePlayers(names, map[])[i..j]) == names[i..j]
  {
  }

  lemma CourtsWithoutOverrides(names: seq<string>)
    ensures Roster(names, map[], map[]).courtA.players == MakePlayers(names, map[])[..CutA(|names|)]
    ensures Roster(names, map[], map[]).courtB.players == MakePlayers(names, map[])[CutA(|names|)..CutB(|names|)]
  {
    RosterPlacesDistribution(names, map[], map[]);
    DistributeWithoutFixed(names);
    DistributeWithoutFixedCourtB(names);
  }

  /** Fourteen names and no fixed players give two full courts... */
  lemma GenerateFourteen(names: seq<string>)
    requires |names| == 14
    ensures |Roster(names, map[], map[]).courtA.players| == 6
    ensures |Roster(names, map[], map[]).courtB.players| == 6
  {
    NoneFixedWithoutMap(names);
    DistributeFillsCourts(MakePlayers(names, map[]));
  }

  /** ...and one queue team of the remaining two, named "Time C". */
  lemma GenerateFourteenQueue(names: seq<string>)
    requires |names| == 14
    ensures |Roster(names, map[], map[]).queue| == 1
    ensures |Roster(names, map[], map[]).queue[0].players| == 2
    ensures Roster(names, map[], map[]).queue[0].name == "Time C"
  {
    var all := MakePlayers(names, map[]);
    NoneFixedWithoutMap(names);
    DistributeFillsCourts(all);
    var left := Distribute(all).leftover;
    assert |left| == 2;
    var teams := QueueTeams(left, map[]);
    assert |teams| == 1;
    assert CharFromCode(67) == 'C';
    assert teams[0].name == QueueTeamName(map[], 0) == "Time C";
  }
}
