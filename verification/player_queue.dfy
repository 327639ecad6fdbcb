/** The `usePlayerQueue` hook: building two court teams and a waiting queue
    from a pasted name list, and the "cannibal" rotation that sends the losing
    team to the back of the queue and tops the entering team up to six with the
    loser's own rotating players. */
module PlayerQueue {
  import opened Wrappers
  import opened Types
  import opened Text

  /** Players per court team. */
  const TeamSize: nat := 6

  const EmptyState: PlayerQueueState :=
    PlayerQueueState(Team("empty", "Time A", []), Team("empty", "Time B", []), [], 1, None)

  function Min(a: int, b: int): int { if a <= b then a else b }

  function Max(a: int, b: int): int { if a >= b then a else b }

  /** `fixedMap[name] || null`: the side the map assigns, None when absent. */
  function FixedSideOf(fixedMap: map<string, Option<TeamId>>, name: string): Option<TeamId> {
    if name in fixedMap then fixedMap[name] else None
  }

  /** One player per parsed name; the name doubles as the id. */
  function MakePlayers(names: seq<string>, fixedMap: map<string, Option<TeamId>>): (ps: seq<Player>)
    ensures |ps| == |names|
    ensures forall i :: 0 <= i < |ps| ==>
              ps[i].id == names[i] && ps[i].name == names[i] &&
              ps[i].isFixed == FixedSideOf(fixedMap, names[i])
  {
    if names == [] then []
    else [Player(names[0], names[0], FixedSideOf(fixedMap, names[0]))] + MakePlayers(names[1..], fixedMap)
  }

  /** The players whose fixed side is exactly `side` (None: the rotating
      players), in order. */
  function WithSide(ps: seq<Player>, side: Option<TeamId>): (r: seq<Player>)
    ensures |r| <= |ps|
    ensures forall i :: 0 <= i < |r| ==> r[i].isFixed == side
  {
    if ps == [] then []
    else if ps[0].isFixed == side then [ps[0]] + WithSide(ps[1..], side)
    else WithSide(ps[1..], side)
  }

  /** The players tied to `side`, in order. */
  function FixedTo(ps: seq<Player>, side: TeamId): seq<Player> {
    WithSide(ps, Some(side))
  }

  /** The players tied to no side, in order. */
  function Unfixed(ps: seq<Player>): seq<Player> {
    WithSide(ps, None)
  }

  /** The players not tied to `side` (rotating players and those tied to the
      other side), in order. */
  function NotFixedTo(ps: seq<Player>, side: TeamId): (r: seq<Player>)
    ensures |r| <= |ps|
    ensures forall i :: 0 <= i < |r| ==> r[i].isFixed != Some(side)
  {
    if ps == [] then []
    else if ps[0].isFixed != Some(side) then [ps[0]] + NotFixedTo(ps[1..], side)
    else NotFixedTo(ps[1..], side)
  }

  /** The index `Array.prototype.slice` uses for a bound k on a list of length
      len: a negative bound counts from the end, and the result is clamped to
      [0, len]. */
  function SliceIndex(len: nat, k: int): (i: nat)
    ensures i <= len
    ensures 0 <= k ==> i == Min(k, len)
    ensures k < 0 ==> i == Max(len + k, 0)
  {
    if k < 0 then (if len + k < 0 then 0 else len + k) else if k > len then len else k
  }

  /** The players' names, in order. */
  function Names(ps: seq<Player>): (ns: seq<string>)
    ensures |ns| == |ps| && forall i :: 0 <= i < |ps| ==> ns[i] == ps[i].name
  {
    if ps == [] then [] else [ps[0].name] + Names(ps[1..])
  }

  /** `teamNameMap[key] || fallback` */
  function NameOr(teamNameMap: map<int, string>, key: int, fallback: string): string {
    if key in teamNameMap && teamNameMap[key] != "" then teamNameMap[key] else fallback
  }

  /** `String.fromCharCode(code)`: the UTF-16 code unit `code mod 65536`. A
      lone surrogate has no scalar value and is rendered as U+FFFD here. */
  function CharFromCode(code: int): char {
    var unit := code % 0x1_0000;
    if 0xD800 <= unit <= 0xDFFF then '\U{FFFD}' else unit as char
  }

  /** The default name of the i-th queue team: "Time C", "Time D", ... */
  function QueueTeamDefaultName(i: nat): string {
    "Time " + [CharFromCode(67 + i)]
  }

  /** All players of a list of teams, team after team. */
  function TeamsPlayers(teams: seq<Team>): seq<Player> {
    if teams == [] then [] else teams[0].players + TeamsPlayers(teams[1..])
  }

  lemma {:induction false} TeamsPlayersAppend(a: seq<Team>, b: seq<Team>)
    ensures TeamsPlayers(a + b) == TeamsPlayers(a) + TeamsPlayers(b)
  {
    if a == [] {
      assert a + b == b;
    } else {
      assert (a + b)[1..] == a[1..] + b;
      TeamsPlayersAppend(a[1..], b);
    }
  }

  /** The players cut into consecutive groups of six; the last group holds
      the remainder. */
  function Chunks(xs: seq<Player>): (cs: seq<seq<Player>>)
    ensures Join(cs) == xs
    ensures forall j :: 0 <= j < |cs| ==> 1 <= |cs[j]| <= TeamSize
    ensures forall j :: 0 <= j < |cs| - 1 ==> |cs[j]| == TeamSize
    decreases |xs|
  {
    if xs == [] then []
    else
      var n := Min(TeamSize, |xs|);
      var rest := Chunks(xs[n..]);
      assert xs == xs[..n] + xs[n..];
      assert ([xs[..n]] + rest)[1..] == rest;
      [xs[..n]] + rest
  }

  function Join(cs: seq<seq<Player>>): seq<Player> {
    if cs == [] then [] else cs[0] + Join(cs[1..])
  }

  /** There are ceil(n / 6) groups. */
  lemma {:induction false} ChunksCount(xs: seq<Player>)
    ensures |Chunks(xs)| == (|xs| + TeamSize - 1) / TeamSize
    decreases |xs|
  {
    if xs != [] {
      ChunksCount(xs[Min(TeamSize, |xs|)..]);
    }
  }

  /** `team-q-<i>` */
  function QueueTeamId(i: nat): string {
    "team-q-" + DecimalString(i)
  }

  /** The i-th queue team's name: `teamNameMap[i + 2]`, or the default letter. */
  function QueueTeamName(teamNameMap: map<int, string>, i: nat): string {
    NameOr(teamNameMap, i + 2, QueueTeamDefaultName(i))
  }

  /** The queue teams of the roster generator: the leftover players cut into
      teams of six in order, the last team holding the remainder; the i-th has
      id `team-q-<i>` and its name from the map (key i + 2) or the default
      letter. */
  function QueueTeams(avail: seq<Player>, teamNameMap: map<int, string>): (teams: seq<Team>)
    ensures TeamsPlayers(teams) == avail
    ensures |teams| == (|avail| + TeamSize - 1) / TeamSize
    ensures forall j :: 0 <= j < |teams| ==> 1 <= |teams[j].players| <= TeamSize
    ensures forall j :: 0 <= j < |teams| - 1 ==> |teams[j].players| == TeamSize
    ensures forall j :: 0 <= j < |teams| ==>
              teams[j].id == QueueTeamId(j) && teams[j].name == QueueTeamName(teamNameMap, j)
  {
    var cs := Chunks(avail);
    ChunksCount(avail);
    var teams := seq(|cs|, j requires 0 <= j < |cs| => Team(QueueTeamId(j), QueueTeamName(teamNameMap, j), cs[j]));
    TeamsPlayersJoin(teams, cs);
    teams
  }

  lemma {:induction false} TeamsPlayersJoin(teams: seq<Team>, cs: seq<seq<Player>>)
    requires |teams| == |cs|
    requires forall j :: 0 <= j < |teams| ==> teams[j].players == cs[j]
    ensures TeamsPlayers(teams) == Join(cs)
  {
    if teams != [] {
      TeamsPlayersJoin(teams[1..], cs[1..]);
    }
  }

  /** Everybody on court or in the queue. */
  function AllPlayers(q: PlayerQueueState): seq<Player> {
    q.courtA.players + q.courtB.players + TeamsPlayers(q.queue)
  }

  /** Where the roster generator puts the players: the two courts and the
      leftover that forms the queue. */
  datatype Distribution = Distribution(courtA: seq<Player>, courtB: seq<Player>, leftover: seq<Player>)

  /** Court A gets its fixed players and then rotating players up to six,
      court B the same from what is left; the remaining rotating players are
      left over. The cuts follow `Array.prototype.slice`, so a side with more
      than six fixed players gives a negative slot count. */
  function Distribute(all: seq<Player>): Distribution {
    var fixedA := FixedTo(all, A);
    var fixedB := FixedTo(all, B);
    var available := Unfixed(all);
    var cutA := SliceIndex(|available|, TeamSize - |fixedA|);
    var available2 := available[cutA..];
    var cutB := SliceIndex(|available2|, TeamSize - |fixedB|);
    Distribution(fixedA + available[..cutA], fixedB + available2[..cutB], available2[cutB..])
  }

  /** The three-way split by fixed side loses and duplicates nobody. */
  lemma {:induction false} SidePartition(ps: seq<Player>)
    ensures multiset(FixedTo(ps, A)) + multiset(FixedTo(ps, B)) + multiset(Unfixed(ps)) == multiset(ps)
  {
    if ps != [] {
      SidePartition(ps[1..]);
      ConsMultiset(ps);
      match ps[0].isFixed
      case None =>
        assert Unfixed(ps) == [ps[0]] + Unfixed(ps[1..]);
      case Some(A) =>
        assert FixedTo(ps, A) == [ps[0]] + FixedTo(ps[1..], A);
      case Some(B) =>
        assert FixedTo(ps, B) == [ps[0]] + FixedTo(ps[1..], B);
    }
  }

  lemma ConsMultiset<T>(xs: seq<T>)
    requires xs != []
    ensures multiset(xs) == multiset{xs[0]} + multiset(xs[1..])
  {
    assert xs == [xs[0]] + xs[1..];
  }

  /** Cutting a sequence twice keeps every element. */
  lemma CutTwice(xs: seq<Player>, i: nat, j: nat)
    requires i <= |xs| && j <= |xs| - i
    ensures multiset(xs) == multiset(xs[..i]) + multiset(xs[i..][..j]) + multiset(xs[i..][j..])
  {
    assert xs[i..] == xs[i..][..j] + xs[i..][j..];
    assert xs == xs[..i] + xs[i..];
  }

  /** Every player ends up in exactly one place: court A, court B or the
      leftover (as a multiset, so repeated names are counted too). This holds
      even with more than six players fixed to one side. */
  lemma DistributeConserves(all: seq<Player>)
    ensures var d := Distribute(all);
            multiset(d.courtA) + multiset(d.courtB) + multiset(d.leftover) == multiset(all)
  {
    var available := Unfixed(all);
    var cutA := SliceIndex(|available|, TeamSize - |FixedTo(all, A)|);
    var cutB := SliceIndex(|available[cutA..]|, TeamSize - |FixedTo(all, B)|);
    SidePartition(all);
    CutTwice(available, cutA, cutB);
  }

  /** With at most six players fixed to each side, court A is its fixed
      players followed by the first rotating players up to six in all, court B
      the same from the rotating players left over, and both courts are full
      whenever there are enough rotating players. */
  lemma DistributeFillsCourts(all: seq<Player>)
    requires |FixedTo(all, A)| <= TeamSize && |FixedTo(all, B)| <= TeamSize
    ensures var d := Distribute(all);
            var fixedA, fixedB, avail := FixedTo(all, A), FixedTo(all, B), Unfixed(all);
            var nA := Min(TeamSize - |fixedA|, |avail|);
            var nB := Min(TeamSize - |fixedB|, |avail| - nA);
            && d.courtA == fixedA + avail[..nA]
            && d.courtB == fixedB + avail[nA..nA + nB]
            && d.leftover == avail[nA + nB..]
            && |d.courtA| <= TeamSize && |d.courtB| <= TeamSize
            && (|avail| >= 2 * TeamSize - |fixedA| - |fixedB| ==> |d.courtA| == TeamSize && |d.courtB| == TeamSize)
  {
    var avail := Unfixed(all);
    var nA := Min(TeamSize - |FixedTo(all, A)|, |avail|);
    var nB := Min(TeamSize - |FixedTo(all, B)|, |avail| - nA);
    assert avail[nA..][..nB] == avail[nA..nA + nB];
    assert avail[nA..][nB..] == avail[nA + nB..];
  }

  /** The roster built from a parsed name list, with court names from the map
      (keys 0 and 1) or "Time A" and "Time B"; everybody named is on a court
      or in the queue. */
  function Roster(names: seq<string>, teamNameMap: map<int, string>,
                  fixedMap: map<string, Option<TeamId>>): (r: PlayerQueueState)
    ensures r.courtA.id == "team-a" && r.courtA.name == NameOr(teamNameMap, 0, "Time A")
    ensures r.courtB.id == "team-b" && r.courtB.name == NameOr(teamNameMap, 1, "Time B")
    ensures r.nextGameIndex == 1 && r.lastReport == None
    ensures multiset(AllPlayers(r)) == multiset(MakePlayers(names, fixedMap))
  {
    var d := Distribute(MakePlayers(names, fixedMap));
    DistributeConserves(MakePlayers(names, fixedMap));
    PlayerQueueState(Team("team-a", NameOr(teamNameMap, 0, "Time A"), d.courtA),
                     Team("team-b", NameOr(teamNameMap, 1, "Time B"), d.courtB),
                     QueueTeams(d.leftover, teamNameMap), 1, None)
  }

  /** The roster part of `importPlayers`: None when fewer than two names are
      given (`importPlayers` alerts and leaves its state alone). */
  function GenerateRoster(text: string, teamNameMap: map<int, string>,
                          fixedMap: map<string, Option<TeamId>>): (r: Option<PlayerQueueState>)
    ensures r.None? <==> |ParseNames(text)| < 2
    ensures r.Some? ==> r.value == Roster(ParseNames(text), teamNameMap, fixedMap)
  {
    var names := ParseNames(text);
    if |names| < 2 then None else Some(Roster(names, teamNameMap, fixedMap))
  }

  /** `importPlayers`: the generated roster, or the state unchanged when the
      list has fewer than two names. */
  function ImportPlayers(q: PlayerQueueState, text: string, teamNameMap: map<int, string>,
                         fixedMap: map<string, Option<TeamId>>): (r: PlayerQueueState)
    ensures |ParseNames(text)| < 2 ==> r == q
    ensures |ParseNames(text)| >= 2 ==> r == Roster(ParseNames(text), teamNameMap, fixedMap)
  {
    GenerateRoster(text, teamNameMap, fixedMap).GetOr(q)
  }

  lemma {:induction false} NoneFixedWithoutMap(names: seq<string>)
    ensures Unfixed(MakePlayers(names, map[])) == MakePlayers(names, map[])
    ensures FixedTo(MakePlayers(names, map[]), A) == [] && FixedTo(MakePlayers(names, map[]), B) == []
  {
    if names != [] {
      NoneFixedWithoutMap(names[1..]);
    }
  }

  /** The roster's courts and queue hold the distributed players. */
  lemma RosterPlacesDistribution(names: seq<string>, teamNameMap: map<int, string>,
                                 fixedMap: map<string, Option<TeamId>>)
    ensures Roster(names, teamNameMap, fixedMap).courtA.players == Distribute(MakePlayers(names, fixedMap)).courtA
    ensures Roster(names, teamNameMap, fixedMap).courtB.players == Distribute(MakePlayers(names, fixedMap)).courtB
    ensures TeamsPlayers(Roster(names, teamNameMap, fixedMap).queue) == Distribute(MakePlayers(names, fixedMap)).leftover
  {
  }

  /** Without a fixed map nobody is fixed: court A takes the first six
      players. */
  lemma DistributeWithoutFixed(names: seq<string>)
    ensures Distribute(MakePlayers(names, map[])).courtA == MakePlayers(names, map[])[..CutA(|names|)]
  {
    NoneFixedWithoutMap(names);
    DistributeUntied(MakePlayers(names, map[]), |names|);
  }

  /** Without a fixed map court B takes the six players after court A's. */
  lemma DistributeWithoutFixedCourtB(names: seq<string>)
    ensures Distribute(MakePlayers(names, map[])).courtB == MakePlayers(names, map[])[CutA(|names|)..CutB(|names|)]
  {
    NoneFixedWithoutMap(names);
    DistributeUntied(MakePlayers(names, map[]), |names|);
  }

  /** How many of n untied players court A takes. */
  function CutA(n: nat): nat {
    Min(TeamSize, n)
  }

  /** Where court B's share of n untied players ends. */
  function CutB(n: nat): (r: nat)
    ensures CutA(n) <= r <= n
  {
    CutA(n) + Min(TeamSize, n - CutA(n))
  }

  lemma DistributeUntied(all: seq<Player>, n: nat)
    requires n == |all|
    requires FixedTo(all, A) == [] && FixedTo(all, B) == [] && Unfixed(all) == all
    ensures Distribute(all).courtA == all[..CutA(n)]
    ensures Distribute(all).courtB == all[CutA(n)..CutB(n)]
    ensures Distribute(all).leftover == all[CutB(n)..]
  {
    var nA := Min(TeamSize, |all|);
    var nB := Min(TeamSize, |all| - nA);
    EmptyAppend(all[..nA]);
    EmptyAppend(all[nA..][..nB]);
    SliceOfSlice(all, nA, nB);
    assert all[nA..][nB..] == all[nA + nB..];
  }

  lemma SliceOfSlice<T>(xs: seq<T>, i: nat, j: nat)
    requires i + j <= |xs|
    ensures xs[i..][..j] == xs[i..i + j]
  {
  }

  lemma EmptyAppend<T>(xs: seq<T>)
    ensures [] + xs == xs
  {
  }

  // ---------------------------------------------------------------------------
  // Rotation.

  /** How the losing team is split: players tied to the losing side stay on
      court; the others leave, and when the entering team is short of six the
      last of the leaving players are recycled into it. */
  datatype LoserSplit = LoserSplit(
    fixedStaying: seq<Player>, leaving: seq<Player>, recycled: seq<Player>, goingToQueue: seq<Player>)

  /** `needed = 6 - (fixedStaying + comingFromQueue)`; when positive, the last
      `min(needed, |leaving|)` leaving players are recycled and the rest go to
      the queue; otherwise everybody leaving goes to the queue. */
  function SplitLoser(loser: Team, loserSide: TeamId, comingFromQueue: nat): (sp: LoserSplit)
    ensures sp.fixedStaying == FixedTo(loser.players, loserSide)
    ensures sp.leaving == NotFixedTo(loser.players, loserSide)
    ensures sp.goingToQueue + sp.recycled == sp.leaving
    ensures var needed := TeamSize - (|sp.fixedStaying| + comingFromQueue);
            |sp.recycled| == if needed > 0 then Min(needed, |sp.leaving|) else 0
  {
    var fixedStaying := FixedTo(loser.players, loserSide);
    var leaving := NotFixedTo(loser.players, loserSide);
    var needed := TeamSize - (|fixedStaying| + comingFromQueue);
    if needed > 0 then
      var stealCount := Min(needed, |leaving|);
      if stealCount > 0 then
        assert leaving == leaving[..|leaving| - stealCount] + leaving[|leaving| - stealCount..];
        LoserSplit(fixedStaying, leaving, leaving[|leaving| - stealCount..], leaving[..|leaving| - stealCount])
      else LoserSplit(fixedStaying, leaving, [], [])
    else LoserSplit(fixedStaying, leaving, [], leaving)
  }

  /** `rotateQueue(winnerSide)`: nothing happens with an empty queue. Otherwise
      the winner keeps its side; the next queued team, topped up, takes the
      loser's side under its own id and name; the loser, minus the players who
      stay or are recycled, goes to the back of the queue. */
  function RotateQueue(q: PlayerQueueState, winnerSide: TeamId): (r: PlayerQueueState)
    ensures |q.queue| == 0 ==> r == q
    ensures |q.queue| > 0 ==>
              var loserSide := Other(winnerSide);
              var loser := q.Court(loserSide);
              var next := q.queue[0];
              var sp := SplitLoser(loser, loserSide, |next.players|);
              && r.Court(winnerSide) == q.Court(winnerSide)
              && r.Court(loserSide) == Team(next.id, next.name, sp.fixedStaying + next.players + sp.recycled)
              && r.queue == q.queue[1..] + [Team(loser.id, loser.name, sp.goingToQueue)]
              && r.nextGameIndex == q.nextGameIndex + 1
              && r.lastReport.Some?
              && (r.lastReport.value.action == Cannibalized <==> |sp.recycled| > 0)
    ensures |q.queue| > 0 ==>
              var loserSide := Other(winnerSide);
              var next := q.queue[0];
              var sp := SplitLoser(q.Court(loserSide), loserSide, |next.players|);
              r.lastReport == Some(RotationReport(
                winnerSide, q.Court(winnerSide).name, q.Court(loserSide).name, next.name,
                r.lastReport.value.action,
                Names(sp.fixedStaying), Names(next.players), Names(sp.recycled), Names(sp.goingToQueue)))
  {
    if |q.queue| == 0 then q
    else
      var winnerTeam := q.Court(winnerSide);
      var loserSide := Other(winnerSide);
      var loserTeam := q.Court(loserSide);
      var nextTeamUp := q.queue[0];
      var remainingQueue := q.queue[1..];
      var sp := SplitLoser(loserTeam, loserSide, |nextTeamUp.players|);
      var entering := Team(nextTeamUp.id, nextTeamUp.name,
                           sp.fixedStaying + nextTeamUp.players + sp.recycled);
      var loserToQueue := Team(loserTeam.id, loserTeam.name, sp.goingToQueue);
      var report := RotationReport(
        winnerSide, winnerTeam.name, loserTeam.name, nextTeamUp.name,
        if |sp.recycled| > 0 then Cannibalized else Swap,
        Names(sp.fixedStaying), Names(nextTeamUp.players), Names(sp.recycled), Names(sp.goingToQueue));
      PlayerQueueState(
        if winnerSide == A then winnerTeam else entering,
        if winnerSide == A then entering else winnerTeam,
        remainingQueue + [loserToQueue],
        q.nextGameIndex + 1,
        Some(report))
  }

  /** The queue keeps its length: one team leaves the front, one joins the back. */
  lemma RotationKeepsQueueLength(q: PlayerQueueState, winnerSide: TeamId)
    ensures |RotateQueue(q, winnerSide).queue| == |q.queue|
  {
  }

  lemma {:induction false} NotFixedPartition(ps: seq<Player>, side: TeamId)
    ensures multiset(FixedTo(ps, side)) + multiset(NotFixedTo(ps, side)) == multiset(ps)
  {
    if ps != [] {
      NotFixedPartition(ps[1..], side);
      ConsMultiset(ps);
    }
  }

  /** Rotation moves players around but never loses or duplicates one. */
  lemma RotationConservesPlayers(q: PlayerQueueState, winnerSide: TeamId)
    ensures multiset(AllPlayers(RotateQueue(q, winnerSide))) == multiset(AllPlayers(q))
  {
    if |q.queue| > 0 {
      var r := RotateQueue(q, winnerSide);
      var loserSide := Other(winnerSide);
      var loser := q.Court(loserSide);
      var next := q.queue[0];
      var sp := SplitLoser(loser, loserSide, |next.players|);
      var rest := TeamsPlayers(q.queue[1..]);
      var gone := Team(loser.id, loser.name, sp.goingToQueue);
      TeamsPlayersAppend(q.queue[1..], [gone]);
      assert TeamsPlayers([gone]) == sp.goingToQueue + TeamsPlayers([]);
      assert TeamsPlayers(q.queue) == next.players + rest;
      NotFixedPartition(loser.players, loserSide);
      AllPlayersBySide(q, winnerSide);
      AllPlayersBySide(r, winnerSide);
      RotationShuffle(q.Court(winnerSide).players, loser.players, sp.fixedStaying, sp.goingToQueue,
                      sp.recycled, next.players, rest);
    }
  }

  /** Everybody, counted court by court from either side. */
  lemma AllPlayersBySide(q: PlayerQueueState, side: TeamId)
    ensures multiset(AllPlayers(q)) == multiset(q.Court(side).players) + multiset(q.Court(Other(side)).players) +
                                       multiset(TeamsPlayers(q.queue))
  {
  }

  /** The multiset bookkeeping of a rotation: the loser's players are split
      into those who stay, those recycled and those queued. */
  lemma RotationShuffle(winner: seq<Player>, loser: seq<Player>, staying: seq<Player>, queued: seq<Player>,
                        recycled: seq<Player>, next: seq<Player>, rest: seq<Player>)
    requires multiset(staying) + multiset(queued + recycled) == multiset(loser)
    ensures multiset(winner) + multiset(staying + next + recycled) + multiset(rest + queued) ==
            multiset(winner) + multiset(loser) + multiset(next + rest)
  {
  }

  /** The entering team is filled up to six when the loser has enough rotating
      players, and is never cut down below what it brought. */
  lemma RotationEnteringSize(q: PlayerQueueState, winnerSide: TeamId)
    requires |q.queue| > 0
    ensures var loserSide := Other(winnerSide);
            var loser := q.Court(loserSide);
            var next := q.queue[0];
            var base := |FixedTo(loser.players, loserSide)| + |next.players|;
            var entering := RotateQueue(q, winnerSide).Court(loserSide);
            |entering.players| == Max(base, Min(TeamSize, base + |NotFixedTo(loser.players, loserSide)|))
  {
  }

  /** Nobody tied to the losing side is ever recycled or sent to the queue. */
  lemma RecycledAreRotating(loser: Team, loserSide: TeamId, comingFromQueue: nat)
    ensures var sp := SplitLoser(loser, loserSide, comingFromQueue);
            (forall i :: 0 <= i < |sp.recycled| ==> sp.recycled[i].isFixed != Some(loserSide)) &&
            (forall i :: 0 <= i < |sp.goingToQueue| ==> sp.goingToQueue[i].isFixed != Some(loserSide))
  {
    var sp := SplitLoser(loser, loserSide, comingFromQueue);
    assert forall i :: 0 <= i < |sp.recycled| ==> sp.recycled[i] == sp.leaving[|sp.goingToQueue| + i];
    assert forall i :: 0 <= i < |sp.goingToQueue| ==> sp.goingToQueue[i] == sp.leaving[i];
  }

  /** The scenario's queue: two full courts and one queued team of four. */
  function ScenarioState(a: seq<Player>, b: seq<Player>, c: seq<Player>): PlayerQueueState {
    PlayerQueueState(Team("team-a", "Time A", a), Team("team-b", "Time B", b), [Team("team-q-0", "Time C", c)], 1, None)
  }

  /** Scenario: A wins and the queued team brings only four players, so the
      loser's last two rotating players are recycled into it and the winner
      stays on court untouched. */
  lemma RotationScenario(a: seq<Player>, b: seq<Player>, c: seq<Player>)
    requires |a| == 6 && |b| == 6 && |c| == 4
    requires forall i :: 0 <= i < |b| ==> b[i].isFixed == None
    ensures RotateQueue(ScenarioState(a, b, c), A).courtA == Team("team-a", "Time A", a)
    ensures RotateQueue(ScenarioState(a, b, c), A).courtB == Team("team-q-0", "Time C", c + b[4..])
  {
    NotFixedToRotating(b, B);
    var sp := SplitLoser(Team("team-b", "Time B", b), B, |c|);
    assert sp.recycled == b[4..];
    EmptyAppend(c);
  }

  /** In the same scenario the loser's other four players go to the back of
      the queue under the loser's name, and the report says players were
      recycled. */
  lemma RotationScenarioQueue(a: seq<Player>, b: seq<Player>, c: seq<Player>)
    requires |a| == 6 && |b| == 6 && |c| == 4
    requires forall i :: 0 <= i < |b| ==> b[i].isFixed == None
    ensures RotateQueue(ScenarioState(a, b, c), A).queue == [Team("team-b", "Time B", b[..4])]
    ensures RotateQueue(ScenarioState(a, b, c), A).nextGameIndex == 2
    ensures RotateQueue(ScenarioState(a, b, c), A).lastReport.Some?
    ensures RotateQueue(ScenarioState(a, b, c), A).lastReport.value.action == Cannibalized
  {
    NotFixedToRotating(b, B);
    var sp := SplitLoser(Team("team-b", "Time B", b), B, |c|);
    assert sp.goingToQueue == b[..4];
  }

  lemma {:induction false} NotFixedToRotating(ps: seq<Player>, side: TeamId)
    requires forall i :: 0 <= i < |ps| ==> ps[i].isFixed == None
    ensures FixedTo(ps, side) == [] && NotFixedTo(ps, side) == ps
  {
    if ps != [] {
      NotFixedToRotating(ps[1..], side);
    }
  }

  /** `resetQueue`: two empty courts named "Time A" and "Time B" under the
      placeholder id "empty", no queue, no report, and the game count back at 1. */
  function ResetQueue(): (r: PlayerQueueState)
    ensures AllPlayers(r) == [] && r.queue == [] && r.lastReport == None
    ensures r.courtA.id == "empty" && r.courtA.name == "Time A"
    ensures r.courtB.id == "empty" && r.courtB.name == "Time B"
    ensures r.nextGameIndex == 1
  {
    EmptyState
  }

  /** `hasQueue`: a rotation would change something. */
  function HasQueue(q: PlayerQueueState): (b: bool)
    ensures !b <==> RotateQueue(q, A) == q && RotateQueue(q, B) == q
  {
    if |q.queue| > 0 then
      RotationKeepsQueueLength(q, A);
      assert RotateQueue(q, A).nextGameIndex != q.nextGameIndex;
      true
    else false
  }
}
