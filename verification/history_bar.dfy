/** The decision logic of the `HistoryBar`: the match clock, the tie-break
    badge, the scores of finished sets as laid out left and right, and the
    goal placeholder shown before the first set is decided. */
module HistoryBar {
  import opened Wrappers
  import opened Types
  import opened Constants
  import opened Score
  import opened Text
  import opened AppView

  /** Elapsed time split into hours, minutes and seconds. */
  datatype Clock = Clock(hours: nat, minutes: nat, seconds: nat)

  /** The split `formatTime` computes: whole hours, then whole minutes of the
      rest, then the seconds left over. */
  function TimeParts(total: nat): (c: Clock)
    ensures total == 3600 * c.hours + 60 * c.minutes + c.seconds
    ensures c.minutes < 60 && c.seconds < 60
  {
    var rest := total % 3600;
    assert total == 3600 * (total / 3600) + 60 * (rest / 60) + rest % 60;
    assert rest % 60 == total % 60 by {
      assert total == 60 * (60 * (total / 3600) + rest / 60) + rest % 60;
    }
    Clock(total / 3600, rest / 60, total % 60)
  }

  /** `n.toString().padStart(2, '0')` */
  function TwoDigits(n: nat): string {
    PadStart(DecimalString(n), 2, '0')
  }

  /** Below 100 the padded string is exactly two characters and reads back
      as n. */
  lemma TwoDigitsValue(n: nat)
    requires n < 100
    ensures |TwoDigits(n)| == 2 && ReadDigits(TwoDigits(n)) == Some(n)
  {
    var d := DecimalString(n);
    var r := TwoDigits(n);
    DecimalStringValue(n);
    PadStartShape(d, 2, '0');
    if n < 10 {
      assert r == ['0'] + d;
      assert r[..1] == ['0'];
      assert ReadDigits(['0']) == Some(0) by {
        assert ['0'][..0] == [];
      }
    } else {
      assert r == d;
    }
  }

  /** The clock rendered: "H:MM:SS" from one hour on, "MM:SS" before. */
  function FormatClock(c: Clock): string {
    if c.hours > 0 then DecimalString(c.hours) + ":" + TwoDigits(c.minutes) + ":" + TwoDigits(c.seconds)
    else TwoDigits(c.minutes) + ":" + TwoDigits(c.seconds)
  }

  /** `formatTime` */
  function FormatTime(totalSeconds: nat): string {
    FormatClock(TimeParts(totalSeconds))
  }

  /** "MM:SS" read back into seconds. */
  function ParseShort(str: string): Option<nat>
    requires |str| == 5
  {
    var m, sec := ReadDigits(str[..2]), ReadDigits(str[3..]);
    if m.Some? && sec.Some? then Some(60 * m.value + sec.value) else None
  }

  /** "H:MM:SS" read back into seconds. */
  function ParseLong(str: string): Option<nat>
    requires |str| >= 7
  {
    var h, m, sec := ReadDigits(str[..|str| - 6]), ReadDigits(str[|str| - 5..|str| - 3]), ReadDigits(str[|str| - 2..]);
    if h.Some? && m.Some? && sec.Some? then Some(3600 * h.value + 60 * m.value + sec.value) else None
  }

  /** Reads a clock in either of the two shapes back into seconds: the
      inverse the clock is checked against. */
  function ParseClock(str: string): Option<nat> {
    if |str| == 5 && str[2] == ':' then ParseShort(str)
    else if |str| >= 7 && str[|str| - 3] == ':' && str[|str| - 6] == ':' then ParseLong(str)
    else None
  }

  /** Two two-digit fields around a colon read back as minutes and seconds. */
  lemma ParseShortClock(mm: string, ss: string, m: nat, sec: nat)
    requires |mm| == 2 && |ss| == 2
    requires ReadDigits(mm) == Some(m) && ReadDigits(ss) == Some(sec)
    ensures ParseClock(mm + ":" + ss) == Some(60 * m + sec)
  {
    var r := mm + ":" + ss;
    assert |r| == 5 && r[2] == ':';
    assert r[..2] == mm;
    assert r[3..] == ss;
  }

  /** Where the three fields of "H:MM:SS" sit. */
  lemma LongClockFields(hh: string, mm: string, ss: string)
    requires |mm| == 2 && |ss| == 2
    ensures var r := hh + ":" + mm + ":" + ss;
            && |r| == |hh| + 6 && r[|r| - 3] == ':' && r[|r| - 6] == ':'
            && r[..|r| - 6] == hh && r[|r| - 5..|r| - 3] == mm && r[|r| - 2..] == ss
  {
    var r := hh + ":" + mm + ":" + ss;
    assert r[..|r| - 6] == hh;
    assert r[|r| - 5..|r| - 3] == mm;
    assert r[|r| - 2..] == ss;
  }

  /** Hours, minutes and seconds fields around two colons read back as seconds. */
  lemma ParseLongClock(hh: string, mm: string, ss: string, h: nat, m: nat, sec: nat)
    requires |hh| >= 1 && |mm| == 2 && |ss| == 2
    requires ReadDigits(hh) == Some(h) && ReadDigits(mm) == Some(m) && ReadDigits(ss) == Some(sec)
    ensures ParseClock(hh + ":" + mm + ":" + ss) == Some(3600 * h + 60 * m + sec)
  {
    LongClockFields(hh, mm, ss);
  }

  /** The clock's shape: "MM:SS" below one hour, otherwise "H:MM:SS" with the
      hours written without a leading zero. */
  lemma FormatTimeShape(totalSeconds: nat)
    ensures var r := FormatTime(totalSeconds);
            TimeParts(totalSeconds).hours == 0 ==> |r| == 5 && r[2] == ':'
    ensures var r := FormatTime(totalSeconds);
            TimeParts(totalSeconds).hours > 0 ==>
              |r| >= 7 && r[|r| - 3] == ':' && r[|r| - 6] == ':' && r[0] != '0'
  {
    var c := TimeParts(totalSeconds);
    TwoDigitsValue(c.minutes);
    TwoDigitsValue(c.seconds);
  }

  /** A clock with minutes and seconds below 60 reads back as its seconds. */
  lemma FormatClockRoundTrip(c: Clock)
    requires c.minutes < 60 && c.seconds < 60
    ensures ParseClock(FormatClock(c)) == Some(ClockSeconds(c))
  {
    TwoDigitsValue(c.minutes);
    TwoDigitsValue(c.seconds);
    if c.hours > 0 {
      LongClockRoundTrip(c);
    } else {
      ParseShortClock(TwoDigits(c.minutes), TwoDigits(c.seconds), c.minutes, c.seconds);
    }
  }

  lemma LongClockRoundTrip(c: Clock)
    requires c.hours > 0
    requires |TwoDigits(c.minutes)| == 2 && ReadDigits(TwoDigits(c.minutes)) == Some(c.minutes)
    requires |TwoDigits(c.seconds)| == 2 && ReadDigits(TwoDigits(c.seconds)) == Some(c.seconds)
    ensures ParseClock(FormatClock(c)) == Some(ClockSeconds(c))
  {
    DecimalStringValue(c.hours);
    ParseLongClock(DecimalString(c.hours), TwoDigits(c.minutes), TwoDigits(c.seconds), c.hours, c.minutes, c.seconds);
  }

  function ClockSeconds(c: Clock): nat {
    3600 * c.hours + 60 * c.minutes + c.seconds
  }

  /** The formatted clock loses nothing: reading it back gives the seconds. */
  lemma FormatTimeRoundTrip(totalSeconds: nat)
    ensures ParseClock(FormatTime(totalSeconds)) == Some(totalSeconds)
  {
    var c := TimeParts(totalSeconds);
    FormatClockRoundTrip(c);
    assert ClockSeconds(c) == totalSeconds;
  }

  /** The tie-break badge: the last set of a multi-set match, whether or not
      the tie-break target is switched on. */
  predicate IsTieBreak(currentSet: int, maxSets: int) {
    currentSet == maxSets && maxSets > 1
  }

  /** The badge marks exactly the engine's deciding set; with the tie-break
      target switched off it still shows there although the set is played to
      the regular target. */
  lemma TieBreakBadgeIsDecidingSet(s: GameState)
    ensures IsTieBreak(s.currentSet, s.config.maxSets) <==> IsDecidingSet(s.config, s.currentSet)
    ensures IsTieBreak(s.currentSet, s.config.maxSets) && !s.config.hasTieBreak ==>
              SetTarget(s.config, s.currentSet) == s.config.pointsPerSet
  {
  }

  /** One side of a finished set as the bar shows it. */
  datatype Column = Column(score: nat, highlighted: bool)

  /** The left and right columns of a finished set: with swapped sides the
      left column shows B's score and lights up on B's wins, otherwise A's. */
  function SetColumns(entry: SetHistory, swapped: bool): (cols: (Column, Column))
    ensures swapped ==> cols.0 == Column(entry.scoreB, entry.winner == B) && cols.1 == Column(entry.scoreA, entry.winner == A)
    ensures !swapped ==> cols.0 == Column(entry.scoreA, entry.winner == A) && cols.1 == Column(entry.scoreB, entry.winner == B)
  {
    var leftWin := if swapped then entry.winner == B else entry.winner == A;
    var rightWin := if swapped then entry.winner == A else entry.winner == B;
    var leftScore := if swapped then entry.scoreB else entry.scoreA;
    var rightScore := if swapped then entry.scoreA else entry.scoreB;
    (Column(leftScore, leftWin), Column(rightScore, rightWin))
  }

  function EntryScore(entry: SetHistory, t: TeamId): nat {
    if t == A then entry.scoreA else entry.scoreB
  }

  /** The history columns agree with the score cards: the left column belongs
      to the team drawn on the left, and exactly one column is lit. */
  lemma ColumnsFollowBoard(entry: SetHistory, swapped: bool)
    ensures SetColumns(entry, swapped).0 ==
            Column(EntryScore(entry, LeftTeam(swapped)), entry.winner == LeftTeam(swapped))
    ensures SetColumns(entry, swapped).1 ==
            Column(EntryScore(entry, RightTeam(swapped)), entry.winner == RightTeam(swapped))
    ensures SetColumns(entry, swapped).0.highlighted != SetColumns(entry, swapped).1.highlighted
  {
  }

  /** The goal placeholder ("first to N sets") replaces the history. */
  predicate ShowGoal(historyLength: nat, currentSet: int) {
    historyLength == 0 && currentSet == 1
  }

  /** On the engine's states the placeholder shows exactly while no set has
      been decided, and then the goal it states is the engine's number of
      sets to win. */
  lemma GoalShownBeforeFirstSet(s: GameState)
    requires Valid(s)
    ensures ShowGoal(|s.history|, s.currentSet) <==> s.history == []
    ensures s.history == [] ==> s.setsA < SetsToWinMatch(s.config.maxSets) &&
                                s.setsB < SetsToWinMatch(s.config.maxSets)
  {
    SetsToWinMatchMajority(s.config.maxSets);
  }
}
