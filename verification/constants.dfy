/** Match defaults, the sets-to-win rule and the translation lookup. */
module Constants {
  import opened Wrappers
  import opened Types

  /** The official rules: 25 points, tie-break to 15, best of 5, win by two. */
  const DefaultConfig: GameConfig := GameConfig(25, 15, true, 5, Standard)

  /** A standard set is won only with a lead of at least this many points. */
  const MinLeadToWin: int := 2

  /** `Math.ceil(maxSets / 2)`: the least number of sets that is at least half
      of maxSets. */
  function SetsToWinMatch(maxSets: int): (r: int)
    ensures 2 * r >= maxSets && 2 * (r - 1) < maxSets
  {
    (maxSets + 1) / 2
  }

  lemma SetsToWinMatchExamples()
    ensures SetsToWinMatch(5) == 3 && SetsToWinMatch(3) == 2 && SetsToWinMatch(1) == 1
    ensures MinLeadToWin == 2
    ensures DefaultConfig.pointsPerSet == 25 && DefaultConfig.tieBreakPoints == 15
    ensures DefaultConfig.hasTieBreak && DefaultConfig.maxSets == 5
    ensures DefaultConfig.deuceType == Standard
  {
  }

  /** For a positive number of sets the winner needs a strict majority when
      maxSets is odd, and exactly half when it is even. */
  lemma SetsToWinMatchMajority(n: int)
    requires n >= 1
    ensures 1 <= SetsToWinMatch(n) <= n
    ensures n % 2 == 1 ==> 2 * SetsToWinMatch(n) == n + 1
    ensures n % 2 == 0 ==> 2 * SetsToWinMatch(n) == n
  {
  }

  /** The entries of the translation table the modelled logic reads. Keys that
      the components ask for but the table lacks (`goal`, `sets`, `tieBreak`)
      are deliberately absent. */
  function Translations(lang: Language): map<string, string> {
    match lang
    case Pt => map[
      "home" := "CASA", "guest" := "VISITANTE", "set" := "SET", "point" := "Ponto",
      "matchPoint" := "MATCH POINT", "setPoint" := "SET POINT", "firstTo3" := "Quem fizer 3",
      "timeout" := "TEMPO"]
    case En => map[
      "home" := "HOME", "guest" := "GUEST", "set" := "SET", "point" := "Point",
      "matchPoint" := "MATCH POINT", "setPoint" := "SET POINT", "firstTo3" := "First to 3",
      "timeout" := "TIMEOUT"]
  }

  /** `t(lang, key)`: the language's entry, or the key itself when the entry is
      missing or empty (JavaScript's `||` treats the empty string as absent). */
  function T(lang: Language, key: string): (r: string)
    ensures key in Translations(lang) && Translations(lang)[key] != "" ==> r == Translations(lang)[key]
    ensures key !in Translations(lang) ==> r == key
    ensures r != "" || key == ""
  {
    if key in Translations(lang) && Translations(lang)[key] != "" then Translations(lang)[key] else key
  }

  lemma TranslationExamples()
    ensures T(Pt, "home") == "CASA" && T(En, "guest") == "GUEST"
    ensures T(En, "goal") == "goal" && T(Pt, "tieBreak") == "tieBreak"
  {
  }
}
