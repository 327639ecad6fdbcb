/** The decision logic of the `SettingsModal`: the bounded steppers, the
    field-by-field configuration edits and presets, the "has changes" test
    that enables the save button, the two-click factory reset, and what a
    save does to the engine. */
module Settings {
  import opened Wrappers
  import opened Types
  import opened Constants
  import opened Score
  import opened VolleyGame

  // ---------------------------------------------------------------------------
  // Steppers.

  /** The bounds a `NumberInput` is given. */
  datatype Bounds = Bounds(min: int, max: int)

  const SetsBounds: Bounds := Bounds(1, 5)
  const PointsBounds: Bounds := Bounds(5, 50)
  const TieBreakBounds: Bounds := Bounds(5, 25)

  predicate InBounds(value: int, b: Bounds) {
    b.min <= value <= b.max
  }

  /** The "-" button: `onChange(value - 1)` is called only while the value is
      above the minimum; None when nothing is called. */
  function StepDown(value: int, b: Bounds): (r: Option<int>)
    ensures r.Some? <==> value > b.min
    ensures r.Some? ==> r.value < value
  {
    if value > b.min then Some(value - 1) else None
  }

  /** The "+" button: `onChange(value + 1)` only while below the maximum. */
  function StepUp(value: int, b: Bounds): (r: Option<int>)
    ensures r.Some? <==> value < b.max
    ensures r.Some? ==> r.value > value
  {
    if value < b.max then Some(value + 1) else None
  }

  /** A stepper never leaves its range once inside it, moves by exactly one,
      and "+" then "-" (or "-" then "+") lands where it started. */
  lemma SteppersKeepBounds(value: int, b: Bounds)
    requires InBounds(value, b)
    ensures InBounds(StepDown(value, b).GetOr(value), b)
    ensures InBounds(StepUp(value, b).GetOr(value), b)
    ensures StepUp(value, b).Some? ==> StepUp(value, b).value == value + 1 &&
                                        StepDown(StepUp(value, b).value, b) == Some(value)
    ensures StepDown(value, b).Some? ==> StepDown(value, b).value == value - 1 &&
                                          StepUp(StepDown(value, b).value, b) == Some(value)
  {
  }

  /** A value outside the range (a configuration loaded from elsewhere) is
      moved towards it, never further away. */
  lemma SteppersMoveTowardsBounds(value: int, b: Bounds)
    requires b.min <= b.max
    ensures value < b.min ==> StepDown(value, b).None? && StepUp(value, b) == Some(value + 1)
    ensures value > b.max ==> StepUp(value, b).None? && StepDown(value, b) == Some(value - 1)
  {
  }

  // ---------------------------------------------------------------------------
  // Configuration edits.

  /** `handleConfigChange(key, value)`, one case per key of the configuration. */
  datatype ConfigEdit =
    | MaxSetsTo(sets: int)
    | PointsPerSetTo(points: int)
    | HasTieBreakTo(on: bool)
    | TieBreakPointsTo(tieBreak: int)
    | DeuceTypeTo(deuce: DeuceType)

  /** `setConfig(prev => ({ ...prev, [key]: value }))`: the edited key takes
      the value and every other key keeps its own. */
  function ConfigChange(c: GameConfig, edit: ConfigEdit): (r: GameConfig)
    ensures r.maxSets == (if edit.MaxSetsTo? then edit.sets else c.maxSets)
    ensures r.pointsPerSet == (if edit.PointsPerSetTo? then edit.points else c.pointsPerSet)
    ensures r.hasTieBreak == (if edit.HasTieBreakTo? then edit.on else c.hasTieBreak)
    ensures r.tieBreakPoints == (if edit.TieBreakPointsTo? then edit.tieBreak else c.tieBreakPoints)
    ensures r.deuceType == (if edit.DeuceTypeTo? then edit.deuce else c.deuceType)
  {
    match edit
    case MaxSetsTo(v) => c.(maxSets := v)
    case PointsPerSetTo(v) => c.(pointsPerSet := v)
    case HasTieBreakTo(v) => c.(hasTieBreak := v)
    case TieBreakPointsTo(v) => c.(tieBreakPoints := v)
    case DeuceTypeTo(v) => c.(deuceType := v)
  }

  /** Which key an edit touches, as a number. */
  function Key(edit: ConfigEdit): nat {
    match edit
    case MaxSetsTo(_) => 0
    case PointsPerSetTo(_) => 1
    case HasTieBreakTo(_) => 2
    case TieBreakPointsTo(_) => 3
    case DeuceTypeTo(_) => 4
  }

  /** Edits to different keys commute, a second edit of the same key
      overrides the first, and writing back a key's current value changes
      nothing. */
  lemma ConfigChangeLaws(c: GameConfig, e1: ConfigEdit, e2: ConfigEdit)
    ensures Key(e1) != Key(e2) ==> ConfigChange(ConfigChange(c, e1), e2) == ConfigChange(ConfigChange(c, e2), e1)
    ensures Key(e1) == Key(e2) ==> ConfigChange(ConfigChange(c, e1), e2) == ConfigChange(c, e2)
    ensures ConfigChange(c, MaxSetsTo(c.maxSets)) == c
    ensures ConfigChange(c, PointsPerSetTo(c.pointsPerSet)) == c
    ensures ConfigChange(c, HasTieBreakTo(c.hasTieBreak)) == c
    ensures ConfigChange(c, TieBreakPointsTo(c.tieBreakPoints)) == c
    ensures ConfigChange(c, DeuceTypeTo(c.deuceType)) == c
  {
  }

  // ---------------------------------------------------------------------------
  // Presets.

  datatype Preset = Official | Monday

  /** `handlePreset`: the official rules or the short "monday" game. */
  function PresetConfig(p: Preset): (c: GameConfig)
    ensures p == Official ==> c == DefaultConfig
    ensures p == Monday ==> c.maxSets == 1 && c.pointsPerSet == 15 && c.tieBreakPoints == 11 &&
                            !c.hasTieBreak && c.deuceType == SuddenDeath3pt
  {
    match p
    case Official => GameConfig(25, 15, true, 5, Standard)
    case Monday => GameConfig(15, 11, false, 1, SuddenDeath3pt)
  }

  /** The configuration every stepper of the form keeps: sets 1-5, points per
      set 5-50 and tie-break points 5-25. */
  predicate ConfigInBounds(c: GameConfig) {
    && InBounds(c.maxSets, SetsBounds)
    && InBounds(c.pointsPerSet, PointsBounds)
    && InBounds(c.tieBreakPoints, TieBreakBounds)
  }

  /** Both presets lie inside the steppers' ranges; the official one is
      played best of five to 25, the monday one is a single set decided by
      the sudden-death rule and so never reaches a tie-break. */
  lemma PresetsInBounds()
    ensures ConfigInBounds(PresetConfig(Official)) && ConfigInBounds(PresetConfig(Monday))
    ensures SetsToWinMatch(PresetConfig(Official).maxSets) == 3
    ensures SetsToWinMatch(PresetConfig(Monday).maxSets) == 1
    ensures !IsDecidingSet(PresetConfig(Monday), 1)
  {
    SetsToWinMatchExamples();
  }

  // ---------------------------------------------------------------------------
  // The form.

  /** What the modal is opened with. */
  datatype Props = Props(currentConfig: GameConfig, teamAName: string, teamBName: string)

  /** The modal's local state: the edited configuration, the edited names and
      whether the factory reset has been armed. */
  datatype Form = Form(config: GameConfig, nameA: string, nameB: string, confirmReset: bool)

  /** Every opening starts from the props, with the reset not armed. */
  function Open(p: Props): (f: Form)
    ensures f.config == p.currentConfig && f.nameA == p.teamAName && f.nameB == p.teamBName
    ensures !f.confirmReset
  {
    Form(p.currentConfig, p.teamAName, p.teamBName, false)
  }

  /** `hasChanges`, which enables the save button: the configuration differs
      from the current one (its serialisations differ, and all of them list
      the keys in the same order) or either name differs. */
  predicate HasChanges(f: Form, p: Props) {
    f.config != p.currentConfig || f.nameA != p.teamAName || f.nameB != p.teamBName
  }

  /** The save button is enabled exactly when the form, apart from the reset
      flag, is no longer what the modal was opened with. */
  lemma HasChangesIffEdited(f: Form, p: Props)
    ensures HasChanges(f, p) <==> f.(confirmReset := false) != Open(p)
    ensures !HasChanges(Open(p), p)
  {
  }

  /** One thing the user can do in the form (besides saving and the reset). */
  datatype Action =
    | StepSets(up: bool)
    | StepPoints(up: bool)
    | StepTieBreak(up: bool)
    | ToggleTieBreak
    | ChooseDeuce(deuce: DeuceType)
    | ChoosePreset(preset: Preset)
    | TypeNameA(nameA: string)
    | TypeNameB(nameB: string)

  /** A stepper press as the form sees it: the value handed to `onChange`,
      or the current value when nothing is called. */
  function Step(value: int, b: Bounds, up: bool): int {
    (if up then StepUp(value, b) else StepDown(value, b)).GetOr(value)
  }

  /** The form after one action. The tie-break stepper is rendered only while
      the tie-break is switched on, so pressing it otherwise does nothing. */
  function Act(f: Form, a: Action): (r: Form)
    ensures r.confirmReset == f.confirmReset
    ensures !a.TypeNameA? ==> r.nameA == f.nameA
    ensures !a.TypeNameB? ==> r.nameB == f.nameB
    ensures a.TypeNameA? || a.TypeNameB? ==> r.config == f.config
    ensures a.StepTieBreak? && !f.config.hasTieBreak ==> r == f
  {
    match a
    case StepSets(up) => f.(config := ConfigChange(f.config, MaxSetsTo(Step(f.config.maxSets, SetsBounds, up))))
    case StepPoints(up) => f.(config := ConfigChange(f.config, PointsPerSetTo(Step(f.config.pointsPerSet, PointsBounds, up))))
    case StepTieBreak(up) =>
      if f.config.hasTieBreak
      then f.(config := ConfigChange(f.config, TieBreakPointsTo(Step(f.config.tieBreakPoints, TieBreakBounds, up))))
      else f
    case ToggleTieBreak => f.(config := ConfigChange(f.config, HasTieBreakTo(!f.config.hasTieBreak)))
    case ChooseDeuce(d) => f.(config := ConfigChange(f.config, DeuceTypeTo(d)))
    case ChoosePreset(p) => f.(config := PresetConfig(p))
    case TypeNameA(n) => f.(nameA := n)
    case TypeNameB(n) => f.(nameB := n)
  }

  /** The form after a sequence of actions. */
  function ActAll(f: Form, actions: seq<Action>): Form
    decreases |actions|
  {
    if actions == [] then f else ActAll(Act(f, actions[0]), actions[1..])
  }

  /** No single action takes an in-range configuration out of range. */
  lemma ActKeepsBounds(f: Form, a: Action)
    requires ConfigInBounds(f.config)
    ensures ConfigInBounds(Act(f, a).config)
  {
    SteppersKeepBounds(f.config.maxSets, SetsBounds);
    SteppersKeepBounds(f.config.pointsPerSet, PointsBounds);
    SteppersKeepBounds(f.config.tieBreakPoints, TieBreakBounds);
    PresetsInBounds();
  }

  /** Whatever the user does, a form opened on an in-range configuration
      only ever holds in-range configurations, so in particular at least one
      set. */
  lemma {:induction false} ActionsKeepBounds(f: Form, actions: seq<Action>)
    requires ConfigInBounds(f.config)
    ensures ConfigInBounds(ActAll(f, actions).config)
    ensures ActAll(f, actions).config.maxSets >= 1
    decreases |actions|
  {
    if actions != [] {
      ActKeepsBounds(f, actions[0]);
      ActionsKeepBounds(Act(f, actions[0]), actions[1..]);
    }
  }

  // ---------------------------------------------------------------------------
  // Factory reset.

  /** What a press of the factory-reset button leads to: the button armed, or
      the stored data cleared and the page reloaded. */
  datatype ResetOutcome = Armed(form: Form) | Wiped

  /** `handleFactoryReset`: the first press only arms the button, a press on
      an armed button wipes. */
  function FactoryResetClick(f: Form): (r: ResetOutcome)
    ensures r == Wiped <==> f.confirmReset
    ensures r.Armed? ==> r.form == f.(confirmReset := true)
  {
    if f.confirmReset then Wiped else Armed(f.(confirmReset := true))
  }

  /** A freshly opened modal never wipes on one press, always on the second,
      and edits in between do not disarm the button. */
  lemma FactoryResetNeedsTwoPresses(p: Props, actions: seq<Action>)
    ensures FactoryResetClick(Open(p)).Armed?
    ensures FactoryResetClick(ActAll(FactoryResetClick(Open(p)).form, actions)) == Wiped
  {
    ActionsKeepArmed(FactoryResetClick(Open(p)).form, actions);
  }

  lemma {:induction false} ActionsKeepArmed(f: Form, actions: seq<Action>)
    ensures ActAll(f, actions).confirmReset == f.confirmReset
    decreases |actions|
  {
    if actions != [] {
      ActionsKeepArmed(Act(f, actions[0]), actions[1..]);
    }
  }

  // ---------------------------------------------------------------------------
  // Saving.

  /** The props the application hands the modal for an engine. */
  function PropsOf(e: Engine): (p: Props)
    ensures p.currentConfig == e.state.config
    ensures p.teamAName == e.state.teamAName && p.teamBName == e.state.teamBName
  {
    Props(e.state.config, e.state.teamAName, e.state.teamBName)
  }

  /** The save as the application wires it, along the `onSave` path of
      `src/components/SettingsModal.tsx`: the modal calls
      `onSave(config, teamAName, teamBName)`, and `onSave` is the hook's
      `applySettings`, which takes the configuration only. Along that path
      the edited names are dropped; the extra `onSaveNames` prop the
      application also passes is not modelled. */
  function SaveAsWritten(e: Engine, f: Form): (r: Engine)
    ensures r.state.config == f.config && r.stack == [r.state]
    ensures r.state.teamAName == e.state.teamAName && r.state.teamBName == e.state.teamBName
  {
    ApplySettings(e, f.config)
  }

  /** Along the `onSave` path, renaming a team in the settings and saving
      leaves the old name in place, and the save button stays enabled
      afterwards. */
  lemma SaveAsWrittenDropsNames(e: Engine, f: Form)
    requires f.nameA != e.state.teamAName
    ensures SaveAsWritten(e, f).state.teamAName != f.nameA
    ensures HasChanges(f, PropsOf(SaveAsWritten(e, f)))
  {
  }

  /** The save the modal's interface promises: the match restarts under the
      new configuration with the edited names as the only snapshot. */
  function Save(e: Engine, f: Form): (r: Engine)
    ensures r.state.config == f.config
    ensures r.state.teamAName == f.nameA && r.state.teamBName == f.nameB
    ensures r.stack == [r.state] && !CanUndo(r)
    ensures r.state.scoreA == 0 && r.state.scoreB == 0 && r.state.history == []
    ensures r.state.swappedSides == e.state.swappedSides
  {
    ApplySettings(VolleyGame.SetTeamNames(e, f.nameA, f.nameB), f.config)
  }

  /** After a save the form and the engine agree, so the save button is
      disabled; the engine stays valid and in step with its stack whenever the
      form was opened on an in-range configuration. */
  lemma SaveSettlesForm(e: Engine, f: Form, actions: seq<Action>)
    requires ValidEngine(e)
    requires ConfigInBounds(f.config)
    ensures !HasChanges(ActAll(f, actions), PropsOf(Save(e, ActAll(f, actions))))
    ensures ValidEngine(Save(e, ActAll(f, actions))) && InSync(Save(e, ActAll(f, actions)))
  {
    var g := ActAll(f, actions);
    ActionsKeepBounds(f, actions);
    ResetStateValid(Score.SetTeamNames(e.state, g.nameA, g.nameB), Some(g.config));
  }
}
