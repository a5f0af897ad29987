/** The two buttons of an axis (`JoyAxisButton`): their display name,
    their set-change condition, the turbo mode setter and the last
    distance they report for mouse movement. */
module AxisButton {
  import opened Common
  import opened SetChange
  import GradientButton

  /** What an axis button reads from its axis. `lastValueButton` is the
      index of the axis button that the last known throttled value selects
      (none inside the dead zone) and `lastValueDistance` that value's
      distance from the dead zone. */
  datatype AxisView = AxisView(
    index: int,
    partialName: string,
    lastValueButton: Option<int>,
    lastValueDistance: real)

  datatype AxisButtonState = AxisButtonState(
    index: int,
    buttonName: string,
    defaultButtonName: string,
    setChange: SetChangeState,
    turboMode: GradientButton.TurboMode)

  /** The word naming an axis button when no usable name is set. */
  function FallbackWord(index: int): string {
    if index == 0 then "Negative" else if index == 1 then "Positive" else "Unknown"
  }

  /** The name after the axis's own partial name. */
  function NameSuffix(b: AxisButtonState, forceFullFormat: bool, displayNames: bool): (r: string)
    ensures !displayNames ==> r == "Button " + FallbackWord(b.index)
    ensures displayNames && b.buttonName != "" ==>
      r == (if forceFullFormat then "Button " else "") + b.buttonName
    ensures displayNames && b.buttonName == "" && b.defaultButtonName != "" ==>
      r == (if forceFullFormat then "Button " else "") + b.defaultButtonName
    ensures b.buttonName == "" && b.defaultButtonName == "" ==> r == "Button " + FallbackWord(b.index)
  {
    var prefix := if forceFullFormat then "Button " else "";
    if b.buttonName != "" && displayNames then prefix + b.buttonName
    else if b.defaultButtonName != "" && displayNames then prefix + b.defaultButtonName
    else "Button " + FallbackWord(b.index)
  }

  /** `getPartialName`: the axis's partial name, ": ", then the suffix. */
  function PartialName(axis: AxisView, b: AxisButtonState, forceFullFormat: bool, displayNames: bool): (r: string)
    ensures |r| >= |axis.partialName| + 2
    ensures r[..|axis.partialName|] == axis.partialName
    ensures r[|axis.partialName|..|axis.partialName| + 2] == ": "
    ensures r[|axis.partialName| + 2..] == NameSuffix(b, forceFullFormat, displayNames)
  {
    axis.partialName + ": " + NameSuffix(b, forceFullFormat, displayNames)
  }

  /** With names hidden, custom and default names make no difference. */
  lemma NamesIgnoredWhenHidden(axis: AxisView, b: AxisButtonState, c: AxisButtonState, forceFullFormat: bool)
    requires b.index == c.index
    ensures PartialName(axis, b, forceFullFormat, false) == PartialName(axis, c, forceFullFormat, false)
  {
  }

  /** The fallback words tell the two buttons of an axis apart. */
  lemma FallbackDistinguishesButtons()
    ensures FallbackWord(0) != FallbackWord(1)
    ensures forall i :: i != 0 && i != 1 ==> FallbackWord(i) == "Unknown"
  {
  }

  /** `setChangeSetCondition` of an axis button: the shared transition,
      keyed by the axis index, rebuilding the summary only when asked. */
  function SetCondition(axis: AxisView, b: AxisButtonState, condition: SetChangeCondition,
                        passive: bool, updateActiveString: bool): (r: (AxisButtonState, SetChangeOutcome))
    ensures r.0.setChange == r.1.state
    ensures r.0.index == b.index && r.0.buttonName == b.buttonName && r.0.turboMode == b.turboMode
    ensures r.1.emitted.Some? ==> r.1.emitted.value.owner == axis.index && r.1.emitted.value.button == b.index
    ensures r.1.summaryRebuilt <==> r.1.propertyUpdated && updateActiveString
    ensures r.1.selectionReset <==> condition == SetChangeDisabled
    ensures r.1.state.condition == condition
  {
    var out := Transition(b.index, axis.index, b.setChange, condition, passive, updateActiveString);
    (b.(setChange := out.state), out)
  }

  /** `setTurboMode`: takes effect whenever the button is part of a real
      axis, which is always, since `isPartRealAxis` is overridden to return
      true (`GradientButton.IsPartRealAxis`). */
  function SetTurboMode(b: AxisButtonState, mode: GradientButton.TurboMode): (r: AxisButtonState)
    ensures r.turboMode == mode
    ensures r.(turboMode := b.turboMode) == b
  {
    if GradientButton.IsPartRealAxis() then b.(turboMode := mode) else b
  }

  /** `getLastMouseDistanceFromDeadZone`: the last known value's distance
      when that value selects this button, otherwise 0. */
  function LastMouseDistanceFromDeadZone(axis: AxisView, b: AxisButtonState): (r: real)
    ensures axis.lastValueButton != Some(b.index) ==> r == 0.0
    ensures axis.lastValueButton == Some(b.index) ==> r == axis.lastValueDistance
  {
    if axis.lastValueButton == Some(b.index) then axis.lastValueDistance else 0.0
  }

  /** Of two different buttons on one axis, at most one reports a last
      mouse distance other than 0. */
  lemma LastDistanceExclusive(axis: AxisView, b: AxisButtonState, c: AxisButtonState)
    requires b.index != c.index
    ensures LastMouseDistanceFromDeadZone(axis, b) == 0.0 || LastMouseDistanceFromDeadZone(axis, c) == 0.0
  {
  }
}
