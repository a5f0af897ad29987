/** The set-change condition of a button (`setChangeSetCondition`, shared
    by axis buttons and stick buttons): a switch into "while held" or
    "two way" announces a set assignment, leaving one of them withdraws
    it, and a disabled condition clears the target set. */
module SetChange {
  import opened Common

  datatype SetChangeCondition = SetChangeDisabled | SetChangeOneWay | SetChangeTwoWay | SetChangeWhileHeld

  /** The `setAssignmentChanged` signal: button index, index of the owning
      axis or stick, the target set and the condition announced. */
  datatype Assignment = Assignment(button: int, owner: int, setSelection: int, condition: SetChangeCondition)

  datatype SetChangeState = SetChangeState(condition: SetChangeCondition, setSelection: int)

  /** What one call did. `summaryRebuilt` and `propertyUpdated` are the
      rebuild and the signal of `setChangeSetCondition` itself;
      `selectionReset` records its call of `setChangeSetSelection(-1)`. */
  datatype SetChangeOutcome = SetChangeOutcome(
    state: SetChangeState,
    emitted: Option<Assignment>,
    summaryRebuilt: bool,
    propertyUpdated: bool,
    selectionReset: bool)

  /** Conditions that the owning set must be told about. */
  predicate Assignable(c: SetChangeCondition) {
    c == SetChangeWhileHeld || c == SetChangeTwoWay
  }

  /** The transition. The announcement carries the target set as it was
      before a disabled condition clears it to -1. Whenever the resulting
      condition is disabled the target set is reset through
      `setChangeSetSelection(-1)`, changed or not. `rebuild` is whether the
      caller asks for the summary string to be rebuilt on a change. */
  function Transition(button: int, owner: int, s: SetChangeState, condition: SetChangeCondition,
                      passive: bool, rebuild: bool): (r: SetChangeOutcome)
    ensures r.state.condition == condition
    ensures r.emitted.Some? <==>
      !passive && condition != s.condition && (Assignable(condition) || Assignable(s.condition))
    ensures r.emitted.Some? ==>
      && r.emitted.value.button == button
      && r.emitted.value.owner == owner
      && r.emitted.value.setSelection == s.setSelection
      && r.emitted.value.condition == (if Assignable(condition) then condition else SetChangeDisabled)
    ensures r.state.setSelection == if condition == SetChangeDisabled then -1 else s.setSelection
    ensures r.propertyUpdated <==> condition != s.condition
    ensures r.summaryRebuilt <==> condition != s.condition && rebuild
    ensures r.selectionReset <==> condition == SetChangeDisabled
  {
    var changed := condition != s.condition;
    var emitted :=
      if changed && !passive then
        if Assignable(condition) then Some(Assignment(button, owner, s.setSelection, condition))
        else if Assignable(s.condition) then Some(Assignment(button, owner, s.setSelection, SetChangeDisabled))
        else None
      else None;
    var newCondition := if (changed && !passive) || passive then condition else s.condition;
    var selection := if newCondition == SetChangeDisabled then -1 else s.setSelection;
    var updated := newCondition != s.condition;
    SetChangeOutcome(SetChangeState(newCondition, selection), emitted, updated && rebuild, updated,
                     newCondition == SetChangeDisabled)
  }

  /** Asking for the condition a button already has announces nothing,
      changes no state and neither rebuilds nor signals by itself; only a
      disabled condition resets the target set again. */
  lemma TransitionIdempotent(button: int, owner: int, s: SetChangeState, condition: SetChangeCondition,
                             passive1: bool, passive2: bool, rebuild: bool)
    ensures var first := Transition(button, owner, s, condition, passive1, rebuild);
      var second := Transition(button, owner, first.state, condition, passive2, rebuild);
      && second.state == first.state && second.emitted.None? && !second.propertyUpdated && !second.summaryRebuilt
      && second.selectionReset == (condition == SetChangeDisabled)
  {
  }

  /** Passive and active calls reach the same state; they differ only in
      whether the owning set is told. */
  lemma PassiveSameState(button: int, owner: int, s: SetChangeState, condition: SetChangeCondition, rebuild: bool)
    ensures Transition(button, owner, s, condition, true, rebuild).state ==
            Transition(button, owner, s, condition, false, rebuild).state
    ensures Transition(button, owner, s, condition, true, rebuild).emitted.None?
  {
  }

  /** Switching into an assignable condition and back out again announces
      the condition and then withdraws it, both for the same target set. */
  lemma AssignThenWithdraw(button: int, owner: int, s: SetChangeState, into: SetChangeCondition,
                           back: SetChangeCondition, rebuild: bool)
    requires Assignable(into) && !Assignable(back)
    requires s.condition != into
    ensures var first := Transition(button, owner, s, into, false, rebuild);
      var second := Transition(button, owner, first.state, back, false, rebuild);
      && first.emitted == Some(Assignment(button, owner, s.setSelection, into))
      && second.emitted == Some(Assignment(button, owner, s.setSelection, SetChangeDisabled))
  {
  }
}
