/** The employee-creation wizard of
    `src/components/employee/CreateEmployeeModal.jsx`: the current step,
    the data the steps have produced so far, and the progress bar that
    marks steps active or completed. */
module Wizard {
  import opened Wrappers
  import opened Json
  import opened Constants

  /** A call a step component makes on the modal: `onUpdate(stepData)` or
      `onComplete(nextStep)`. Steps record their calls; `Dispatch` plays one
      on the modal. */
  datatype Callback = OnUpdate(data: Object) | OnComplete(next: Step)

  /** The keys the session starts with. */
  const SessionKeys: set<string> := {"user", "employee", "nfcId", "faceId"}

  /** The initial `employeeData`: the four keys, all `null`. */
  function InitialEmployeeData(): (data: Object)
    ensures data.Keys == SessionKeys
    ensures forall k :: k in data ==> data[k] == JNull
  {
    map["user" := JNull, "employee" := JNull, "nfcId" := JNull, "faceId" := JNull]
  }

  /** A merge never drops a key, so the four session keys stay present
      whatever the steps report. */
  lemma MergeKeepsSessionKeys(data: Object, stepData: Object)
    requires SessionKeys <= data.Keys
    ensures SessionKeys <= Spread(data, stepData).Keys
  {
    assert Spread(data, stepData).Keys == data.Keys + stepData.Keys;
  }

  /** `Array.prototype.indexOf`: the first index holding `v`, or -1. */
  function IndexOf(values: seq<string>, v: string): (i: int)
    ensures -1 <= i < |values|
    ensures i == -1 <==> v !in values
    ensures 0 <= i ==> values[i] == v && forall k :: 0 <= k < i ==> values[k] != v
  {
    if values == [] then -1
    else if values[0] == v then 0
    else
      var j := IndexOf(values[1..], v);
      if j == -1 then -1 else j + 1
  }

  /** The progress bar's `isActive`. */
  predicate IsActive(step: Step, current: Step)
  {
    StepValue(step) == StepValue(current)
  }

  /** The progress bar's `isCompleted`: the current step comes later in
      `Object.values(CREATION_STEPS)` than `step`. */
  predicate IsCompleted(step: Step, current: Step)
  {
    IndexOf(CreationStepValues(), StepValue(current)) > IndexOf(CreationStepValues(), StepValue(step))
  }

  /** `indexOf` finds every step at its position. */
  lemma IndexOfStep(s: Step)
    ensures IndexOf(CreationStepValues(), StepValue(s)) == Position(s)
  {
    StepValuesDistinct();
    var v := CreationStepValues();
    assert v[Position(s)] == StepValue(s);
  }

  /** A step shows as completed exactly when it comes before the current
      step. */
  lemma CompletedIffEarlier(step: Step, current: Step)
    ensures IsCompleted(step, current) <==> Position(step) < Position(current)
  {
    IndexOfStep(step);
    IndexOfStep(current);
  }

  /** Exactly one step of the bar is active, the current one, and it is not
      also shown completed. */
  lemma ExactlyOneActive(current: Step)
    ensures forall i :: 0 <= i < |CreationSteps| ==> (IsActive(CreationSteps[i], current) <==> i == Position(current))
    ensures !IsCompleted(current, current)
  {
    StepValuesDistinct();
    forall i | 0 <= i < |CreationSteps|
      ensures IsActive(CreationSteps[i], current) <==> i == Position(current)
    {
      assert CreationSteps[i] == current <==> i == Position(current);
    }
    CompletedIffEarlier(current, current);
  }

  /** Whether a connector is drawn after the step at `index`. */
  predicate HasConnector(index: nat)
  {
    index < |CreationStepValues()| - 1
  }

  /** A connector follows every step but the last, the review. */
  lemma ConnectorsBetweenSteps()
    ensures forall i :: 0 <= i < |CreationSteps| ==> (HasConnector(i) <==> CreationSteps[i] != Review)
  {
  }

  /** The modal's state. `closeRequests` counts the calls of the `onClose`
      property. */
  class CreateEmployeeModal {
    var currentStep: Step
    var employeeData: Object
    var closeRequests: nat

    /** A new session starts at the first step with the four keys `null`. */
    constructor()
      ensures currentStep == UserInfo && employeeData == InitialEmployeeData() && closeRequests == 0
    {
      currentStep := UserInfo;
      employeeData := InitialEmployeeData();
      closeRequests := 0;
    }

    /** The title and description of the current step. */
    function CurrentStepInfo(): (info: StepInfo)
      reads this
      ensures info.title != "" && info.description != ""
    {
      StepTitle(currentStep)
    }

    /** `updateEmployeeData(stepData)`: shallow merge, the step's keys winning. */
    method UpdateEmployeeData(stepData: Object)
      modifies this
      ensures employeeData == Spread(old(employeeData), stepData)
      ensures currentStep == old(currentStep) && closeRequests == old(closeRequests)
    {
      employeeData := employeeData + stepData;
    }

    /** `handleStepComplete(nextStep)`: moves to any step, in either
        direction, with no check. */
    method HandleStepComplete(nextStep: Step)
      modifies this
      ensures currentStep == nextStep
      ensures employeeData == old(employeeData) && closeRequests == old(closeRequests)
    {
      currentStep := nextStep;
    }

    /** The dialog's `onOpenChange(open)`: calls `onClose` only when the dialog
        closes. Nothing resets the step or the data. */
    method OnOpenChange(open: bool)
      modifies this
      ensures closeRequests == old(closeRequests) + (if open then 0 else 1)
      ensures currentStep == old(currentStep) && employeeData == old(employeeData)
    {
      if !open {
        closeRequests := closeRequests + 1;
      }
    }

    /** Plays a step's callback on the modal. */
    method Dispatch(c: Callback)
      modifies this
      ensures c.OnUpdate? ==> employeeData == Spread(old(employeeData), c.data) && currentStep == old(currentStep)
      ensures c.OnComplete? ==> currentStep == c.next && employeeData == old(employeeData)
      ensures closeRequests == old(closeRequests)
    {
      match c
      case OnUpdate(data) => UpdateEmployeeData(data);
      case OnComplete(next) => HandleStepComplete(next);
    }
  }
}
