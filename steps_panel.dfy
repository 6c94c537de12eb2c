/**
 * The older step list: a step is only added once the viewer has delivered a
 * screenshot, and it always carries that screenshot.
 */
module Steps {
  import opened Wrappers

  /** What the step form submits: its fields, spread into the stored record. */
  datatype StepData = StepData(title: string, description: string, screenshot: Option<string>)

  /** A stored step: the submitted fields, with the pending screenshot in place of any
      screenshot the form sent. */
  datatype Step = Step(title: string, description: string, screenshot: string)

  /** Every stored step carries a screenshot URL that is not empty. */
  predicate Captured(steps: seq<Step>) {
    forall i :: 0 <= i < |steps| ==> |steps[i].screenshot| > 0
  }

  /** The steps `handleAddStep` leaves: with a pending screenshot, the submitted fields and
      that screenshot appended at the end; with none, the same steps. Title and
      description are not checked. */
  function Added(steps: seq<Step>, d: StepData, pending: Option<string>): (r: seq<Step>)
    ensures !Truthy(pending) ==> r == steps
    ensures Truthy(pending) ==> |r| == |steps| + 1 && r[..|steps|] == steps
    ensures Truthy(pending) ==>
      r[|steps|].title == d.title && r[|steps|].description == d.description &&
      r[|steps|].screenshot == pending.value
    ensures Captured(steps) ==> Captured(r)
  {
    if Truthy(pending) then steps + [Step(d.title, d.description, pending.value)] else steps
  }

  /** The screenshot the form may carry never reaches the ledger: two submissions that
      differ only there store the same step. */
  lemma SubmittedScreenshotIgnored(steps: seq<Step>, d: StepData, other: Option<string>, pending: Option<string>)
    ensures Added(steps, d, pending) == Added(steps, d.(screenshot := other), pending)
  {
  }

  /** The component's state slots. */
  class Panel {
    var steps: seq<Step>
    var currentStepScreenshot: Option<string>

    ghost predicate Valid()
      reads this
    {
      Captured(steps)
    }

    constructor ()
      ensures Valid() && steps == [] && currentStepScreenshot == None
    {
      steps, currentStepScreenshot := [], None;
    }

    /** `handleScreenshot`, given the object URL made for the captured image. */
    method HandleScreenshot(url: string)
      requires Valid()
      modifies this
      ensures Valid() && currentStepScreenshot == Some(url) && steps == old(steps)
    {
      currentStepScreenshot := Some(url);
    }

    /** `handleAddStep`: with a pending screenshot the step is appended and the screenshot
        consumed; without one nothing changes. */
    method HandleAddStep(d: StepData)
      requires Valid()
      modifies this
      ensures Valid()
      ensures steps == Added(old(steps), d, old(currentStepScreenshot))
      ensures Truthy(old(currentStepScreenshot)) ==> currentStepScreenshot == None
      ensures !Truthy(old(currentStepScreenshot)) ==> currentStepScreenshot == old(currentStepScreenshot)
    {
      if Truthy(currentStepScreenshot) {
        steps := steps + [Step(d.title, d.description, currentStepScreenshot.value)];
        currentStepScreenshot := None;
      }
    }
  }
}
