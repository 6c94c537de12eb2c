/**
 * The session state of the application's home page: the model file, the part
 * selected in the viewer, the draft of the next step and the ledger of
 * recorded steps, whose part numbers are kept dense and 1-based.
 */
module Page {
  import opened Wrappers
  import Text
  import Ledger
  import ModelViewer

  datatype Animation = Animation(kind: string, axis: string, value: int, speed: int)

  /** The draft the step form edits. */
  datatype StepData = StepData(
    description: string,
    partName: string,
    customTool: string,
    animation: Animation,
    recordedVideo: Option<string>)

  /** The draft as the page starts and as `addStep` leaves it. */
  const DefaultStepData := StepData("", "", "", Animation("none", "x", 0, 1), None)

  /** One recorded assembly step. */
  datatype Step = Step(
    id: string,
    description: string,
    partName: string,
    customTool: string,
    animation: Animation,
    recordedVideo: string,
    partNumber: nat)

  /** The guard of `addStep`: a description that is not blank and a recorded video. */
  predicate CanAdd(d: StepData) {
    |Text.Trim(d.description)| > 0 && Truthy(d.recordedVideo)
  }

  /** Every step's part number is its 1-based position. */
  predicate Dense(steps: seq<Step>) {
    forall i :: 0 <= i < |steps| ==> steps[i].partNumber == i + 1
  }

  /** The steps `addStep` leaves: the draft appended as step number `|steps| + 1` when the
      guard holds, the same steps otherwise. */
  function Appended(steps: seq<Step>, d: StepData, stamp: nat): (r: seq<Step>)
    ensures CanAdd(d) ==> |r| == |steps| + 1 && r[..|steps|] == steps
    ensures CanAdd(d) ==> r[|steps|] == Step(Text.StepId(stamp), d.description, d.partName,
      d.customTool, d.animation, d.recordedVideo.value, |steps| + 1)
    ensures !CanAdd(d) ==> r == steps
    ensures Dense(steps) ==> Dense(r)
  {
    if CanAdd(d) then
      steps + [Step(Text.StepId(stamp), d.description, d.partName, d.customTool, d.animation,
                    d.recordedVideo.value, |steps| + 1)]
    else steps
  }

  /** The `map` that gives every step its position plus one; nothing else changes. */
  function Renumbered(steps: seq<Step>): (r: seq<Step>)
    ensures |r| == |steps| && Dense(r)
    ensures forall i :: 0 <= i < |steps| ==> r[i] == steps[i].(partNumber := i + 1)
  {
    seq(|steps|, i requires 0 <= i < |steps| => steps[i].(partNumber := i + 1))
  }

  /** `handleDragEnd`: no destination leaves the steps as they are; otherwise the step at
      `source` is spliced out, spliced in at `destination`, and all steps renumbered. */
  function Reordered(steps: seq<Step>, source: nat, destination: Option<nat>): (r: seq<Step>)
    requires destination.Some? ==> source < |steps|
    ensures destination.None? ==> r == steps
    ensures destination.Some? ==> |r| == |steps| && Dense(r)
    ensures destination.Some? ==>
      var k := Ledger.Slot(|steps|, destination.value);
      r[k] == steps[source].(partNumber := k + 1)
  {
    if destination.None? then steps
    else Renumbered(Ledger.Move(steps, source, destination.value))
  }

  /** The inline remove handler: drop position `index`, renumber the rest. */
  function Removed(steps: seq<Step>, index: int): (r: seq<Step>)
    ensures Dense(r)
    ensures |r| == if 0 <= index < |steps| then |steps| - 1 else |steps|
  {
    Ledger.WithoutShape(steps, index);
    Renumbered(Ledger.Without(steps, index))
  }

  /** A step with its part number blanked: what renumbering never touches. */
  function Unnumbered(s: Step): Step {
    s.(partNumber := 0)
  }

  function Records(steps: seq<Step>): seq<Step> {
    Ledger.Map(Unnumbered, steps)
  }

  /** Two dense ledgers holding the same records in the same order are equal. */
  lemma DenseRecordsDetermine(a: seq<Step>, b: seq<Step>)
    requires Dense(a) && Dense(b) && Records(a) == Records(b)
    ensures a == b
  {
    assert |a| == |Records(a)| == |Records(b)| == |b|;
    forall i | 0 <= i < |a| ensures a[i] == b[i] {
      assert Records(a)[i] == Records(b)[i];
    }
  }

  /** Removing position `k` from a dense ledger keeps the steps before `k` as they were
      and moves every later step up by one, its part number decreased by exactly one. */
  lemma RemovedShiftsLaterSteps(steps: seq<Step>, k: nat)
    requires Dense(steps) && k < |steps|
    ensures |Removed(steps, k)| == |steps| - 1
    ensures forall j :: 0 <= j < k ==> Removed(steps, k)[j] == steps[j]
    ensures forall j :: k <= j < |steps| - 1 ==>
      Removed(steps, k)[j] == steps[j + 1].(partNumber := steps[j + 1].partNumber - 1)
  {
    Ledger.WithoutShape(steps, k);
    var rest := steps[..k] + steps[k + 1..];
    assert forall j :: 0 <= j < k ==> rest[j] == steps[j];
    assert forall j :: k <= j < |steps| - 1 ==> rest[j] == steps[j + 1];
  }

  /** A reorder with a destination moves the records exactly as the splice pair moves
      list items (a permutation that lands the dragged step at the destination and keeps
      the others in order), and only the part numbers are rewritten. */
  lemma ReorderedMovesRecords(steps: seq<Step>, source: nat, destination: nat)
    requires source < |steps|
    ensures Records(Reordered(steps, source, Some(destination)))
      == Ledger.Move(Records(steps), source, destination)
  {
    var moved := Ledger.Move(steps, source, destination);
    Ledger.MoveMap(Unnumbered, steps, source, destination);
    var r := Reordered(steps, source, Some(destination));
    assert Records(r) == Records(moved);
  }

  /** Dragging the step back from where it landed restores a dense ledger exactly. */
  lemma ReorderUndo(steps: seq<Step>, source: nat, destination: nat)
    requires Dense(steps) && source < |steps|
    ensures var once := Reordered(steps, source, Some(destination));
      Reordered(once, Ledger.Slot(|steps|, destination), Some(source)) == steps
  {
    var k := Ledger.Slot(|steps|, destination);
    var once := Reordered(steps, source, Some(destination));
    var twice := Reordered(once, k, Some(source));
    ReorderedMovesRecords(steps, source, destination);
    ReorderedMovesRecords(once, k, source);
    Ledger.MoveUndo(Records(steps), source, destination);
    DenseRecordsDetermine(twice, steps);
  }

  /** The structural edits of the ledger, as the page's handlers apply them. */
  datatype Edit =
    | Add(data: StepData, stamp: nat)
    | Remove(index: int)
    | Reorder(source: nat, destination: Option<nat>)
    | NewModel

  /** One edit. A drag whose source is not a list position is never reported by the
      drag-and-drop library; it is taken as a no-op here. */
  function Apply(steps: seq<Step>, e: Edit): seq<Step> {
    match e
    case Add(d, stamp) => Appended(steps, d, stamp)
    case Remove(i) => Removed(steps, i)
    case Reorder(src, dst) => if dst.Some? && src >= |steps| then steps else Reordered(steps, src, dst)
    case NewModel => []
  }

  function Run(steps: seq<Step>, edits: seq<Edit>): seq<Step>
    decreases |edits|
  {
    if edits == [] then steps else Run(Apply(steps, edits[0]), edits[1..])
  }

  /** From any dense ledger (the empty one in particular) every sequence of adds,
      removals, reorders and model uploads leaves part numbers equal to positions. */
  lemma {:induction false} RunKeepsDense(steps: seq<Step>, edits: seq<Edit>)
    requires Dense(steps)
    ensures Dense(Run(steps, edits))
    decreases |edits|
  {
    if edits != [] {
      RunKeepsDense(Apply(steps, edits[0]), edits[1..]);
    }
  }

  /** `fileName.split('.').pop().toLowerCase()` is one of stl, step, stp. */
  predicate Accepts(fileName: string) {
    Text.Lower(Text.LastSegment(fileName)) in ["stl", "step", "stp"]
  }

  /** A name with an extension is accepted exactly when the text after its last dot,
      lower-cased, is stl, step or stp; what comes before the dot does not matter. */
  lemma AcceptsByExtension(stem: string, ext: string)
    requires '.' !in ext
    ensures Accepts(stem + "." + ext) <==> Text.Lower(ext) in ["stl", "step", "stp"]
  {
    Text.LastSegmentAfterDot(stem, ext);
  }

  /** An upper-case extension passes. */
  lemma AcceptsUpperCase()
    ensures Accepts("bracket.STL")
  {
    AcceptsByExtension("bracket", "STL");
    var l := Text.Lower("STL");
    assert l[0] == 's' && l[1] == 't' && l[2] == 'l';
    assert l == "stl";
  }

  /** Another extension does not, even after an accepted one. */
  lemma RejectsOtherExtension()
    ensures !Accepts("archive.stl.zip")
  {
    AcceptsByExtension("archive.stl", "zip");
    var l := Text.Lower("zip");
    assert l[0] == 'z';
  }

  /** A character that lower-cases to a dot is a dot. */
  lemma LowerDot(c: char)
    requires Text.LowerChar(c) == '.'
    ensures c == '.'
  {
  }

  /** A name whose lower-cased form ends with "." + `ext` (`ext` without dots) has `ext`
      as its lower-cased last segment. */
  lemma LowerExtension(name: string, ext: string)
    requires '.' !in ext && Text.EndsWith(Text.Lower(name), "." + ext)
    ensures Text.Lower(Text.LastSegment(name)) == ext
  {
    var lower := Text.Lower(name);
    var dot := |name| - |ext| - 1;
    assert lower[dot..] == "." + ext;
    assert lower[dot] == '.';
    LowerDot(name[dot]);
    var tail := name[dot + 1..];
    assert Text.Lower(tail) == ext by {
      forall i | 0 <= i < |tail| ensures Text.Lower(tail)[i] == ext[i] {
        assert lower[dot + 1 + i] == ("." + ext)[1 + i];
      }
    }
    assert '.' !in tail by {
      forall i | 0 <= i < |tail| ensures tail[i] != '.' {
        assert Text.LowerChar(tail[i]) == ext[i];
      }
    }
    assert name == name[..dot] + "." + tail;
    Text.LastSegmentAfterDot(name[..dot], tail);
  }

  /** Every name the viewer would send to the converter passes the page's allow-list. */
  lemma ConvertedNamesAccepted(name: string)
    requires ModelViewer.NeedsConversion(name)
    ensures Accepts(name)
  {
    if Text.EndsWith(Text.Lower(name), ".step") {
      assert ".step" == "." + "step";
      LowerExtension(name, "step");
    } else {
      assert ".stp" == "." + "stp";
      LowerExtension(name, "stp");
    }
  }

  /** A name without a dot is never routed to the converter, which looks for ".step"
      or ".stp". */
  lemma DotlessNotConverted(name: string)
    requires '.' !in name
    ensures !ModelViewer.NeedsConversion(name)
  {
    var lower := Text.Lower(name);
    if Text.EndsWith(lower, ".step") {
      assert lower[|lower| - 5] == '.';
      LowerDot(name[|name| - 5]);
    } else if Text.EndsWith(lower, ".stp") {
      assert lower[|lower| - 4] == '.';
      LowerDot(name[|name| - 4]);
    }
  }

  /** A bare "step", with no dot at all, passes the allow-list (its last segment is the
      whole name) but is not routed to the converter. */
  lemma DotlessStepNotConverted()
    ensures Accepts("step") && !ModelViewer.NeedsConversion("step")
  {
    var name := "step";
    assert '.' !in name;
    DotlessNotConverted(name);
    assert Text.LastSegment(name) == name;
    assert Text.Lower(name) == name;
  }

  /** The session: the page component's state slots. */
  class Home {
    var modelFile: Option<ModelViewer.ModelFile>
    var selectedPart: Option<ModelViewer.PartSelection>
    var steps: seq<Step>
    var stepData: StepData
    var screenshotTaken: bool

    ghost predicate Valid()
      reads this
    {
      Dense(steps)
    }

    constructor ()
      ensures Valid()
      ensures modelFile == None && selectedPart == None && steps == []
      ensures stepData == DefaultStepData && !screenshotTaken
    {
      modelFile, selectedPart, steps := None, None, [];
      stepData, screenshotTaken := DefaultStepData, false;
    }

    /** `handleFileUpload`: a new model replaces the old one and starts an empty ledger. */
    method HandleFileUpload(file: ModelViewer.ModelFile)
      modifies this
      ensures Valid()
      ensures modelFile == Some(file) && selectedPart == None && steps == []
      ensures stepData == old(stepData) && screenshotTaken == old(screenshotTaken)
    {
      modelFile := Some(file);
      selectedPart := None;
      steps := [];
    }

    /** `handlePartSelect`: the viewer's capture becomes the selected part. */
    method HandlePartSelect(partInfo: ModelViewer.PartSelection)
      requires Valid()
      modifies this
      ensures Valid()
      ensures selectedPart == Some(partInfo) && !screenshotTaken
      ensures modelFile == old(modelFile) && steps == old(steps) && stepData == old(stepData)
    {
      selectedPart := Some(partInfo);
      screenshotTaken := false;
    }

    /** The form fields: each rewrites one field of the draft. */
    method SetPartName(text: string)
      requires Valid()
      modifies this
      ensures Valid() && stepData == old(stepData).(partName := text)
      ensures modelFile == old(modelFile) && selectedPart == old(selectedPart) && steps == old(steps)
      ensures screenshotTaken == old(screenshotTaken)
    {
      stepData := stepData.(partName := text);
    }

    method SetCustomTool(text: string)
      requires Valid()
      modifies this
      ensures Valid() && stepData == old(stepData).(customTool := text)
      ensures modelFile == old(modelFile) && selectedPart == old(selectedPart) && steps == old(steps)
      ensures screenshotTaken == old(screenshotTaken)
    {
      stepData := stepData.(customTool := text);
    }

    method SetDescription(text: string)
      requires Valid()
      modifies this
      ensures Valid() && stepData == old(stepData).(description := text)
      ensures modelFile == old(modelFile) && selectedPart == old(selectedPart) && steps == old(steps)
      ensures screenshotTaken == old(screenshotTaken)
    {
      stepData := stepData.(description := text);
    }

    /** The recorder's stop callback: the clip's URL goes into the draft. */
    method RecordingStopped(videoUrl: string)
      requires Valid()
      modifies this
      ensures Valid() && stepData == old(stepData).(recordedVideo := Some(videoUrl))
      ensures modelFile == old(modelFile) && selectedPart == old(selectedPart) && steps == old(steps)
      ensures screenshotTaken == old(screenshotTaken)
    {
      stepData := stepData.(recordedVideo := Some(videoUrl));
    }

    /** `addStep`, with `stamp` the clock reading behind the new id. With a non-blank
        description and a recorded video the draft is appended as the next numbered step,
        the draft is reset and the selection cleared; otherwise nothing changes. */
    method AddStep(stamp: nat)
      requires Valid()
      modifies this
      ensures Valid()
      ensures steps == Appended(old(steps), old(stepData), stamp)
      ensures CanAdd(old(stepData)) ==> stepData == DefaultStepData && selectedPart == None
      ensures !CanAdd(old(stepData)) ==> stepData == old(stepData) && selectedPart == old(selectedPart)
      ensures modelFile == old(modelFile) && screenshotTaken == old(screenshotTaken)
    {
      if CanAdd(stepData) {
        var newStep := Step(Text.StepId(stamp), stepData.description, stepData.partName,
          stepData.customTool, stepData.animation, stepData.recordedVideo.value, |steps| + 1);
        assert old(steps) + [newStep] == Appended(old(steps), old(stepData), stamp);
        steps := steps + [newStep];
        stepData := DefaultStepData;
        selectedPart := None;
      }
    }

    /** `handleDragEnd`: the drag library reports the dragged position and, unless the
        drop was cancelled, the drop position. */
    method HandleDragEnd(source: nat, destination: Option<nat>)
      requires Valid()
      requires destination.Some? ==> source < |steps|
      modifies this
      ensures Valid()
      ensures steps == Reordered(old(steps), source, destination)
      ensures modelFile == old(modelFile) && selectedPart == old(selectedPart)
      ensures stepData == old(stepData) && screenshotTaken == old(screenshotTaken)
    {
      if destination.None? {
        return;
      }
      var reordered := Ledger.Move(steps, source, destination.value);
      steps := Renumbered(reordered);
    }

    /** The remove button of the step at `index`. */
    method RemoveStep(index: int)
      requires Valid()
      modifies this
      ensures Valid()
      ensures steps == Removed(old(steps), index)
      ensures modelFile == old(modelFile) && selectedPart == old(selectedPart)
      ensures stepData == old(stepData) && screenshotTaken == old(screenshotTaken)
    {
      var newSteps := Ledger.Without(steps, index);
      steps := Renumbered(newSteps);
    }

    /** `handleFileChange`, given the picker's first file if any. An accepted file
        becomes the model, and the ledger is kept; a rejected one raises the alert and
        changes nothing. */
    method HandleFileChange(file: Option<ModelViewer.ModelFile>) returns (alert: Option<string>)
      requires Valid()
      modifies this
      ensures Valid()
      ensures file.Some? && Accepts(file.value.name) ==> modelFile == file && alert == None
      ensures file.None? ==> modelFile == old(modelFile) && alert == None
      ensures file.Some? && !Accepts(file.value.name) ==>
        modelFile == old(modelFile) && alert == Some("Please upload an STL or STEP file")
      ensures steps == old(steps) && selectedPart == old(selectedPart)
      ensures stepData == old(stepData) && screenshotTaken == old(screenshotTaken)
    {
      if file.None? {
        return None;
      }
      if !Accepts(file.value.name) {
        return Some("Please upload an STL or STEP file");
      }
      modelFile := file;
      alert := None;
    }
  }
}
