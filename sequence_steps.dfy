/**
 * The sequence editor beside the viewer: a list of free-text steps, each
 * optionally tied to the part picked in the viewer and its screenshot, with
 * drag-and-drop reordering, removal and a PDF export that labels the steps
 * by position.
 */
module SequenceSteps {
  import opened Wrappers
  import Text
  import Ledger
  import Pdf
  import ModelViewer

  /** The picked part as the editor receives it: a part index when the sender supplies one,
      and the screenshot taken with it. */
  datatype PartInfo = PartInfo(partIndex: Option<int>, screenshot: Option<string>)

  /** `Step`: an id, the instruction text, and the optional part and screenshot. */
  datatype Step = Step(id: string, text: string, partIndex: Option<int>, screenshot: Option<string>)

  /** `currentPartInfo?.partIndex`. */
  function PartIndexOf(info: Option<PartInfo>): Option<int> {
    if info.Some? then info.value.partIndex else None
  }

  /** `currentPartInfo?.screenshot`. */
  function ScreenshotOf(info: Option<PartInfo>): Option<string> {
    if info.Some? then info.value.screenshot else None
  }

  /** What the editor receives from the viewer's `onPartSelect`: the capture's screenshot,
      and no part index, since the capture carries none. */
  function FromSelection(sel: ModelViewer.PartSelection): PartInfo {
    PartInfo(None, Some(sel.screenshot))
  }

  /** A step added after a viewer capture holds that capture's screenshot and no part
      index. */
  lemma AddedFromViewer(steps: seq<Step>, draft: string, sel: ModelViewer.PartSelection, stamp: nat)
    requires HasText(draft)
    ensures var r := Added(steps, draft, Some(FromSelection(sel)), stamp);
      r[|steps|].partIndex == None && r[|steps|].screenshot == Some(sel.screenshot)
  {
    var r := Added(steps, draft, Some(FromSelection(sel)), stamp);
    assert r[|steps|].partIndex == PartIndexOf(Some(FromSelection(sel)));
  }

  /** A stored instruction is not blank and carries no surrounding whitespace. */
  predicate Tidy(s: Step) {
    |s.text| > 0 && Text.Trim(s.text) == s.text
  }

  predicate AllTidy(steps: seq<Step>) {
    forall s :: s in steps ==> Tidy(s)
  }

  /** The guard of `handleAddStep`: the draft is not blank once trimmed. */
  predicate HasText(draft: string) {
    |Text.Trim(draft)| > 0
  }

  /** The steps `handleAddStep` leaves: with a draft that is not blank, one step at the end
      holding the trimmed draft and the current part's index and screenshot; otherwise the
      same steps. */
  function Added(steps: seq<Step>, draft: string, info: Option<PartInfo>, stamp: nat): (r: seq<Step>)
    ensures !HasText(draft) ==> r == steps
    ensures HasText(draft) ==> |r| == |steps| + 1 && r[..|steps|] == steps
    ensures HasText(draft) ==>
      r[|steps|].text == Text.Trim(draft) &&
      r[|steps|].partIndex == PartIndexOf(info) && r[|steps|].screenshot == ScreenshotOf(info)
  {
    if HasText(draft) then
      steps + [Step(Text.StepId(stamp), Text.Trim(draft), PartIndexOf(info), ScreenshotOf(info))]
    else steps
  }

  /** The guard is exactly "not all whitespace". */
  lemma HasTextIffNotBlank(draft: string)
    ensures HasText(draft) <==> !Text.IsBlank(draft)
  {
    assert Text.Trim(draft) == [] <==> Text.IsBlank(draft);
  }

  /** What `handleAddStep` stores is already trimmed and not blank. */
  lemma AddedStaysTidy(steps: seq<Step>, draft: string, info: Option<PartInfo>, stamp: nat)
    requires AllTidy(steps)
    ensures AllTidy(Added(steps, draft, info, stamp))
  {
    if HasText(draft) {
      var t := Text.Trim(draft);
      Text.TrimIdempotent(draft);
      var x := Step(Text.StepId(stamp), t, PartIndexOf(info), ScreenshotOf(info));
      assert Tidy(x);
      assert Added(steps, draft, info, stamp) == steps + [x];
      AppendStaysTidy(steps, x);
    }
  }

  /** Appending a tidy step to tidy steps leaves them all tidy. */
  lemma AppendStaysTidy(steps: seq<Step>, x: Step)
    requires AllTidy(steps) && Tidy(x)
    ensures AllTidy(steps + [x])
  {
    forall s | s in steps + [x] ensures Tidy(s) {
      assert s in steps || s == x;
    }
  }

  /** `onDragEnd` with a drop position: the splice pair, no field of any step rewritten. */
  lemma MovedStaysTidy(steps: seq<Step>, source: nat, destination: nat)
    requires AllTidy(steps) && source < |steps|
    ensures AllTidy(Ledger.Move(steps, source, destination))
  {
    var r := Ledger.Move(steps, source, destination);
    forall s | s in r ensures Tidy(s) {
      assert s in multiset(r);
      assert s in multiset(steps);
    }
  }

  /** `handleRemoveStep` drops one position and keeps the others as they were. */
  lemma RemovedStaysTidy(steps: seq<Step>, index: int)
    requires AllTidy(steps)
    ensures AllTidy(Ledger.Without(steps, index))
  {
    Ledger.WithoutShape(steps, index);
    if 0 <= index < |steps| {
      assert steps == steps[..index] + steps[index..];
      PiecesStayTidy(steps[..index], steps[index..]);
    }
  }

  /** Dropping one step from tidy steps, the first of the part `b`, leaves them tidy. */
  lemma PiecesStayTidy(a: seq<Step>, b: seq<Step>)
    requires AllTidy(a + b) && b != []
    ensures AllTidy(a + b[1..])
  {
    forall s | s in a + b[1..] ensures Tidy(s) {
      if s in a {
        assert s in a + b;
      } else {
        assert s in b[1..];
        assert s in a + b;
      }
    }
  }

  /** The heading of the step at position `i`: `Step ${i + 1}`. */
  function Label(i: nat): string {
    "Step " + Text.NatToString(i + 1)
  }

  /** The image slot of one step: drawn at the cursor when the screenshot is set and the
      library takes it; a refused image is skipped and adds nothing. */
  function PictureLines(s: Step, y: int, w: Pdf.Writer): Pdf.Laid {
    if Truthy(s.screenshot) && w.drawsImage(s.screenshot.value) then
      Pdf.Laid([Pdf.Draw(Pdf.Picture, s.screenshot.value, 20, y)], y + 70)
    else Pdf.Laid([], y)
  }

  /** The step at position `i`, labelled "Step i+1", drawn from cursor `y` on, followed by a
      page break when the cursor has passed the page limit. */
  function Block(s: Step, i: nat, y: int, w: Pdf.Writer): (r: Pdf.Laid)
    ensures y >= 20 ==> 20 <= r.y <= 250
  {
    var heading := [Pdf.Draw(Pdf.Heading, Label(i), 20, y)];
    var body := [Pdf.Draw(Pdf.Body, s.text, 20, y + 10)];
    var pic := PictureLines(s, y + 10 + w.lineCount(s.text, 170) * 7 + 3, w);
    var after := pic.y + 10;
    if after > 250 then Pdf.Laid(heading + body + pic.events + [Pdf.NewPage], 20)
    else Pdf.Laid(heading + body + pic.events, after)
  }

  /** The steps from position `i` on, drawn in list order from cursor `y`. */
  function Layout(steps: seq<Step>, i: nat, y: int, w: Pdf.Writer): Pdf.Laid
    decreases |steps| - i
  {
    if i >= |steps| then Pdf.Laid([], y)
    else
      var b := Block(steps[i], i, y, w);
      var rest := Layout(steps, i + 1, b.y, w);
      Pdf.Laid(b.events + rest.events, rest.y)
  }

  /** A block draws one heading, its position's label, at the cursor it starts from. */
  lemma BlockHeadings(s: Step, i: nat, y: int, w: Pdf.Writer)
    ensures Pdf.Headings(Block(s, i, y, w).events)
      == [Pdf.Draw(Pdf.Heading, Label(i), 20, y)]
  {
    var heading := [Pdf.Draw(Pdf.Heading, Label(i), 20, y)];
    var body := [Pdf.Draw(Pdf.Body, s.text, 20, y + 10)];
    var pic := PictureLines(s, y + 10 + w.lineCount(s.text, 170) * 7 + 3, w);
    Pdf.HeadingsNone(body);
    Pdf.HeadingsNone(pic.events);
    Pdf.HeadingsNone([Pdf.NewPage]);
    Pdf.HeadingsAppend(heading, body);
    Pdf.HeadingsAppend(heading + body, pic.events);
    Pdf.HeadingsAppend(heading + body + pic.events, [Pdf.NewPage]);
    assert Pdf.Headings(heading) == heading;
  }

  /** The export labels the steps from position `i` on by position, in list order, one
      heading each, and every heading sits between the top of the page and the limit 250
      when the cursor starts there. */
  lemma {:induction false} LayoutHeadings(steps: seq<Step>, i: nat, y: int, w: Pdf.Writer)
    requires i <= |steps| && 20 <= y <= 250
    ensures var hs := Pdf.Headings(Layout(steps, i, y, w).events);
      |hs| == |steps| - i &&
      forall k :: 0 <= k < |hs| ==>
        hs[k].text == Label(i + k) && 20 <= hs[k].y <= 250
    decreases |steps| - i
  {
    if i < |steps| {
      var b := Block(steps[i], i, y, w);
      var rest := Layout(steps, i + 1, b.y, w);
      LayoutHeadings(steps, i + 1, b.y, w);
      BlockHeadings(steps[i], i, y, w);
      Pdf.HeadingsAppend(b.events, rest.events);
      LabelledFrom(Pdf.Draw(Pdf.Heading, Label(i), 20, y), Pdf.Headings(rest.events), i);
    }
  }

  /** A heading labelled `i` in front of headings labelled from `i + 1` on gives
      headings labelled from `i` on. */
  lemma LabelledFrom(first: Pdf.Event, hs: seq<Pdf.Event>, i: nat)
    requires first.Draw? && first.text == Label(i) && 20 <= first.y <= 250
    requires forall k :: 0 <= k < |hs| ==>
      hs[k].Draw? && hs[k].text == Label(i + 1 + k) && 20 <= hs[k].y <= 250
    ensures var all := [first] + hs;
      forall k :: 0 <= k < |all| ==> all[k].Draw? && all[k].text == Label(i + k) && 20 <= all[k].y <= 250
  {
    var all := [first] + hs;
    forall k | 0 < k < |all|
      ensures all[k].Draw? && all[k].text == Label(i + k) && 20 <= all[k].y <= 250
    {
      assert all[k] == hs[k - 1];
    }
  }

  /** One pass of the export loop. */
  method ExportStep(steps: seq<Step>, i: nat, y0: int, w: Pdf.Writer) returns (drawn: seq<Pdf.Event>, y: int)
    requires i < |steps|
    ensures drawn == Block(steps[i], i, y0, w).events && y == Block(steps[i], i, y0, w).y
  {
    var step := steps[i];
    y := y0;
    drawn := [Pdf.Draw(Pdf.Heading, Label(i), 20, y)];
    y := y + 10;
    drawn := drawn + [Pdf.Draw(Pdf.Body, step.text, 20, y)];
    y := y + w.lineCount(step.text, 170) * 7 + 3;
    if Truthy(step.screenshot) {
      if w.drawsImage(step.screenshot.value) {
        drawn := drawn + [Pdf.Draw(Pdf.Picture, step.screenshot.value, 20, y)];
        y := y + 70;
      }
    }
    y := y + 10;
    if y > 250 {
      drawn := drawn + [Pdf.NewPage];
      y := 20;
    }
  }

  /** The title, drawn before the steps; the cursor is then at 40. */
  const Title := Pdf.Draw(Pdf.Title, "Assembly Instructions", 20, 20)

  /** `exportToPDF`: the title, then every step labelled by its position. */
  method ExportToPdf(steps: seq<Step>, w: Pdf.Writer) returns (events: seq<Pdf.Event>)
    ensures events == [Title] + Layout(steps, 0, 40, w).events
  {
    var y := 20;
    events := [Pdf.Draw(Pdf.Title, "Assembly Instructions", 20, y)];
    y := y + 20;
    for i := 0 to |steps|
      invariant 20 <= y <= 250
      invariant events + Layout(steps, i, y, w).events == [Title] + Layout(steps, 0, 40, w).events
    {
      ghost var before, y0 := events, y;
      var drawn;
      drawn, y := ExportStep(steps, i, y, w);
      events := events + drawn;
      assert Layout(steps, i, y0, w).events == drawn + Layout(steps, i + 1, y, w).events;
      assert events + Layout(steps, i + 1, y, w).events == before + Layout(steps, i, y0, w).events;
    }
  }

  /** The exported document's headings are "Step 1", "Step 2", ... in list order, one per
      step, no label twice, each between the top of the page and the limit 250. */
  lemma ExportHeadings(steps: seq<Step>, w: Pdf.Writer)
    ensures var hs := Pdf.Headings([Title] + Layout(steps, 0, 40, w).events);
      |hs| == |steps| &&
      (forall k :: 0 <= k < |steps| ==> hs[k].text == Label(k) && 20 <= hs[k].y <= 250) &&
      (forall j, k :: 0 <= j < k < |steps| ==> hs[j].text != hs[k].text)
  {
    Pdf.HeadingsNone([Title]);
    Pdf.HeadingsAppend([Title], Layout(steps, 0, 40, w).events);
    LayoutHeadings(steps, 0, 40, w);
    forall j, k | 0 <= j < k < |steps|
      ensures Label(j) != Label(k)
    {
      LabelsDistinct(j, k);
    }
  }

  /** Position labels differ: no step is labelled twice. */
  lemma LabelsDistinct(j: nat, k: nat)
    requires j != k
    ensures Label(j) != Label(k)
  {
    if Label(j) == Label(k) {
      var a, b := Label(j), Label(k);
      assert a[5..] == Text.NatToString(j + 1) && b[5..] == Text.NatToString(k + 1);
      Text.NatToStringInjective(j + 1, k + 1);
    }
  }

  /** The editor's state slots. */
  class Editor {
    var steps: seq<Step>
    var newStep: string
    var currentPartInfo: Option<PartInfo>

    ghost predicate Valid()
      reads this
    {
      AllTidy(steps)
    }

    constructor ()
      ensures Valid() && steps == [] && newStep == "" && currentPartInfo == None
    {
      steps, newStep, currentPartInfo := [], "", None;
    }

    /** The effect that copies the viewer's selection into the editor. */
    method SyncPartInfo(selected: Option<PartInfo>)
      requires Valid()
      modifies this
      ensures Valid() && currentPartInfo == selected
      ensures steps == old(steps) && newStep == old(newStep)
    {
      currentPartInfo := selected;
    }

    /** The text field. */
    method SetNewStep(text: string)
      requires Valid()
      modifies this
      ensures Valid() && newStep == text
      ensures steps == old(steps) && currentPartInfo == old(currentPartInfo)
    {
      newStep := text;
    }

    /** `handleAddStep`, with `stamp` the clock reading behind the new id: a draft that is
        not blank is stored trimmed with the current part, and the draft and the part are
        cleared; a blank draft changes nothing. */
    method HandleAddStep(stamp: nat)
      requires Valid()
      modifies this
      ensures Valid()
      ensures steps == Added(old(steps), old(newStep), old(currentPartInfo), stamp)
      ensures HasText(old(newStep)) ==> newStep == "" && currentPartInfo == None
      ensures !HasText(old(newStep)) ==> newStep == old(newStep) && currentPartInfo == old(currentPartInfo)
    {
      AddedStaysTidy(steps, newStep, currentPartInfo, stamp);
      if HasText(newStep) {
        var step := Step(Text.StepId(stamp), Text.Trim(newStep), PartIndexOf(currentPartInfo), ScreenshotOf(currentPartInfo));
        assert steps + [step] == Added(steps, newStep, currentPartInfo, stamp);
        steps := steps + [step];
        newStep := "";
        currentPartInfo := None;
      }
    }

    /** `onDragEnd`: a cancelled drop changes nothing; otherwise the dragged step is moved
        to the drop position and no step is rewritten. */
    method OnDragEnd(source: nat, destination: Option<nat>)
      requires Valid()
      requires destination.Some? ==> source < |steps|
      modifies this
      ensures Valid()
      ensures destination.None? ==> steps == old(steps)
      ensures destination.Some? ==> steps == Ledger.Move(old(steps), source, destination.value)
      ensures newStep == old(newStep) && currentPartInfo == old(currentPartInfo)
    {
      if destination.None? {
        return;
      }
      MovedStaysTidy(steps, source, destination.value);
      steps := Ledger.Move(steps, source, destination.value);
    }

    /** `handleRemoveStep`. */
    method HandleRemoveStep(index: int)
      requires Valid()
      modifies this
      ensures Valid()
      ensures steps == Ledger.Without(old(steps), index)
      ensures newStep == old(newStep) && currentPartInfo == old(currentPartInfo)
    {
      RemovedStaysTidy(steps, index);
      steps := Ledger.Without(steps, index);
    }
  }
}
