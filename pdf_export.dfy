/**
 * The export button of the home page: lays the ledger out on PDF pages with a
 * vertical cursor, starting a new page before a step that would begin below
 * the page limit and before a screenshot that would begin below the image limit.
 */
module PdfExport {
  import opened Wrappers
  import Text
  import Pdf
  import Page
  import Ledger

  /** The fields of a step the exporter reads. */
  datatype Entry = Entry(
    partNumber: nat,
    partName: string,
    customTool: string,
    description: string,
    screenshot: Option<string>)

  /** A ledger step as the exporter sees it: the page's steps carry no screenshot. */
  function FromPageStep(s: Page.Step): Entry {
    Entry(s.partNumber, s.partName, s.customTool, s.description, None)
  }

  /** Below this cursor a step starts on a new page. */
  const PageLimit := 250
  /** Below this cursor a screenshot starts on a new page. */
  const ImageLimit := 200
  /** Where the cursor starts on a new page. */
  const Top := 20

  /** The text before the first ',' (all of `s` when there is none). */
  function UpToComma(s: string): (r: string)
    ensures ',' !in r
    ensures ',' !in s ==> r == s
    ensures |r| <= |s| && r == s[..|r|] && (|r| < |s| ==> s[|r|] == ',')
  {
    if s == [] || s[0] == ',' then [] else [s[0]] + UpToComma(s[1..])
  }

  /** The text after the first ',', if there is one. */
  function AfterComma(s: string): (r: Option<string>)
    ensures ',' !in s ==> r == None
    ensures r.Some? ==> |r.value| < |s| && r.value == s[|s| - |r.value|..] && s[|s| - |r.value| - 1] == ','
  {
    if s == [] then None else if s[0] == ',' then Some(s[1..]) else AfterComma(s[1..])
  }

  /** `screenshot.split(',')[1] || screenshot`: the piece between the first and the second
      comma when that piece is not empty, the whole string otherwise. */
  function Payload(s: string): (r: string)
    ensures ',' !in s ==> r == s
    ensures r == s || (|r| > 0 && ',' !in r)
  {
    match AfterComma(s)
    case None => s
    case Some(rest) =>
      var piece := UpToComma(rest);
      if |piece| > 0 then piece else s
  }

  lemma {:induction false} AfterCommaOf(header: string, data: string)
    requires ',' !in header
    ensures AfterComma(header + "," + data) == Some(data)
    decreases |header|
  {
    if header == [] {
      assert header + "," + data == [','] + data;
    } else {
      assert (header + "," + data)[1..] == header[1..] + "," + data;
      AfterCommaOf(header[1..], data);
    }
  }

  /** The rule of `split(',')[1] || s` for any text after the first comma: the piece up to
      the next comma when it is not empty, otherwise the whole string (so an empty data
      part, or a comma right after the first one, hands over the entire text). */
  lemma PayloadFull(header: string, rest: string)
    requires ',' !in header
    ensures Payload(header + "," + rest)
      == if |UpToComma(rest)| > 0 then UpToComma(rest) else header + "," + rest
  {
    AfterCommaOf(header, rest);
  }

  /** For a data URL `data:<media type>[;base64],<data>` (section 3 of RFC 2397) whose
      data holds no comma, the image handed to the PDF library is exactly the data. */
  lemma DataUrlPayload(header: string, data: string)
    requires ',' !in header && ',' !in data && |data| > 0
    ensures Payload(header + "," + data) == data
  {
    AfterCommaOf(header, data);
  }

  function HeadingLines(e: Entry, y: int): Pdf.Laid {
    Pdf.Laid([Pdf.Draw(Pdf.Heading, "Step " + Text.NatToString(e.partNumber), 20, y)], y + 10)
  }

  function PartNameLines(e: Entry, y: int): Pdf.Laid {
    if |e.partName| > 0 then
      Pdf.Laid([Pdf.Draw(Pdf.Label, "Part Name:", 20, y), Pdf.Draw(Pdf.Body, e.partName, 50, y)], y + 8)
    else Pdf.Laid([], y)
  }

  function ToolLines(e: Entry, y: int): Pdf.Laid {
    if |e.customTool| > 0 then
      Pdf.Laid([Pdf.Draw(Pdf.Label, "Tool Required:", 20, y), Pdf.Draw(Pdf.Body, e.customTool, 60, y)], y + 8)
    else Pdf.Laid([], y)
  }

  function DescriptionLines(e: Entry, y: int, w: Pdf.Writer): Pdf.Laid {
    Pdf.Laid([Pdf.Draw(Pdf.Label, "Description:", 20, y), Pdf.Draw(Pdf.Body, e.description, 55, y)],
         y + w.lineCount(e.description, 150) * 7 + 5)
  }

  /** The screenshot, if any: a page break when the cursor is past the image limit, then
      the image, or the placeholder line when the library refuses it. */
  function ScreenshotLines(e: Entry, y: int, w: Pdf.Writer): Pdf.Laid {
    if !Truthy(e.screenshot) then Pdf.Laid([], y)
    else
      var breaks := if y > ImageLimit then [Pdf.NewPage] else [];
      var at := if y > ImageLimit then Top else y;
      var data := Payload(e.screenshot.value);
      if w.drawsImage(data) then Pdf.Laid(breaks + [Pdf.Draw(Pdf.Picture, data, 20, at)], at + 85)
      else Pdf.Laid(breaks + [Pdf.Draw(Pdf.Placeholder, "Error: Screenshot could not be added", 20, at)], at + 10)
  }

  /** One step drawn from cursor `y` on, with the spacing that follows it. */
  function Block(e: Entry, y: int, w: Pdf.Writer): (r: Pdf.Laid)
    ensures y >= Top ==> r.y >= Top
  {
    var h := HeadingLines(e, y);
    var p := PartNameLines(e, h.y);
    var t := ToolLines(e, p.y);
    var d := DescriptionLines(e, t.y, w);
    var s := ScreenshotLines(e, d.y, w);
    Pdf.Laid(h.events + p.events + t.events + d.events + s.events, s.y + 15)
  }

  /** The steps drawn in order from cursor `y` on, each after a page break when the
      cursor is past the page limit. */
  function Layout(es: seq<Entry>, y: int, w: Pdf.Writer): Pdf.Laid
    decreases |es|
  {
    if es == [] then Pdf.Laid([], y)
    else
      var breaks := if y > PageLimit then [Pdf.NewPage] else [];
      var b := Block(es[0], if y > PageLimit then Top else y, w);
      var rest := Layout(es[1..], b.y, w);
      Pdf.Laid(breaks + b.events + rest.events, rest.y)
  }

  /** One step of the layout: the page check, the step's block, the steps after it. */
  lemma LayoutUnfold(es: seq<Entry>, i: nat, y: int, w: Pdf.Writer)
    requires i < |es|
    ensures var top := if y > PageLimit then Top else y;
      var b := Block(es[i], top, w);
      Layout(es[i..], y, w).events
        == (if y > PageLimit then [Pdf.NewPage] else []) + b.events + Layout(es[i + 1..], b.y, w).events
  {
    assert es[i..][1..] == es[i + 1..];
  }

  /** The heading of entry `e` drawn at cursor `y`. */
  function HeadingOf(e: Entry, y: int): Pdf.Event {
    Pdf.Draw(Pdf.Heading, "Step " + Text.NatToString(e.partNumber), 20, y)
  }

  /** A block draws exactly one heading, its step's, at the cursor it starts from. */
  lemma BlockHeadings(e: Entry, y: int, w: Pdf.Writer)
    ensures Pdf.Headings(Block(e, y, w).events) == [HeadingOf(e, y)]
  {
    var h := HeadingLines(e, y);
    var p := PartNameLines(e, h.y);
    var t := ToolLines(e, p.y);
    var d := DescriptionLines(e, t.y, w);
    var s := ScreenshotLines(e, d.y, w);
    BodyHeadingsNone(e, h.y, p.y, t.y, d.y, w);
    Pdf.HeadingsAppend(h.events, p.events);
    Pdf.HeadingsAppend(h.events + p.events, t.events);
    Pdf.HeadingsAppend(h.events + p.events + t.events, d.events);
    Pdf.HeadingsAppend(h.events + p.events + t.events + d.events, s.events);
    assert Pdf.Headings(h.events) == [HeadingOf(e, y)];
  }

  /** The lines after the heading (part name, tool, description, screenshot) draw no
      heading, wherever each starts. */
  lemma BodyHeadingsNone(e: Entry, y1: int, y2: int, y3: int, y4: int, w: Pdf.Writer)
    ensures Pdf.Headings(PartNameLines(e, y1).events) == []
    ensures Pdf.Headings(ToolLines(e, y2).events) == []
    ensures Pdf.Headings(DescriptionLines(e, y3, w).events) == []
    ensures Pdf.Headings(ScreenshotLines(e, y4, w).events) == []
  {
    FieldHeadingsNone(e, y1, y2);
    Pdf.HeadingsNone(DescriptionLines(e, y3, w).events);
    ScreenshotHeadingsNone(e, y4, w);
  }

  /** The part name and tool lines are labels and body text: never a heading. */
  lemma FieldHeadingsNone(e: Entry, y1: int, y2: int)
    ensures Pdf.Headings(PartNameLines(e, y1).events) == []
    ensures Pdf.Headings(ToolLines(e, y2).events) == []
  {
    Pdf.HeadingsNone(PartNameLines(e, y1).events);
    Pdf.HeadingsNone(ToolLines(e, y2).events);
  }

  /** The screenshot lines are a page break, an image or the placeholder: never a heading. */
  lemma ScreenshotHeadingsNone(e: Entry, y: int, w: Pdf.Writer)
    ensures Pdf.Headings(ScreenshotLines(e, y, w).events) == []
  {
    if Truthy(e.screenshot) {
      var breaks := if y > ImageLimit then [Pdf.NewPage] else [];
      var events := ScreenshotLines(e, y, w).events;
      var last := events[|events| - 1];
      assert events == breaks + [last];
      assert last.kind != Pdf.Heading;
      Pdf.HeadingsNone(breaks);
      Pdf.HeadingsNone([last]);
      Pdf.HeadingsAppend(breaks, [last]);
    }
  }


  /** The headings of a layout are the steps' own numbers, in list order, one per step,
      each drawn between the top of the page and the page limit. */
  lemma {:induction false} LayoutHeadings(es: seq<Entry>, y: int, w: Pdf.Writer)
    requires y >= Top
    ensures var hs := Pdf.Headings(Layout(es, y, w).events);
      |hs| == |es| &&
      forall k :: 0 <= k < |es| ==>
        hs[k].text == "Step " + Text.NatToString(es[k].partNumber) && Top <= hs[k].y <= PageLimit
    decreases |es|
  {
    if es != [] {
      var breaks := if y > PageLimit then [Pdf.NewPage] else [];
      var top := if y > PageLimit then Top else y;
      var b := Block(es[0], top, w);
      var rest := Layout(es[1..], b.y, w);
      LayoutHeadings(es[1..], b.y, w);
      BlockHeadings(es[0], top, w);
      Pdf.HeadingsNone(breaks);
      Pdf.HeadingsAppend(breaks, b.events);
      Pdf.HeadingsAppend(breaks + b.events, rest.events);
      assert Pdf.Headings(Layout(es, y, w).events) == [HeadingOf(es[0], top)] + Pdf.Headings(rest.events);
      NumberedFrom(es, HeadingOf(es[0], top), Pdf.Headings(rest.events));
    }
  }

  /** The heading of the first entry in front of the headings of the others, each
      numbered after its entry, gives headings numbered after every entry. */
  lemma NumberedFrom(es: seq<Entry>, first: Pdf.Event, hs: seq<Pdf.Event>)
    requires es != [] && |hs| == |es| - 1
    requires first.Draw? && first.text == "Step " + Text.NatToString(es[0].partNumber)
    requires Top <= first.y <= PageLimit
    requires forall k :: 0 <= k < |hs| ==>
      hs[k].Draw? && hs[k].text == "Step " + Text.NatToString(es[1..][k].partNumber) &&
      Top <= hs[k].y <= PageLimit
    ensures var all := [first] + hs;
      forall k :: 0 <= k < |es| ==>
        all[k].Draw? && all[k].text == "Step " + Text.NatToString(es[k].partNumber) &&
        Top <= all[k].y <= PageLimit
  {
    var all := [first] + hs;
    forall k | 0 < k < |es|
      ensures all[k].Draw? &&
        all[k].text == "Step " + Text.NatToString(es[k].partNumber) && Top <= all[k].y <= PageLimit
    {
      assert all[k] == hs[k - 1];
      assert es[k] == es[1..][k - 1];
    }
  }

  /** Every image is drawn between the top of the page and the image limit. */
  predicate PicturesFit(events: seq<Pdf.Event>) {
    forall k :: 0 <= k < |events| && events[k].Draw? && events[k].kind == Pdf.Picture ==>
      Top <= events[k].y <= ImageLimit
  }

  lemma PicturesFitAppend(a: seq<Pdf.Event>, b: seq<Pdf.Event>)
    requires PicturesFit(a) && PicturesFit(b)
    ensures PicturesFit(a + b)
  {
    forall k | 0 <= k < |a + b| && (a + b)[k].Draw? && (a + b)[k].kind == Pdf.Picture
      ensures Top <= (a + b)[k].y <= ImageLimit
    {
      if k >= |a| {
        assert (a + b)[k] == b[k - |a|];
      }
    }
  }

  /** A block started inside the page places its image, if any, inside the image band. */
  lemma BlockPicturesFit(e: Entry, y: int, w: Pdf.Writer)
    requires y >= Top
    ensures PicturesFit(Block(e, y, w).events)
  {
    var h := HeadingLines(e, y);
    var p := PartNameLines(e, h.y);
    var t := ToolLines(e, p.y);
    var d := DescriptionLines(e, t.y, w);
    var s := ScreenshotLines(e, d.y, w);
    assert d.y >= Top;
    PicturesFitAppend(h.events, p.events);
    PicturesFitAppend(h.events + p.events, t.events);
    PicturesFitAppend(h.events + p.events + t.events, d.events);
    PicturesFitAppend(h.events + p.events + t.events + d.events, s.events);
  }

  lemma {:induction false} LayoutPicturesFit(es: seq<Entry>, y: int, w: Pdf.Writer)
    requires y >= Top
    ensures PicturesFit(Layout(es, y, w).events)
    decreases |es|
  {
    if es != [] {
      var breaks := if y > PageLimit then [Pdf.NewPage] else [];
      var top := if y > PageLimit then Top else y;
      var b := Block(es[0], top, w);
      LayoutPicturesFit(es[1..], b.y, w);
      BlockPicturesFit(es[0], top, w);
      PicturesFitAppend(breaks, b.events);
      PicturesFitAppend(breaks + b.events, Layout(es[1..], b.y, w).events);
    }
  }

  /** The title and the model line; the cursor is then at 55. */
  function Prelude(modelName: string): seq<Pdf.Event> {
    [Pdf.Draw(Pdf.Title, "Assembly Instructions", 20, 20), Pdf.Draw(Pdf.Body, "Model: " + modelName, 20, 35)]
  }

  /** The body of the export loop for one step, from the cursor after the page check. */
  method DrawStep(step: Entry, y0: int, w: Pdf.Writer) returns (drawn: seq<Pdf.Event>, y: int)
    ensures drawn == Block(step, y0, w).events && y == Block(step, y0, w).y
  {
    y := y0;
    drawn := [Pdf.Draw(Pdf.Heading, "Step " + Text.NatToString(step.partNumber), 20, y)];
    y := y + 10;
    ghost var h := HeadingLines(step, y0);
    assert drawn == h.events && y == h.y;
    if |step.partName| > 0 {
      drawn := drawn + [Pdf.Draw(Pdf.Label, "Part Name:", 20, y), Pdf.Draw(Pdf.Body, step.partName, 50, y)];
      y := y + 8;
    }
    ghost var p := PartNameLines(step, h.y);
    assert drawn == h.events + p.events && y == p.y;
    if |step.customTool| > 0 {
      drawn := drawn + [Pdf.Draw(Pdf.Label, "Tool Required:", 20, y), Pdf.Draw(Pdf.Body, step.customTool, 60, y)];
      y := y + 8;
    }
    ghost var t := ToolLines(step, p.y);
    assert drawn == h.events + p.events + t.events && y == t.y;
    drawn := drawn + [Pdf.Draw(Pdf.Label, "Description:", 20, y), Pdf.Draw(Pdf.Body, step.description, 55, y)];
    y := y + w.lineCount(step.description, 150) * 7 + 5;
    ghost var d := DescriptionLines(step, t.y, w);
    assert drawn == h.events + p.events + t.events + d.events && y == d.y;
    if Truthy(step.screenshot) {
      if y > ImageLimit {
        drawn := drawn + [Pdf.NewPage];
        y := Top;
      }
      var imgData := Payload(step.screenshot.value);
      if w.drawsImage(imgData) {
        drawn := drawn + [Pdf.Draw(Pdf.Picture, imgData, 20, y)];
        y := y + 85;
      } else {
        drawn := drawn + [Pdf.Draw(Pdf.Placeholder, "Error: Screenshot could not be added", 20, y)];
        y := y + 10;
      }
    }
    ghost var s := ScreenshotLines(step, d.y, w);
    assert drawn == h.events + p.events + t.events + d.events + s.events && y == s.y;
    y := y + 15;
  }

  /** One pass of the export loop: the page check, then the step. */
  method ExportStep(steps: seq<Entry>, i: nat, y0: int, w: Pdf.Writer) returns (added: seq<Pdf.Event>, y: int)
    requires i < |steps|
    ensures added + Layout(steps[i + 1..], y, w).events == Layout(steps[i..], y0, w).events
  {
    LayoutUnfold(steps, i, y0, w);
    added, y := [], y0;
    if y > PageLimit {
      added := [Pdf.NewPage];
      y := Top;
    }
    var drawn;
    drawn, y := DrawStep(steps[i], y, w);
    added := added + drawn;
  }

  /** `exportToPDF`: the title, the model's name, then every step from cursor 55 on. */
  method ExportToPdf(steps: seq<Entry>, modelName: string, w: Pdf.Writer)
    returns (events: seq<Pdf.Event>)
    ensures events == Prelude(modelName) + Layout(steps, 55, w).events
  {
    var y := 20;
    events := [Pdf.Draw(Pdf.Title, "Assembly Instructions", 20, y)];
    y := y + 15;
    events := events + [Pdf.Draw(Pdf.Body, "Model: " + modelName, 20, y)];
    y := y + 20;
    ghost var whole := Prelude(modelName) + Layout(steps, 55, w).events;
    assert steps[0..] == steps;
    var i := 0;
    while i < |steps|
      invariant i <= |steps|
      invariant events + Layout(steps[i..], y, w).events == whole
    {
      var added;
      ghost var before := events;
      added, y := ExportStep(steps, i, y, w);
      events := events + added;
      assert events + Layout(steps[i + 1..], y, w).events == before + (added + Layout(steps[i + 1..], y, w).events);
      i := i + 1;
    }
    assert steps[|steps|..] == [];
  }

  /** The exported document: the title and model line carry no heading, so its headings are
      the steps' own numbers in order, and its images all sit inside the image band. */
  lemma ExportShape(steps: seq<Entry>, modelName: string, w: Pdf.Writer)
    ensures var hs := Pdf.Headings(Prelude(modelName) + Layout(steps, 55, w).events);
      |hs| == |steps| &&
      (forall k :: 0 <= k < |steps| ==>
        hs[k].text == "Step " + Text.NatToString(steps[k].partNumber) && Top <= hs[k].y <= PageLimit) &&
      (|steps| > 0 ==> hs[0].y == 55)
    ensures PicturesFit(Prelude(modelName) + Layout(steps, 55, w).events)
  {
    var body := Layout(steps, 55, w).events;
    Pdf.HeadingsNone(Prelude(modelName));
    Pdf.HeadingsAppend(Prelude(modelName), body);
    assert Pdf.Headings(Prelude(modelName) + body) == Pdf.Headings(body);
    LayoutHeadings(steps, 55, w);
    if |steps| > 0 {
      FirstHeadingAt(steps, 55, w);
    }
    ExportPicturesFit(steps, modelName, w);
  }

  /** Every image of the exported document, title lines included, lies within the image
      limits. */
  lemma ExportPicturesFit(steps: seq<Entry>, modelName: string, w: Pdf.Writer)
    ensures PicturesFit(Prelude(modelName) + Layout(steps, 55, w).events)
  {
    LayoutPicturesFit(steps, 55, w);
    PicturesFitAppend(Prelude(modelName), Layout(steps, 55, w).events);
  }

  /** Starting above the page limit, the first step's heading is drawn at the cursor. */
  lemma FirstHeadingAt(steps: seq<Entry>, y: int, w: Pdf.Writer)
    requires |steps| > 0 && y <= PageLimit
    ensures var hs := Pdf.Headings(Layout(steps, y, w).events);
      |hs| > 0 && hs[0] == HeadingOf(steps[0], y)
  {
    var b := Block(steps[0], y, w);
    var rest := Layout(steps[1..], b.y, w).events;
    BlockHeadings(steps[0], y, w);
    FirstHeadingOf(Layout(steps, y, w).events, b.events, rest, HeadingOf(steps[0], y));
  }

  /** Drawing `a` then `rest`, where `a` draws the single heading `h`, makes `h` the first
      heading. */
  lemma FirstHeadingOf(events: seq<Pdf.Event>, a: seq<Pdf.Event>, rest: seq<Pdf.Event>, h: Pdf.Event)
    requires events == a + rest && Pdf.Headings(a) == [h]
    ensures |Pdf.Headings(events)| > 0 && Pdf.Headings(events)[0] == h
  {
    Pdf.HeadingsAppend(a, rest);
  }

  /** The page's ledger, exported: with dense part numbers the headings read "Step 1",
      "Step 2", ... in ledger order. */
  lemma DenseLedgerHeadings(steps: seq<Page.Step>, modelName: string, w: Pdf.Writer)
    requires Page.Dense(steps)
    ensures var hs := Pdf.Headings(Prelude(modelName) + Layout(Ledger.Map(FromPageStep, steps), 55, w).events);
      |hs| == |steps| &&
      forall k :: 0 <= k < |steps| ==> hs[k].text == "Step " + Text.NatToString(k + 1)
  {
    var es := Ledger.Map(FromPageStep, steps);
    ExportShape(es, modelName, w);
    assert forall k :: 0 <= k < |steps| ==> es[k].partNumber == k + 1;
  }
}
