# Assembly-step ledger of sequence-app, in Dafny

sequence-app is a browser front end. A user loads an STL or STEP model into a 3D
viewer, picks a part, and writes assembly steps into an
ordered ledger. The ledger can be reordered by drag and drop, edited by removal,
and exported to a PDF. This project models the bookkeeping behind those screens and
proves what it promises:

- **`Page`** (`frontend/src/app/page.js`). The home page's session is a class
  `Home` whose fields are the component's state slots: model file, selected part,
  step draft, steps and screenshot flag.
  - `addStep` appends only with a non-blank description and a recorded clip, then
    resets the draft.
  - Reorder and removal renumber every step to its 1-based position. The
  invariant `Dense` (part number = position + 1) holds from the empty ledger through
  any sequence of edits.
  - `handleFileChange` accepts exactly the names whose last dot-segment, lower-cased, is
  `stl`, `step` or `stp`.
- **`SequenceSteps`** (`frontend/src/components/SequenceSteps.js`). The free-text
  step editor, a class `Editor`. A step is stored trimmed, with the picked part's
  screenshot and, when the sender supplies one, its index. Reordering moves records without rewriting them, and removal drops one
  position. The PDF export labels steps by position, and its cursor stays within
  20..250 at the head of every pass.
- **`PdfExport`** (`frontend/src/components/PDFExportButton.js`). The export of
  the page's ledger. It lays out a cursor, with page breaks at 250 before a step and at
  200 before an image. Optional part-name and tool lines are drawn. The image payload
  is taken from a data URL (section 3 of RFC 2397). A placeholder line is drawn when
  the image is refused.
- **`Steps`** (`frontend/src/components/Steps.js`). The older list that only takes
  a step once a screenshot is pending. The stored step always carries that screenshot.
- **`ModelViewer`** (`frontend/src/components/ModelViewer.js`).
  - The STEP/STP conversion test.
  - The converter's outcomes and the error text a failed load shows.
  - The reference slots a load fills, and the `cleanup` teardown. It drains the scene
    one child at a time, disposes every resource in order, and empties the container.
  - The guard on `takeScreenshot`.

Supporting modules:

- `Ledger` holds the two list edits the editors share. Removal by position is
  `filter((_, i) => i !== index)`. The move is the `splice` out / `splice` in pair,
  with JavaScript's clamping of an insert index past the end.
- `Text` holds JavaScript's `trim`, ASCII `toLowerCase`, `split('.').pop()`,
  `endsWith` and decimal numerals.
- `Pdf` is the PDF library, seen as a sink of drawing events.

The record shapes follow `frontend/src/types/index.d.ts:1-11`: `Step` has an id, text,
and an optional part index and screenshot. `PartInfo` declares a part index, but the only
sender, the viewer's `onPartSelect` wired in `frontend/src/app/app/page.js:45-58`, passes
`{screenshot, position}` (`frontend/src/components/ModelViewer.js:215-218`). So the model
makes the part index optional, and a step added after a capture stores none. The page's
own records follow the object literal at `frontend/src/app/page.js:72-80`.

Outside inputs are parameters:

- The clock behind `step-${Date.now()}` ids is a `stamp: nat`. Ids are therefore not
  proved unique, and neither does the code guarantee it.
- Text wrapping (`splitTextToSize(...).length`) is a given function in `Pdf.Writer`.
- Whether `addImage` succeeds is a given predicate in `Pdf.Writer`.
- The converter's HTTP answer is a `ConversionResponse`.
- The STL reader's result is an optional parsed mesh.

## Model

| member | source | states |
|---|---|---|
| Text.Trim | frontend/src/components/SequenceSteps.js:21-24 | the trimmed text is no longer than the input and has no whitespace at either end; it is empty exactly when the input is all whitespace |
| Text.TrimIsInfix | frontend/src/components/SequenceSteps.js:24 | the trimmed text is a prefix of what follows the leading whitespace, and everything cut before and after it is whitespace |
| Text.TrimIdempotent | frontend/src/components/SequenceSteps.js:24 | trimming an already trimmed text changes nothing |
| Text.Lower | frontend/src/app/page.js:118 | lower-casing keeps the length and maps every character through the ASCII lower-case map |
| Text.LastSegment | frontend/src/app/page.js:118 | `split('.').pop()` is a suffix with no dot, either the whole name or preceded by a dot |
| Text.LastSegmentAfterDot | frontend/src/app/page.js:118 | the last segment of `stem + "." + ext` is `ext` for any stem, when `ext` has no dot |
| Text.NatToString | frontend/src/app/page.js:73 | a number is written as a non-empty run of decimal digits with no leading zero ("0" for zero), at least two for numbers from 10 on |
| Text.NatToStringValue | frontend/src/components/PDFExportButton.js:35 | the numeral of n, read back as decimal digits, is n |
| Text.NatToStringInjective | frontend/src/components/SequenceSteps.js:63 | different numbers are written differently |
| Text.StepId | frontend/src/app/page.js:73 | an id is "step-" followed by a run of decimal digits |
| Text.StepIdInjective | frontend/src/components/SequenceSteps.js:23 | ids made from different clock readings are different |
| Ledger.Without | frontend/src/app/page.js:337 | removal by position never lengthens the list |
| Ledger.WithoutShape | frontend/src/components/SequenceSteps.js:44 | removal drops exactly position `index` and keeps the rest in order; an index outside the list removes nothing |
| Ledger.Slot | frontend/src/app/page.js:103 | the insert position is the drop index when it lies within the list, and the last position when the drop index is past the end |
| Ledger.Move | frontend/src/app/page.js:101-103 | the splice pair keeps the length and the multiset of items, lands the dragged item at the drop slot, and keeps every other item in its relative order |
| Ledger.MoveInPlace | frontend/src/app/page.js:101-103 | dropping an item where it was leaves the list unchanged |
| Ledger.MoveUndo | frontend/src/app/page.js:101-103 | dragging the item back from its slot to its source restores the list |
| Ledger.MoveAt | frontend/src/app/page.js:101-103 | position by position, the moved list reads the original at a computed origin |
| Ledger.MoveMap | frontend/src/app/page.js:101-109 | moving commutes with rewriting every item the same way |
| Page.CanAdd | frontend/src/app/page.js:71 | a step may be added when the description is not blank once trimmed and a clip URL is set |
| Page.Appended | frontend/src/app/page.js:70-96 | with a non-blank description and a recorded clip, exactly one step is appended (earlier steps untouched, the draft's fields, part number = old length + 1); otherwise the steps are unchanged; dense numbering is kept |
| Page.Renumbered | frontend/src/app/page.js:106-109 | every step gets part number = position + 1, and nothing else changes |
| Page.Reordered | frontend/src/app/page.js:98-112 | no destination leaves the steps unchanged; otherwise the length is kept, numbering is dense, and the dragged step sits at the drop slot |
| Page.Removed | frontend/src/app/page.js:336-343 | removal leaves a dense ledger, one step shorter when the index is a position |
| Page.DenseRecordsDetermine | frontend/src/app/page.js:106-109 | two dense ledgers with the same records in the same order are equal |
| Page.RemovedShiftsLaterSteps | frontend/src/app/page.js:337-341 | removing position k keeps earlier steps and moves each later step up one, its part number one less |
| Page.ReorderedMovesRecords | frontend/src/app/page.js:101-109 | a reorder moves the records exactly as the splice pair does (a permutation), and only part numbers are rewritten |
| Page.ReorderUndo | frontend/src/app/page.js:98-112 | dragging the step back restores a dense ledger exactly |
| Page.RunKeepsDense | frontend/src/app/page.js:70-112 | from any dense ledger, including the empty one, every sequence of adds, removals, reorders and model uploads keeps part numbers equal to positions |
| Page.Accepts | frontend/src/app/page.js:118-119 | a name is accepted when the text after its last dot, lower-cased, is stl, step or stp |
| Page.AcceptsByExtension | frontend/src/app/page.js:118-119 | a name with an extension is accepted iff that extension, lower-cased, is stl, step or stp |
| Page.AcceptsUpperCase | frontend/src/app/page.js:118-119 | "bracket.STL" is accepted |
| Page.RejectsOtherExtension | frontend/src/app/page.js:118-119 | "archive.stl.zip" is rejected: only the last segment counts |
| Page.LowerExtension | frontend/src/app/page.js:118 | a name whose lower-cased form ends with "." + ext has ext as its lower-cased last segment |
| Page.ConvertedNamesAccepted | frontend/src/app/page.js:118-119 | every name the viewer would send to the converter passes the picker's allow-list |
| Page.DotlessNotConverted | frontend/src/components/ModelViewer.js:99-100 | a name with no dot never ends in ".step" or ".stp" once lower-cased, so it is never sent to the converter |
| Page.DotlessStepNotConverted | frontend/src/app/page.js:118-119 | the dotless name "step" passes the allow-list but is not sent to the converter |
| Page.Home.constructor | frontend/src/app/page.js:13-30 | the session starts with no model, no selection, no steps and the default draft |
| Page.Home.HandleFileUpload | frontend/src/app/page.js:32-36 | a new model is set, the selection cleared and the ledger emptied; the draft is kept |
| Page.Home.HandlePartSelect | frontend/src/app/page.js:38-41 | the capture becomes the selected part and the screenshot flag is cleared; nothing else changes |
| Page.Home.SetPartName | frontend/src/app/page.js:251 | only the draft's part name changes |
| Page.Home.SetCustomTool | frontend/src/app/page.js:259 | only the draft's tool changes |
| Page.Home.SetDescription | frontend/src/app/page.js:270 | only the draft's description changes |
| Page.Home.RecordingStopped | frontend/src/app/page.js:57-61 | only the draft's recorded clip changes |
| Page.Home.AddStep | frontend/src/app/page.js:70-96 | the steps become `Appended` of the old ones; on success the draft is reset and the selection cleared, otherwise nothing changes; dense numbering is kept |
| Page.Home.HandleDragEnd | frontend/src/app/page.js:98-112 | the steps become `Reordered`; nothing else changes |
| Page.Home.RemoveStep | frontend/src/app/page.js:336-343 | the steps become `Removed`; nothing else changes |
| Page.Home.HandleFileChange | frontend/src/app/page.js:114-125 | an accepted file becomes the model and the ledger is kept; a rejected file raises the alert and changes nothing; no file changes nothing |
| SequenceSteps.Added | frontend/src/components/SequenceSteps.js:19-31 | with a non-blank draft, one step is appended holding the trimmed draft and the current part's index and screenshot (absent without a part), earlier steps untouched; otherwise unchanged |
| SequenceSteps.FromSelection | frontend/src/app/app/page.js:55-59 | definition, no contract of its own: the viewer's capture arrives as the current part with its screenshot and no part index; `AddedFromViewer` states what follows from it |
| SequenceSteps.AddedFromViewer | frontend/src/app/app/page.js:45-58 | a step added after a viewer capture holds the capture's screenshot and no part index, because the capture carries none |
| SequenceSteps.HasTextIffNotBlank | frontend/src/components/SequenceSteps.js:21 | the guard holds exactly when the draft is not all whitespace |
| SequenceSteps.AddedStaysTidy | frontend/src/components/SequenceSteps.js:21-24 | every stored text is non-empty and already trimmed, and adding keeps it so |
| SequenceSteps.MovedStaysTidy | frontend/src/components/SequenceSteps.js:33-41 | a move rewrites no step, so tidy texts stay tidy |
| SequenceSteps.RemovedStaysTidy | frontend/src/components/SequenceSteps.js:43-45 | removal keeps the remaining steps as they were |
| SequenceSteps.PictureLines | frontend/src/components/SequenceSteps.js:73-80 | a set screenshot the library takes is drawn at the cursor and moves it by 70; otherwise nothing is drawn and the cursor stays |
| SequenceSteps.Block | frontend/src/components/SequenceSteps.js:58-89 | after a step, with its page reset, the cursor is back within 20..250 |
| SequenceSteps.Layout | frontend/src/components/SequenceSteps.js:58-90 | the steps from position i on are drawn as their blocks, in list order, each starting where the previous one ended |
| SequenceSteps.ExportStep | frontend/src/components/SequenceSteps.js:59-89 | one pass of the loop draws exactly the block of step i and leaves the cursor where that block ends |
| SequenceSteps.LayoutHeadings | frontend/src/components/SequenceSteps.js:58-63 | from position i on, the headings are "Step i+1", "Step i+2", ... one per step, in list order, each at a cursor within 20..250 |
| SequenceSteps.ExportToPdf | frontend/src/components/SequenceSteps.js:47-94 | the drawn document is the title followed by the layout from cursor 40; the cursor is within 20..250 at the head of every pass |
| SequenceSteps.ExportHeadings | frontend/src/components/SequenceSteps.js:58-63 | the exported headings are "Step 1" .. "Step n" in order, no label twice, each within 20..250 |
| SequenceSteps.Label | frontend/src/components/SequenceSteps.js:63 | definition, no contract of its own: position i is labelled "Step " + the numeral of i + 1; `LabelsDistinct` and `ExportHeadings` state its properties |
| SequenceSteps.BlockHeadings | frontend/src/components/SequenceSteps.js:61-63 | a step's block draws exactly one heading, its position's label, at the cursor the block starts from |
| SequenceSteps.LabelsDistinct | frontend/src/components/SequenceSteps.js:63 | two positions never get the same label |
| SequenceSteps.Editor.constructor | frontend/src/components/SequenceSteps.js:10-12 | the editor starts empty |
| SequenceSteps.Editor.SyncPartInfo | frontend/src/components/SequenceSteps.js:15-17 | the viewer's selection becomes the current part; nothing else changes |
| SequenceSteps.Editor.SetNewStep | frontend/src/components/SequenceSteps.js:119 | only the draft changes |
| SequenceSteps.Editor.HandleAddStep | frontend/src/components/SequenceSteps.js:19-31 | the steps become `Added`; on success the draft is '' and the current part cleared, otherwise nothing changes |
| SequenceSteps.Editor.OnDragEnd | frontend/src/components/SequenceSteps.js:33-41 | no destination changes nothing; otherwise the steps are moved by the splice pair, no field rewritten |
| SequenceSteps.Editor.HandleRemoveStep | frontend/src/components/SequenceSteps.js:43-45 | exactly the given position is removed |
| PdfExport.AfterComma | frontend/src/components/PDFExportButton.js:78 | a text with no comma has no second piece; otherwise the result is the suffix right after a comma |
| PdfExport.UpToComma | frontend/src/components/PDFExportButton.js:78 | the result is the prefix of the text that ends just before its first comma, or the whole text when there is no comma |
| PdfExport.Payload | frontend/src/components/PDFExportButton.js:78 | a screenshot with no comma is handed over whole; otherwise the payload is the whole screenshot or a non-empty comma-free text |
| PdfExport.AfterCommaOf | frontend/src/components/PDFExportButton.js:78 | after a comma-free header, the text after the first comma is the data |
| PdfExport.PayloadFull | frontend/src/components/PDFExportButton.js:78 | after a comma-free header, the payload is the piece up to the next comma when that piece is non-empty, and otherwise the whole screenshot text |
| PdfExport.DataUrlPayload | frontend/src/components/PDFExportButton.js:78 | for a data URL whose data is non-empty and comma-free, the payload is exactly the data |
| PdfExport.FromPageStep | frontend/src/app/page.js:241 | definition, no contract of its own: a ledger step is exported with its own part number, name, tool and description and no screenshot |
| PdfExport.Prelude | frontend/src/components/PDFExportButton.js:10-20 | definition, no contract of its own: the title at 20 and "Model: " + the file name at 35; `ExportToPdf` states that the document starts with it |
| PdfExport.HeadingLines | frontend/src/components/PDFExportButton.js:32-36 | definition, no contract of its own: "Step " + the part number at the cursor, which moves by 10; `BlockHeadings` states the heading a step draws |
| PdfExport.PartNameLines | frontend/src/components/PDFExportButton.js:38-46 | definition, no contract of its own: a non-empty part name draws its label and value and moves the cursor by 8, an empty one draws nothing |
| PdfExport.ToolLines | frontend/src/components/PDFExportButton.js:48-56 | definition, no contract of its own: a non-empty tool draws its label and value and moves the cursor by 8, an empty one draws nothing |
| PdfExport.DescriptionLines | frontend/src/components/PDFExportButton.js:58-66 | definition, no contract of its own: the label and the description are drawn, and the cursor moves by 7 per wrapped line plus 5 |
| PdfExport.Block | frontend/src/components/PDFExportButton.js:32-91 | a step started below the top of the page ends below it too |
| PdfExport.ScreenshotLines | frontend/src/components/PDFExportButton.js:68-88 | with a screenshot, a page break when the cursor is past 200, then the image (+85) or the placeholder line (+10); without one, nothing |
| PdfExport.Layout | frontend/src/components/PDFExportButton.js:23-92 | each step is drawn after a page break when the cursor is past 250, as its block, in list order |
| PdfExport.BlockHeadings | frontend/src/components/PDFExportButton.js:35 | a step draws exactly one heading, "Step " + its part number, at the cursor it starts from |
| PdfExport.LayoutHeadings | frontend/src/components/PDFExportButton.js:23-36 | the headings are the steps' own part numbers, in list order, one per step, each at a cursor within 20..250 |
| PdfExport.FirstHeadingAt | frontend/src/components/PDFExportButton.js:26-35 | with the cursor at most 250, no page is added and the first step's heading is drawn at that cursor |
| PdfExport.BlockPicturesFit | frontend/src/components/PDFExportButton.js:68-82 | a step's image is drawn at a cursor within 20..200 |
| PdfExport.LayoutPicturesFit | frontend/src/components/PDFExportButton.js:68-82 | every image of the export is drawn at a cursor within 20..200 |
| PdfExport.DrawStep | frontend/src/components/PDFExportButton.js:32-91 | one pass of the loop draws exactly the step's block and leaves the cursor where the block ends |
| PdfExport.ExportStep | frontend/src/components/PDFExportButton.js:23-92 | one pass of the loop adds the page check and the step's block, and what it adds followed by the layout of the later steps is the layout from this step on |
| PdfExport.ExportToPdf | frontend/src/components/PDFExportButton.js:6-96 | the drawn document is the title, the model line, then the layout of every step from cursor 55 |
| PdfExport.ExportShape | frontend/src/components/PDFExportButton.js:8-36 | the exported headings are the part numbers in order, within 20..250, the first at 55; every image lies within 20..200 |
| PdfExport.ExportPicturesFit | frontend/src/components/PDFExportButton.js:68-82 | every image of the whole exported document lies within 20..200 |
| PdfExport.DenseLedgerHeadings | frontend/src/components/PDFExportButton.js:35 | exporting a dense ledger gives headings "Step 1" .. "Step n" in ledger order |
| Steps.Added | frontend/src/components/Steps.js:15-26 | with a pending screenshot, one step is appended at the end with the submitted title and description and that screenshot; otherwise unchanged; every stored step keeps a screenshot |
| Steps.SubmittedScreenshotIgnored | frontend/src/components/Steps.js:18-21 | a screenshot in the submitted data never reaches the ledger: the pending one overrides it (a remark that follows from `Added`'s definition; Dafny proves it without a proof body) |
| Steps.Panel.constructor | frontend/src/components/Steps.js:5-7 | the panel starts with no steps and no pending screenshot |
| Steps.Panel.HandleScreenshot | frontend/src/components/Steps.js:9-13 | the object URL becomes the pending screenshot |
| Steps.Panel.HandleAddStep | frontend/src/components/Steps.js:15-26 | the steps become `Added`; on success the pending screenshot is cleared, otherwise it is kept; no title or description check |
| ModelViewer.ConvertStepToStl | frontend/src/components/ModelViewer.js:74-81 | the conversion succeeds iff the service answered with a body, which becomes "converted.stl"; a non-ok status throws "Failed to convert STEP file"; a transport failure rethrows its message |
| ModelViewer.NeedsConversion | frontend/src/components/ModelViewer.js:99-100 | a file goes through the converter exactly when its lower-cased name ends in ".step" or ".stp" |
| ModelViewer.FileToLoad | frontend/src/components/ModelViewer.js:96-106 | a name that needs no conversion is loaded as given; otherwise the load gets a file iff the converter answered with a body, and that file is "converted.stl" |
| ModelViewer.LoadErrorText | frontend/src/components/ModelViewer.js:191 | the shown error is exactly "Failed to load model: " followed by the thrown message |
| ModelViewer.StlBypassesConversion | frontend/src/components/ModelViewer.js:96-106 | a ".stl" name is loaded as it is, whatever the converter would answer |
| ModelViewer.StepGoesThroughConverter | frontend/src/components/ModelViewer.js:99-105 | a ".step"/".stp" name loads only the converter's output; a failure throws "Failed to convert STEP file: " + its message |
| ModelViewer.RemoveFirst | frontend/src/components/ModelViewer.js:39 | `scene.remove` of the first child drops it, and of any child shortens the list by one |
| ModelViewer.ChildDisposalsCover | frontend/src/components/ModelViewer.js:35-40 | draining the scene disposes every geometry and material any child holds |
| ModelViewer.SceneGraph.constructor | frontend/src/components/ModelViewer.js:108-109 | a scene holds the children it is made with |
| ModelViewer.SceneGraph.Remove | frontend/src/components/ModelViewer.js:39 | `scene.remove(object)` drops the first occurrence of the object and keeps the other children in order |
| ModelViewer.SceneGraph.DrainDisposing | frontend/src/components/ModelViewer.js:35-40 | the loop empties the children and records their disposals in child order |
| ModelViewer.Container.constructor | frontend/src/components/ModelViewer.js:224-228 | the container element starts without children |
| ModelViewer.Container.AppendChild | frontend/src/components/ModelViewer.js:127 | the canvas is added as the last child |
| ModelViewer.Container.RemoveChild | frontend/src/components/ModelViewer.js:57 | removing a present child drops its first occurrence and keeps the others in order |
| ModelViewer.Container.RemoveAllChildren | frontend/src/components/ModelViewer.js:55-59 | the loop leaves the container without children |
| ModelViewer.Viewer.constructor | frontend/src/components/ModelViewer.js:8-16 | a viewer holds the given container, is not loading, has no error, has every other reference slot empty, and has cancelled and disposed nothing |
| ModelViewer.Viewer.BeginLoad | frontend/src/components/ModelViewer.js:89-93 | with a container the viewer is loading and the error is cleared; without one nothing happens |
| ModelViewer.Viewer.ResolveLoad | frontend/src/components/ModelViewer.js:95-193 | a conversion error ends the load with "Failed to load model: " + its message; otherwise a fresh scene, the renderer and the canvas are installed, and the parsed mesh is added or "Failed to process model" is reported; loading ends |
| ModelViewer.Viewer.TakeScreenshot | frontend/src/components/ModelViewer.js:211-220 | a selection (canvas image, camera position) is reported iff renderer, scene and camera are set and a callback is given; nothing changes |
| ModelViewer.Viewer.ReleaseFrameAndMesh | frontend/src/components/ModelViewer.js:19-32 | a pending frame is cancelled and the mesh's geometry and material disposed; both slots end empty and nothing else changes |
| ModelViewer.Viewer.ReleaseScene | frontend/src/components/ModelViewer.js:34-42 | the scene is drained, its children's resources disposed in child order, and the slot emptied; nothing else changes |
| ModelViewer.Viewer.ReleaseControlsAndRenderer | frontend/src/components/ModelViewer.js:44-52 | the controls, then the renderer, are disposed when present; both slots end empty and nothing else changes |
| ModelViewer.Viewer.Cleanup | frontend/src/components/ModelViewer.js:18-60 | the frame is cancelled, then mesh, scene children, controls and renderer are disposed in that order; those slots are emptied, the scene drained and the container emptied; the camera is kept |

## Left out

- Rendering: three.js scene construction, lights, materials, the orbit controls and the
  animation loop (`frontend/src/components/ModelViewer.js:108-187`) belong to foreign
  libraries. A load's result is given as an optional parsed mesh.
- The bounding-box centring and `5 / maxDim` scaling are floating-point numerics.
- The converter's HTTP request (`frontend/src/components/ModelViewer.js:67-72`,
  `frontend/src/utils/api.js`) and the server are left out. The response is a parameter.
- `startRecording` (`frontend/src/app/page.js:43-68`) drives the MediaRecorder and
  asynchronous timing, and calls a `playAnimation` that the code does not define. Only
  its stop callback is modelled, as `Page.Home.RecordingStopped`.
- The effect teardown of the viewer (`frontend/src/components/ModelViewer.js:198-208`)
  and the race between overlapping loads concern React's lifecycle and concurrency.
- `frontend/src/components/AssemblyPDF.js`, `frontend/src/components/FileUpload.js`, all
  JSX markup and styling: declarative markup, or library filtering, with no logic of
  their own.
- PDF fonts and sizes, image dimensions and the `save` call do not affect layout. Only
  what is drawn, in which order and at which cursor is modelled.
- Text.Lower: lower-cases ASCII letters only. For the file-name tests this is exact.
  The only non-ASCII characters whose lower case is ASCII are KELVIN SIGN (to `k`) and
  LATIN CAPITAL LETTER I WITH DOT ABOVE (to `i` plus a combining mark), and neither
  letter occurs in stl, step or stp.
- Page.Home.HandleDragEnd and SequenceSteps.Editor.OnDragEnd require the drag source to
  be a list position. The drag library only reports positions of rendered items, and
  `splice` at an absent source would insert `undefined`.
- ModelViewer.Viewer.Cleanup: the source never assigns the mesh, controls and
  animation-frame slots, and never calls `cleanup` itself. The model covers the slots
  whatever their contents.
- The page's steps have no `screenshot` field, so `PdfExport.FromPageStep` exports them
  without an image. The image paths are proved for entries that carry one.
- Steps.Panel.HandleScreenshot: the modelled behaviour cannot happen in the program as
  written. `frontend/src/components/Steps.js:35` passes `onScreenshot`, a prop the viewer
  never reads (`frontend/src/components/ModelViewer.js:7`). `selectedFile` is never set
  either (`frontend/src/components/Steps.js:6`). So no screenshot is ever pending, and
  `handleAddStep` never appends. The model states what the handlers would do if called.
- Page.Home.AddStep: the modelled behaviour cannot happen in the page as written. Its guard
  needs a recorded clip (`frontend/src/app/page.js:71`), but `startRecording`
  (`frontend/src/app/page.js:43-68`) is bound to no element, so `recordedVideo` is never
  set and the page's ledger stays empty. The model states what the handler would do if
  called. The page's `currentStep` slot (`frontend/src/app/page.js:16`) is never read, and
  `isRecording` (`frontend/src/app/page.js:18`) is set only by that unbound
  `startRecording`; neither is modelled.
- Page.Home.HandleFileChange: the modelled behaviour cannot happen in the page as written.
  The handler (`frontend/src/app/page.js:114-125`) is bound to no element; the only picker
  is `FileUpload` with `handleFileUpload` (`frontend/src/app/page.js:226`), filtered by the
  drop-zone library. The model states what the handler would do if called.
- Step ids from `Date.now()` are not proved unique. Ids from different clock readings differ
  (`Text.StepIdInjective`), but two adds within the same millisecond get the same id, and the
  code does nothing about it.
- Logging: the `console.error` calls (`frontend/src/components/ModelViewer.js:76`, `83`,
  `181`, `190`; `frontend/src/components/SequenceSteps.js:78`;
  `frontend/src/components/PDFExportButton.js:84`) write to the browser console and change
  no state. They are not modelled.
