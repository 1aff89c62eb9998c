# Structura: the two tab registries and the viewer's geometry, in Dafny

Structura is a desktop diagram editor with two windows. The editor window (`src/main.js`) holds
the authoritative list of tabs, each a Mermaid diagram source. It emits
`update-diagram {tabId, codigo}` whenever a tab's text changes or a tab is selected. It emits
`tab-added {id, name, content}` when a tab is created. The viewer window (`src/viewer.js`) keeps
its own mirror of the tabs, renders the tab it shows, lets the user zoom and pan, and exports
the drawing cropped to its content as an SVG file and as a PNG.

This project models both windows and proves properties of them:

- **Text** covers the JavaScript string routines the code relies on: `trim`, `split('\n')`,
  `join('\n')`, `'\t'.repeat`, `startsWith` and `${n}`.
- **Formatter** models `formatMermaidCode`. It is a loop method proved equal to a
  specification function. The formatter preserves the line count, applies the indent rules,
  and is idempotent.
- **TabList** models `tabs.find(t => t.id === id)`. It is a specification function plus a
  loop method.
- **Messages** defines the two events and the last update sent for an id.
- **EditorSpec** and **Editor** model the editor window.
  - `EditorSpec` has the state as a value and one function per handler.
  - It proves the effect of each handler, that ids are never reused, and that every handler
    keeps the editor well formed.
  - `Editor.EditorSession` is a class whose methods update the fields as the handlers do.
    Each method is proved to reach the state the specification function gives.
- **Svg**, **RenderPolicy**, **ViewTransform** and **ExportGeometry** model the viewer's
  parts:
  - the drawing's measurements;
  - `renderDiagram`'s decision;
  - the wheel, mouse and reset handlers;
  - the crop arithmetic of `generatePngBlob` and `exportToEnclave`.
- **Registry**, **ViewerSpec** and **Viewer** model the viewer window.
  - `Registry` is the mirror with the two listeners.
  - `ViewerSpec` is the whole window as a value.
  - `Viewer.ViewerSession` is the class with one method per listener.
- **Sync** holds the cross-window theorems.
  - The editor keeps an invariant, `Synced`: every tab's content is the last `update-diagram`
    sent for its id.
  - Delivering the editor's messages in order makes the viewer hold every editor tab's
    content, whatever the viewer held before.

Two behaviours of the code that a reader might not expect:

- **Fit scale.** `resetView` computes `(clientWidth - 40) / width`, so a viewer area 40 pixels
  wide or narrower gives a scale of zero or below. `ViewTransform.FitScaleFits` proves the scale
  is positive exactly when the area is wider and taller than 40.
- **Order and naming of an added tab.** `addTab` emits `update-diagram` (from `switchTab`)
  before `tab-added`, and names the tab `Diagrama <n>`. The viewer therefore creates the tab
  itself when the update arrives, names it `Diagram <n>`, and ignores the announcement.
  `Sync.AddedTabInViewer` proves that the viewer never shows the editor's name.

The delayed first emit (`src/main.js:154`) sends the first tab's content under whatever id is
active when the timer fires. The model keeps that behaviour. `Sync.InitialEmitRace` shows the
case where a tab is added before the timer fires: tab 2 then receives tab 1's content in the
viewer.

Messages are a list that the event bus delivers in order, once each. Mermaid rendering is a
parameter `render: string -> RenderResult` that returns a drawing or fails. The measurements
taken from the page are parameters:
- `getBBox()`, the viewBox, and the width and height attributes (fields of `Svg.Drawing`);
- `clientWidth` and `clientHeight`.

Which step of an export fails is also a parameter. Numbers are Dafny reals, not IEEE doubles.

## Model

| member | source | states |
|---|---|---|
| Text.Trim | src/main.js:101 | `trim`: the string without its leading and trailing ECMAScript white space and line terminators |
| Text.Split | src/main.js:96 | `split('\n')`: the pieces between line breaks, always at least one |
| Text.Join | src/main.js:128 | `join('\n')`: the lines with one line break between neighbours |
| Text.TrimShape | src/main.js:101 | `trim` leaves no whitespace at either end, and returns a string that has none unchanged |
| Text.TrimIdempotent | src/main.js:101 | trimming twice is trimming once |
| Text.TrimAfterTabs | src/main.js:118 | trimming a line written as tabs followed by a trimmed line gives back that line |
| Text.JoinSplit | src/main.js:96-128 | joining the pieces of `split('\n')` with line breaks gives back the text |
| Text.SplitJoin | src/main.js:96-128 | splitting the join of lines that hold no break gives back the lines |
| Text.NatToDecimalRoundTrip | src/main.js:51 | the decimal spelling of an id in a tab name reads back as that id |
| Formatter.IsTopLevel | src/main.js:111-112 | the line starts with one of the thirteen diagram keywords, from `sequenceDiagram` to `quadrantChart` |
| Formatter.ClosesBlock | src/main.js:107 | the line starts with `}` or `end` |
| Formatter.OpensBlock | src/main.js:124 | the line ends in `{` or starts with `alt `, `opt `, `loop `, `rect ` or `par ` |
| Formatter.LevelOf | src/main.js:107-116 | the indent a non-blank trimmed line is written at: 0 for a top-level keyword, one below the running level (never below 0) for a `}`/`end` line, the running level otherwise |
| Formatter.NextLevel | src/main.js:102-126 | the running level after a trimmed line: unchanged by a blank line, otherwise the written indent, plus one after a top-level keyword, plus one after a block opener |
| Formatter.FormatLine | src/main.js:102-118 | the output for a trimmed line: "" for a blank line, otherwise `'\t'.repeat(level)` followed by the line, at the level `LevelOf` gives |
| Formatter.LevelAfter | src/main.js:100-126 | the running level once the given lines have been processed from level 0 |
| Formatter.FormatLines | src/main.js:100-127 | the output lines, one per input line, each written from the level the lines before it reached |
| Formatter.Format | src/main.js:95-129 | `formatMermaidCode`: split into lines, format each, join with line breaks |
| Formatter.FormatMermaidCode | src/main.js:95-129 | the loop returns the specification `Format` of the text, with as many lines as the input |
| Formatter.FormatLineAt | src/main.js:100-118 | output line k is input line k, trimmed and indented from the level reached after lines 0..k-1 |
| Formatter.FormattedLineShape | src/main.js:100-118 | a blank or whitespace-only line becomes empty and no other line does; a non-blank line becomes tabs followed by the trimmed line |
| Formatter.WrittenIndent | src/main.js:107-118 | a top-level line is written flush; a `}`/`end` line one level below the running level, never below 0; any other line at the running level |
| Formatter.FollowingIndent | src/main.js:114-126 | after a top-level line the level is one more than that line's indent; a line ending in `{` or starting with `alt `/`opt `/`loop `/`rect `/`par ` adds one more |
| Formatter.LevelStep | src/main.js:100-126 | the level after a line depends only on the level before it and the trimmed line |
| Formatter.RetrimRecovers | src/main.js:101-118 | trimming a formatted line gives back the trimmed input line |
| Formatter.SameTrimsSameFormat | src/main.js:101 | inputs whose lines trim alike format alike |
| Formatter.FormattedLinesHaveNoNewline | src/main.js:118 | no formatted line contains a line break |
| Formatter.FormatKeepsLineCount | src/main.js:96-128 | the output has exactly one line per input line, and its lines are the formatted input lines |
| Formatter.FormatIdempotent | src/main.js:95-129 | formatting formatted text changes nothing |
| TabList.IndexOf | src/main.js:34 | `find` gives the first position holding the id, or -1 exactly when the id is absent |
| TabList.FindIndex | src/main.js:39 | the linear search returns the position `IndexOf` specifies |
| TabList.IndexOfDistinct | src/viewer.js:314 | among distinct ids, the position found is the only position holding the id |
| Messages.LastUpdateAppend | src/main.js:70-72 | an emitted `update-diagram` becomes the last update for its id, and leaves the last update for every other id as it was |
| EditorSpec.Initial | src/main.js:5-9 | the editor on load: tab 1 `Diagrama 1` holding the first diagram, active id 1, counter 1, that content in the textarea (line 151), and nothing emitted |
| EditorSpec.TabName | src/main.js:51 | `Diagrama ${n}`: the word, a space and the decimal spelling of n |
| EditorSpec.Store | src/main.js:34-37 | `tabs.find(t => t.id === id).content = c`: the first tab with the id gets the content; without one the list is unchanged |
| EditorSpec.SwitchTab | src/main.js:32-45 | `switchTab`: save the textarea into the active tab, select the id, and for an existing tab load its content and emit it |
| EditorSpec.AddTab | src/main.js:47-58 | `addTab`: raise the counter, append `Diagrama <n>` with the default content, switch to it, then emit `tab-added` |
| EditorSpec.Input | src/main.js:86-93 | the `input` handler: store the text in the active tab, if any, and emit it under the active id |
| EditorSpec.InsertTab | src/main.js:78-80 | `value.substring(0, start) + '\t' + value.substring(end)`, with `substring` clamping both offsets to the text |
| EditorSpec.TabKey | src/main.js:75-84 | the Tab key: `input` run on the text with the selection replaced by one tab character |
| EditorSpec.FormatCode | src/main.js:131-137 | the format button: `input` run on the formatted text |
| EditorSpec.InitialEmit | src/main.js:154 | the delayed emit: the first tab's content under the active id |
| EditorSpec.IncreasingIdsDistinct | src/main.js:48-50 | ids that increase along the list are pairwise distinct |
| EditorSpec.StoreEffect | src/main.js:88-91 | writing to the tab found by id changes that tab's content and nothing else |
| EditorSpec.SwitchTabEffect | src/main.js:32-45 | `switchTab` saves the textarea into the old active tab only. For an existing target it loads the target and emits one `update-diagram` with its content. For a missing target it changes only `activeTabId` |
| EditorSpec.SwitchToNewTab | src/main.js:54-55 | the `switchTab` inside `addTab` saves the textarea, loads the new tab's default content and emits it |
| EditorSpec.AddTabEffect | src/main.js:47-58 | `addTab` takes an id above every existing id. It appends one tab `Diagrama <n>` with the default content and selects it. It emits `update-diagram(n)` before `tab-added`, both carrying the default content |
| EditorSpec.AddTabIds | src/main.js:48-54 | `addTab` keeps the existing ids in place and appends the old counter plus one |
| EditorSpec.InputEffect | src/main.js:86-93 | `input` writes the text into the active tab only, and emits exactly one `update-diagram(activeTabId, code)` |
| EditorSpec.InsertTabSpec | src/main.js:78-81 | the Tab key replaces the selection with one tab character at `start` and keeps the text around it |
| EditorSpec.ApplyKeepsWellFormed | src/main.js:32-154 | every handler keeps at least one tab, ids increasing and at most the counter, and never lowers the counter |
| EditorSpec.Run | src/main.js:32-154 | any run of handlers leaves the editor well formed |
| EditorSpec.IdsNeverReused | src/main.js:47-54 | across any run of handlers, existing tabs keep their place and id, and every tab added later has an id above the old counter |
| EditorSpec.TabNamesDistinct | src/main.js:48-51 | tabs with distinct ids get distinct names `Diagrama <n>` |
| Editor.EditorSession.constructor | src/main.js:4-9 | the editor starts with tab 1 `Diagrama 1` holding its initial content, counter 1, and nothing emitted |
| Editor.EditorSession.EmitUpdate | src/main.js:70-72 | emitting appends one `update-diagram` and changes nothing else |
| Editor.EditorSession.SwitchTab | src/main.js:32-45 | the method reaches the state `switchTab`'s specification gives, and keeps the editor well formed |
| Editor.EditorSession.AddTab | src/main.js:47-58 | the method reaches the state `addTab`'s specification gives, and keeps the editor well formed |
| Editor.EditorSession.Input | src/main.js:86-93 | the method reaches the state the `input` specification gives |
| Editor.EditorSession.TabKey | src/main.js:75-84 | the method splices in the tab, runs `input`, and returns the caret `start + 1` |
| Editor.EditorSession.FormatCode | src/main.js:131-137 | the method re-indents the textarea with the formatter, then runs `input` |
| Editor.EditorSession.InitialEmit | src/main.js:154 | the delayed emit appends `update-diagram(activeTabId, tabs[0].content)` |
| RenderPolicy.Render | src/viewer.js:53-70 | `renderDiagram` on the screen: blank content clears it, a drawing replaces it, a failure keeps the drawing and sets "Syntax Error" |
| RenderPolicy.RenderOutcomes | src/viewer.js:53-70 | blank or missing content clears the drawing and the error. A successful render replaces the drawing and clears the error. A failed one keeps the old drawing and shows "Syntax Error" |
| RenderPolicy.StaleOnErrorThenRecover | src/viewer.js:61-69 | after a failed render the previous drawing stays on screen, and the next successful render replaces it and clears the error |
| RenderPolicy.RenderRepeat | src/viewer.js:53-70 | rendering the same content again, with a fresh render id and so possibly different markup, shows the same measurements and the same error text as rendering it once |
| ViewTransform.Wheel | src/viewer.js:107-116 | the wheel listener: up adds 0.1 to the scale, down gives `max(0.1, scale - 0.1)` |
| ViewTransform.MouseDown | src/viewer.js:118-124 | the left button starts panning and anchors the pointer less the translation; other buttons change nothing |
| ViewTransform.MouseMove | src/viewer.js:126-131 | while panning the translation is the pointer less the anchor; otherwise nothing changes |
| ViewTransform.MouseUp | src/viewer.js:133-135 | panning stops |
| ViewTransform.FitScale | src/viewer.js:87-98 | `Math.min((clientWidth - 40) / width, (clientHeight - 40) / height, 1.5)` |
| ViewTransform.ResetView | src/viewer.js:76-102 | scale 1 without a drawing, the fit scale with one; the translation becomes (0,0) |
| ViewTransform.ScreenPoint | src/viewer.js:73 | where a drawing point appears under `translate(translateX, translateY) scale(scale)` about the transform origin |
| ViewTransform.IntrinsicWidth | src/viewer.js:87 | the width used for fitting is never 0 |
| ViewTransform.IntrinsicHeight | src/viewer.js:88 | the height used for fitting is never 0 |
| ViewTransform.WheelZoom | src/viewer.js:107-116 | the wheel changes only the scale. Up adds 0.1. Down gives `max(0.1, scale - 0.1)`, so it is at least 0.1 and a scale of at least 0.1 stays so |
| ViewTransform.ZoomInOutInverse | src/viewer.js:110-114 | one step in and one step out undo each other while the 0.1 clamp is not reached |
| ViewTransform.PanTracksPointer | src/viewer.js:118-131 | a left press then a move shift the translation by the pointer's displacement, leave the scale alone, and move every drawn point with the pointer |
| ViewTransform.PanExample | src/viewer.js:118-131 | a press at (100,100) with translate (5,5) and a move to (130,140) give translate (35,45) |
| ViewTransform.PointerIdle | src/viewer.js:118-135 | a move without panning changes nothing, and another button does not start a pan. After `mouseup` the state is not panning and moves change nothing |
| ViewTransform.ResetViewEffect | src/viewer.js:76-102 | reset brings the translation to (0,0). It gives scale 1 without a drawing, and a scale of at most 1.5 with one |
| ViewTransform.FitScaleFits | src/viewer.js:87-98 | the fitted drawing fits inside the area less 40, at a scale of at most 1.5 that meets one of its three bounds. The scale is positive exactly when the area exceeds 40 in both directions |
| ViewTransform.ScaleFloorHolds | src/viewer.js:107-135 | once the scale is at least 0.1, no run of wheel and mouse events brings it below 0.1 |
| ViewTransform.MouseKeepsScale | src/viewer.js:118-135 | mouse events never change the scale |
| ExportGeometry.PngContentBox | src/viewer.js:146-150 | the PNG's content box: `getBBox()`, or the viewBox when its width or its height is 0 |
| ExportGeometry.SvgContentBox | src/viewer.js:252-256 | the SVG file's content box: `getBBox()`, or the viewBox when its width is 0 |
| ExportGeometry.CropOf | src/viewer.js:155-165 | the box grown by 10 on every side, and a final size 30 larger on every side |
| ExportGeometry.CanvasDimension | src/viewer.js:183-184 | assigning to `canvas.width`/`canvas.height`: the number truncated and wrapped to 32 bits, kept when at most 2^31-1, the default (300 or 150) otherwise |
| ExportGeometry.PngLayoutOf | src/viewer.js:167-209 | the canvas size at twice the final size, the translation `margin - (adjX - vBoxX)`, and the drawn size `vBoxW || adjW` by `vBoxH || adjH` |
| ExportGeometry.CanvasX | src/viewer.js:204-209 | the canvas x (before the 2x scaling) of a drawing x: the translation plus its offset from the viewBox's left edge, where `drawImage` puts the image |
| ExportGeometry.CanvasY | src/viewer.js:204-209 | the canvas y (before the 2x scaling) of a drawing y: the translation plus its offset from the viewBox's top edge |
| ExportGeometry.CroppedSvgOf | src/viewer.js:258-274 | the cropped SVG's viewBox `adjX - margin, adjY - margin, finalW, finalH` and its width and height |
| ExportGeometry.CropExample | src/viewer.js:155-184 | bbox (10,10,100,50) gives padded box (0,0,120,70), final size 180 by 130, cropped viewBox origin (-30,-30) and a canvas of 360 by 260 |
| ExportGeometry.PngContentCentered | src/viewer.js:197-209 | the translation puts the padded box's corner at (30,30) on the canvas, leaving 40 units between the content and every edge of the final size |
| ExportGeometry.SvgContentCentered | src/viewer.js:252-274 | the cropped SVG's viewBox leaves 40 units between the content and every edge, and its width and height equal the viewBox size |
| ExportGeometry.ExportsAgree | src/viewer.js:146-256 | the two exports crop to different boxes exactly when the bbox has a width, no height, and differs from the viewBox. Otherwise the PNG canvas shows exactly the SVG's cropped viewBox |
| ExportGeometry.CanvasSizeExact | src/viewer.js:183-184 | a whole number of pixels up to 2^31-1 assigned to the canvas size is kept; one from 2^31 up to 2^32 gives the default |
| ExportGeometry.CanvasSize | src/viewer.js:181-184 | the canvas is twice the final size rounded down, at least 160 pixels, while that is at most 2^31-1; a larger doubled size below 2^32 gives 300 wide or 150 high |
| Registry.Initial | src/viewer.js:10-16 | the viewer's tabs on load: tab 1 `Diagram 1`, content for id 1 only, active id 1 |
| Registry.DefaultName | src/viewer.js:315 | `Diagram ${tabId}`: the word, a space and the decimal spelling of the id |
| Registry.OnUpdateDiagram | src/viewer.js:310-319 | the `update-diagram` listener on the tabs: append `Diagram <id>` for an unknown id, then overwrite the id's content |
| Registry.OnTabAdded | src/viewer.js:327-334 | the `tab-added` listener: a known id is ignored; a new one is appended with its name and content |
| Registry.UpdateCreatesImplicitly | src/viewer.js:310-319 | `update-diagram` for an unknown id appends exactly one tab `Diagram <id>`; for a known id it adds none. The id then holds the new content, other ids keep theirs, and the active tab is unchanged |
| Registry.UpdateIsOverwrite | src/viewer.js:314-319 | applying the same update twice equals applying it once, and a later update of an id replaces an earlier one |
| Registry.TabAddedEffect | src/viewer.js:327-334 | `tab-added` for a known id changes nothing. For a new id it appends one tab with the announced name and content. It never changes the active tab |
| Registry.DeliverKeepsValid | src/viewer.js:310-334 | both listeners keep the viewer's tab ids pairwise distinct and equal to the ids that have content |
| Registry.DeliverAllKeepsValid | src/viewer.js:310-334 | any sequence of delivered messages keeps the mirror valid |
| Registry.DeliverAllGrows | src/viewer.js:310-334 | delivery never removes or reorders tabs and never changes the active tab |
| Registry.ConvergesToLastUpdate | src/viewer.js:310-325 | after delivery, every id that received an update is a tab and holds the content of its last update |
| Registry.UpdateThenAnnounce | src/viewer.js:314-324 | `update-diagram(n, d)` then `tab-added{n,…}` for an unknown id append exactly one tab, named `Diagram <n>` and holding `d`. The announcement triggers no render |
| ViewerSpec.Initial | src/viewer.js:9-33 | the window on load: the registry's initial tabs, an empty screen, scale 1 and no translation or panning, then `renderDiagram` of tab 1 (lines 337-338) |
| ViewerSpec.ContentOf | src/viewer.js:54 | `tabContents[id]`: the stored content, or nothing for an id without content |
| ViewerSpec.RenderActive | src/viewer.js:53-55 | `renderDiagram`: the screen after rendering the active tab's stored content; the tabs and the view are unchanged |
| ViewerSpec.SwitchTab | src/viewer.js:47-51 | a tab click: select the id, then render its stored content |
| ViewerSpec.OnTabAdded | src/viewer.js:327-334 | the `tab-added` listener on the whole window: the registry's effect, with the screen and the view unchanged |
| ViewerSpec.ResetView | src/viewer.js:76-102 | the reset button on the whole window: the view reset for the drawing on screen and the area's size; the rest unchanged |
| ViewerSpec.CopyImage | src/viewer.js:227-240 | the copy button: the PNG layout of the drawing on screen, or nothing without one |
| ViewerSpec.OnUpdateDiagram | src/viewer.js:310-325 | the `update-diagram` listener on the whole window: store the content, and render when the id is the shown tab |
| ViewerSpec.ExportWrites | src/viewer.js:245-293 | the files the export writes in order: none without a drawing or when the SVG write fails, the SVG alone when a later step fails, the SVG then the HTML page otherwise |
| ViewerSpec.Export | src/viewer.js:245-304 | a failed export with a drawing shows "Export Error"; otherwise the window is unchanged |
| ViewerSpec.UpdateRendersOnlyActive | src/viewer.js:310-325 | an update of the shown tab renders the new content, and an update of another tab leaves the screen unchanged. Either way the content is stored and the view is untouched |
| ViewerSpec.SwitchTabShows | src/viewer.js:47-51 | a tab click selects the tab and renders its stored content, leaving the tabs, the contents and the view unchanged |
| ViewerSpec.DeliverAllMirror | src/viewer.js:310-334 | delivery moves the viewer's mirror as the registry does and never changes zoom or pan |
| ViewerSpec.ShowsLastUpdate | src/viewer.js:310-325 | after delivery the screen shows the render of the shown tab's last update (nothing for blank content, its drawing, or "Syntax Error"), or is unchanged when no update for that tab came |
| ViewerSpec.CopyImageOf | src/viewer.js:227-240 | copying gives a PNG exactly when a drawing is on screen, laid out from that drawing |
| ViewerSpec.ExportOutcome | src/viewer.js:245-305 | without a drawing, nothing is written. A full export writes the cropped SVG, then the HTML page with the PNG the copy button makes. A failed export shows "Export Error" and keeps what was already written, which is the SVG unless that write failed. It never writes the HTML page |
| ViewerSpec.DeliverKeepsValid | src/viewer.js:310-334 | each listener keeps the viewer's mirror valid |
| ViewerSpec.InitialShowsFirstTab | src/viewer.js:10-16 | the viewer starts with a valid mirror of tab 1 and renders that tab's content |
| Viewer.ViewerSession.constructor | src/viewer.js:9-33 | the window starts in the initial state with tab 1 rendered |
| Viewer.ViewerSession.RenderDiagram | src/viewer.js:53-70 | the method updates the screen as the render policy specifies for the active tab's content |
| Viewer.ViewerSession.SwitchTab | src/viewer.js:47-51 | the method selects the tab and renders it, keeping the mirror valid |
| Viewer.ViewerSession.OnUpdateDiagram | src/viewer.js:310-325 | the method reaches the state the `update-diagram` specification gives, keeping the mirror valid |
| Viewer.ViewerSession.OnTabAdded | src/viewer.js:327-334 | the method reaches the state the `tab-added` specification gives, keeping the mirror valid |
| Viewer.ViewerSession.ResetView | src/viewer.js:76-102 | the method sets the scale and translation as the reset specification gives |
| Viewer.ViewerSession.Wheel | src/viewer.js:107-116 | the method changes the view as the wheel specification gives |
| Viewer.ViewerSession.MouseDown | src/viewer.js:118-124 | the method changes the view as the mousedown specification gives |
| Viewer.ViewerSession.MouseMove | src/viewer.js:126-131 | the method changes the view as the mousemove specification gives |
| Viewer.ViewerSession.MouseUp | src/viewer.js:133-135 | the method ends panning and changes nothing else |
| Viewer.ViewerSession.CopyImage | src/viewer.js:227-240 | it returns a PNG exactly when a drawing is shown, laid out from that drawing |
| Viewer.ViewerSession.ExportToEnclave | src/viewer.js:245-305 | it writes the files the export specification lists, and sets "Export Error" on failure |
| Sync.SaveIsNoOp | src/main.js:34-37 | in a synced editor, saving the textarea into the active tab changes nothing |
| Sync.InputKeepsSynced | src/main.js:86-93 | typing, the Tab key and formatting keep every tab equal to its last emitted update |
| Sync.SwitchKeepsSynced | src/main.js:32-45 | clicking a tab keeps the editor synced |
| Sync.AddTabKeepsSynced | src/main.js:47-58 | adding a tab keeps the editor synced |
| Sync.InitialEmitKeepsSynced | src/main.js:154 | the delayed emit keeps the editor synced when the first tab is the active one |
| Sync.ApplyKeepsSynced | src/main.js:32-154 | every action the editor's buttons allow keeps it synced, except the delayed emit while another tab is active |
| Sync.SyncedAfterFirstEmit | src/main.js:150-154 | the editor is synced from its first emit on |
| Sync.ViewerConverges | src/viewer.js:310-325 | after the synced editor's messages are delivered, the viewer has every editor tab with the editor's content, whatever it held before |
| Sync.ViewerShowsEditorTab | src/viewer.js:321-324 | a viewer showing one of the editor's tabs ends up showing the render of that tab's content |
| Sync.ClickShowsEditorTab | src/viewer.js:47-55 | once a synced editor's messages are delivered, clicking one of its tabs in the viewer selects that id and renders the content the editor holds for it |
| Sync.AddedTabInViewer | src/main.js:47-58 | a tab added in the editor reaches the viewer as one tab `Diagram <n>` holding the default content, never as `Diagrama <n>` |
| Sync.InitialEmitRace | src/main.js:154 | if a tab is added before the delayed first emit, tab 2's last update is tab 1's content. The editor is then out of sync, and the viewer's tab 2 holds tab 1's content |

## Left out

- Mermaid itself (`mermaid.initialize`, `mermaid.render`) is the parameter `render`. It is a function of the content alone. The `Date.now()` render id that Mermaid writes into the markup is therefore not modelled, except in `RenderPolicy.RenderRepeat`, which lets a second render differ in markup.
- EditorSpec.InsertTab: the selection offsets count characters (code points), while the textarea and `substring` count UTF-16 code units. Text with a character outside the Basic Multilingual Plane before the caret is not covered: there the model inserts the tab at a different place.
- EditorSpec.InsertTabSpec: states the splice with offsets in code points, as `EditorSpec.InsertTab` does, not in UTF-16 code units.
- Editor.EditorSession.TabKey: its offsets and the caret it returns are code points, as in `EditorSpec.InsertTab`, not UTF-16 code units.
- ViewerSpec.ExportWrites: the export is one atomic step on the drawing on screen when it starts. In the program, an `update-diagram` for the shown tab can replace the drawing while the SVG file is written. The HTML page's PNG then shows the new drawing. If the new content is blank, the export fails with "Export Error" after the SVG was written.
- ViewerSpec.ExportOutcome: holds for an export that no render interrupts, as `ViewerSpec.ExportWrites` assumes.
- Viewer.ViewerSession.ExportToEnclave: runs as one step, as `ViewerSpec.ExportWrites` assumes, so a render between the SVG write and the PNG is not modelled.
- Asynchronous rendering: renders are atomic here. In the program, a slow render of old content can finish after a newer one and overwrite it.
- The event bus is an ordered list delivered once each, so timing, loss and duplication are not modelled. The 500 ms timer is an action that may come at any point.
- Page work is not modelled: painting the tab bars (`renderTabs`), the CSS transform string, button-label feedback and its `setTimeout` restore, and `console.error`.
- Canvas rasterization and encoding are not modelled: `drawImage`, `toBlob`, Image/Blob/URL objects, `XMLSerializer`, and the base64 `FileReader`. A PNG is its layout (`ExportGeometry.PngLayout`), and the HTML page is the layout it embeds.
- Host calls are not modelled: the clipboard write, `writeTextFile` (its two paths are kept as constants), the window close after an export, the documentation link (`open`), and `copyCode`.
- Viewer.ViewerSession.CopyImage: a failure to load or encode the image is not modelled. The program then leaves the clipboard as it was.
- Tab objects are values. JavaScript object identity and the string coercion of `tabContents` keys are not modelled, and ids are integers.
- Numbers are reals, not IEEE doubles. NaN and infinities are left out, and so is the rounding of repeated 0.1 zoom steps.
- ViewTransform.ZoomInOutInverse: the inverse holds exactly over reals. With doubles, steps of 0.1 may round.
- src-tauri/src/lib.rs (application start-up, plugins and window placement) is not part of this model.
- vite.config.js (build configuration) is not part of this model.
