/** The viewer window's state and what each of its listeners does to it, as values: the mirror
    of the editor's tabs, what is on screen, and the zoom and pan state. The Mermaid renderer
    is the parameter `render`; the file writes of the export are returned as a list. */
module ViewerSpec {
  import opened Messages
  import opened Svg
  import opened RenderPolicy
  import Registry
  import ViewTransform
  import opened ExportGeometry

  datatype ViewerState = ViewerState(mirror: Registry.Mirror, screen: Screen, view: ViewTransform.ViewState)

  /** `tabContents[id]`, which is `undefined` for an id without content. */
  function ContentOf(m: Registry.Mirror, id: int): (r: Option<string>) {
    if id in m.tabContents then Some(m.tabContents[id]) else None
  }

  /** `renderDiagram()`: render the content of the active tab. */
  function RenderActive(s: ViewerState, render: string -> RenderResult): (r: ViewerState) {
    s.(screen := Render(s.screen, ContentOf(s.mirror, s.mirror.activeTabId), render))
  }

  /** The viewer window when it has loaded: its own first tab, rendered. */
  function Initial(render: string -> RenderResult): (r: ViewerState) {
    RenderActive(ViewerState(Registry.Initial(), Screen(None, ""), ViewTransform.Initial), render)
  }

  /** `switchTab(id)`, from a click on a tab button. */
  function SwitchTab(s: ViewerState, id: int, render: string -> RenderResult): (r: ViewerState) {
    RenderActive(s.(mirror := s.mirror.(activeTabId := id)), render)
  }

  /** The `update-diagram` listener: store the content, and render when it is the shown tab. */
  function OnUpdateDiagram(s: ViewerState, tabId: int, codigo: string, render: string -> RenderResult): (r: ViewerState) {
    var stored := s.(mirror := Registry.OnUpdateDiagram(s.mirror, tabId, codigo));
    if tabId == s.mirror.activeTabId then RenderActive(stored, render) else stored
  }

  /** The `tab-added` listener. */
  function OnTabAdded(s: ViewerState, id: int, name: string, content: string): (r: ViewerState) {
    s.(mirror := Registry.OnTabAdded(s.mirror, id, name, content))
  }

  function Deliver(s: ViewerState, msg: Message, render: string -> RenderResult): (r: ViewerState) {
    match msg
    case UpdateDiagram(tabId, codigo) => OnUpdateDiagram(s, tabId, codigo, render)
    case TabAdded(id, name, content) => OnTabAdded(s, id, name, content)
  }

  /** The viewer after the messages have been delivered in order. */
  function DeliverAll(s: ViewerState, msgs: seq<Message>, render: string -> RenderResult): (r: ViewerState) {
    if msgs == [] then s else Deliver(DeliverAll(s, msgs[..|msgs| - 1], render), msgs[|msgs| - 1], render)
  }

  /** The reset button, with the viewer area's `clientWidth` and `clientHeight`. */
  function ResetView(s: ViewerState, containerWidth: int, containerHeight: int): (r: ViewerState) {
    s.(view := ViewTransform.ResetView(s.view, s.screen.drawing, containerWidth, containerHeight))
  }

  /** The copy button: the PNG of the drawing on screen; without one, `generatePngBlob` throws
      and `copyImage` swallows the error. */
  function CopyImage(s: ViewerState): (r: Option<PngLayout>) {
    match s.screen.drawing
    case None => None
    case Some(d) => Some(PngLayoutOf(d))
  }

  /** Where `exportToEnclave` can fail: writing the SVG file, producing the PNG, or writing the
      HTML file. */
  datatype ExportFault = NoFault | SvgWriteFails | PngFails | HtmlWriteFails

  /** A file the export writes: the cropped SVG, or the HTML page holding the PNG. */
  datatype Artifact = SvgFile(path: string, svg: CroppedSvg) | HtmlFile(path: string, png: PngLayout)

  const SvgPath: string := "C:\\scripts\\DataAnalisis\\inbox_diagram.svg"
  const HtmlPath: string := "C:\\scripts\\DataAnalisis\\inbox.html"
  const ExportErrorText: string := "Export Error"

  /** The files `exportToEnclave` writes, in order, until the first failure. */
  function ExportWrites(s: ViewerState, fault: ExportFault): (r: seq<Artifact>) {
    match s.screen.drawing
    case None => []
    case Some(d) =>
      if fault == SvgWriteFails then []
      else if fault == NoFault then [SvgFile(SvgPath, CroppedSvgOf(d)), HtmlFile(HtmlPath, PngLayoutOf(d))]
      else [SvgFile(SvgPath, CroppedSvgOf(d))]
  }

  /** The viewer after `exportToEnclave`: a failure shows "Export Error". */
  function Export(s: ViewerState, fault: ExportFault): (r: ViewerState) {
    if s.screen.drawing.Some? && fault != NoFault then s.(screen := s.screen.(errorText := ExportErrorText))
    else s
  }

  /** An update of the shown tab renders its new content; an update of any other tab leaves
      the screen as it was. Either way the content is stored and the view is untouched. */
  lemma UpdateRendersOnlyActive(s: ViewerState, tabId: int, codigo: string, render: string -> RenderResult)
    ensures var r := OnUpdateDiagram(s, tabId, codigo, render);
      && r.mirror == Registry.OnUpdateDiagram(s.mirror, tabId, codigo)
      && ContentOf(r.mirror, tabId) == Some(codigo)
      && r.view == s.view
      && (tabId == s.mirror.activeTabId ==> r.screen == Render(s.screen, Some(codigo), render))
      && (tabId != s.mirror.activeTabId ==> r.screen == s.screen)
  {
  }

  /** A click on a tab shows that tab's content, rendered. */
  lemma SwitchTabShows(s: ViewerState, id: int, render: string -> RenderResult)
    ensures var r := SwitchTab(s, id, render);
      && r.mirror.activeTabId == id && r.mirror.tabs == s.mirror.tabs
      && r.mirror.tabContents == s.mirror.tabContents && r.view == s.view
      && r.screen == Render(s.screen, ContentOf(s.mirror, id), render)
  {
  }

  /** Delivery moves the mirror exactly as the registry does and never touches the view. */
  lemma {:induction false} DeliverAllMirror(s: ViewerState, msgs: seq<Message>, render: string -> RenderResult)
    ensures var r := DeliverAll(s, msgs, render);
      r.mirror == Registry.DeliverAll(s.mirror, msgs) && r.view == s.view
  {
    if msgs != [] {
      DeliverAllMirror(s, msgs[..|msgs| - 1], render);
    }
  }

  /** What is on screen after delivery: without an update of the shown tab, what was there
      before; otherwise what its last update renders to: nothing for blank content, its drawing
      with no error, or "Syntax Error". */
  lemma {:induction false} ShowsLastUpdate(s: ViewerState, msgs: seq<Message>, render: string -> RenderResult)
    ensures var r, a := DeliverAll(s, msgs, render), s.mirror.activeTabId;
      && (LastUpdate(msgs, a).None? ==> r.screen == s.screen)
      && (LastUpdate(msgs, a).Some? ==>
            var c := LastUpdate(msgs, a).value;
            && (IsBlank(Some(c)) ==> r.screen == Screen(None, ""))
            && (!IsBlank(Some(c)) && render(c).Rendered? ==> r.screen == Screen(Some(render(c).drawing), ""))
            && (!IsBlank(Some(c)) && render(c).SyntaxError? ==> r.screen.errorText == SyntaxErrorText))
  {
    if msgs != [] {
      var prefix, last := msgs[..|msgs| - 1], msgs[|msgs| - 1];
      ShowsLastUpdate(s, prefix, render);
      DeliverAllMirror(s, prefix, render);
      var before := DeliverAll(s, prefix, render);
      Registry.DeliverAllGrows(s.mirror, prefix);
      match last
      case UpdateDiagram(tabId, codigo) =>
        UpdateRendersOnlyActive(before, tabId, codigo, render);
      case TabAdded(id, name, content) =>
    }
  }

  /** Copying gives an image exactly when a drawing is on screen, and it is that drawing's PNG. */
  lemma CopyImageOf(s: ViewerState)
    ensures CopyImage(s).Some? <==> s.screen.drawing.Some?
    ensures CopyImage(s).Some? ==> CopyImage(s).value == PngLayoutOf(s.screen.drawing.value)
  {
  }

  /** Without a drawing the export does nothing. With one, a complete export writes the cropped
      SVG and then the HTML page with the same PNG the copy button makes, and changes nothing on
      screen; a failed one shows "Export Error", keeps the files written before the failure
      (the SVG once its write succeeded) and never writes the HTML page. */
  lemma ExportOutcome(s: ViewerState, fault: ExportFault)
    ensures var r, w := Export(s, fault), ExportWrites(s, fault);
      && r.mirror == s.mirror && r.view == s.view && r.screen.drawing == s.screen.drawing
      && (s.screen.drawing.None? ==> r == s && w == [])
      && (s.screen.drawing.Some? && fault == NoFault ==>
            && r == s && |w| == 2
            && w[0] == SvgFile(SvgPath, CroppedSvgOf(s.screen.drawing.value))
            && w[1] == HtmlFile(HtmlPath, CopyImage(s).value))
      && (s.screen.drawing.Some? && fault != NoFault ==>
            && r.screen.errorText == ExportErrorText
            && w == ExportWrites(s, NoFault)[..|w|] && |w| <= 1
            && (|w| == 1 <==> fault != SvgWriteFails))
  {
  }

  /** Every listener keeps the mirror valid. */
  lemma DeliverKeepsValid(s: ViewerState, msg: Message, render: string -> RenderResult)
    requires Registry.Valid(s.mirror)
    ensures Registry.Valid(Deliver(s, msg, render).mirror)
  {
    Registry.DeliverKeepsValid(s.mirror, msg);
  }

  /** The viewer starts with its first tab on screen and a valid mirror. */
  lemma InitialShowsFirstTab(render: string -> RenderResult)
    ensures var s := Initial(render);
      && Registry.Valid(s.mirror)
      && s.screen == Render(Screen(None, ""), Some(Registry.FirstContent), render)
      && s.view == ViewTransform.Initial
  {
    assert Registry.Ids(Registry.Initial().tabs) == [1];
  }
}
