/** The viewer window: its module state as an object, one method per listener. The Mermaid
    renderer is passed to the methods that render; the files the export writes are returned. */
module Viewer {
  import opened Text
  import opened Messages
  import opened Svg
  import opened RenderPolicy
  import opened TabList
  import opened ExportGeometry
  import Registry
  import ViewTransform
  import opened ViewerSpec

  class ViewerSession {
    var tabs: seq<Registry.ViewerTab>
    var tabContents: map<int, string>
    var activeTabId: int
    /** The drawing inside `mermaidContainer`, if any. */
    var drawing: Option<Drawing>
    /** The text of `errorAlert`. */
    var errorText: string
    var scale: real
    var translateX: real
    var translateY: real
    var isPanning: bool
    var startX: real
    var startY: real

    function State(): (r: ViewerState)
      reads this
    {
      ViewerState(
        Registry.Mirror(tabs, tabContents, activeTabId),
        Screen(drawing, errorText),
        ViewTransform.ViewState(scale, translateX, translateY, isPanning, startX, startY))
    }

    ghost predicate Valid()
      reads this
    {
      Registry.Valid(State().mirror)
    }

    /** The window loads: module state as declared, then `renderDiagram()`. */
    constructor (render: string -> RenderResult)
      ensures Valid() && State() == ViewerSpec.Initial(render)
    {
      tabs := [Registry.ViewerTab(1, "Diagram 1")];
      tabContents := map[1 := Registry.FirstContent];
      activeTabId := 1;
      drawing := None;
      errorText := "";
      scale, translateX, translateY := 1.0, 0.0, 0.0;
      isPanning := false;
      startX, startY := 0.0, 0.0;
      new;
      InitialShowsFirstTab(render);
      RenderDiagram(render);
    }

    method RenderDiagram(render: string -> RenderResult)
      modifies this
      ensures State() == RenderActive(old(State()), render)
    {
      if activeTabId !in tabContents || Trim(tabContents[activeTabId]) == "" {
        drawing := None;
        errorText := "";
        return;
      }
      match render(tabContents[activeTabId])
      case Rendered(d) =>
        drawing := Some(d);
        errorText := "";
      case SyntaxError =>
        errorText := SyntaxErrorText;
    }

    method SwitchTab(id: int, render: string -> RenderResult)
      requires Valid()
      modifies this
      ensures Valid() && State() == ViewerSpec.SwitchTab(old(State()), id, render)
    {
      activeTabId := id;
      RenderDiagram(render);
    }

    /** The `update-diagram` listener. */
    method OnUpdateDiagram(tabId: int, codigo: string, render: string -> RenderResult)
      requires Valid()
      modifies this
      ensures Valid() && State() == ViewerSpec.OnUpdateDiagram(old(State()), tabId, codigo, render)
    {
      DeliverKeepsValid(State(), UpdateDiagram(tabId, codigo), render);
      var k := FindIndex(Registry.Ids(tabs), tabId);
      if k < 0 {
        tabs := tabs + [Registry.ViewerTab(tabId, Registry.DefaultName(tabId))];
      }
      tabContents := tabContents[tabId := codigo];
      if tabId == activeTabId {
        RenderDiagram(render);
      }
    }

    /** The `tab-added` listener. */
    method OnTabAdded(id: int, name: string, content: string)
      requires Valid()
      modifies this
      ensures Valid() && State() == ViewerSpec.OnTabAdded(old(State()), id, name, content)
    {
      Registry.DeliverKeepsValid(State().mirror, TabAdded(id, name, content));
      var k := FindIndex(Registry.Ids(tabs), id);
      if k < 0 {
        tabs := tabs + [Registry.ViewerTab(id, name)];
        tabContents := tabContents[id := content];
      }
    }

    /** The reset button, with the viewer area's `clientWidth` and `clientHeight`. */
    method ResetView(containerWidth: int, containerHeight: int)
      modifies this
      ensures State() == ViewerSpec.ResetView(old(State()), containerWidth, containerHeight)
    {
      match drawing {
        case None =>
          scale := 1.0;
        case Some(d) =>
          scale := ViewTransform.FitScale(d, containerWidth, containerHeight);
      }
      translateX := 0.0;
      translateY := 0.0;
    }

    method Wheel(deltaY: real)
      modifies this
      ensures State() == old(State()).(view := ViewTransform.Wheel(old(State()).view, deltaY))
    {
      if deltaY < 0.0 {
        scale := scale + ViewTransform.ZoomSpeed;
      } else {
        scale := ViewTransform.Max(ViewTransform.MinScale, scale - ViewTransform.ZoomSpeed);
      }
    }

    method MouseDown(button: int, clientX: real, clientY: real)
      modifies this
      ensures State() == old(State()).(view := ViewTransform.MouseDown(old(State()).view, button, clientX, clientY))
    {
      if button == 0 {
        isPanning := true;
        startX := clientX - translateX;
        startY := clientY - translateY;
      }
    }

    method MouseMove(clientX: real, clientY: real)
      modifies this
      ensures State() == old(State()).(view := ViewTransform.MouseMove(old(State()).view, clientX, clientY))
    {
      if !isPanning {
        return;
      }
      translateX := clientX - startX;
      translateY := clientY - startY;
    }

    method MouseUp()
      modifies this
      ensures State() == old(State()).(view := ViewTransform.MouseUp(old(State()).view))
    {
      isPanning := false;
    }

    /** The copy button: the PNG of the drawing on screen, when there is one. */
    method CopyImage() returns (png: Option<PngLayout>)
      ensures png.Some? <==> drawing.Some?
      ensures png.Some? ==> png.value == PngLayoutOf(drawing.value)
    {
      match drawing
      case None =>
        png := None;
      case Some(d) =>
        png := Some(PngLayoutOf(d));
    }

    /** The export button; `fault` says which step of the export fails, if any. */
    method ExportToEnclave(fault: ExportFault) returns (written: seq<Artifact>)
      modifies this
      ensures State() == Export(old(State()), fault)
      ensures written == ExportWrites(old(State()), fault)
    {
      written := [];
      if drawing.None? {
        return;
      }
      var d := drawing.value;
      if fault == SvgWriteFails {
        errorText := ExportErrorText;
        return;
      }
      written := written + [SvgFile(SvgPath, CroppedSvgOf(d))];
      if fault != NoFault {
        errorText := ExportErrorText;
        return;
      }
      written := written + [HtmlFile(HtmlPath, PngLayoutOf(d))];
    }
  }
}
