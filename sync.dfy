/** How the two windows stay in step. The editor keeps an invariant, `Synced`: the shown tab
    exists, the textarea holds its content, and every tab's content is the last
    `update-diagram` emitted for its id. Every handler keeps it, except the delayed first emit
    once another tab has been selected. Delivering an outbox of a synced editor makes the
    viewer hold every editor tab with its content. */
module Sync {
  import opened Messages
  import opened TabList
  import opened EditorSpec
  import Registry
  import ViewerSpec
  import RenderPolicy

  ghost predicate Synced(e: EditorState) {
    && e.activeTabId in Ids(e.tabs)
    && (forall k :: 0 <= k < |e.tabs| && e.tabs[k].id == e.activeTabId ==> e.tabs[k].content == e.text)
    && (forall k :: 0 <= k < |e.tabs| ==> LastUpdate(e.outbox, e.tabs[k].id) == Some(e.tabs[k].content))
  }

  /** In a well formed editor a tab is identified by its id. */
  lemma SameIdSameTab(e: EditorState, i: int, j: int)
    requires WellFormed(e) && 0 <= i < |e.tabs| && 0 <= j < |e.tabs| && e.tabs[i].id == e.tabs[j].id
    ensures i == j
  {
  }

  /** In a synced editor saving the textarea into the shown tab changes nothing. */
  lemma SaveIsNoOp(e: EditorState)
    requires WellFormed(e) && Synced(e)
    ensures Store(e.tabs, e.activeTabId, e.text) == e.tabs
  {
    IncreasingIdsDistinct(e.tabs);
    StoreEffect(e.tabs, e.activeTabId, e.text);
  }

  /** Typing (and so the Tab key and the format button) keeps the editor synced. */
  lemma InputKeepsSynced(e: EditorState, code: string)
    requires WellFormed(e) && Synced(e)
    ensures Synced(Input(e, code))
  {
    InputEffect(e, code);
    var r := Input(e, code);
    assert Ids(r.tabs) == Ids(e.tabs);
    forall k | 0 <= k < |r.tabs|
      ensures LastUpdate(r.outbox, r.tabs[k].id) == Some(r.tabs[k].content)
    {
      LastUpdateAppend(e.outbox, UpdateDiagram(e.activeTabId, code), e.tabs[k].id);
    }
  }

  /** A click on a tab button keeps the editor synced. */
  lemma SwitchKeepsSynced(e: EditorState, id: int)
    requires WellFormed(e) && Synced(e) && id in Ids(e.tabs)
    ensures Synced(SwitchTab(e, id))
  {
    SwitchTabEffect(e, id);
    SaveIsNoOp(e);
    var r := SwitchTab(e, id);
    assert r.tabs == e.tabs;
    var j :| 0 <= j < |r.tabs| && r.tabs[j].id == id && r.text == r.tabs[j].content
      && r.outbox == e.outbox + [UpdateDiagram(id, r.tabs[j].content)];
    forall k | 0 <= k < |r.tabs|
      ensures LastUpdate(r.outbox, r.tabs[k].id) == Some(r.tabs[k].content)
      ensures r.tabs[k].id == r.activeTabId ==> r.tabs[k].content == r.text
    {
      LastUpdateAppend(e.outbox, UpdateDiagram(id, r.tabs[j].content), e.tabs[k].id);
      if r.tabs[k].id == id {
        SameIdSameTab(r, j, k);
      }
    }
  }

  /** Adding a tab keeps the editor synced. */
  lemma AddTabKeepsSynced(e: EditorState)
    requires WellFormed(e) && Synced(e)
    ensures Synced(AddTab(e))
  {
    var n := e.tabCounter + 1;
    AddTabEffect(e);
    SaveIsNoOp(e);
    var r := AddTab(e);
    assert r.tabs == e.tabs + [Tab(n, TabName(n), DefaultContent)];
    assert r.tabs[|e.tabs|].id == n;
    var added := [UpdateDiagram(n, DefaultContent), TabAdded(n, TabName(n), DefaultContent)];
    assert r.outbox == (e.outbox + added[..1]) + [added[1]];
    forall k | 0 <= k < |r.tabs|
      ensures LastUpdate(r.outbox, r.tabs[k].id) == Some(r.tabs[k].content)
      ensures r.tabs[k].id == r.activeTabId ==> r.tabs[k].content == r.text
    {
      LastUpdateAppend(e.outbox + added[..1], added[1], r.tabs[k].id);
      LastUpdateAppend(e.outbox, added[0], r.tabs[k].id);
    }
  }

  /** The delayed first emit keeps the editor synced when the shown tab is the first one. */
  lemma InitialEmitKeepsSynced(e: EditorState)
    requires WellFormed(e) && Synced(e) && e.tabs[0].id == e.activeTabId
    ensures Synced(InitialEmit(e))
  {
    var r := InitialEmit(e);
    forall k | 0 <= k < |r.tabs|
      ensures LastUpdate(r.outbox, r.tabs[k].id) == Some(r.tabs[k].content)
    {
      LastUpdateAppend(e.outbox, UpdateDiagram(e.activeTabId, e.tabs[0].content), e.tabs[k].id);
      if e.tabs[k].id == e.activeTabId {
        SameIdSameTab(e, 0, k);
      }
    }
  }

  /** What the editor's user can do: tab buttons exist only for tabs in the list. */
  predicate Enabled(e: EditorState, a: Action) {
    match a
    case TabClick(id) => id in Ids(e.tabs)
    case _ => true
  }

  /** Every enabled action keeps the editor synced, except the delayed first emit while
      another tab than the first is shown. */
  lemma ApplyKeepsSynced(e: EditorState, a: Action)
    requires WellFormed(e) && Synced(e) && Enabled(e, a)
    requires a == InitialEmitTimer ==> e.tabs[0].id == e.activeTabId
    ensures Synced(Apply(e, a))
  {
    match a
    case AddTabClick => AddTabKeepsSynced(e);
    case TabClick(id) => SwitchKeepsSynced(e, id);
    case Typed(code) => InputKeepsSynced(e, code);
    case TabKeyDown(start, end) => InputKeepsSynced(e, InsertTab(e.text, start, end));
    case FormatClick => InputKeepsSynced(e, Formatter.Format(e.text));
    case InitialEmitTimer => InitialEmitKeepsSynced(e);
  }

  /** The editor is synced from its first emit on. */
  lemma SyncedAfterFirstEmit()
    ensures WellFormed(InitialEmit(Initial())) && Synced(InitialEmit(Initial()))
  {
    var r := InitialEmit(Initial());
    assert Ids(r.tabs) == [1];
    assert r.outbox == [] + [UpdateDiagram(1, FirstContent)];
    LastUpdateAppend([], UpdateDiagram(1, FirstContent), 1);
  }

  /** Convergence: once the outbox of a synced editor has been delivered, whatever the viewer
      held before, it has a tab for every editor tab holding that tab's content. */
  lemma ViewerConverges(e: EditorState, m: Registry.Mirror)
    requires Synced(e)
    ensures var r := Registry.DeliverAll(m, e.outbox);
      forall k :: 0 <= k < |e.tabs| ==>
        && e.tabs[k].id in Registry.Ids(r.tabs) && e.tabs[k].id in r.tabContents
        && r.tabContents[e.tabs[k].id] == e.tabs[k].content
  {
    forall k | 0 <= k < |e.tabs|
      ensures var r := Registry.DeliverAll(m, e.outbox);
        && e.tabs[k].id in Registry.Ids(r.tabs) && e.tabs[k].id in r.tabContents
        && r.tabContents[e.tabs[k].id] == e.tabs[k].content
    {
      Registry.ConvergesToLastUpdate(m, e.outbox, e.tabs[k].id);
    }
  }

  /** When the viewer shows one of the editor's tabs, after delivery it shows what that tab's
      content renders to: nothing for blank content, its drawing, or "Syntax Error". */
  lemma ViewerShowsEditorTab(e: EditorState, v: ViewerSpec.ViewerState, k: int,
                             render: string -> RenderPolicy.RenderResult)
    requires Synced(e) && 0 <= k < |e.tabs| && e.tabs[k].id == v.mirror.activeTabId
    ensures var r, c := ViewerSpec.DeliverAll(v, e.outbox, render), e.tabs[k].content;
      && (RenderPolicy.IsBlank(Some(c)) ==> r.screen == RenderPolicy.Screen(None, ""))
      && (!RenderPolicy.IsBlank(Some(c)) && render(c).Rendered? ==>
            r.screen == RenderPolicy.Screen(Some(render(c).drawing), ""))
      && (!RenderPolicy.IsBlank(Some(c)) && render(c).SyntaxError? ==>
            r.screen.errorText == RenderPolicy.SyntaxErrorText)
  {
    ViewerSpec.ShowsLastUpdate(v, e.outbox, render);
  }

  /** Once the outbox of a synced editor has been delivered, clicking one of the editor's tabs in
      the viewer selects it and renders the content the editor holds for it. */
  lemma ClickShowsEditorTab(e: EditorState, v: ViewerSpec.ViewerState, k: int,
                            render: string -> RenderPolicy.RenderResult)
    requires Synced(e) && 0 <= k < |e.tabs|
    ensures var d := ViewerSpec.DeliverAll(v, e.outbox, render);
      var r := ViewerSpec.SwitchTab(d, e.tabs[k].id, render);
      && r.mirror.activeTabId == e.tabs[k].id
      && r.screen == RenderPolicy.Render(d.screen, Some(e.tabs[k].content), render)
  {
    ViewerSpec.DeliverAllMirror(v, e.outbox, render);
    ViewerConverges(e, v.mirror);
  }

  /** A tab added in the editor reaches a viewer that does not know its id as one new tab named
      `Diagram <n>`, never the editor's `Diagrama <n>`, holding the default content. */
  lemma AddedTabInViewer(e: EditorState, m: Registry.Mirror)
    requires WellFormed(e) && Synced(e) && e.tabCounter + 1 !in Registry.Ids(m.tabs)
    ensures var n, r := e.tabCounter + 1, AddTab(e);
      var v := Registry.DeliverAll(m, r.outbox[|e.outbox|..]);
      && v.tabs == m.tabs + [Registry.ViewerTab(n, Registry.DefaultName(n))]
      && v.tabContents == m.tabContents[n := DefaultContent]
      && Registry.DefaultName(n) != TabName(n)
  {
    var n := e.tabCounter + 1;
    AddTabEffect(e);
    var r := AddTab(e);
    assert r.outbox[|e.outbox|..] == [UpdateDiagram(n, DefaultContent), TabAdded(n, TabName(n), DefaultContent)];
    Registry.UpdateThenAnnounce(m, n, DefaultContent, TabName(n), DefaultContent);
    assert Registry.DefaultName(n)[7] == ' ' && TabName(n)[7] == 'a';
  }

  /** The delayed first emit sends the first tab's content under the shown id. If the user adds
      a tab before it fires, tab 2 receives tab 1's content: the editor is no longer synced and
      the viewer's tab 2 holds tab 1's content while the editor's tab 2 holds the default
      content it had announced. */
  lemma InitialEmitRace()
    ensures var e1 := AddTab(Initial());
      var e2 := InitialEmit(e1);
      var v := Registry.DeliverAll(Registry.Initial(), e2.outbox);
      && LastUpdate(e1.outbox, 2) == Some(DefaultContent) && !Synced(e2)
      && e2.activeTabId == 2 && e2.tabs[1].id == 2 && e2.tabs[1].content == DefaultContent
      && LastUpdate(e2.outbox, 2) == Some(FirstContent)
      && 2 in v.tabContents && v.tabContents[2] == FirstContent
  {
    var e0 := Initial();
    assert WellFormed(e0) && Ids(e0.tabs) == [1];
    AddTabEffect(e0);
    IncreasingIdsDistinct(e0.tabs);
    StoreEffect(e0.tabs, 1, FirstContent);
    var e1 := AddTab(e0);
    var e2 := InitialEmit(e1);
    assert e1.tabs == [Tab(1, "Diagrama 1", FirstContent), Tab(2, TabName(2), DefaultContent)];
    assert e1.outbox == [UpdateDiagram(2, DefaultContent)] + [TabAdded(2, TabName(2), DefaultContent)];
    LastUpdateAppend([UpdateDiagram(2, DefaultContent)], TabAdded(2, TabName(2), DefaultContent), 2);
    LastUpdateAppend([], UpdateDiagram(2, DefaultContent), 2);
    LastUpdateAppend(e1.outbox, UpdateDiagram(2, FirstContent), 2);
    assert DefaultContent != FirstContent by { assert DefaultContent[17] != FirstContent[17]; }
    assert LastUpdate(e2.outbox, e2.tabs[1].id) != Some(e2.tabs[1].content);
    Registry.ConvergesToLastUpdate(Registry.Initial(), e2.outbox, 2);
  }
}
