/** The viewer's mirror of the editor's tabs, as a value: the tab list `tabs` (id and name),
    the map `tabContents` from id to content, and `activeTabId`; and what the two
    event listeners do to it. */
module Registry {
  import opened Text
  import opened Messages
  import opened TabList

  datatype ViewerTab = ViewerTab(id: int, name: string)

  datatype Mirror = Mirror(tabs: seq<ViewerTab>, tabContents: map<int, string>, activeTabId: int)

  /** The content of the viewer's first tab. */
  const FirstContent: string := "sequenceDiagram\n\tAlice->>John: Hello\n\tJohn-->>Alice: Good!"

  function Ids(tabs: seq<ViewerTab>): (r: seq<int>) {
    seq(|tabs|, k requires 0 <= k < |tabs| => tabs[k].id)
  }

  lemma IdsAppend(tabs: seq<ViewerTab>, t: ViewerTab)
    ensures Ids(tabs + [t]) == Ids(tabs) + [t.id]
  {
  }

  /** `Diagram ${tabId}`, the name of a tab the viewer creates on its own. */
  function DefaultName(id: int): (r: string) {
    "Diagram " + IntToDecimal(id)
  }

  /** The viewer window when it has loaded. */
  function Initial(): (r: Mirror) {
    Mirror([ViewerTab(1, "Diagram 1")], map[1 := FirstContent], 1)
  }

  /** Tab ids are pairwise distinct and the ids with content are exactly the tab ids. */
  ghost predicate Valid(m: Mirror) {
    && Distinct(Ids(m.tabs))
    && forall id :: id in m.tabContents <==> id in Ids(m.tabs)
  }

  /** The `update-diagram` listener: create a tab for an unknown id, then overwrite its content. */
  function OnUpdateDiagram(m: Mirror, tabId: int, codigo: string): (r: Mirror) {
    var tabs := if tabId in Ids(m.tabs) then m.tabs else m.tabs + [ViewerTab(tabId, DefaultName(tabId))];
    m.(tabs := tabs, tabContents := m.tabContents[tabId := codigo])
  }

  /** The `tab-added` listener: ignore a known id, otherwise add the tab with its name and content. */
  function OnTabAdded(m: Mirror, id: int, name: string, content: string): (r: Mirror) {
    if id in Ids(m.tabs) then m
    else m.(tabs := m.tabs + [ViewerTab(id, name)], tabContents := m.tabContents[id := content])
  }

  function Deliver(m: Mirror, msg: Message): (r: Mirror) {
    match msg
    case UpdateDiagram(tabId, codigo) => OnUpdateDiagram(m, tabId, codigo)
    case TabAdded(id, name, content) => OnTabAdded(m, id, name, content)
  }

  /** Whether delivering `msg` makes the viewer render: an update of the tab it shows. */
  predicate Rerenders(m: Mirror, msg: Message) {
    msg.UpdateDiagram? && msg.tabId == m.activeTabId
  }

  /** The mirror after the messages have been delivered in order. */
  function DeliverAll(m: Mirror, msgs: seq<Message>): (r: Mirror) {
    if msgs == [] then m else Deliver(DeliverAll(m, msgs[..|msgs| - 1]), msgs[|msgs| - 1])
  }

  /** An update for an unknown id appends exactly one tab named `Diagram <id>`; for a known id the
      tab list stays as it was. Either way the id then holds the new content, every other id
      keeps its content, and the active tab does not change. */
  lemma UpdateCreatesImplicitly(m: Mirror, tabId: int, codigo: string)
    ensures var r := OnUpdateDiagram(m, tabId, codigo);
      && (tabId !in Ids(m.tabs) ==> r.tabs == m.tabs + [ViewerTab(tabId, DefaultName(tabId))])
      && (tabId in Ids(m.tabs) ==> r.tabs == m.tabs)
      && tabId in Ids(r.tabs) && Ids(m.tabs) <= Ids(r.tabs)
      && tabId in r.tabContents && r.tabContents[tabId] == codigo
      && (forall id :: id != tabId ==> (id in r.tabContents <==> id in m.tabContents))
      && (forall id :: id != tabId && id in m.tabContents ==> r.tabContents[id] == m.tabContents[id])
      && r.activeTabId == m.activeTabId
  {
    IdsAppend(m.tabs, ViewerTab(tabId, DefaultName(tabId)));
  }

  /** An update overwrites: applying it twice is applying it once, and a later update of the
      same id wins over an earlier one. */
  lemma UpdateIsOverwrite(m: Mirror, tabId: int, c1: string, c2: string)
    ensures OnUpdateDiagram(OnUpdateDiagram(m, tabId, c1), tabId, c1) == OnUpdateDiagram(m, tabId, c1)
    ensures OnUpdateDiagram(OnUpdateDiagram(m, tabId, c1), tabId, c2) == OnUpdateDiagram(m, tabId, c2)
  {
    var once := OnUpdateDiagram(m, tabId, c1);
    UpdateCreatesImplicitly(m, tabId, c1);
    assert once.tabContents[tabId := c1] == once.tabContents;
    assert once.tabContents[tabId := c2] == m.tabContents[tabId := c2];
  }

  /** A `tab-added` for a known id changes nothing; for a new id it appends one tab with the
      announced name and content. It never changes the active tab. */
  lemma TabAddedEffect(m: Mirror, id: int, name: string, content: string)
    ensures var r := OnTabAdded(m, id, name, content);
      && (id in Ids(m.tabs) ==> r == m)
      && (id !in Ids(m.tabs) ==>
            r.tabs == m.tabs + [ViewerTab(id, name)] && r.tabContents == m.tabContents[id := content])
      && r.activeTabId == m.activeTabId
  {
  }

  /** Both listeners keep the tab ids distinct and in step with the contents. */
  lemma DeliverKeepsValid(m: Mirror, msg: Message)
    requires Valid(m)
    ensures Valid(Deliver(m, msg))
  {
    match msg
    case UpdateDiagram(tabId, codigo) =>
      IdsAppend(m.tabs, ViewerTab(tabId, DefaultName(tabId)));
    case TabAdded(id, name, content) =>
      IdsAppend(m.tabs, ViewerTab(id, name));
  }

  lemma {:induction false} DeliverAllKeepsValid(m: Mirror, msgs: seq<Message>)
    requires Valid(m)
    ensures Valid(DeliverAll(m, msgs))
  {
    if msgs != [] {
      DeliverAllKeepsValid(m, msgs[..|msgs| - 1]);
      DeliverKeepsValid(DeliverAll(m, msgs[..|msgs| - 1]), msgs[|msgs| - 1]);
    }
  }

  /** Tabs are never removed and the active tab never changes on delivery. */
  lemma {:induction false} DeliverAllGrows(m: Mirror, msgs: seq<Message>)
    ensures var r := DeliverAll(m, msgs);
      && |r.tabs| >= |m.tabs| && r.tabs[..|m.tabs|] == m.tabs
      && r.activeTabId == m.activeTabId
  {
    if msgs != [] {
      DeliverAllGrows(m, msgs[..|msgs| - 1]);
      var before := DeliverAll(m, msgs[..|msgs| - 1]);
      var r := Deliver(before, msgs[|msgs| - 1]);
      assert r.tabs == before.tabs || r.tabs[..|before.tabs|] == before.tabs;
      assert r.tabs[..|m.tabs|] == before.tabs[..|m.tabs|];
    }
  }

  /** Per-id convergence: after the messages are delivered, every id that was updated is a tab
      and holds the content of its last update, whatever came before or in between. */
  lemma {:induction false} ConvergesToLastUpdate(m: Mirror, msgs: seq<Message>, id: int)
    requires LastUpdate(msgs, id).Some?
    ensures var r := DeliverAll(m, msgs);
      id in Ids(r.tabs) && id in r.tabContents && r.tabContents[id] == LastUpdate(msgs, id).value
  {
    var prefix, last := msgs[..|msgs| - 1], msgs[|msgs| - 1];
    var before := DeliverAll(m, prefix);
    if last.UpdateDiagram? && last.tabId == id {
      UpdateCreatesImplicitly(before, id, last.codigo);
    } else {
      ConvergesToLastUpdate(m, prefix, id);
      match last
      case UpdateDiagram(tabId, codigo) =>
        UpdateCreatesImplicitly(before, tabId, codigo);
      case TabAdded(tid, name, content) =>
        IdsAppend(before.tabs, ViewerTab(tid, name));
    }
  }

  /** The cross-window order of `addTab`: `update-diagram(n, d)` then `tab-added{n, ...}` for an
      id the viewer does not know append exactly one tab, named `Diagram <n>` by the update, not
      by the announcement, and holding `d`; the announcement is ignored. Only the update can make
      the viewer render, and only when `n` is the tab it shows. */
  lemma {:induction false} UpdateThenAnnounce(m: Mirror, n: int, d: string, name: string, content: string)
    requires n !in Ids(m.tabs)
    ensures var msgs := [UpdateDiagram(n, d), TabAdded(n, name, content)];
      var r := DeliverAll(m, msgs);
      && r.tabs == m.tabs + [ViewerTab(n, DefaultName(n))]
      && r.tabContents == m.tabContents[n := d]
      && r.activeTabId == m.activeTabId
      && !Rerenders(DeliverAll(m, msgs[..1]), msgs[1])
  {
    var msgs := [UpdateDiagram(n, d), TabAdded(n, name, content)];
    var first := [UpdateDiagram(n, d)];
    assert msgs[..1] == first && first[..0] == [] && msgs[..|msgs| - 1] == first;
    var m1 := DeliverAll(m, first);
    assert m1 == Deliver(DeliverAll(m, []), first[0]);
    UpdateCreatesImplicitly(m, n, d);
    assert n in Ids(m1.tabs);
  }
}
