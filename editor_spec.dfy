/** The editor window's state and what each of its handlers does to it, as values:
    the tab list `tabs`, `activeTabId`, `tabCounter`, the textarea's text, and the
    events emitted so far (`outbox`), oldest first. */
module EditorSpec {
  import opened Text
  import opened Messages
  import opened TabList
  import Formatter

  datatype Tab = Tab(id: int, name: string, content: string)

  datatype EditorState = EditorState(
    tabs: seq<Tab>, activeTabId: int, tabCounter: int, text: string, outbox: seq<Message>)

  /** The content `addTab` gives every new tab. */
  const DefaultContent: string := "sequenceDiagram\n\tInit->>Action: Start"

  /** The content of the tab the editor starts with. */
  const FirstContent: string := "sequenceDiagram\n\tAlice->>John: Hola\n\tJohn-->>Alice: ¡Bien!"

  function Ids(tabs: seq<Tab>): (r: seq<int>) {
    seq(|tabs|, k requires 0 <= k < |tabs| => tabs[k].id)
  }

  /** `Diagrama ${n}`. */
  function TabName(n: int): (r: string) {
    "Diagrama " + IntToDecimal(n)
  }

  /** The editor window when it has loaded, before the delayed first emit. */
  function Initial(): (r: EditorState) {
    EditorState([Tab(1, "Diagrama 1", FirstContent)], 1, 1, FirstContent, [])
  }

  /** Tabs are never removed, ids increase along the list and none exceeds the counter. */
  predicate WellFormed(e: EditorState) {
    && |e.tabs| >= 1
    && (forall i, j :: 0 <= i < j < |e.tabs| ==> e.tabs[i].id < e.tabs[j].id)
    && (forall k :: 0 <= k < |e.tabs| ==> e.tabs[k].id <= e.tabCounter)
  }

  /** `tabs.find(t => t.id === id).content = c` when such a tab exists. */
  function Store(tabs: seq<Tab>, id: int, c: string): (r: seq<Tab>)
    ensures |r| == |tabs|
  {
    var k := IndexOf(Ids(tabs), id);
    if k < 0 then tabs else tabs[k := tabs[k].(content := c)]
  }

  /** `switchTab(id)`: save the textarea into the active tab, select `id`, and when that
      tab exists load it into the textarea and emit its content. */
  function SwitchTab(e: EditorState, id: int): (r: EditorState)
    ensures |r.tabs| == |e.tabs|
  {
    var saved := Store(e.tabs, e.activeTabId, e.text);
    var j := IndexOf(Ids(saved), id);
    if j < 0 then e.(tabs := saved, activeTabId := id)
    else e.(tabs := saved, activeTabId := id, text := saved[j].content,
            outbox := e.outbox + [UpdateDiagram(id, saved[j].content)])
  }

  /** `addTab()`: allocate the next id, append the tab, switch to it, then announce it. */
  function AddTab(e: EditorState): (r: EditorState) {
    var n := e.tabCounter + 1;
    var switched := SwitchTab(e.(tabCounter := n, tabs := e.tabs + [Tab(n, TabName(n), DefaultContent)]), n);
    var added := switched.tabs[|e.tabs|];
    switched.(outbox := switched.outbox + [TabAdded(added.id, added.name, added.content)])
  }

  /** The textarea's `input` handler after its text became `code`. */
  function Input(e: EditorState, code: string): (r: EditorState) {
    e.(tabs := Store(e.tabs, e.activeTabId, code), text := code,
       outbox := e.outbox + [UpdateDiagram(e.activeTabId, code)])
  }

  /** `value.substring(0, start) + '\t' + value.substring(end)`, with `substring`'s clamping. */
  function InsertTab(value: string, start: int, end: int): (r: string) {
    var a := if start < 0 then 0 else if start > |value| then |value| else start;
    var b := if end < 0 then 0 else if end > |value| then |value| else end;
    value[..a] + "\t" + value[b..]
  }

  /** The Tab key: replace the selection by a tab, then run the `input` handler. */
  function TabKey(e: EditorState, start: int, end: int): (r: EditorState) {
    Input(e, InsertTab(e.text, start, end))
  }

  /** The format button: re-indent the textarea, then run the `input` handler. */
  function FormatCode(e: EditorState): (r: EditorState) {
    Input(e, Formatter.Format(e.text))
  }

  /** The emit 500 ms after loading: the first tab's content, under the active id. */
  function InitialEmit(e: EditorState): (r: EditorState)
    requires |e.tabs| >= 1
  {
    e.(outbox := e.outbox + [UpdateDiagram(e.activeTabId, e.tabs[0].content)])
  }

  /** The user's actions on the editor window. */
  datatype Action =
    | AddTabClick
    | TabClick(id: int)
    | Typed(code: string)
    | TabKeyDown(start: int, end: int)
    | FormatClick
    | InitialEmitTimer

  function Apply(e: EditorState, a: Action): (r: EditorState)
    requires |e.tabs| >= 1
  {
    match a
    case AddTabClick => AddTab(e)
    case TabClick(id) => SwitchTab(e, id)
    case Typed(code) => Input(e, code)
    case TabKeyDown(start, end) => TabKey(e, start, end)
    case FormatClick => FormatCode(e)
    case InitialEmitTimer => InitialEmit(e)
  }

  /** Increasing ids are distinct. */
  lemma IncreasingIdsDistinct(tabs: seq<Tab>)
    requires forall i, j :: 0 <= i < j < |tabs| ==> tabs[i].id < tabs[j].id
    ensures Distinct(Ids(tabs))
  {
  }

  /** Storing into the tab with id `id` changes that tab's content and nothing else. */
  lemma StoreEffect(tabs: seq<Tab>, id: int, c: string)
    requires Distinct(Ids(tabs))
    ensures var r := Store(tabs, id, c);
      && |r| == |tabs| && Ids(r) == Ids(tabs)
      && forall k :: 0 <= k < |tabs| ==>
           r[k] == if tabs[k].id == id then tabs[k].(content := c) else tabs[k]
  {
    var k := IndexOf(Ids(tabs), id);
    var r := Store(tabs, id, c);
    forall j | 0 <= j < |tabs|
      ensures r[j] == if tabs[j].id == id then tabs[j].(content := c) else tabs[j]
    {
      if tabs[j].id == id {
        IndexOfDistinct(Ids(tabs), id, j);
      }
    }
    assert Ids(r) == Ids(tabs);
  }

  /** `switchTab` saves the textarea into the previously active tab and touches no other tab;
      for an existing target it loads that tab and emits exactly one `update-diagram` with its
      content, for a missing target it only changes `activeTabId`. */
  lemma SwitchTabEffect(e: EditorState, id: int)
    requires WellFormed(e)
    ensures var r := SwitchTab(e, id);
      && WellFormed(r)
      && r.activeTabId == id && r.tabCounter == e.tabCounter
      && |r.tabs| == |e.tabs|
      && (forall k :: 0 <= k < |e.tabs| ==>
            r.tabs[k] == if e.tabs[k].id == e.activeTabId then e.tabs[k].(content := e.text) else e.tabs[k])
      && (id in Ids(e.tabs) ==>
            exists k :: 0 <= k < |r.tabs| && r.tabs[k].id == id
              && r.text == r.tabs[k].content
              && r.outbox == e.outbox + [UpdateDiagram(id, r.tabs[k].content)])
      && (id !in Ids(e.tabs) ==> r.text == e.text && r.outbox == e.outbox)
  {
    IncreasingIdsDistinct(e.tabs);
    StoreEffect(e.tabs, e.activeTabId, e.text);
    var saved := Store(e.tabs, e.activeTabId, e.text);
    var j := IndexOf(Ids(saved), id);
    if j >= 0 {
      assert saved[j].id == id;
    }
  }

  /** `addTab` takes an id above every id so far and above the old counter, appends exactly one
      tab `Diagrama <n>` holding the default content, selects it, and emits `update-diagram`
      before `tab-added`, both carrying that content. The tabs already there are changed only by
      saving the textarea into the previously active one. */
  lemma AddTabEffect(e: EditorState)
    requires WellFormed(e)
    requires e.activeTabId != e.tabCounter + 1
    ensures var n, r := e.tabCounter + 1, AddTab(e);
      && WellFormed(r)
      && (forall k :: 0 <= k < |e.tabs| ==> e.tabs[k].id < n)
      && r.tabCounter == n && r.activeTabId == n
      && r.tabs == Store(e.tabs, e.activeTabId, e.text) + [Tab(n, TabName(n), DefaultContent)]
      && r.text == DefaultContent
      && r.outbox == e.outbox + [UpdateDiagram(n, DefaultContent), TabAdded(n, TabName(n), DefaultContent)]
  {
    var n := e.tabCounter + 1;
    SwitchToNewTab(e);
    var saved := Store(e.tabs, e.activeTabId, e.text) + [Tab(n, TabName(n), DefaultContent)];
    var switched := e.(tabCounter := n, tabs := saved, activeTabId := n, text := DefaultContent,
                       outbox := e.outbox + [UpdateDiagram(n, DefaultContent)]);
    assert AddTab(e) == switched.(outbox := switched.outbox + [TabAdded(n, TabName(n), DefaultContent)]);
  }

  /** The `switchTab` inside `addTab`: the textarea goes into the old active tab and the new
      tab's default content is loaded and emitted. */
  lemma SwitchToNewTab(e: EditorState)
    requires WellFormed(e)
    requires e.activeTabId != e.tabCounter + 1
    ensures var n := e.tabCounter + 1;
      var saved := Store(e.tabs, e.activeTabId, e.text) + [Tab(n, TabName(n), DefaultContent)];
      var switched := e.(tabCounter := n, tabs := saved, activeTabId := n, text := DefaultContent,
                         outbox := e.outbox + [UpdateDiagram(n, DefaultContent)]);
      && SwitchTab(e.(tabCounter := n, tabs := e.tabs + [Tab(n, TabName(n), DefaultContent)]), n) == switched
      && WellFormed(switched)
  {
    var n := e.tabCounter + 1;
    var t := Tab(n, TabName(n), DefaultContent);
    var grown := e.(tabCounter := n, tabs := e.tabs + [t]);
    assert WellFormed(grown);
    IncreasingIdsDistinct(grown.tabs);
    StoreAppend(e.tabs, t, e.activeTabId, e.text);
    var saved := Store(grown.tabs, e.activeTabId, e.text);
    IndexOfDistinct(Ids(saved), n, |e.tabs|);
  }

  /** Storing by id into a list with one more tab of another id stores into the shorter list. */
  lemma StoreAppend(tabs: seq<Tab>, t: Tab, id: int, c: string)
    requires Distinct(Ids(tabs + [t])) && id != t.id
    ensures Store(tabs + [t], id, c) == Store(tabs, id, c) + [t]
    ensures Ids(Store(tabs + [t], id, c)) == Ids(tabs + [t])
  {
    assert Ids(tabs + [t])[..|tabs|] == Ids(tabs);
    StoreEffect(tabs + [t], id, c);
    StoreEffect(tabs, id, c);
  }

  /** The `input` handler writes the new text into the active tab (when it exists), touches no
      other tab, and emits exactly one `update-diagram` for the active id with that text. */
  lemma InputEffect(e: EditorState, code: string)
    requires WellFormed(e)
    ensures var r := Input(e, code);
      && WellFormed(r)
      && r.activeTabId == e.activeTabId && r.text == code && |r.tabs| == |e.tabs|
      && (forall k :: 0 <= k < |e.tabs| ==>
            r.tabs[k] == if e.tabs[k].id == e.activeTabId then e.tabs[k].(content := code) else e.tabs[k])
      && r.outbox == e.outbox + [UpdateDiagram(e.activeTabId, code)]
  {
    IncreasingIdsDistinct(e.tabs);
    StoreEffect(e.tabs, e.activeTabId, code);
  }

  /** With the selection `start..end` inside the text, the Tab key replaces the selection by one
      tab character; the caret `start + 1` sits just after it, and removing that character
      gives the text with the selection cut out. */
  lemma InsertTabSpec(value: string, start: int, end: int)
    requires 0 <= start <= end <= |value|
    ensures var r := InsertTab(value, start, end);
      && |r| == |value| - (end - start) + 1
      && r[start] == '\t'
      && r[..start] == value[..start] && r[start + 1..] == value[end..]
      && r[..start] + r[start + 1..] == value[..start] + value[end..]
  {
    var r := InsertTab(value, start, end);
    assert r == value[..start] + "\t" + value[end..];
    assert r[..start] == value[..start];
    assert r[start + 1..] == value[end..];
  }

  /** Every action keeps the editor well formed; in particular the counter never goes down. */
  lemma ApplyKeepsWellFormed(e: EditorState, a: Action)
    requires WellFormed(e)
    ensures WellFormed(Apply(e, a)) && Apply(e, a).tabCounter >= e.tabCounter
  {
    IncreasingIdsDistinct(e.tabs);
    match a
    case AddTabClick =>
      var n := e.tabCounter + 1;
      var grown := e.(tabCounter := n, tabs := e.tabs + [Tab(n, TabName(n), DefaultContent)]);
      assert WellFormed(grown);
      SwitchTabEffect(grown, n);
    case TabClick(id) => SwitchTabEffect(e, id);
    case Typed(code) => InputEffect(e, code);
    case TabKeyDown(start, end) => InputEffect(e, InsertTab(e.text, start, end));
    case FormatClick => InputEffect(e, Formatter.Format(e.text));
    case InitialEmitTimer =>
  }

  /** The editor after a run of actions. */
  function Run(e: EditorState, actions: seq<Action>): (r: EditorState)
    requires WellFormed(e)
    ensures WellFormed(Run(e, actions))
    decreases |actions|
  {
    if actions == [] then e
    else
      ApplyKeepsWellFormed(e, actions[0]);
      Run(Apply(e, actions[0]), actions[1..])
  }

  /** Ids are never reused: after any run of actions every tab that was there keeps its place
      and id, and every tab added since has an id above the old counter, in increasing order. */
  lemma {:induction false} IdsNeverReused(e: EditorState, actions: seq<Action>)
    requires WellFormed(e)
    ensures var r := Run(e, actions);
      && |r.tabs| >= |e.tabs|
      && (forall k :: 0 <= k < |e.tabs| ==> r.tabs[k].id == e.tabs[k].id)
      && (forall k :: |e.tabs| <= k < |r.tabs| ==> r.tabs[k].id > e.tabCounter)
    decreases |actions|
  {
    if actions != [] {
      var a := actions[0];
      var e1 := Apply(e, a);
      ApplyKeepsWellFormed(e, a);
      IdsNeverReused(e1, actions[1..]);
      IncreasingIdsDistinct(e.tabs);
      match a
      case AddTabClick =>
        AddTabIds(e);
      case TabClick(id) => SwitchTabEffect(e, id);
      case Typed(code) => InputEffect(e, code);
      case TabKeyDown(start, end) => InputEffect(e, InsertTab(e.text, start, end));
      case FormatClick => InputEffect(e, Formatter.Format(e.text));
      case InitialEmitTimer =>
    }
  }

  /** `addTab` keeps the ids of the tabs already there and appends one above the counter. */
  lemma AddTabIds(e: EditorState)
    requires WellFormed(e)
    ensures var r := AddTab(e);
      && |r.tabs| == |e.tabs| + 1 && r.tabCounter == e.tabCounter + 1
      && (forall k :: 0 <= k < |e.tabs| ==> r.tabs[k].id == e.tabs[k].id)
      && r.tabs[|e.tabs|].id == e.tabCounter + 1
  {
    var n := e.tabCounter + 1;
    var grown := e.(tabCounter := n, tabs := e.tabs + [Tab(n, TabName(n), DefaultContent)]);
    assert WellFormed(grown);
    SwitchTabEffect(grown, n);
  }

  /** Distinct ids get distinct names: the name spells its id, which reads back. */
  lemma TabNamesDistinct(a: nat, b: nat)
    requires a != b
    ensures TabName(a) != TabName(b)
  {
    NatToDecimalRoundTrip(a);
    NatToDecimalRoundTrip(b);
    assert TabName(a)[9..] == NatToDecimal(a);
    assert TabName(b)[9..] == NatToDecimal(b);
  }
}
