/** The editor window: its module state as an object, one method per handler. Emitting an
    event appends it to `outbox`, which the bus delivers to the viewer in order. */
module Editor {
  import opened Text
  import opened Messages
  import opened TabList
  import opened EditorSpec
  import Formatter

  class EditorSession {
    var tabs: seq<Tab>
    var activeTabId: int
    var tabCounter: int
    /** `editorTextarea.value`. */
    var text: string
    var outbox: seq<Message>

    function State(): (r: EditorState)
      reads this
    {
      EditorState(tabs, activeTabId, tabCounter, text, outbox)
    }

    ghost predicate Valid()
      reads this
    {
      WellFormed(State())
    }

    constructor ()
      ensures Valid() && State() == Initial()
    {
      tabs := [Tab(1, "Diagrama 1", FirstContent)];
      activeTabId := 1;
      tabCounter := 1;
      text := FirstContent;
      outbox := [];
    }

    /** `emitUpdate(tabId, code)`. */
    method EmitUpdate(tabId: int, code: string)
      modifies this`outbox
      ensures outbox == old(outbox) + [UpdateDiagram(tabId, code)]
    {
      outbox := outbox + [UpdateDiagram(tabId, code)];
    }

    method SwitchTab(id: int)
      requires Valid()
      modifies this
      ensures Valid() && State() == EditorSpec.SwitchTab(old(State()), id)
    {
      SwitchTabEffect(State(), id);
      var k := FindIndex(Ids(tabs), activeTabId);
      if k >= 0 {
        tabs := tabs[k := tabs[k].(content := text)];
      }
      activeTabId := id;
      var j := FindIndex(Ids(tabs), id);
      if j >= 0 {
        text := tabs[j].content;
        EmitUpdate(activeTabId, tabs[j].content);
      }
    }

    method AddTab()
      requires Valid()
      modifies this
      ensures Valid() && State() == EditorSpec.AddTab(old(State()))
    {
      tabCounter := tabCounter + 1;
      var newTab := Tab(tabCounter, "Diagrama " + IntToDecimal(tabCounter), DefaultContent);
      tabs := tabs + [newTab];
      var index := |tabs| - 1;
      SwitchTab(newTab.id);
      outbox := outbox + [TabAdded(tabs[index].id, tabs[index].name, tabs[index].content)];
      ApplyKeepsWellFormed(old(State()), AddTabClick);
    }

    /** The `input` listener, after the user changed the textarea to `code`. */
    method Input(code: string)
      requires Valid()
      modifies this
      ensures Valid() && State() == EditorSpec.Input(old(State()), code)
    {
      InputEffect(State(), code);
      text := code;
      var k := FindIndex(Ids(tabs), activeTabId);
      if k >= 0 {
        tabs := tabs[k := tabs[k].(content := code)];
      }
      EmitUpdate(activeTabId, code);
    }

    /** The `keydown` listener for the Tab key, with the textarea's selection; returns the caret. */
    method TabKey(selectionStart: int, selectionEnd: int) returns (caret: int)
      requires Valid()
      modifies this
      ensures Valid() && State() == EditorSpec.TabKey(old(State()), selectionStart, selectionEnd)
      ensures caret == selectionStart + 1
    {
      text := InsertTab(text, selectionStart, selectionEnd);
      caret := selectionStart + 1;
      Input(text);
    }

    /** The format button's listener. */
    method FormatCode()
      requires Valid()
      modifies this
      ensures Valid() && State() == EditorSpec.FormatCode(old(State()))
    {
      var formatted := Formatter.FormatMermaidCode(text);
      text := formatted;
      Input(text);
    }

    /** The delayed emit of the initial state. */
    method InitialEmit()
      requires Valid()
      modifies this
      ensures Valid() && State() == EditorSpec.InitialEmit(old(State()))
    {
      EmitUpdate(activeTabId, tabs[0].content);
    }
  }
}
