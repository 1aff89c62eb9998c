/** The two events the editor window emits and the viewer window listens to. */
module Messages {

  datatype Option<T> = None | Some(value: T)

  /** `update-diagram` carries `{ tabId, codigo }`; `tab-added` carries the new tab `{ id, name, content }`. */
  datatype Message =
    | UpdateDiagram(tabId: int, codigo: string)
    | TabAdded(id: int, name: string, content: string)

  /** The content of the last `update-diagram` for `id` in `msgs`, if there is one. */
  function LastUpdate(msgs: seq<Message>, id: int): (r: Option<string>) {
    if msgs == [] then None
    else
      var m := msgs[|msgs| - 1];
      if m.UpdateDiagram? && m.tabId == id then Some(m.codigo)
      else LastUpdate(msgs[..|msgs| - 1], id)
  }

  /** Appending a message for another id, or a `tab-added`, leaves the last update for `id` as it was. */
  lemma LastUpdateAppend(msgs: seq<Message>, m: Message, id: int)
    ensures LastUpdate(msgs + [m], id) ==
      if m.UpdateDiagram? && m.tabId == id then Some(m.codigo) else LastUpdate(msgs, id)
  {
    assert (msgs + [m])[..|msgs|] == msgs;
  }
}
