/** `renderDiagram`: what the viewer shows after rendering the active tab's content.
    The Mermaid renderer is a parameter that either returns a drawing or fails. */
module RenderPolicy {
  import opened Text
  import opened Messages
  import opened Svg

  datatype RenderResult = Rendered(drawing: Drawing) | SyntaxError

  /** The contents of `mermaidContainer` and the text of `errorAlert`. */
  datatype Screen = Screen(drawing: Option<Drawing>, errorText: string)

  const SyntaxErrorText: string := "Syntax Error"

  /** `!code || code.trim() === ''`; a missing entry reads as `undefined`. */
  predicate IsBlank(code: Option<string>) {
    code.None? || Trim(code.value) == ""
  }

  /** The screen after rendering `code`. */
  function Render(s: Screen, code: Option<string>, render: string -> RenderResult): (r: Screen) {
    if IsBlank(code) then Screen(None, "")
    else match render(code.value)
      case Rendered(d) => Screen(Some(d), "")
      case SyntaxError => s.(errorText := SyntaxErrorText)
  }

  /** Blank content clears the drawing and the error; a successful render replaces the drawing
      and clears the error; a failed render keeps the drawing it had and shows "Syntax Error". */
  lemma RenderOutcomes(s: Screen, code: Option<string>, render: string -> RenderResult)
    ensures var r := Render(s, code, render);
      && (IsBlank(code) ==> r == Screen(None, ""))
      && (!IsBlank(code) && render(code.value).Rendered? ==>
            r.drawing == Some(render(code.value).drawing) && r.errorText == "")
      && (!IsBlank(code) && render(code.value).SyntaxError? ==>
            r.drawing == s.drawing && r.errorText == SyntaxErrorText)
  {
  }

  /** A failed render keeps drawing D on screen under the error; the next successful render
      replaces D and clears the error. */
  lemma StaleOnErrorThenRecover(d: Drawing, err: string, bad: string, good: string,
                                render: string -> RenderResult)
    requires Trim(bad) != "" && Trim(good) != ""
    requires render(bad).SyntaxError? && render(good).Rendered?
    ensures var s1 := Render(Screen(Some(d), err), Some(bad), render);
      && s1 == Screen(Some(d), SyntaxErrorText)
      && Render(s1, Some(good), render) == Screen(Some(render(good).drawing), "")
  {
  }

  /** Two renders of the same content agree up to markup: each call gets a fresh
      `mermaid-svg-<time>` id, which Mermaid writes into the SVG. */
  predicate SameOutcome(a: RenderResult, b: RenderResult) {
    match a
    case SyntaxError => b.SyntaxError?
    case Rendered(d) =>
      b.Rendered? && b.drawing.viewBox == d.viewBox && b.drawing.width == d.width
      && b.drawing.height == d.height && b.drawing.bbox == d.bbox
  }

  /** What the viewer shows, with the markup set aside. */
  predicate SameShown(a: Screen, b: Screen) {
    && a.errorText == b.errorText
    && a.drawing.Some? == b.drawing.Some?
    && (a.drawing.Some? ==> SameOutcome(Rendered(a.drawing.value), Rendered(b.drawing.value)))
  }

  /** Rendering the same content again, with a second render that agrees with the first up to
      markup, shows the same measurements and the same error text as rendering it once. */
  lemma RenderRepeat(s: Screen, code: Option<string>, render: string -> RenderResult,
                     again: string -> RenderResult)
    requires code.Some? ==> SameOutcome(render(code.value), again(code.value))
    ensures SameShown(Render(Render(s, code, render), code, again), Render(s, code, render))
  {
  }
}
