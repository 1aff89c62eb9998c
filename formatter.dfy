/** The editor's "format" button: `formatMermaidCode` re-indents a diagram
    description line by line with tabs, from the first word of each trimmed line. */
module Formatter {
  import opened Text

  /** A line starting with one of these opens a diagram; it is written at indent 0. */
  const TopLevelKeywords: seq<string> :=
    ["sequenceDiagram", "graph", "classDiagram", "stateDiagram", "erDiagram", "journey",
     "gantt", "pie", "gitGraph", "C4Context", "mindmap", "timeline", "quadrantChart"]

  /** A line starting with one of these opens a block of a sequence diagram. */
  const BlockKeywords: seq<string> := ["alt ", "opt ", "loop ", "rect ", "par "]

  predicate IsTopLevel(line: string) {
    StartsWithAny(line, TopLevelKeywords)
  }

  predicate ClosesBlock(line: string) {
    StartsWith(line, "}") || StartsWith(line, "end")
  }

  predicate OpensBlock(line: string) {
    EndsWith(line, '{') || StartsWithAny(line, BlockKeywords)
  }

  /** The indent at which a non-blank trimmed line is written, given the level before it. */
  function LevelOf(prev: nat, line: string): (r: nat) {
    if IsTopLevel(line) then 0
    else if ClosesBlock(line) then (if prev > 0 then prev - 1 else 0)
    else prev
  }

  /** The level after a trimmed line has been written. */
  function NextLevel(prev: nat, line: string): (r: nat) {
    if line == "" then prev
    else LevelOf(prev, line) + (if IsTopLevel(line) then 1 else 0) + (if OpensBlock(line) then 1 else 0)
  }

  /** The level once every line of `lines` has been processed, from level 0. */
  function LevelAfter(lines: seq<string>): (r: nat) {
    if lines == [] then 0
    else NextLevel(LevelAfter(lines[..|lines| - 1]), Trim(lines[|lines| - 1]))
  }

  /** The output line for a trimmed input line at level `prev`. */
  function FormatLine(prev: nat, line: string): (r: string) {
    if line == "" then "" else Tabs(LevelOf(prev, line)) + line
  }

  /** The output lines, one for each input line. */
  function FormatLines(lines: seq<string>): (r: seq<string>)
    ensures |r| == |lines|
  {
    if lines == [] then []
    else
      var prefix := lines[..|lines| - 1];
      FormatLines(prefix) + [FormatLine(LevelAfter(prefix), Trim(lines[|lines| - 1]))]
  }

  /** What `formatMermaidCode(code)` returns. */
  function Format(code: string): (r: string) {
    Join(FormatLines(Split(code)))
  }

  /** `formatMermaidCode`: one pass over the lines with a running indent level. */
  method FormatMermaidCode(code: string) returns (r: string)
    ensures r == Format(code)
  {
    var lines := Split(code);
    var formatted: seq<string> := [];
    var indentLevel: nat := 0;
    var i := 0;
    while i < |lines|
      invariant 0 <= i <= |lines|
      invariant indentLevel == LevelAfter(lines[..i])
      invariant formatted == FormatLines(lines[..i])
    {
      ghost var prev: nat := indentLevel;
      FormatStep(lines, i);
      var line := Trim(lines[i]);
      if line == "" {
        formatted := formatted + [""];
        i := i + 1;
        continue;
      }
      if ClosesBlock(line) {
        indentLevel := if indentLevel - 1 > 0 then indentLevel - 1 else 0;
      }
      var isTopLevel := IsTopLevel(line);
      if isTopLevel {
        indentLevel := 0;
      }
      assert indentLevel == LevelOf(prev, line);
      formatted := formatted + [Tabs(indentLevel) + line];
      if isTopLevel {
        indentLevel := indentLevel + 1;
      }
      if OpensBlock(line) {
        indentLevel := indentLevel + 1;
      }
      i := i + 1;
    }
    assert lines[..i] == lines;
    r := Join(formatted);
  }

  /** One more line: the level and the output grow by what that line alone gives. */
  lemma FormatStep(lines: seq<string>, i: nat)
    requires i < |lines|
    ensures LevelAfter(lines[..i + 1]) == NextLevel(LevelAfter(lines[..i]), Trim(lines[i]))
    ensures FormatLines(lines[..i + 1]) == FormatLines(lines[..i]) + [FormatLine(LevelAfter(lines[..i]), Trim(lines[i]))]
  {
    assert lines[..i + 1][..i] == lines[..i];
  }

  /** Output line `k` is the input line `k`, trimmed and indented at the level reached before it. */
  lemma {:induction false} FormatLineAt(lines: seq<string>, k: nat)
    requires k < |lines|
    ensures FormatLines(lines)[k] == FormatLine(LevelAfter(lines[..k]), Trim(lines[k]))
  {
    var prefix := lines[..|lines| - 1];
    if k < |lines| - 1 {
      FormatLineAt(prefix, k);
      assert prefix[..k] == lines[..k];
    } else {
      assert prefix == lines[..k];
    }
  }

  /** Blank and whitespace-only lines become empty; every other line becomes tabs followed by
      the trimmed line, at the level reached before it. */
  lemma FormattedLineShape(lines: seq<string>, k: nat)
    requires k < |lines|
    ensures Trim(lines[k]) == "" <==> FormatLines(lines)[k] == ""
    ensures Trim(lines[k]) != "" ==>
      FormatLines(lines)[k] == Tabs(LevelOf(LevelAfter(lines[..k]), Trim(lines[k]))) + Trim(lines[k])
  {
    FormatLineAt(lines, k);
  }

  /** The level after line `k` follows from the level before it and that line alone. */
  lemma LevelStep(lines: seq<string>, k: nat)
    requires k < |lines|
    ensures LevelAfter(lines[..k + 1]) == NextLevel(LevelAfter(lines[..k]), Trim(lines[k]))
  {
    assert lines[..k + 1][..k] == lines[..k];
  }

  /** The indent a non-blank line `k` is written at: flush when it opens a diagram, one level
      below the running level (never below 0) when it closes a block, the running level otherwise. */
  lemma WrittenIndent(lines: seq<string>, k: nat)
    requires k < |lines| && Trim(lines[k]) != ""
    ensures var line, prev := Trim(lines[k]), LevelAfter(lines[..k]);
      FormatLines(lines)[k] == Tabs(
        if IsTopLevel(line) then 0
        else if ClosesBlock(line) then (if prev > 0 then prev - 1 else 0)
        else prev) + line
  {
    FormatLineAt(lines, k);
  }

  /** The level after a non-blank line `k`: one above the level it was written at for a
      top-level line, one more again for a line that opens a block. */
  lemma FollowingIndent(lines: seq<string>, k: nat)
    requires k < |lines| && Trim(lines[k]) != ""
    ensures var line := Trim(lines[k]);
      LevelAfter(lines[..k + 1]) ==
        LevelOf(LevelAfter(lines[..k]), line)
        + (if IsTopLevel(line) then 1 else 0) + (if OpensBlock(line) then 1 else 0)
  {
    LevelStep(lines, k);
  }

  /** Re-trimming an output line recovers the trimmed input line. */
  lemma RetrimRecovers(lines: seq<string>, k: nat)
    requires k < |lines|
    ensures Trim(FormatLines(lines)[k]) == Trim(lines[k])
  {
    FormatLineAt(lines, k);
    var t := Trim(lines[k]);
    TrimShape(lines[k]);
    if t != "" {
      TrimAfterTabs(LevelOf(LevelAfter(lines[..k]), t), t);
    }
  }

  /** Formatting looks only at the trimmed lines. */
  lemma {:induction false} SameTrimsSameFormat(a: seq<string>, b: seq<string>)
    requires |a| == |b|
    requires forall k :: 0 <= k < |a| ==> Trim(a[k]) == Trim(b[k])
    ensures LevelAfter(a) == LevelAfter(b)
    ensures FormatLines(a) == FormatLines(b)
  {
    if a != [] {
      SameTrimsSameFormat(a[..|a| - 1], b[..|b| - 1]);
    }
  }

  /** Tabs followed by a line without breaks hold no break. */
  lemma TabsKeepNoNewline(n: nat, t: string)
    requires '\n' !in t
    ensures '\n' !in Tabs(n) + t
  {
    var s := Tabs(n) + t;
    forall j | 0 <= j < |s| ensures s[j] != '\n' {
      if j >= n {
        assert s[j] == t[j - n];
      }
    }
  }

  /** An output line made from an input line without breaks holds no break. */
  lemma FormatLineKeepsNoNewline(prev: nat, line: string)
    requires '\n' !in line
    ensures '\n' !in FormatLine(prev, Trim(line))
  {
    TrimKeepsNoNewline(line);
    if Trim(line) != "" {
      TabsKeepNoNewline(LevelOf(prev, Trim(line)), Trim(line));
    }
  }

  /** No output line holds a line break. */
  lemma FormattedLinesHaveNoNewline(lines: seq<string>)
    requires forall k :: 0 <= k < |lines| ==> '\n' !in lines[k]
    ensures forall k :: 0 <= k < |lines| ==> '\n' !in FormatLines(lines)[k]
  {
    forall k | 0 <= k < |lines| ensures '\n' !in FormatLines(lines)[k] {
      FormatLineAt(lines, k);
      FormatLineKeepsNoNewline(LevelAfter(lines[..k]), lines[k]);
    }
  }

  /** Formatting keeps the number of lines. */
  lemma FormatKeepsLineCount(code: string)
    ensures |Split(Format(code))| == |Split(code)|
    ensures Split(Format(code)) == FormatLines(Split(code))
  {
    var lines := Split(code);
    SplitHasNoNewline(code);
    FormattedLinesHaveNoNewline(lines);
    SplitJoin(FormatLines(lines));
  }

  /** Formatting an already formatted text changes nothing. */
  lemma FormatIdempotent(code: string)
    ensures Format(Format(code)) == Format(code)
  {
    var lines := Split(code);
    var out := FormatLines(lines);
    FormatKeepsLineCount(code);
    forall k | 0 <= k < |out| ensures Trim(out[k]) == Trim(lines[k]) {
      RetrimRecovers(lines, k);
    }
    SameTrimsSameFormat(out, lines);
  }
}
