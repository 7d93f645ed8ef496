/** A text taken apart: paragraphs, blank lines, structural lines and fenced blocks, and what reflow makes of each.
    Together the laws give the lines that are put out for every text. */
module ReflowBlocks {
  import opened Text
  import opened Reflow

  // ---- stripping ----

  predicate Blank(style: Style, s: string) {
    forall c :: c in s ==> style.space(c)
  }

  /** Stripping takes the white space off both ends, all of it and nothing else. */
  lemma {:induction false} StripExactly(style: Style, s: string) returns (before: string, after: string)
    ensures s == before + Strip(style, s) + after && Blank(style, before) && Blank(style, after)
    ensures var t := Strip(style, s); t != "" ==> !style.space(t[0]) && !style.space(t[|t| - 1])
    decreases |s|
  {
    before, after := "", "";
    if s != "" && style.space(s[0]) {
      before, after := StripExactly(style, s[1..]);
      before := [s[0]] + before;
    } else if s != "" && style.space(s[|s| - 1]) {
      var init := s[..|s| - 1];
      before, after := StripExactly(style, init);
      after := after + [s[|s| - 1]];
      assert s == init + [s[|s| - 1]];
    }
  }

  // ---- kinds of lines ----

  predicate Fence(style: Style, line: string) {
    "```" <= Strip(style, line)
  }

  predicate Prose(style: Style, line: string) {
    var s := Strip(style, line);
    s != "" && !Fence(style, line) && !style.structural(s)
  }

  /** A line that ends a paragraph outside code, and what it becomes. */
  predicate Breaks(style: Style, line: string, kept: string) {
    var s := Strip(style, line);
    !Fence(style, line) && if s == "" then kept == "" else style.structural(s) && kept == line
  }

  /** Whether a fence is open after the lines: they hold an odd number of fences. */
  function Open(style: Style, lines: seq<string>): bool {
    lines != [] && (Open(style, lines[..|lines| - 1]) != Fence(style, lines[|lines| - 1]))
  }

  lemma {:induction false} RunIsOpen(style: Style, lines: seq<string>)
    ensures Run(style, lines).inCode == Open(style, lines)
    ensures Open(style, lines) ==> Run(style, lines).para == []
    decreases |lines|
  {
    hide Strip;
    if lines != [] {
      RunIsOpen(style, lines[..|lines| - 1]);
    }
  }

  // ---- the machine starts afresh after a break ----

  function Behind(out: seq<string>, st: State): State {
    st.(out := out + st.out)
  }

  lemma StepBehind(style: Style, out: seq<string>, st: State, line: string)
    ensures Step(style, Behind(out, st), line) == Behind(out, Step(style, st, line))
    ensures Flush(Behind(out, st)) == Behind(out, Flush(st))
  {
    hide Strip, Join;
    var text := [Join(st.para, " ")];
    assert out + st.out + text == out + (st.out + text);
    var flushed := Flush(st).out;
    assert out + flushed + [line] == out + (flushed + [line]);
    assert out + flushed + [""] == out + (flushed + [""]);
    assert out + st.out + [line] == out + (st.out + [line]);
  }

  lemma {:induction false} RunBehind(style: Style, a: seq<string>, b: seq<string>)
    requires Run(style, a).para == [] && !Run(style, a).inCode
    ensures Run(style, a + b) == Behind(Run(style, a).out, Run(style, b))
    decreases |b|
  {
    if b == [] {
      assert a + b == a;
    } else {
      var init, line := b[..|b| - 1], b[|b| - 1];
      assert (a + b)[..|a + b| - 1] == a + init;
      RunBehind(style, a, init);
      StepBehind(style, Run(style, a).out, Run(style, init), line);
      hide Step;
    }
  }

  lemma OneLine(style: Style, a: seq<string>, line: string)
    ensures Run(style, a + [line]) == Step(style, Run(style, a), line)
  {
    hide Step;
    assert (a + [line])[..|a|] == a;
  }

  lemma SplitsThere(style: Style, a: seq<string>, middle: seq<string>, kept: seq<string>, b: seq<string>)
    requires Run(style, a + middle) == State(OutLines(style, a) + kept, [], false)
    ensures OutLines(style, a + middle + b) == OutLines(style, a) + kept + OutLines(style, b)
  {
    RunBehind(style, a + middle, b);
    StepBehind(style, OutLines(style, a) + kept, Run(style, b), "");
    hide Run, Step;
  }

  // ---- the laws ----

  function Stripped(style: Style, lines: seq<string>): (r: seq<string>)
    ensures |r| == |lines| && forall i :: 0 <= i < |r| ==> r[i] == Strip(style, lines[i])
  {
    seq(|lines|, i requires 0 <= i < |lines| => Strip(style, lines[i]))
  }

  lemma {:induction false} ProseIsHeld(style: Style, lines: seq<string>)
    requires forall l :: l in lines ==> Prose(style, l)
    ensures Run(style, lines) == State([], Stripped(style, lines), false)
    decreases |lines|
  {
    hide Strip;
    if lines != [] {
      var init, line := lines[..|lines| - 1], lines[|lines| - 1];
      assert line in lines;
      ProseIsHeld(style, init);
      assert Stripped(style, lines) == Stripped(style, init) + [Strip(style, line)];
    } else {
      assert Stripped(style, lines) == [];
    }
  }

  /** Nothing gives nothing, and adjacent lines of prose give one line: their stripped texts with single blanks
      between them. */
  lemma ParagraphIsJoined(style: Style, lines: seq<string>)
    requires forall l :: l in lines ==> Prose(style, l)
    ensures OutLines(style, lines) == if lines == [] then [] else [Join(Stripped(style, lines), " ")]
  {
    ProseIsHeld(style, lines);
    hide Run, Strip, Join;
  }

  /** Outside code a blank line becomes an empty one and a structural line is kept as it is; what is before and what
      is after it are reflowed by themselves. */
  lemma BreakIsKept(style: Style, a: seq<string>, line: string, kept: string, b: seq<string>)
    requires !Open(style, a) && Breaks(style, line, kept)
    ensures OutLines(style, a + [line] + b) == OutLines(style, a) + [kept] + OutLines(style, b)
  {
    RunIsOpen(style, a);
    OneLine(style, a, line);
    FlushEmpties(Run(style, a));
    hide Strip, Run, Join;
    SplitsThere(style, a, [line], [kept], b);
  }

  lemma CodeStep(style: Style, out: seq<string>, st: State, line: string)
    requires Flush(st).out == out && (Fence(style, line) || st.inCode)
    ensures Fence(style, line) ==> Step(style, st, line) == State(out + [line], [], !st.inCode)
    ensures !Fence(style, line) && st.para == [] ==> Step(style, st, line) == State(out + [line], [], true)
  {
    hide Strip, Join;
  }

  lemma {:induction false} CodeIsKept(style: Style, a: seq<string>, start: string, body: seq<string>)
    requires !Open(style, a) && Fence(style, start) && forall l :: l in body ==> !Fence(style, l)
    ensures Run(style, a + [start] + body) == State(OutLines(style, a) + [start] + body, [], true)
    decreases |body|
  {
    hide Step, Run, Open, Fence, OutLines;
    if body == [] {
      RunIsOpen(style, a);
      OneLine(style, a, start);
      assert a + [start] + body == a + [start];
      assert OutLines(style, a) + [start] + body == OutLines(style, a) + [start];
      OutLinesAre(style, a);
      CodeStep(style, OutLines(style, a), Run(style, a), start);
    } else {
      var init, line := body[..|body| - 1], body[|body| - 1];
      CodeIsKept(style, a, start, init);
      assert body == init + [line];
      assert a + [start] + body == a + [start] + init + [line];
      OneLine(style, a + [start] + init, line);
      assert OutLines(style, a) + [start] + init + [line] == OutLines(style, a) + [start] + body;
      CodeStep(style, OutLines(style, a) + [start] + init, Run(style, a + [start] + init), line);
    }
  }

  /** A fenced block is kept as it is, fences and lines between them; what is before and what is after it are reflowed
      by themselves. */
  lemma FencedIsKept(style: Style, a: seq<string>, start: string, body: seq<string>, end: string, b: seq<string>)
    requires !Open(style, a) && Fence(style, start) && Fence(style, end)
    requires forall l :: l in body ==> !Fence(style, l)
    ensures var block := [start] + body + [end];
      OutLines(style, a + block + b) == OutLines(style, a) + block + OutLines(style, b)
  {
    hide Step, Run, Open, Fence, OutLines;
    var block := [start] + body + [end];
    CodeIsKept(style, a, start, body);
    OneLine(style, a + [start] + body, end);
    CodeStep(style, OutLines(style, a) + [start] + body, Run(style, a + [start] + body), end);
    assert a + [start] + body + [end] == a + block;
    assert OutLines(style, a) + [start] + body + [end] == OutLines(style, a) + block;
    SplitsThere(style, a, block, block, b);
  }

  /** After a fence that is never closed everything is kept as it is. */
  lemma UnclosedIsKept(style: Style, a: seq<string>, start: string, body: seq<string>)
    requires !Open(style, a) && Fence(style, start) && forall l :: l in body ==> !Fence(style, l)
    ensures OutLines(style, a + [start] + body) == OutLines(style, a) + [start] + body
  {
    CodeIsKept(style, a, start, body);
    hide Run;
  }

  /** The text is the lines put out, without the empty ones at its end, and one line break. */
  lemma TextExactly(style: Style, markdown: string, lines: seq<string>)
    requires lines == OutLines(style, Split(markdown, '\n'))
    ensures exists n: nat :: n <= |lines| && (n == 0 || lines[n - 1] != "")
                             && (forall i :: n <= i < |lines| ==> lines[i] == "")
                             && Reflowed(style, markdown) == Join(lines[..n], "\n") + "\n"
  {
    hide OutLines, Reflowed, Join;
    ReflowedLines(style, markdown);
    Trimmed(lines);
    hide Split;
  }

  lemma {:induction false} Trimmed(lines: seq<string>)
    ensures exists n: nat :: n <= |lines| && (n == 0 || lines[n - 1] != "")
                             && (forall i :: n <= i < |lines| ==> lines[i] == "") && TrimEnd(lines) == lines[..n]
    decreases |lines|
  {
    if lines != [] && lines[|lines| - 1] == "" {
      var init := lines[..|lines| - 1];
      Trimmed(init);
      var n: nat :| n <= |init| && (n == 0 || init[n - 1] != "")
                    && (forall i :: n <= i < |init| ==> init[i] == "") && TrimEnd(init) == init[..n];
      assert init[..n] == lines[..n];
    } else {
      assert lines[..|lines|] == lines;
    }
  }
}
