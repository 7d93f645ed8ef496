/** Markdown reflow: each prose paragraph becomes one line, everything else stays.

    What counts as white space and which stripped lines are structure (headings, lists,
    tables, …) are parameters; the laws hold for any choice in which a blank and a line
    break are white space. */
module Reflow {
  import opened Json
  import opened Text

  datatype Style = Style(space: char -> bool, structural: string -> bool)

  predicate Proper(style: Style) {
    style.space(' ') && style.space('\n')
  }

  function Strip(style: Style, s: string): string {
    if s != "" && style.space(s[0]) then Strip(style, s[1..])
    else if s != "" && style.space(s[|s| - 1]) then Strip(style, s[..|s| - 1])
    else s
  }

  const FENCE := "```"

  function RStrip(s: string): string {
    if s != "" && s[|s| - 1] == '\n' then RStrip(s[..|s| - 1]) else s
  }

  // ---- the line machine ----

  datatype State = State(out: seq<string>, para: seq<string>, inCode: bool)

  function Flush(st: State): State {
    if st.para == [] then st else st.(out := st.out + [Join(st.para, " ")], para := [])
  }

  function Step(style: Style, st: State, line: string): State {
    var s := Strip(style, line);
    if FENCE <= s then Flush(st).(out := Flush(st).out + [line], inCode := !st.inCode)
    else if st.inCode then st.(out := st.out + [line])
    else if s == "" then Flush(st).(out := Flush(st).out + [""])
    else if style.structural(s) then Flush(st).(out := Flush(st).out + [line])
    else st.(para := st.para + [s])
  }

  function Run(style: Style, lines: seq<string>): State {
    if lines == [] then State([], [], false)
    else Step(style, Run(style, lines[..|lines| - 1]), lines[|lines| - 1])
  }

  function OutLines(style: Style, lines: seq<string>): seq<string> {
    Flush(Run(style, lines)).out
  }

  function Reflowed(style: Style, markdown: string): string {
    RStrip(Join(OutLines(style, Split(markdown, '\n')), "\n")) + "\n"
  }

  method ReflowText(style: Style, markdown: string) returns (text: string)
    ensures text == Reflowed(style, markdown)
  {
    hide Strip, Join;
    var out: seq<string>, para: seq<string>, inCode := [], [], false;
    var lines := Split(markdown, '\n');
    assert lines[..0] == [];
    for i := 0 to |lines|
      invariant Run(style, lines[..i]) == State(out, para, inCode)
    {
      var line := lines[i];
      assert lines[..i + 1][..i] == lines[..i];
      var s := Strip(style, line);
      if FENCE <= s {
        out, para := FlushPara(out, para, inCode);
        out := out + [line];
        inCode := !inCode;
        continue;
      }
      if inCode {
        out := out + [line];
        continue;
      }
      if s == "" {
        out, para := FlushPara(out, para, inCode);
        out := out + [""];
        continue;
      }
      if style.structural(s) {
        out, para := FlushPara(out, para, inCode);
        out := out + [line];
      } else {
        para := para + [s];
      }
    }
    assert lines[..|lines|] == lines;
    out, para := FlushPara(out, para, inCode);
    text := RStrip(Join(out, "\n")) + "\n";
  }

  method FlushPara(out: seq<string>, para: seq<string>, ghost inCode: bool)
    returns (out': seq<string>, para': seq<string>)
    ensures State(out', para', inCode) == Flush(State(out, para, inCode))
  {
    out', para' := out, para;
    if para != [] {
      out' := out + [Join(para, " ")];
      para' := [];
    }
  }

  // ---- stripped text ----

  lemma {:induction false} StripLaws(style: Style, s: string)
    ensures var t := Strip(style, s);
      && (t != "" ==> !style.space(t[0]) && !style.space(t[|t| - 1]))
      && (forall c :: c in t ==> c in s)
    decreases |s|
  {
    if s != "" && style.space(s[0]) {
      StripLaws(style, s[1..]);
    } else if s != "" && style.space(s[|s| - 1]) {
      StripLaws(style, s[..|s| - 1]);
    }
  }

  lemma StripFixed(style: Style, s: string)
    requires s != "" ==> !style.space(s[0]) && !style.space(s[|s| - 1])
    ensures Strip(style, s) == s
  {
  }

  /** A piece of a paragraph: stripped, not empty, not a fence. */
  predicate Piece(style: Style, s: string) {
    && s != "" && !style.space(s[0]) && !style.space(s[|s| - 1])
    && !(FENCE <= s) && '\n' !in s
  }

  /** Joining the pieces of a paragraph gives a piece. */
  lemma {:induction false} JoinedPiece(style: Style, para: seq<string>)
    requires para != [] && forall p :: p in para ==> Piece(style, p)
    ensures Piece(style, Join(para, " "))
    decreases |para|
  {
    assert Piece(style, para[0]);
    if |para| > 1 {
      JoinedPiece(style, para[1..]);
      var first, rest, all := para[0], Join(para[1..], " "), Join(para, " ");
      assert all == first + " " + rest;
      assert all[|first|] == ' ' && all[|all| - 1] == rest[|rest| - 1];
      if |first| >= 3 {
        assert all[..3] == first[..3];
      }
    }
  }

  // ---- lines that a reflow leaves alone ----

  /** Whether the line is in a code block, and whether the line before it was prose. */
  datatype Mode = Mode(inCode: bool, afterProse: bool)

  /** What follows a line that is already as a reflow would leave it. */
  function Next(style: Style, m: Mode, line: string): Option<Mode> {
    var s := Strip(style, line);
    if FENCE <= s then Some(Mode(!m.inCode, false))
    else if m.inCode then Some(Mode(true, false))
    else if s == "" then if line == "" then Some(Mode(false, false)) else None
    else if style.structural(s) then Some(Mode(false, false))
    else if m.afterProse || line != s then None
    else Some(Mode(false, true))
  }

  /** Lines are settled when no blank line holds white space, prose is stripped, and no two prose
      lines are adjacent. */
  function Settled(style: Style, lines: seq<string>): Option<Mode> {
    if lines == [] then Some(Mode(false, false)) else
    var m :- Settled(style, lines[..|lines| - 1]);
    Next(style, m, lines[|lines| - 1])
  }

  lemma SettledAppend(style: Style, lines: seq<string>, line: string)
    ensures Settled(style, lines + [line])
         == if Settled(style, lines).None? then None else Next(style, Settled(style, lines).value, line)
  {
    assert (lines + [line])[..|lines|] == lines;
  }

  predicate NoBreaks(lines: seq<string>) {
    forall l :: l in lines ==> '\n' !in l
  }

  lemma SettledFlush(style: Style, st: State)
    requires Settled(style, st.out) == Some(Mode(st.inCode, false)) && NoBreaks(st.out)
    requires forall p :: p in st.para ==> Piece(style, p)
    requires st.para != [] ==> !st.inCode
    ensures Settled(style, Flush(st).out).Some? && Settled(style, Flush(st).out).value.inCode == st.inCode
    ensures NoBreaks(Flush(st).out)
  {
    hide Settled, Strip;
    if st.para != [] {
      JoinedPiece(style, st.para);
      var p := Join(st.para, " ");
      StripFixed(style, p);
      SettledAppend(style, st.out, p);
    }
  }

  /** What a run has put out so far is settled, and what it holds back are pieces of one paragraph. */
  lemma {:induction false} RunSettles(style: Style, lines: seq<string>)
    requires NoBreaks(lines)
    ensures var st := Run(style, lines);
      && Settled(style, st.out) == Some(Mode(st.inCode, false)) && NoBreaks(st.out)
      && (forall p :: p in st.para ==> Piece(style, p))
      && (st.para != [] ==> !st.inCode)
    decreases |lines|
  {
    hide Settled, Strip, Flush;
    if lines == [] {
      NothingSettled(style);
    } else {
      var init, line := lines[..|lines| - 1], lines[|lines| - 1];
      RunSettles(style, init);
      var st := Run(style, init);
      SettledFlush(style, st);
      FlushEmpties(st);
      assert line in lines;
      StripLaws(style, line);
      StripEmpty(style);
      SettledAppend(style, Flush(st).out, line);
      SettledAppend(style, Flush(st).out, "");
      SettledAppend(style, st.out, line);
    }
  }

  lemma NothingSettled(style: Style)
    ensures Settled(style, []) == Some(Mode(false, false))
  {
  }

  lemma FlushEmpties(st: State)
    ensures Flush(st).para == [] && Flush(st).inCode == st.inCode
  {
  }

  lemma StripEmpty(style: Style)
    ensures Strip(style, "") == ""
  {
  }

  /** The output of a reflow is settled. */
  lemma OutLinesSettled(style: Style, lines: seq<string>)
    requires NoBreaks(lines)
    ensures Settled(style, OutLines(style, lines)).Some? && NoBreaks(OutLines(style, lines))
  {
    hide Settled, Strip, Run, Flush;
    RunSettles(style, lines);
    SettledFlush(style, Run(style, lines));
  }

  /** A settled line goes through the machine unchanged. */
  lemma SettledStep(style: Style, lines: seq<string>, st: State, m: Mode, line: string)
    requires Flush(st).out == lines && st.inCode == m.inCode && (m.afterProse ==> lines != [] && !m.inCode)
    requires st.para == if m.afterProse then [lines[|lines| - 1]] else []
    requires Next(style, m, line).Some?
    ensures var st', m' := Step(style, st, line), Next(style, m, line).value;
      && Flush(st').out == lines + [line] && st'.inCode == m'.inCode
      && (m'.afterProse ==> !m'.inCode) && st'.para == if m'.afterProse then [line] else []
  {
    hide Strip;
    assert Join([line], " ") == line;
    assert [] + [line] == [line];
    hide Join;
  }

  /** Settled lines are left alone. */
  lemma {:induction false} SettledIsFixed(style: Style, lines: seq<string>)
    requires Settled(style, lines).Some?
    ensures var st := Run(style, lines);
      && Flush(st).out == lines && st.inCode == Settled(style, lines).value.inCode
      && (Settled(style, lines).value.afterProse ==> lines != [] && !st.inCode)
      && st.para == if Settled(style, lines).value.afterProse then [lines[|lines| - 1]] else []
    decreases |lines|
  {
    hide Strip, Join;
    if lines != [] {
      var init, line := lines[..|lines| - 1], lines[|lines| - 1];
      SettledIsFixed(style, init);
      assert lines == init + [line];
      hide Flush, Step, Next;
      SettledStep(style, init, Run(style, init), Settled(style, init).value, line);
    }
  }

  // ---- text and lines ----

  function TrimEnd(lines: seq<string>): seq<string> {
    if lines != [] && lines[|lines| - 1] == "" then TrimEnd(lines[..|lines| - 1]) else lines
  }

  lemma {:induction false} JoinAppend(lines: seq<string>, line: string, sep: string)
    ensures Join(lines + [line], sep) == if lines == [] then line else Join(lines, sep) + sep + line
    decreases |lines|
  {
    if |lines| == 1 {
      assert (lines + [line])[1..] == [line];
    } else if lines != [] {
      assert (lines + [line])[1..] == lines[1..] + [line];
      JoinAppend(lines[1..], line, sep);
      assert lines[0] + sep + (Join(lines[1..], sep) + sep + line) == Join(lines, sep) + sep + line;
    }
  }

  lemma {:induction false} RStripJoined(lines: seq<string>)
    requires NoBreaks(lines)
    ensures RStrip(Join(lines, "\n")) == Join(TrimEnd(lines), "\n")
    decreases |lines|
  {
    if lines != [] {
      var init, last := lines[..|lines| - 1], lines[|lines| - 1];
      assert lines == init + [last];
      JoinAppend(init, last, "\n");
      if last == "" {
        RStripJoined(init);
        if init != [] {
          assert Join(lines, "\n")[..|Join(init, "\n")|] == Join(init, "\n");
        }
      } else {
        var text := Join(lines, "\n");
        assert text[|text| - 1] == last[|last| - 1];
        assert last in lines;
      }
    }
  }

  lemma {:induction false} SettledPrefix(style: Style, lines: seq<string>)
    requires Settled(style, lines).Some?
    ensures Settled(style, TrimEnd(lines)).Some? && (forall l :: l in TrimEnd(lines) ==> l in lines)
    ensures TrimEnd(TrimEnd(lines)) == TrimEnd(lines)
    ensures TrimEnd(lines) == [] || TrimEnd(lines)[|TrimEnd(lines)| - 1] != ""
    decreases |lines|
  {
    hide Next;
    if lines != [] && lines[|lines| - 1] == "" {
      SettledPrefix(style, lines[..|lines| - 1]);
    }
  }

  /** The lines of a text that ends with a line break. */
  function Terminated(lines: seq<string>): seq<string> {
    (if lines == [] then [""] else lines) + [""]
  }

  lemma TerminatedLines(lines: seq<string>)
    requires NoBreaks(lines)
    ensures Split(Join(lines, "\n") + "\n", '\n') == Terminated(lines)
  {
    var all := Terminated(lines);
    JoinAppend(all[..|all| - 1], "", "\n");
    assert all == all[..|all| - 1] + [""];
    assert Join([""], "\n") == "" == Join([], "\n");
    assert Join(lines, "\n") + "\n" == Join(all, "\n");
    assert "\n" == ['\n'];
    SplitJoined(all, '\n');
  }

  lemma {:induction false} SplitNoBreaks(s: string)
    ensures NoBreaks(Split(s, '\n'))
  {
    if s != "" {
      SplitNoBreaks(s[1..]);
      var rest := Split(s[1..], '\n');
      assert rest[0] in rest;
    }
  }

  /** A reflowed text's lines: the output lines without trailing empty ones, then the final break. */
  lemma ReflowedLines(style: Style, markdown: string)
    ensures var out := TrimEnd(OutLines(style, Split(markdown, '\n')));
      && Reflowed(style, markdown) == Join(out, "\n") + "\n"
      && Split(Reflowed(style, markdown), '\n') == Terminated(out)
      && Settled(style, out).Some? && TrimEnd(out) == out && NoBreaks(out)
  {
    hide Settled, OutLines, TrimEnd, Split, Join;
    var lines := Split(markdown, '\n');
    SplitNoBreaks(markdown);
    OutLinesSettled(style, lines);
    var out := OutLines(style, lines);
    RStripJoined(out);
    SettledPrefix(style, out);
    TerminatedLines(TrimEnd(out));
  }

  /** Reflow is idempotent. */
  lemma ReflowIdempotent(style: Style, markdown: string)
    ensures Reflowed(style, Reflowed(style, markdown)) == Reflowed(style, markdown)
  {
    ReflowedLines(style, markdown);
    var out := TrimEnd(OutLines(style, Split(markdown, '\n')));
    var again := Terminated(out);
    SettledTerminated(style, out);
    SettledIsFixed(style, again);
    TrimTerminated(out);
    ReflowedLines(style, Reflowed(style, markdown));
  }

  lemma SettledTerminated(style: Style, out: seq<string>)
    requires Settled(style, out).Some?
    ensures Settled(style, Terminated(out)).Some?
  {
    hide Settled;
    StripEmpty(style);
    SettledAppend(style, out, "");
    NothingSettled(style);
    SettledAppend(style, [], "");
    SettledAppend(style, [""], "");
    assert [] + [""] == [""];
  }

  lemma TrimTerminated(out: seq<string>)
    requires TrimEnd(out) == out
    ensures TrimEnd(Terminated(out)) == out
  {
    var all := Terminated(out);
    assert all[..|all| - 1] == if out == [] then [""] else out;
    assert [""][..0] == [];
  }

  // ---- tokens ----

  /** The maximal runs of non-space characters, in order. */
  function Tokens(style: Style, s: string): (r: seq<string>)
    ensures s != "" && !style.space(s[0]) ==> r != []
  {
    if s == "" then []
    else
      var rest := Tokens(style, s[1..]);
      if style.space(s[0]) then rest
      else if |s| == 1 || style.space(s[1]) then [[s[0]]] + rest
      else [[s[0]] + rest[0]] + rest[1..]
  }

  lemma {:induction false} TokensSplit(style: Style, a: string, c: char, b: string)
    requires style.space(c)
    ensures Tokens(style, a + [c] + b) == Tokens(style, a) + Tokens(style, b)
    decreases |a|
  {
    var s := a + [c] + b;
    if a == "" {
      assert s[1..] == b;
    } else {
      assert s[1..] == a[1..] + [c] + b;
      TokensSplit(style, a[1..], c, b);
      if |a| > 1 {
        assert s[1] == a[1];
      } else {
        assert s[1] == c;
      }
    }
  }

  lemma {:induction false} TokensStrip(style: Style, s: string)
    ensures Tokens(style, Strip(style, s)) == Tokens(style, s)
    decreases |s|
  {
    if s != "" && style.space(s[0]) {
      TokensStrip(style, s[1..]);
    } else if s != "" && style.space(s[|s| - 1]) {
      var init := s[..|s| - 1];
      TokensStrip(style, init);
      TokensSplit(style, init, s[|s| - 1], "");
      assert s == init + [s[|s| - 1]] + "";
    }
  }

  /** The tokens of all lines. */
  function LineTokens(style: Style, lines: seq<string>): seq<string> {
    if lines == [] then []
    else LineTokens(style, lines[..|lines| - 1]) + Tokens(style, lines[|lines| - 1])
  }

  lemma LineTokensAppend(style: Style, lines: seq<string>, line: string)
    ensures LineTokens(style, lines + [line]) == LineTokens(style, lines) + Tokens(style, line)
  {
    assert (lines + [line])[..|lines|] == lines;
  }

  lemma {:induction false} JoinTokens(style: Style, lines: seq<string>, sep: char)
    requires style.space(sep)
    ensures Tokens(style, Join(lines, [sep])) == LineTokens(style, lines)
    decreases |lines|
  {
    if lines != [] {
      var init, last := lines[..|lines| - 1], lines[|lines| - 1];
      assert lines == init + [last];
      JoinTokens(style, init, sep);
      JoinAppend(init, last, [sep]);
      TokensSplit(style, Join(init, [sep]), sep, last);
    }
  }

  lemma FlushTokens(style: Style, st: State)
    requires Proper(style)
    ensures LineTokens(style, Flush(st).out) == LineTokens(style, st.out) + LineTokens(style, st.para)
  {
    if st.para != [] {
      assert " " == [' '];
      JoinTokens(style, st.para, ' ');
      LineTokensAppend(style, st.out, Join(st.para, " "));
    }
  }

  /** The tokens a state holds: put out and held back. */
  function Held(style: Style, st: State): seq<string> {
    LineTokens(style, st.out) + LineTokens(style, st.para)
  }

  lemma HeldFlush(style: Style, st: State)
    requires Proper(style)
    ensures Held(style, Flush(st)) == Held(style, st) && Flush(st).para == [] && Flush(st).inCode == st.inCode
  {
    FlushTokens(style, st);
    hide Tokens;
  }

  lemma HeldOut(style: Style, st: State, line: string, inCode: bool)
    requires st.para == []
    ensures Held(style, State(st.out + [line], st.para, inCode)) == Held(style, st) + Tokens(style, line)
  {
    LineTokensAppend(style, st.out, line);
    hide Tokens;
  }

  lemma HeldPara(style: Style, st: State, piece: string)
    ensures Held(style, st.(para := st.para + [piece])) == Held(style, st) + Tokens(style, piece)
  {
    LineTokensAppend(style, st.para, piece);
    hide Tokens, LineTokens;
  }

  lemma StepTokens(style: Style, st: State, line: string)
    requires Proper(style) && (st.inCode ==> st.para == [])
    ensures var next := Step(style, st, line);
      Held(style, next) == Held(style, st) + Tokens(style, line) && (next.inCode ==> next.para == [])
  {
    var s := Strip(style, line);
    TokensStrip(style, line);
    NoTokens(style);
    HeldFlush(style, st);
    hide Tokens, Strip, Flush, Held, Proper;
    if FENCE <= s {
      HeldOut(style, Flush(st), line, !st.inCode);
    } else if st.inCode {
      HeldOut(style, st, line, true);
    } else if s == "" {
      HeldOut(style, Flush(st), "", false);
    } else if style.structural(s) {
      HeldOut(style, Flush(st), line, false);
    } else {
      HeldPara(style, st, s);
    }
  }

  lemma {:induction false} RunTokens(style: Style, lines: seq<string>)
    requires Proper(style)
    ensures var st := Run(style, lines);
      Held(style, st) == LineTokens(style, lines) && (st.inCode ==> st.para == [])
    decreases |lines|
  {
    hide Tokens, Step, Proper;
    if lines != [] {
      RunTokens(style, lines[..|lines| - 1]);
      StepTokens(style, Run(style, lines[..|lines| - 1]), lines[|lines| - 1]);
    }
  }

  lemma OutLinesAre(style: Style, lines: seq<string>)
    ensures OutLines(style, lines) == Flush(Run(style, lines)).out
  {
  }

  lemma NoTokens(style: Style)
    ensures Tokens(style, "") == []
  {
  }

  lemma {:induction false} RStripTokens(style: Style, s: string)
    requires style.space('\n')
    ensures Tokens(style, RStrip(s)) == Tokens(style, s)
    decreases |s|
  {
    if s != "" && s[|s| - 1] == '\n' {
      var init := s[..|s| - 1];
      RStripTokens(style, init);
      TokensSplit(style, init, '\n', "");
      assert s == init + ['\n'] + "";
    }
  }

  /** Reflow conserves the white-space separated tokens of the text. */
  lemma ReflowConservesTokens(style: Style, markdown: string)
    requires Proper(style)
    ensures Tokens(style, Reflowed(style, markdown)) == Tokens(style, markdown)
  {
    hide Tokens, OutLines, Split, Join, RStrip;
    var lines := Split(markdown, '\n');
    var out := OutLines(style, lines);
    var text := Join(out, "\n");
    NoTokens(style);
    RunTokens(style, lines);
    FlushTokens(style, Run(style, lines));
    OutLinesAre(style, lines);
    assert "\n" == ['\n'];
    JoinTokens(style, out, '\n');
    RStripTokens(style, text);
    TokensSplit(style, RStrip(text), '\n', "");
    assert RStrip(text) + ['\n'] + "" == RStrip(text) + "\n";
    JoinSplit(markdown, '\n');
    JoinTokens(style, lines, '\n');
  }

  lemma {:induction false} JoinSplit(s: string, sep: char)
    ensures Join(Split(s, sep), [sep]) == s
    decreases |s|
  {
    if s != "" {
      JoinSplit(s[1..], sep);
      var rest := Split(s[1..], sep);
      if s[0] == sep {
        assert ([""] + rest)[1..] == rest;
      } else {
        var all := [[s[0]] + rest[0]] + rest[1..];
        assert all[1..] == rest[1..];
        var tail := Join(rest[1..], [sep]);
        assert |rest| > 1 ==> [s[0]] + (rest[0] + [sep] + tail) == ([s[0]] + rest[0]) + [sep] + tail;
      }
    }
  }

  // ---- code blocks ----

  datatype Code = Code(lines: seq<string>, inCode: bool)

  /** The fence lines and the lines between them. */
  function CodeOf(style: Style, lines: seq<string>): Code {
    if lines == [] then Code([], false) else
    var c := CodeOf(style, lines[..|lines| - 1]);
    var line := lines[|lines| - 1];
    if FENCE <= Strip(style, line) then Code(c.lines + [line], !c.inCode)
    else if c.inCode then Code(c.lines + [line], true)
    else c
  }

  lemma CodeAppend(style: Style, lines: seq<string>, line: string)
    ensures CodeOf(style, lines + [line])
         == var c := CodeOf(style, lines);
            if FENCE <= Strip(style, line) then Code(c.lines + [line], !c.inCode)
            else if c.inCode then Code(c.lines + [line], true)
            else c
  {
    assert (lines + [line])[..|lines|] == lines;
  }

  lemma FlushCode(style: Style, st: State)
    requires (forall p :: p in st.para ==> Piece(style, p)) && (st.para != [] ==> !CodeOf(style, st.out).inCode)
    ensures CodeOf(style, Flush(st).out) == CodeOf(style, st.out)
  {
    hide Strip, CodeOf;
    if st.para != [] {
      JoinedPiece(style, st.para);
      StripFixed(style, Join(st.para, " "));
      CodeAppend(style, st.out, Join(st.para, " "));
    }
  }

  lemma StepKeepsCode(style: Style, st: State, lines: seq<string>, line: string)
    requires CodeOf(style, st.out) == CodeOf(style, lines) && CodeOf(style, lines).inCode == st.inCode
    requires CodeOf(style, Flush(st).out) == CodeOf(style, st.out)
    ensures var next := Step(style, st, line);
      CodeOf(style, next.out) == CodeOf(style, lines + [line])
      && CodeOf(style, lines + [line]).inCode == next.inCode
  {
    FlushEmpties(st);
    StripEmpty(style);
    hide Strip, CodeOf, Flush;
    CodeAppend(style, lines, line);
    CodeAppend(style, Flush(st).out, line);
    CodeAppend(style, Flush(st).out, "");
    CodeAppend(style, st.out, line);
  }

  lemma {:induction false} RunKeepsCode(style: Style, lines: seq<string>)
    requires NoBreaks(lines)
    ensures CodeOf(style, Run(style, lines).out) == CodeOf(style, lines)
    ensures CodeOf(style, lines).inCode == Run(style, lines).inCode
    decreases |lines|
  {
    hide Strip, Settled, Step, Flush;
    if lines != [] {
      var init, line := lines[..|lines| - 1], lines[|lines| - 1];
      assert lines == init + [line];
      RunKeepsCode(style, init);
      RunSettles(style, init);
      var st := Run(style, init);
      FlushCode(style, st);
      StepKeepsCode(style, st, init, line);
    }
  }

  lemma {:induction false} TrimEndCode(style: Style, lines: seq<string>)
    ensures TrimEnd(CodeOf(style, TrimEnd(lines)).lines) == TrimEnd(CodeOf(style, lines).lines)
    decreases |lines|
  {
    if lines != [] && lines[|lines| - 1] == "" {
      var init := lines[..|lines| - 1];
      TrimEndCode(style, init);
      var c := CodeOf(style, init);
      assert (c.lines + [""])[..|c.lines|] == c.lines;
    }
  }

  /** Fences and the lines inside them are kept verbatim, up to empty lines at the end of the text. */
  lemma ReflowKeepsCode(style: Style, markdown: string)
    ensures TrimEnd(CodeOf(style, Split(Reflowed(style, markdown), '\n')).lines)
         == TrimEnd(CodeOf(style, Split(markdown, '\n')).lines)
  {
    hide CodeOf, Split, Settled, Run, Join;
    var lines := Split(markdown, '\n');
    SplitNoBreaks(markdown);
    ReflowedLines(style, markdown);
    RunKeepsCode(style, lines);
    RunSettles(style, lines);
    FlushCode(style, Run(style, lines));
    var out := OutLines(style, lines);
    TrimEndCode(style, out);
    TrimTerminated(TrimEnd(out));
    TrimEndCode(style, Terminated(TrimEnd(out)));
  }

  // ---- paragraphs ----

  /** Line `i` is prose: outside code blocks, and neither a fence nor blank nor structure. */
  predicate IsProse(style: Style, lines: seq<string>, i: nat)
    requires i < |lines|
  {
    var s := Strip(style, lines[i]);
    !CodeOf(style, lines[..i]).inCode && !(FENCE <= s) && s != "" && !style.structural(s)
  }

  lemma {:induction false} SettledMode(style: Style, lines: seq<string>)
    requires Settled(style, lines).Some?
    ensures Settled(style, lines).value.inCode == CodeOf(style, lines).inCode
    decreases |lines|
  {
    hide Strip;
    if lines != [] {
      SettledMode(style, lines[..|lines| - 1]);
    }
  }

  lemma {:induction false} SettledTake(style: Style, lines: seq<string>, n: nat)
    requires Settled(style, lines).Some? && n <= |lines|
    ensures Settled(style, lines[..n]).Some?
    decreases |lines|
  {
    hide Next;
    if n < |lines| {
      assert lines[..|lines| - 1][..n] == lines[..n];
      SettledTake(style, lines[..|lines| - 1], n);
    } else {
      assert lines[..n] == lines;
    }
  }

  lemma SettledProse(style: Style, lines: seq<string>, i: nat)
    requires Settled(style, lines).Some? && i < |lines| && IsProse(style, lines, i)
    ensures Settled(style, lines[..i + 1]) == Some(Mode(false, true)) && Strip(style, lines[i]) == lines[i]
  {
    SettledTake(style, lines, i);
    SettledTake(style, lines, i + 1);
    SettledMode(style, lines[..i]);
    hide Settled, Strip, CodeOf;
    assert lines[..i + 1] == lines[..i] + [lines[i]];
    SettledAppend(style, lines[..i], lines[i]);
  }

  lemma NothingJoins(style: Style, lines: seq<string>, i: nat)
    requires Settled(style, lines).Some? && i < |lines| && Settled(style, lines[..i]) == Some(Mode(false, true))
    ensures !IsProse(style, lines, i)
  {
    SettledTake(style, lines, i + 1);
    hide Settled, Strip, CodeOf;
    assert lines[..i + 1] == lines[..i] + [lines[i]];
    SettledAppend(style, lines[..i], lines[i]);
  }

  /** In every reflowed text each prose line is stripped and stands alone: no prose line follows it, so a
      paragraph is one line. */
  lemma ParagraphsAreSingleLines(style: Style, markdown: string, i: nat)
    requires i < |Split(Reflowed(style, markdown), '\n')|
    ensures var lines := Split(Reflowed(style, markdown), '\n');
      IsProse(style, lines, i) ==>
        && Strip(style, lines[i]) == lines[i]
        && (i + 1 < |lines| ==> !IsProse(style, lines, i + 1))
  {
    hide Settled, Strip, CodeOf, Split, Reflowed;
    ReflowedLines(style, markdown);
    SettledTerminated(style, TrimEnd(OutLines(style, Split(markdown, '\n'))));
    var lines := Split(Reflowed(style, markdown), '\n');
    if IsProse(style, lines, i) {
      SettledProse(style, lines, i);
      if i + 1 < |lines| {
        NothingJoins(style, lines, i + 1);
      }
    }
  }
}
