/** The panel's line wrapper, wrapText (ui.go:31-64): characters are laid
    out on a line of fixed-width cells and a line is broken before the
    character that would overflow it, or at an explicit newline.

    The font metric comes from a library: `measured` is the width it
    reports for "0". */
module Wrap {

  /** The width used when the measured width is 0 (ui.go:37-40). */
  const FallbackCharWidth := 7

  function EffectiveCharWidth(measured: nat): (cw: int)
    ensures cw > 0
    ensures measured > 0 ==> cw == measured
    ensures measured == 0 ==> cw == FallbackCharWidth
  {
    if measured == 0 then FallbackCharWidth else measured
  }

  /** The lines emitted so far, the line being filled and its width. */
  datatype WrapState = WrapState(lines: seq<string>, current: string, width: int)

  /** The state before the first character. */
  function Initial(): WrapState {
    WrapState([], "", 0)
  }

  /** One character of the loop. A newline emits the current line. A
      character that would overflow emits the current line and starts a
      new one with it; the code as written does so even when the current
      line is still empty, the `corrected` loop only for a non-empty one. */
  function Feed(st: WrapState, ch: char, maxWidth: int, cw: int, corrected: bool): WrapState {
    if ch == '\n' then WrapState(st.lines + [st.current], "", 0)
    else if st.width + cw > maxWidth && (!corrected || st.current != "") then
      WrapState(st.lines + [st.current], [ch], cw)
    else WrapState(st.lines, st.current + [ch], st.width + cw)
  }

  /** The loop over the characters of `s`. */
  function FeedAll(s: string, maxWidth: int, cw: int, corrected: bool): WrapState
    decreases |s|
  {
    if |s| == 0 then Initial()
    else Feed(FeedAll(s[..|s| - 1], maxWidth, cw, corrected), s[|s| - 1], maxWidth, cw, corrected)
  }

  /** After the loop: the last line is emitted only when it is not empty. */
  function Close(st: WrapState): seq<string> {
    if |st.current| > 0 then st.lines + [st.current] else st.lines
  }

  /** The lines of the code as written (`corrected` false) or of the
      corrected wrapper. */
  function WrapLines(s: string, maxWidth: int, cw: int, corrected: bool): seq<string> {
    Close(FeedAll(s, maxWidth, cw, corrected))
  }

  function Flatten(ls: seq<string>): string
    decreases |ls|
  {
    if |ls| == 0 then [] else Flatten(ls[..|ls| - 1]) + ls[|ls| - 1]
  }

  function DropNewlines(s: string): string
    decreases |s|
  {
    if |s| == 0 then []
    else DropNewlines(s[..|s| - 1]) + (if s[|s| - 1] == '\n' then [] else [s[|s| - 1]])
  }

  function NewlineCount(s: string): nat
    decreases |s|
  {
    if |s| == 0 then 0
    else NewlineCount(s[..|s| - 1]) + (if s[|s| - 1] == '\n' then 1 else 0)
  }

  /** A line fits the panel, or holds a single character that cannot. */
  predicate Fits(line: string, maxWidth: int, cw: int) {
    |line| * cw <= maxWidth || |line| <= 1
  }

  /** What holds of the loop state after the characters `consumed`. */
  predicate Good(st: WrapState, consumed: string, maxWidth: int, cw: int) {
    && Flatten(st.lines) + st.current == DropNewlines(consumed)
    && (forall i | 0 <= i < |st.lines| :: '\n' !in st.lines[i])
    && '\n' !in st.current
    && st.width == |st.current| * cw
    && (forall i | 0 <= i < |st.lines| :: Fits(st.lines[i], maxWidth, cw))
    && Fits(st.current, maxWidth, cw)
    && |st.lines| >= NewlineCount(consumed)
    && (|consumed| > 0 && consumed[|consumed| - 1] != '\n' ==> st.current != "")
    && (consumed == [] ==> st == Initial())
  }

  lemma FlattenSnoc(ls: seq<string>, l: string)
    ensures Flatten(ls + [l]) == Flatten(ls) + l
  {
    assert (ls + [l])[..|ls|] == ls;
  }

  lemma FeedGood(st: WrapState, consumed: string, ch: char, maxWidth: int, cw: int, corrected: bool)
    requires cw > 0 && Good(st, consumed, maxWidth, cw)
    ensures Good(Feed(st, ch, maxWidth, cw, corrected), consumed + [ch], maxWidth, cw)
  {
    var s := consumed + [ch];
    assert s[..|s| - 1] == consumed;
    var r := Feed(st, ch, maxWidth, cw, corrected);
    if ch == '\n' || (st.width + cw > maxWidth && (!corrected || st.current != "")) {
      FlattenSnoc(st.lines, st.current);
    } else {
      assert |r.current| * cw == |st.current| * cw + cw;
    }
  }

  /** The loop keeps `Good` whichever overflow test it uses. */
  lemma {:induction false} FeedAllGood(s: string, maxWidth: int, cw: int, corrected: bool)
    requires cw > 0
    ensures Good(FeedAll(s, maxWidth, cw, corrected), s, maxWidth, cw)
    decreases |s|
  {
    if |s| > 0 {
      var init := s[..|s| - 1];
      FeedAllGood(init, maxWidth, cw, corrected);
      FeedGood(FeedAll(init, maxWidth, cw, corrected), init, s[|s| - 1], maxWidth, cw, corrected);
      assert init + [s[|s| - 1]] == s;
    }
  }

  /** A newline ends the line being filled, empty or not, and the loop
      then starts afresh: on `a`, a newline and `b` the state is the lines
      of `a`, the line the newline ended, and the state of the loop on `b`
      alone. */
  lemma {:induction false} NewlineEndsLine(a: string, b: string, maxWidth: int, cw: int, corrected: bool)
    ensures var sa := FeedAll(a, maxWidth, cw, corrected);
      var sb := FeedAll(b, maxWidth, cw, corrected);
      FeedAll(a + ['\n'] + b, maxWidth, cw, corrected) ==
        WrapState(sa.lines + [sa.current] + sb.lines, sb.current, sb.width)
    decreases |b|
  {
    var s := a + ['\n'] + b;
    if |b| == 0 {
      assert s[..|s| - 1] == a;
    } else {
      var init := b[..|b| - 1];
      NewlineEndsLine(a, init, maxWidth, cw, corrected);
      assert s[..|s| - 1] == a + ['\n'] + init;
      var sa := FeedAll(a, maxWidth, cw, corrected);
      var si := FeedAll(init, maxWidth, cw, corrected);
      assert sa.lines + [sa.current] + si.lines + [si.current] == sa.lines + [sa.current] + (si.lines + [si.current]);
    }
  }

  /** The wrapped lines of `a`, a newline and `b` are the lines of `a`, the
      line the newline ended (possibly empty), then the lines of `b`. */
  lemma WrapLinesAtNewline(a: string, b: string, maxWidth: int, cw: int, corrected: bool)
    ensures var sa := FeedAll(a, maxWidth, cw, corrected);
      WrapLines(a + ['\n'] + b, maxWidth, cw, corrected) ==
        sa.lines + [sa.current] + WrapLines(b, maxWidth, cw, corrected)
  {
    NewlineEndsLine(a, b, maxWidth, cw, corrected);
    var sa := FeedAll(a, maxWidth, cw, corrected);
    var sb := FeedAll(b, maxWidth, cw, corrected);
    assert sa.lines + [sa.current] + sb.lines + [sb.current] == sa.lines + [sa.current] + (sb.lines + [sb.current]);
  }

  /** What every wrapper of this kind promises: the lines hold exactly the
      input's characters other than newlines, in order; no line holds a
      newline; every line fits or is a single character; there are at least
      as many lines as newlines (NewlineEndsLine says where they fall); a
      last line without a newline after it is emitted only
      when it is not empty, so no input means no lines. */
  lemma WrapLinesShape(s: string, maxWidth: int, cw: int, corrected: bool)
    requires cw > 0
    ensures var lines := WrapLines(s, maxWidth, cw, corrected);
      && Flatten(lines) == DropNewlines(s)
      && (forall i | 0 <= i < |lines| :: '\n' !in lines[i])
      && (forall i | 0 <= i < |lines| :: Fits(lines[i], maxWidth, cw))
      && |lines| >= NewlineCount(s)
      && (|s| > 0 && s[|s| - 1] != '\n' ==> |lines| > 0 && lines[|lines| - 1] != "")
      && (s == [] ==> lines == [])
  {
    var st := FeedAll(s, maxWidth, cw, corrected);
    FeedAllGood(s, maxWidth, cw, corrected);
    if |st.current| > 0 {
      FlattenSnoc(st.lines, st.current);
    } else {
      assert Flatten(st.lines) + st.current == Flatten(st.lines);
    }
  }

  /** wrapText as written. */
  method WrapText(input: string, maxWidth: int, measured: nat) returns (lines: seq<string>)
    ensures lines == WrapLines(input, maxWidth, EffectiveCharWidth(measured), false)
    ensures Flatten(lines) == DropNewlines(input)
    ensures forall i | 0 <= i < |lines| :: '\n' !in lines[i]
    ensures forall i | 0 <= i < |lines| :: Fits(lines[i], maxWidth, EffectiveCharWidth(measured))
    ensures |lines| >= NewlineCount(input)
    ensures input == [] ==> lines == []
  {
    var charWidth := measured;
    if charWidth == 0 {
      charWidth := FallbackCharWidth;
    }
    lines := [];
    var currentLine: string := "";
    var currentLineWidth := 0;
    var i := 0;
    while i < |input|
      invariant 0 <= i <= |input|
      invariant WrapState(lines, currentLine, currentLineWidth) == FeedAll(input[..i], maxWidth, charWidth, false)
    {
      var r := input[i];
      assert input[..i + 1][..i] == input[..i];
      if r == '\n' {
        lines := lines + [currentLine];
        currentLine := "";
        currentLineWidth := 0;
      } else if currentLineWidth + charWidth > maxWidth {
        lines := lines + [currentLine];
        currentLine := [r];
        currentLineWidth := charWidth;
      } else {
        currentLine := currentLine + [r];
        currentLineWidth := currentLineWidth + charWidth;
      }
      i := i + 1;
    }
    if |currentLine| > 0 {
      lines := lines + [currentLine];
    }
    assert input[..|input|] == input;
    WrapLinesShape(input, maxWidth, charWidth, false);
  }

  /** wrapText with the overflow test corrected to break only a non-empty
      line: a character wider than the panel then sits alone on its line
      instead of after an empty one. */
  method WrapTextCorrected(input: string, maxWidth: int, measured: nat) returns (lines: seq<string>)
    ensures lines == WrapLines(input, maxWidth, EffectiveCharWidth(measured), true)
    ensures Flatten(lines) == DropNewlines(input)
    ensures forall i | 0 <= i < |lines| :: '\n' !in lines[i]
    ensures forall i | 0 <= i < |lines| :: Fits(lines[i], maxWidth, EffectiveCharWidth(measured))
    ensures |lines| >= NewlineCount(input)
    ensures input == [] ==> lines == []
    ensures '\n' !in input ==> forall i | 0 <= i < |lines| :: lines[i] != ""
  {
    var charWidth := EffectiveCharWidth(measured);
    lines := [];
    var currentLine: string := "";
    var currentLineWidth := 0;
    var i := 0;
    while i < |input|
      invariant 0 <= i <= |input|
      invariant WrapState(lines, currentLine, currentLineWidth) == FeedAll(input[..i], maxWidth, charWidth, true)
    {
      var r := input[i];
      assert input[..i + 1][..i] == input[..i];
      if r == '\n' {
        lines := lines + [currentLine];
        currentLine := "";
        currentLineWidth := 0;
      } else if currentLineWidth + charWidth > maxWidth && |currentLine| > 0 {
        lines := lines + [currentLine];
        currentLine := [r];
        currentLineWidth := charWidth;
      } else {
        currentLine := currentLine + [r];
        currentLineWidth := currentLineWidth + charWidth;
      }
      i := i + 1;
    }
    if |currentLine| > 0 {
      lines := lines + [currentLine];
    }
    assert input[..|input|] == input;
    WrapLinesShape(input, maxWidth, charWidth, true);
    if '\n' !in input {
      CorrectedNoEmptyLines(input, maxWidth, charWidth);
    }
  }

  /** The input cut at its newlines: "a\nb" gives "a" and "b", "a\n" gives
      "a" and "". */
  function Segments(s: string): (segs: seq<string>)
    ensures |segs| > 0
    decreases |s|
  {
    if |s| == 0 then [""]
    else
      var segs := Segments(s[..|s| - 1]);
      if s[|s| - 1] == '\n' then segs + [""]
      else segs[..|segs| - 1] + [segs[|segs| - 1] + [s[|s| - 1]]]
  }

  /** All the segments of `s` fit on a line. */
  predicate AllSegmentsFit(s: string, maxWidth: int, cw: int) {
    forall i | 0 <= i < |Segments(s)| :: |Segments(s)[i]| * cw <= maxWidth
  }

  lemma MulStep(k: int, cw: int)
    requires cw > 0
    ensures (k + 1) * cw == k * cw + cw
  {
  }

  /** Dropping the last character keeps every segment fitting. */
  lemma AllSegmentsFitPrefix(s: string, maxWidth: int, cw: int)
    requires cw > 0 && |s| > 0 && AllSegmentsFit(s, maxWidth, cw)
    ensures AllSegmentsFit(s[..|s| - 1], maxWidth, cw)
  {
    var segs0 := Segments(s[..|s| - 1]);
    var segs := Segments(s);
    var n := |segs0|;
    forall i | 0 <= i < n
      ensures |segs0[i]| * cw <= maxWidth
    {
      assert |segs[i]| * cw <= maxWidth;
      if s[|s| - 1] != '\n' && i == n - 1 {
        MulStep(|segs0[i]|, cw);
      }
    }
  }

  /** When every newline-separated segment fits, the wrapper only breaks at
      newlines: its lines are the segments, less an empty last one. */
  lemma {:induction false} SplitWhenAllFit(s: string, maxWidth: int, cw: int, corrected: bool)
    requires cw > 0 && AllSegmentsFit(s, maxWidth, cw)
    ensures var segs := Segments(s);
      FeedAll(s, maxWidth, cw, corrected) ==
        WrapState(segs[..|segs| - 1], segs[|segs| - 1], |segs[|segs| - 1]| * cw)
    decreases |s|
  {
    if |s| > 0 {
      var init := s[..|s| - 1];
      AllSegmentsFitPrefix(s, maxWidth, cw);
      SplitWhenAllFit(init, maxWidth, cw, corrected);
      SplitStep(init, s[|s| - 1], s, maxWidth, cw, corrected);
    }
  }

  /** One character of the induction: the state after `init` is the
      segments of `init`, so the state after `s` is the segments of `s`. */
  lemma SplitStep(init: string, ch: char, s: string, maxWidth: int, cw: int, corrected: bool)
    requires cw > 0 && |s| > 0 && init == s[..|s| - 1] && ch == s[|s| - 1]
    requires AllSegmentsFit(s, maxWidth, cw)
    requires var segs0 := Segments(init);
      FeedAll(init, maxWidth, cw, corrected) ==
        WrapState(segs0[..|segs0| - 1], segs0[|segs0| - 1], |segs0[|segs0| - 1]| * cw)
    ensures var segs := Segments(s);
      FeedAll(s, maxWidth, cw, corrected) ==
        WrapState(segs[..|segs| - 1], segs[|segs| - 1], |segs[|segs| - 1]| * cw)
  {
    var segs0 := Segments(init);
    var n := |segs0|;
    var st := FeedAll(init, maxWidth, cw, corrected);
    assert FeedAll(s, maxWidth, cw, corrected) == Feed(st, ch, maxWidth, cw, corrected);
    if ch == '\n' {
      assert Segments(s) == segs0 + [""];
      SegmentsNewline(segs0);
    } else {
      var segs := Segments(s);
      assert segs == segs0[..n - 1] + [segs0[n - 1] + [ch]];
      assert |segs| == n && segs[n - 1] == segs0[n - 1] + [ch];
      assert |segs[n - 1]| * cw <= maxWidth;
      SegmentsChar(st, segs0, ch, maxWidth, cw, corrected);
    }
  }

  lemma SegmentsNewline(segs0: seq<string>)
    requires |segs0| > 0
    ensures var segs := segs0 + [""];
      segs[..|segs| - 1] == segs0[..|segs0| - 1] + [segs0[|segs0| - 1]] && segs[|segs| - 1] == ""
  {
    assert (segs0 + [""])[..|segs0|] == segs0;
  }

  lemma SegmentsChar(st: WrapState, segs0: seq<string>, ch: char, maxWidth: int, cw: int, corrected: bool)
    requires cw > 0 && |segs0| > 0 && ch != '\n'
    requires st == WrapState(segs0[..|segs0| - 1], segs0[|segs0| - 1], |segs0[|segs0| - 1]| * cw)
    requires (|segs0[|segs0| - 1]| + 1) * cw <= maxWidth
    ensures var segs := segs0[..|segs0| - 1] + [segs0[|segs0| - 1] + [ch]];
      Feed(st, ch, maxWidth, cw, corrected) ==
        WrapState(segs[..|segs| - 1], segs[|segs| - 1], |segs[|segs| - 1]| * cw)
  {
    var n := |segs0|;
    MulStep(|segs0[n - 1]|, cw);
    var segs := segs0[..n - 1] + [segs0[n - 1] + [ch]];
    assert segs[..n - 1] == segs0[..n - 1];
  }



  lemma SplitLines(s: string, maxWidth: int, cw: int, corrected: bool)
    requires cw > 0 && AllSegmentsFit(s, maxWidth, cw)
    ensures var segs := Segments(s);
      WrapLines(s, maxWidth, cw, corrected) ==
        if segs[|segs| - 1] == "" then segs[..|segs| - 1] else segs
  {
    SplitWhenAllFit(s, maxWidth, cw, corrected);
  }

  /** The code as written emits an empty line before the first character
      when a single character is wider than the panel: "ab" with 7-pixel
      characters on a 5-pixel line gives "", "a", "b". */
  lemma AsWrittenEmitsEmptyLine()
    ensures '\n' !in "ab"
    ensures WrapLines("ab", 5, 7, false) == ["", "a", "b"]
  {
    assert "ab"[..1] == "a";
    assert "a"[..0] == "";
    assert FeedAll("a", 5, 7, false) == WrapState([""], "a", 7);
    assert FeedAll("ab", 5, 7, false) == WrapState(["", "a"], "b", 7);
  }

  /** The corrected wrapper emits an empty line only for a newline: on an
      input without newlines no line is empty. */
  lemma CorrectedNoEmptyLines(s: string, maxWidth: int, cw: int)
    requires cw > 0 && '\n' !in s
    ensures forall i | 0 <= i < |WrapLines(s, maxWidth, cw, true)| :: WrapLines(s, maxWidth, cw, true)[i] != ""
  {
    CorrectedNoEmptyState(s, maxWidth, cw);
  }

  predicate NoEmptyLine(lines: seq<string>) {
    forall i | 0 <= i < |lines| :: lines[i] != ""
  }

  lemma {:induction false} CorrectedNoEmptyState(s: string, maxWidth: int, cw: int)
    requires cw > 0 && '\n' !in s
    ensures NoEmptyLine(FeedAll(s, maxWidth, cw, true).lines)
    decreases |s|
  {
    if |s| > 0 {
      var init := s[..|s| - 1];
      var ch := s[|s| - 1];
      assert ch in s;
      assert '\n' !in init by {
        forall k | 0 <= k < |init|
          ensures init[k] != '\n'
        {
          assert init[k] == s[k];
        }
      }
      CorrectedNoEmptyState(init, maxWidth, cw);
      var st := FeedAll(init, maxWidth, cw, true);
      var r := Feed(st, ch, maxWidth, cw, true);
      assert r.lines == st.lines || (r.lines == st.lines + [st.current] && st.current != "");
    }
  }
}
