/**
 * What the diff parser guarantees about the diff it returns: the counts it
 * keeps agree with the lines it read, the limits it was given hold, and an
 * incomplete file makes the whole diff incomplete. Also the consequence of
 * the top-level loop reading `line[0]` of an empty line, and the same parser
 * with empty lines skipped.
 */
module DiffParsingFacts {
  import opened Base
  import opened Text
  import opened Diffs
  import opened DiffParsing

  // ---------------------------------------------------------------------------------
  // Sections

  /** The number of lines of type `t`. */
  function CountType(lines: seq<DiffLine>, t: DiffLineType): (n: nat)
    ensures n <= |lines|
  {
    if |lines| == 0 then 0
    else CountType(lines[..|lines| - 1], t) + (if lines[|lines| - 1].Type == t then 1 else 0)
  }

  /** The count of a type is zero exactly when no line has that type, and all the lines exactly when every line has it. */
  lemma {:induction false} CountTypeExtremes(lines: seq<DiffLine>, t: DiffLineType)
    ensures CountType(lines, t) == 0 <==> forall i :: 0 <= i < |lines| ==> lines[i].Type != t
    ensures CountType(lines, t) == |lines| <==> forall i :: 0 <= i < |lines| ==> lines[i].Type == t
    decreases |lines|
  {
    if |lines| > 0 {
      var init := lines[..|lines| - 1];
      CountTypeExtremes(init, t);
      assert forall i :: 0 <= i < |init| ==> init[i] == lines[i];
    }
  }

  /**
   * A body line: its type is the one its first character names, its length in
   * UTF-16 code units is within the limit, and an added (deleted) line has no
   * left (right) number.
   */
  predicate BodyLineOk(maxLineChars: int, l: DiffLine) {
    && IsBodyLine(l.Content)
    && (maxLineChars > 0 ==> Utf16Length(l.Content) <= maxLineChars)
    && (l.Type == DiffLinePlain <==> l.Content[0] == ' ')
    && (l.Type == DiffLineAdd <==> l.Content[0] == '+')
    && (l.Type == DiffLineDelete <==> l.Content[0] == '-')
    && (l.Type == DiffLineAdd ==> l.LeftLine == 0)
    && (l.Type == DiffLineDelete ==> l.RightLine == 0)
  }

  /**
   * A section: the hunk header first, then body lines only, and the addition
   * and deletion counts are the numbers of added and deleted lines.
   */
  predicate SectionOk(maxLineChars: int, sec: DiffSection) {
    && |sec.Lines| > 0
    && sec.Lines[0].Type == DiffLineSection
    && sec.NumAdditions == CountType(sec.Lines, DiffLineAdd)
    && sec.NumDeletions == CountType(sec.Lines, DiffLineDelete)
    && (forall k :: 1 <= k < |sec.Lines| ==> BodyLineOk(maxLineChars, sec.Lines[k]))
  }

  lemma SectionLineOk(maxLineChars: int, line: string, sec: DiffSection, left: int, right: int)
    requires SectionOk(maxLineChars, sec)
    ensures SectionLine(maxLineChars, line, sec, left, right).Extend? ==>
              SectionOk(maxLineChars, SectionLine(maxLineChars, line, sec, left, right).sec)
  {
    var step := SectionLine(maxLineChars, line, sec, left, right);
    if step.Extend? {
      var lines := step.sec.Lines;
      assert lines[..|lines| - 1] == sec.Lines;
    }
  }

  /** Every section the body loop builds from a well-formed start is well formed. */
  lemma {:induction false} ScanSectionOk(maxLineChars: int, lines: seq<string>, i: nat, sec: DiffSection,
                                         left: int, right: int, cursor: int)
    requires i <= |lines|
    requires SectionOk(maxLineChars, sec)
    ensures SectionOk(maxLineChars, ScanSection(maxLineChars, lines, i, sec, left, right, cursor).0)
    decreases |lines| - i
  {
    if i < |lines| {
      SectionLineOk(maxLineChars, lines[i], sec, left, right);
      match SectionLine(maxLineChars, lines[i], sec, left, right)
      case Skip => ScanSectionOk(maxLineChars, lines, i + 1, sec, left, right, i);
      case Finish(_) =>
      case Extend(sec1, left1, right1) => ScanSectionOk(maxLineChars, lines, i + 1, sec1, left1, right1, i);
    }
  }

  /** The body loop only appends to the lines it was given. */
  lemma {:induction false} ScanSectionKeepsHeader(maxLineChars: int, lines: seq<string>, i: nat, sec: DiffSection,
                                                  left: int, right: int, cursor: int)
    requires i <= |lines| && |sec.Lines| > 0
    ensures |ScanSection(maxLineChars, lines, i, sec, left, right, cursor).0.Lines| > 0
    ensures ScanSection(maxLineChars, lines, i, sec, left, right, cursor).0.Lines[0] == sec.Lines[0]
    decreases |lines| - i
  {
    if i < |lines| {
      match SectionLine(maxLineChars, lines[i], sec, left, right)
      case Skip => ScanSectionKeepsHeader(maxLineChars, lines, i + 1, sec, left, right, i);
      case Finish(_) =>
      case Extend(sec1, left1, right1) => ScanSectionKeepsHeader(maxLineChars, lines, i + 1, sec1, left1, right1, i);
    }
  }

  /** Whether a line shows on the left (old) side or the right (new) side of a hunk. */
  predicate OnSide(t: DiffLineType, left: bool) {
    if left then t == DiffLinePlain || t == DiffLineDelete else t == DiffLinePlain || t == DiffLineAdd
  }

  /** The number of lines on one side. */
  function CountSide(lines: seq<DiffLine>, left: bool): nat {
    if |lines| == 0 then 0
    else CountSide(lines[..|lines| - 1], left) + (if OnSide(lines[|lines| - 1].Type, left) then 1 else 0)
  }

  /**
   * The numbering of a hunk that starts at `left0`/`right0`: every body line
   * on the right side carries the start plus the number of right-side lines
   * before it, wrapped to Int32; on the left side, when the left start is
   * positive, the same holds as long as that sum does not pass Int32Max
   * (after that a deleted line no longer advances the wrapped number).
   */
  predicate NumberedFrom(sec: DiffSection, left0: int, right0: int) {
    forall k :: 1 <= k < |sec.Lines| ==> NumberedAt(sec.Lines[k], sec.Lines[1..k], left0, right0)
  }

  /** Line `dl`, coming after the body lines `before`, carries the numbers of a hunk starting at `left0`/`right0`. */
  predicate NumberedAt(dl: DiffLine, before: seq<DiffLine>, left0: int, right0: int) {
    && (OnSide(dl.Type, false) ==> dl.RightLine == Wrap32(right0 + CountSide(before, false)))
    && (left0 > 0 && OnSide(dl.Type, true) && left0 + CountSide(before, true) <= Int32Max ==>
          dl.LeftLine == left0 + CountSide(before, true))
  }

  /** The running numbers of the body loop are the start plus the lines so far. */
  predicate Running(sec: DiffSection, left0: int, right0: int, left: int, right: int) {
    && |sec.Lines| > 0
    && right == Wrap32(right0 + CountSide(sec.Lines[1..], false))
    && (left0 > 0 && left0 + CountSide(sec.Lines[1..], true) <= Int32Max ==> left == left0 + CountSide(sec.Lines[1..], true))
  }

  /** Adding one to a wrapped number wraps like adding one to the number. */
  lemma Wrap32Succ(x: int)
    ensures Wrap32(Wrap32(x) + 1) == Wrap32(x + 1)
  {
    var a := x - Int32Min;
    var q := a / 0x1_0000_0000;
    assert Wrap32(x) + 1 - Int32Min == (a + 1) - q * 0x1_0000_0000;
    Mod32Shift(a + 1, q);
  }

  /** Taking away a multiple of 2^32 leaves the remainder modulo 2^32 as it was. */
  lemma Mod32Shift(a: int, q: int)
    ensures (a - q * 0x1_0000_0000) % 0x1_0000_0000 == a % 0x1_0000_0000
  {
    var r := a % 0x1_0000_0000;
    var p := a / 0x1_0000_0000;
    assert a - q * 0x1_0000_0000 == (p - q) * 0x1_0000_0000 + r;
  }

  /** One body line keeps the section numbered from its start and the running numbers in step. */
  lemma SectionLineNumbered(maxLineChars: int, line: string, sec: DiffSection, left0: int, right0: int, left: int, right: int)
    requires NumberedFrom(sec, left0, right0) && Running(sec, left0, right0, left, right)
    ensures var step := SectionLine(maxLineChars, line, sec, left, right);
            step.Extend? ==> NumberedFrom(step.sec, left0, right0) && Running(step.sec, left0, right0, step.left, step.right)
  {
    var step := SectionLine(maxLineChars, line, sec, left, right);
    if step.Extend? {
      var dl := step.sec.Lines[|sec.Lines|];
      assert step.sec.Lines == sec.Lines + [dl];
      Wrap32Succ(right0 + CountSide(sec.Lines[1..], false));
      AppendNumbered(sec, step.sec, dl, left0, right0, left, right, step.left, step.right);
    }
  }

  /** A line numbered with the running numbers extends a numbered section, and the numbers move on past it. */
  lemma AppendNumbered(sec: DiffSection, sec1: DiffSection, dl: DiffLine, left0: int, right0: int,
                       left: int, right: int, left1: int, right1: int)
    requires NumberedFrom(sec, left0, right0) && Running(sec, left0, right0, left, right)
    requires sec1.Lines == sec.Lines + [dl]
    requires OnSide(dl.Type, false) ==> dl.RightLine == right
    requires left0 > 0 && OnSide(dl.Type, true) ==> dl.LeftLine == left
    requires right1 == (if OnSide(dl.Type, false) then Wrap32(right0 + CountSide(sec.Lines[1..], false) + 1) else right)
    requires left0 > 0 && left0 + CountSide(sec.Lines[1..], true) + (if OnSide(dl.Type, true) then 1 else 0) <= Int32Max ==>
               left1 == left + (if OnSide(dl.Type, true) then 1 else 0)
    ensures NumberedFrom(sec1, left0, right0)
    ensures Running(sec1, left0, right0, left1, right1)
  {
    var n := |sec.Lines|;
    var lines := sec1.Lines;
    forall k | 1 <= k < |lines|
      ensures NumberedAt(lines[k], lines[1..k], left0, right0)
    {
      if k < n {
        assert lines[k] == sec.Lines[k] && lines[1..k] == sec.Lines[1..k];
      } else {
        assert lines[1..k] == sec.Lines[1..];
      }
    }
    assert lines[1..][..n - 1] == sec.Lines[1..];
  }

  lemma {:induction false} ScanSectionNumbered(maxLineChars: int, lines: seq<string>, i: nat, sec: DiffSection,
                                               left0: int, right0: int, left: int, right: int, cursor: int)
    requires i <= |lines|
    requires NumberedFrom(sec, left0, right0) && Running(sec, left0, right0, left, right)
    ensures NumberedFrom(ScanSection(maxLineChars, lines, i, sec, left, right, cursor).0, left0, right0)
    decreases |lines| - i
  {
    if i < |lines| {
      SectionLineNumbered(maxLineChars, lines[i], sec, left0, right0, left, right);
      match SectionLine(maxLineChars, lines[i], sec, left, right)
      case Skip => ScanSectionNumbered(maxLineChars, lines, i + 1, sec, left0, right0, left, right, i);
      case Finish(_) =>
      case Extend(sec1, left1, right1) =>
        ScanSectionNumbered(maxLineChars, lines, i + 1, sec1, left0, right0, left1, right1, i);
    }
  }

  /**
   * The right number is an Int32 that wraps: in a hunk whose right side
   * starts at Int32Max, the second added line is numbered Int32Min.
   */
  lemma RightLineWraps(header: DiffLine)
    ensures var r := ScanSection(0, ["+a", "+b"], 0, DiffSection([header], 0, 0), 1, Int32Max, -1);
            r.0.Lines == [header, DiffLine(DiffLineAdd, "+a", 0, Int32Max), DiffLine(DiffLineAdd, "+b", 0, Int32Min)]
            && !r.1 && r.0.NumAdditions == 2
  {
    var lines := ["+a", "+b"];
    var sec0 := DiffSection([header], 0, 0);
    assert Wrap32(Int32Max + 1) == Int32Min;
    var sec1 := sec0.(Lines := sec0.Lines + [DiffLine(DiffLineAdd, "+a", 0, Int32Max)], NumAdditions := 1);
    assert SectionLine(0, lines[0], sec0, 1, Int32Max) == Extend(sec1, 1, Int32Min);
    var sec2 := sec1.(Lines := sec1.Lines + [DiffLine(DiffLineAdd, "+b", 0, Int32Min)], NumAdditions := 2);
    assert SectionLine(0, lines[1], sec1, 1, Int32Min) == Extend(sec2, 1, Wrap32(Int32Min + 1));
  }

  /** The count part of a hunk range: absent, or ',' followed by digits. */
  predicate CountText(c: string) {
    c == "" || (c[0] == ',' && AllDigits(c[1..]))
  }

  /** A sign, digits and a count part: no blank and no '@' in it, and the text before ',' is the sign and the digits. */
  lemma RangeText(sign: char, digits: string, c: string)
    requires sign == '-' || sign == '+'
    requires AllDigits(digits) && CountText(c)
    ensures ' ' !in [sign] + digits + c && '@' !in [sign] + digits + c
    ensures Split([sign] + digits + c, ',')[0] == [sign] + digits
  {
    var t := [sign] + digits + c;
    forall j | 0 <= j < |t|
      ensures t[j] != ' ' && t[j] != '@'
    {
      if 1 <= j < 1 + |digits| {
        assert t[j] == digits[j - 1];
      } else if j >= 1 + |digits| && j > 1 + |digits| {
        assert t[j] == c[1..][j - 2 - |digits|];
      }
    }
    if c == "" {
      assert ',' !in t;
    } else {
      assert ',' !in [sign] + digits;
      assert t == ([sign] + digits) + [','] + c[1..];
      SplitCons([sign] + digits, ',', c[1..]);
    }
  }

  /** Text "@@" + mid + "@@" + rest, with no '@' in `mid`, splits on "@@" into "", `mid`, and more. */
  lemma AtAtPieces(mid: string, rest: string)
    requires '@' !in mid
    ensures var ss := SplitOnString("@@" + mid + "@@" + rest, "@@");
            |ss| >= 2 && ss[1] == mid
  {
    var line := "@@" + mid + "@@" + rest;
    var t := mid + "@@" + rest;
    assert OccursAt(line, "@@", 0);
    IndexOfAt(line, "@@", 0);
    assert line[2..] == t;
    forall j | 0 <= j < |mid|
      ensures !OccursAt(t, "@@", j)
    {
      assert t[j] == mid[j];
    }
    assert OccursAt(t, "@@", |mid|);
    IndexOfAt(t, "@@", |mid|);
    assert t[..|mid|] == mid;
  }

  /** Two blank-free ranges, each followed by a blank, split on ' ' into the two ranges and an empty piece. */
  lemma RangePieces(a: string, b: string)
    requires ' ' !in a && ' ' !in b
    ensures var ranges := Split(a + " " + b + " ", ' ');
            |ranges| > 1 && ranges[0] == a && ranges[1] == b
  {
    assert a + " " + b + " " == a + [' '] + (b + [' '] + "");
    SplitCons(a, ' ', b + [' '] + "");
    SplitCons(b, ' ', "");
  }

  /** A hunk header is "@@", the two ranges between blanks, "@@" and the rest. */
  lemma HeaderLayout(L: string, lc: string, R: string, rc: string, rest: string)
    ensures "@@ -" + L + lc + " +" + R + rc + " @@" + rest
            == "@@" + (" " + (("-" + L + lc) + " " + ("+" + R + rc) + " ")) + "@@" + rest
  {
  }

  /**
   * The start numbers of a hunk header as git writes it, "@@ -l,s +r,t @@"
   * (each count may be absent): the left start l and the right start r.
   */
  lemma SectionStartOf(l: nat, lc: string, r: nat, rc: string, rest: string)
    requires l <= Int32Max && r <= Int32Max
    requires CountText(lc) && CountText(rc)
    ensures SectionStart("@@ -" + DecimalString(l) + lc + " +" + DecimalString(r) + rc + " @@" + rest) == Ok((l, r))
  {
    var a := "-" + DecimalString(l) + lc;
    var b := "+" + DecimalString(r) + rc;
    RangeText('-', DecimalString(l), lc);
    RangeText('+', DecimalString(r), rc);
    var t := a + " " + b + " ";
    var mid := " " + t;
    assert '@' !in mid;
    HeaderLayout(DecimalString(l), lc, DecimalString(r), rc, rest);
    AtAtPieces(mid, rest);
    assert mid[1..] == t;
    RangePieces(a, b);
    assert ("-" + DecimalString(l))[1..] == DecimalString(l);
    ParseIntegerDecimal(l, Int32Min, Int32Max);
    ParseIntegerPlus(r, Int32Min, Int32Max);
  }

  /** The lines of a parsed section are numbered from the start its hunk header gives. */
  lemma SectionNumbered(maxLineChars: int, lines: seq<string>, cursor: nat)
    requires cursor < |lines|
    ensures Section(maxLineChars, lines, cursor).Ok? ==>
              var start := SectionStart(lines[cursor]).value;
              NumberedFrom(Section(maxLineChars, lines, cursor).value.0, start.0, start.1)
  {
    var start := SectionStart(lines[cursor]);
    if start.Ok? {
      var sec := DiffSection([DiffLine(DiffLineSection, lines[cursor], 0, 0)], 0, 0);
      assert sec.Lines[..0] == [] && sec.Lines[1..] == [];
      ScanSectionNumbered(maxLineChars, lines, cursor + 1, sec, start.value.0, start.value.1,
                          start.value.0, start.value.1, cursor);
    }
  }

  /** parseSection returns a well-formed section whose first line is the hunk header it read. */
  lemma SectionIsOk(maxLineChars: int, lines: seq<string>, cursor: nat)
    requires cursor < |lines|
    ensures Section(maxLineChars, lines, cursor).Ok? ==>
              && SectionOk(maxLineChars, Section(maxLineChars, lines, cursor).value.0)
              && Section(maxLineChars, lines, cursor).value.0.Lines[0] == DiffLine(DiffLineSection, lines[cursor], 0, 0)
  {
    var start := SectionStart(lines[cursor]);
    if start.Ok? {
      var header := DiffLine(DiffLineSection, lines[cursor], 0, 0);
      var sec := DiffSection([header], 0, 0);
      assert sec.Lines[..0] == [];
      ScanSectionOk(maxLineChars, lines, cursor + 1, sec, start.value.0, start.value.1, cursor);
      ScanSectionKeepsHeader(maxLineChars, lines, cursor + 1, sec, start.value.0, start.value.1, cursor);
    }
  }

  /**
   * A line that ends a section: not empty, not the "\ No newline at end of
   * file" marker, and either not a body line or a body line longer than the
   * limit.
   */
  predicate EndsSection(maxLineChars: int, line: string) {
    && |line| > 0
    && !(line[0] == '\\' && StartsWith(line, NoNewline))
    && (!IsBodyLine(line) || (maxLineChars > 0 && Utf16Length(line) > maxLineChars))
  }

  /** The position of the first line at or after `i` that ends the section, or |lines| if none does. */
  function SectionEnd(maxLineChars: int, lines: seq<string>, i: nat): (e: nat)
    requires i <= |lines|
    ensures i <= e <= |lines|
    ensures e < |lines| ==> EndsSection(maxLineChars, lines[e])
    ensures forall j :: i <= j < e ==> !EndsSection(maxLineChars, lines[j])
    decreases |lines| - i
  {
    if i == |lines| || EndsSection(maxLineChars, lines[i]) then i else SectionEnd(maxLineChars, lines, i + 1)
  }

  /** The body lines among `ls`, in order. */
  function BodyLines(ls: seq<string>): seq<string> {
    if |ls| == 0 then [] else (if IsBodyLine(ls[0]) then [ls[0]] else []) + BodyLines(ls[1..])
  }

  /** The text of each line, in order. */
  function Contents(ls: seq<DiffLine>): seq<string> {
    if |ls| == 0 then [] else [ls[0].Content] + Contents(ls[1..])
  }

  /** The line type a body line's first character names. */
  function BodyType(line: string): DiffLineType
    requires |line| > 0
  {
    if line[0] == ' ' then DiffLinePlain else if line[0] == '+' then DiffLineAdd else DiffLineDelete
  }

  /**
   * What one line does to the section, in terms of EndsSection: a line that
   * ends it finishes it (truncated exactly when it is an over-long body line),
   * another body line is appended with the type its first character names,
   * and the rest are skipped.
   */
  lemma SectionLineCases(maxLineChars: int, line: string, sec: DiffSection, left: int, right: int)
    ensures var step := SectionLine(maxLineChars, line, sec, left, right);
            && (step.Finish? <==> EndsSection(maxLineChars, line))
            && (step.Finish? ==> step.truncated == IsBodyLine(line))
            && (step.Skip? <==> !EndsSection(maxLineChars, line) && !IsBodyLine(line))
            && (step.Extend? ==> |step.sec.Lines| == |sec.Lines| + 1 && step.sec.Lines[..|sec.Lines|] == sec.Lines
                                 && step.sec.Lines[|sec.Lines|].Content == line
                                 && step.sec.Lines[|sec.Lines|].Type == BodyType(line))
  {
  }

  /** A skipped line adds nothing to the body lines. */
  lemma BodyLinesSkip(lines: seq<string>, i: nat, e: nat)
    requires i < e <= |lines| && !IsBodyLine(lines[i])
    ensures BodyLines(lines[i..e]) == BodyLines(lines[i + 1..e])
  {
    assert lines[i..e][1..] == lines[i + 1..e];
  }

  /** A body line comes first among the body lines from it on. */
  lemma BodyLinesKeep(lines: seq<string>, i: nat, e: nat)
    requires i < e <= |lines| && IsBodyLine(lines[i])
    ensures BodyLines(lines[i..e]) == [lines[i]] + BodyLines(lines[i + 1..e])
  {
    assert lines[i..e][1..] == lines[i + 1..e];
  }

  /** The lines after an appended line start with it. */
  lemma ContentsCons(ls: seq<DiffLine>, n: nat)
    requires n < |ls|
    ensures Contents(ls[n..]) == [ls[n].Content] + Contents(ls[n + 1..])
  {
    assert ls[n..][1..] == ls[n + 1..];
  }

  /**
   * The body loop from line `i` keeps the lines it was given and appends the
   * body lines before the first line that ends the section, in order, each
   * typed by its first character; it reports truncation exactly when that
   * line is an over-long body line, and its position is that line, or the
   * last line looked at when no line ends the section.
   */
  lemma {:induction false} ScanSectionContents(maxLineChars: int, lines: seq<string>, i: nat, sec: DiffSection,
                                               left: int, right: int, cursor: int)
    requires i <= |lines|
    ensures var r := ScanSection(maxLineChars, lines, i, sec, left, right, cursor);
            var e := SectionEnd(maxLineChars, lines, i);
            && |sec.Lines| <= |r.0.Lines| && r.0.Lines[..|sec.Lines|] == sec.Lines
            && Contents(r.0.Lines[|sec.Lines|..]) == BodyLines(lines[i..e])
            && (forall k :: |sec.Lines| <= k < |r.0.Lines| ==>
                  IsBodyLine(r.0.Lines[k].Content) && r.0.Lines[k].Type == BodyType(r.0.Lines[k].Content))
            && (r.1 <==> e < |lines| && IsBodyLine(lines[e]))
            && r.2 == (if e < |lines| then e else if i < |lines| then |lines| - 1 else cursor)
    decreases |lines| - i
  {
    var r := ScanSection(maxLineChars, lines, i, sec, left, right, cursor);
    var e := SectionEnd(maxLineChars, lines, i);
    if i == |lines| {
      assert r.0.Lines[|sec.Lines|..] == [] && lines[i..e] == [];
    } else {
      SectionLineCases(maxLineChars, lines[i], sec, left, right);
      match SectionLine(maxLineChars, lines[i], sec, left, right)
      case Skip =>
        ScanSectionContents(maxLineChars, lines, i + 1, sec, left, right, i);
        BodyLinesSkip(lines, i, e);
      case Finish(_) =>
        assert r.0.Lines[|sec.Lines|..] == [] && lines[i..e] == [];
      case Extend(sec1, left1, right1) =>
        ScanSectionContents(maxLineChars, lines, i + 1, sec1, left1, right1, i);
        BodyLinesKeep(lines, i, e);
        var r1 := ScanSection(maxLineChars, lines, i + 1, sec1, left1, right1, i);
        assert r1 == r;
        assert r.0.Lines[|sec.Lines|] == sec1.Lines[|sec.Lines|];
        ContentsCons(r.0.Lines, |sec.Lines|);
    }
  }

  /**
   * parseSection reads the hunk header at `cursor` and then keeps exactly the
   * body lines (' ', '+' or '-') that come before the first line ending the
   * section, in order and typed by their first character, passing over empty
   * lines and the "\ No newline at end of file" marker. The section is
   * truncated exactly when the line that ends it is an over-long body line,
   * which is not kept; the position returned is that line, or the last line
   * when the input runs out first. It fails exactly when the header does.
   */
  lemma SectionContents(maxLineChars: int, lines: seq<string>, cursor: nat)
    requires cursor < |lines|
    ensures Section(maxLineChars, lines, cursor).Ok? <==> SectionStart(lines[cursor]).Ok?
    ensures Section(maxLineChars, lines, cursor).Err? ==>
              Section(maxLineChars, lines, cursor).error == SectionStart(lines[cursor]).error
    ensures Section(maxLineChars, lines, cursor).Ok? ==>
              var r := Section(maxLineChars, lines, cursor).value;
              var e := SectionEnd(maxLineChars, lines, cursor + 1);
              && |r.0.Lines| >= 1 && r.0.Lines[0] == DiffLine(DiffLineSection, lines[cursor], 0, 0)
              && Contents(r.0.Lines[1..]) == BodyLines(lines[cursor + 1..e])
              && (forall k :: 1 <= k < |r.0.Lines| ==>
                    IsBodyLine(r.0.Lines[k].Content) && r.0.Lines[k].Type == BodyType(r.0.Lines[k].Content))
              && (r.1 <==> e < |lines| && IsBodyLine(lines[e]))
              && r.2 == (if e < |lines| then e else |lines| - 1)
  {
    var start := SectionStart(lines[cursor]);
    if start.Ok? {
      var header := DiffLine(DiffLineSection, lines[cursor], 0, 0);
      var sec := DiffSection([header], 0, 0);
      ScanSectionContents(maxLineChars, lines, cursor + 1, sec, start.value.0, start.value.1, cursor);
    }
  }

  // ---------------------------------------------------------------------------------
  // Files

  function SectionAdds(secs: seq<DiffSection>): int {
    if |secs| == 0 then 0 else SectionAdds(secs[..|secs| - 1]) + secs[|secs| - 1].NumAdditions
  }

  function SectionDels(secs: seq<DiffSection>): int {
    if |secs| == 0 then 0 else SectionDels(secs[..|secs| - 1]) + secs[|secs| - 1].NumDeletions
  }

  /** The number of lines of the sections, hunk headers included. */
  function SectionLines(secs: seq<DiffSection>): int {
    if |secs| == 0 then 0 else SectionLines(secs[..|secs| - 1]) + |secs[|secs| - 1].Lines|
  }

  /**
   * A file: its counts are the sums of its sections' counts, its sections are
   * well formed, and every section but the last began while the file had at
   * most `maxFileLines` lines.
   */
  predicate FileOk(lim: Limits, f: DiffFile) {
    && f.numAdditions == SectionAdds(f.Sections)
    && f.numDeletions == SectionDels(f.Sections)
    && (forall k :: 0 <= k < |f.Sections| ==> SectionOk(lim.maxLineChars, f.Sections[k]))
    && (lim.maxFileLines > 0 && |f.Sections| > 0 ==>
          SectionLines(f.Sections[..|f.Sections| - 1]) <= lim.maxFileLines)
  }

  /** The header loop leaves sections, counts and completeness alone. */
  lemma {:induction false} ScanHeaderKeeps(lines: seq<string>, i: nat, a: string, b: string, file: DiffFile, cursor: int)
    requires i <= |lines|
    ensures ScanHeader(lines, i, a, b, file, cursor).Ok? ==>
              var f := ScanHeader(lines, i, a, b, file, cursor).value.0;
              f.Sections == file.Sections && f.numAdditions == file.numAdditions &&
              f.numDeletions == file.numDeletions && f.isIncomplete == file.isIncomplete
    decreases |lines| - i
  {
    if i < |lines| {
      var line := lines[i];
      if |line| == 0 {
        ScanHeaderKeeps(lines, i + 1, a, b, file, i);
      } else if StartsWith(line, "new file") {
        ScanHeaderKeeps(lines, i + 1, a, b, file.(Type := DiffFileAdd, isSubmodule := EndsWith(line, " 160000")), i);
      } else if StartsWith(line, "deleted") {
        ScanHeaderKeeps(lines, i + 1, a, b, file.(Type := DiffFileDelete, isSubmodule := EndsWith(line, " 160000")), i);
      } else if StartsWith(line, "index") {
      } else if StartsWith(line, "similarity index ") {
        ScanHeaderKeeps(lines, i + 1, a, b, file.(Type := DiffFileRename, oldName := Some(a), Name := Some(b)), i);
      } else if !StartsWith(line, "old mode") {
        ScanHeaderKeeps(lines, i + 1, a, b, file, i);
      }
    }
  }

  /** A file header yields a file with no sections that is not incomplete. */
  lemma FileHeaderEmpty(lines: seq<string>, cursor: nat, corrected: bool)
    requires cursor < |lines| && |lines[cursor]| > 0
    ensures FileHeader(lines, cursor, corrected).Ok? ==>
              var f := FileHeader(lines, cursor, corrected).value.0;
              f.Sections == [] && f.numAdditions == 0 && f.numDeletions == 0 && !f.isIncomplete
  {
    var names := HeaderNames(lines[cursor], corrected);
    if names.Ok? {
      ScanHeaderKeeps(lines, cursor + 1, names.value.0, names.value.1,
                      NewDiffFile().(Name := Some(names.value.0), Type := DiffFileChange), cursor);
    }
  }

  // ---------------------------------------------------------------------------------
  // The extended header

  /** Text with neither dots nor whitespace, as an abbreviated object hash is. */
  predicate HashText(s: string) {
    forall j :: 0 <= j < |s| ==> s[j] != '.' && !IsWhiteSpace(s[j])
  }

  /** A header line the header loop passes over: it starts with none of the five keywords. */
  predicate PassedOver(line: string) {
    && !StartsWith(line, "new file") && !StartsWith(line, "deleted") && !StartsWith(line, "index")
    && !StartsWith(line, "similarity index ") && !StartsWith(line, "old mode")
  }

  /** "<old>..<new>" splits at the two dots into the two hashes. */
  lemma SplitHashPair(o: string, n: string)
    requires HashText(o) && HashText(n)
    ensures SplitOnDotAny(o + ".." + n) == [o, n]
  {
    var s := o + ".." + n;
    assert s[|o|] == '.' && s[|o| + 1] == '.';
    assert forall j :: 0 <= j < |o| ==> s[j] == o[j];
    assert DotAnyFrom(s, 0) == |o|;
    assert s[..|o|] == o && s[|o| + 2..] == n;
    assert DotAnyFrom(n, 0) == -1;
  }

  /** The first whitespace-separated field of a text that starts with `f` and a blank (or is `f`) is `f`. */
  lemma FirstField(f: string, rest: string)
    requires forall j :: 0 <= j < |f| ==> !IsWhiteSpace(f[j])
    requires |rest| == 0 || IsWhiteSpace(rest[0])
    ensures SplitOnWhiteSpace(f + rest)[0] == f
  {
    var s := f + rest;
    if |rest| == 0 {
      assert s == f;
      SplitOnWhiteSpaceNone(f);
    } else {
      assert s[|f|] == rest[0];
      assert forall j :: 0 <= j < |f| ==> s[j] == f[j];
      assert FirstWhere(s, IsWhiteSpace) == |f|;
      assert s[..|f|] == f;
    }
  }

  /**
   * An "index" line whose first field is `f` ends the header: it succeeds
   * exactly when `f` splits into two hashes at "..", and then stores the new
   * hash, or the old one when the file is deleted.
   */
  lemma ScanHeaderIndexLine(lines: seq<string>, i: nat, a: string, b: string, file: DiffFile, cursor: int,
                            f: string, rest: string)
    requires i < |lines| && lines[i] == "index " + f + rest
    requires forall j :: 0 <= j < |f| ==> !IsWhiteSpace(f[j])
    requires |rest| == 0 || IsWhiteSpace(rest[0])
    ensures var r := ScanHeader(lines, i, a, b, file, cursor);
            var shas := SplitOnDotAny(f);
            && (r.Ok? <==> |shas| == 2)
            && (r.Err? ==> r.error == Failure("malformed index: expect two SHAs in the form of <old>..<new>"))
            && (r.Ok? ==> r.value == (file.(Index := Some(if file.IsDeleted() then shas[0] else shas[1])), i))
  {
    var line := lines[i];
    assert line[0] == 'i' && line[..5] == "index";
    assert !StartsWith(line, "new file") && !StartsWith(line, "deleted") && StartsWith(line, "index");
    assert line[6..] == f + rest;
    FirstField(f, rest);
    var shas := SplitOnDotAny(f);
    assert ScanHeader(lines, i, a, b, file, cursor)
           == if |shas| != 2 then Err(Failure("malformed index: expect two SHAs in the form of <old>..<new>"))
              else Ok((file.(Index := Some(if file.IsDeleted() then shas[0] else shas[1])), i));
  }

  /** An "index" line with hashes `o` and `n` ends the header holding `n`, or `o` for a deleted file. */
  lemma ScanHeaderIndexHashes(lines: seq<string>, i: nat, a: string, b: string, file: DiffFile, cursor: int,
                              o: string, n: string, rest: string)
    requires i < |lines| && lines[i] == "index " + o + ".." + n + rest
    requires HashText(o) && HashText(n) && (|rest| == 0 || IsWhiteSpace(rest[0]))
    ensures ScanHeader(lines, i, a, b, file, cursor)
            == Ok((file.(Index := Some(if file.Type == DiffFileDelete then o else n)), i))
  {
    var f := o + ".." + n;
    assert lines[i] == "index " + f + rest;
    assert forall j :: 0 <= j < |f| ==> !IsWhiteSpace(f[j]) by {
      assert forall j :: 0 <= j < |o| ==> f[j] == o[j];
      assert forall j :: |o| + 2 <= j < |f| ==> f[j] == n[j - |o| - 2];
    }
    SplitHashPair(o, n);
    ScanHeaderIndexLine(lines, i, a, b, file, cursor, f, rest);
  }

  /** An "index" line with no room for hashes is a Substring exception. */
  lemma ScanHeaderShortIndex(lines: seq<string>, i: nat, a: string, b: string, file: DiffFile, cursor: int)
    requires i < |lines| && lines[i] == "index"
    ensures ScanHeader(lines, i, a, b, file, cursor) == Err(ArgumentOutOfRange)
  {
    assert lines[i][0] == 'i' && lines[i][..5] == "index";
  }

  /**
   * A "new file" line followed by an index line: the file is added, is a
   * submodule exactly when the line ends with " 160000", and holds the new hash.
   */
  lemma ScanHeaderNewFile(lines: seq<string>, i: nat, a: string, b: string, file: DiffFile, cursor: int,
                          o: string, n: string, rest: string)
    requires i + 1 < |lines| && StartsWith(lines[i], "new file")
    requires lines[i + 1] == "index " + o + ".." + n + rest
    requires HashText(o) && HashText(n) && (|rest| == 0 || IsWhiteSpace(rest[0]))
    ensures ScanHeader(lines, i, a, b, file, cursor)
            == Ok((file.(Type := DiffFileAdd, isSubmodule := EndsWith(lines[i], " 160000"), Index := Some(n)), i + 1))
  {
    assert lines[i][0] == 'n';
    var added := file.(Type := DiffFileAdd, isSubmodule := EndsWith(lines[i], " 160000"));
    ScanHeaderIndexHashes(lines, i + 1, a, b, added, i, o, n, rest);
  }

  /**
   * A "deleted" line followed by an index line: the file is deleted, is a
   * submodule exactly when the line ends with " 160000", and holds the old hash.
   */
  lemma ScanHeaderDeletedFile(lines: seq<string>, i: nat, a: string, b: string, file: DiffFile, cursor: int,
                              o: string, n: string, rest: string)
    requires i + 1 < |lines| && StartsWith(lines[i], "deleted")
    requires lines[i + 1] == "index " + o + ".." + n + rest
    requires HashText(o) && HashText(n) && (|rest| == 0 || IsWhiteSpace(rest[0]))
    ensures ScanHeader(lines, i, a, b, file, cursor)
            == Ok((file.(Type := DiffFileDelete, isSubmodule := EndsWith(lines[i], " 160000"), Index := Some(o)), i + 1))
  {
    assert lines[i][0] == 'd';
    var deleted := file.(Type := DiffFileDelete, isSubmodule := EndsWith(lines[i], " 160000"));
    ScanHeaderIndexHashes(lines, i + 1, a, b, deleted, i, o, n, rest);
  }

  /** A "similarity index" line is not blank and starts with none of the keywords tested before it. */
  lemma NotEarlierKeyword(line: string)
    requires StartsWith(line, "similarity index ")
    ensures |line| > 0 && !StartsWith(line, "new file") && !StartsWith(line, "deleted") && !StartsWith(line, "index")
  {
    assert line[0] == 's';
  }

  /** A complete rename ("similarity index" ending in "100%") ends the header with the old and new names. */
  lemma ScanHeaderFullRename(lines: seq<string>, i: nat, a: string, b: string, file: DiffFile, cursor: int)
    requires i < |lines| && StartsWith(lines[i], "similarity index ") && EndsWith(lines[i], "100%")
    ensures ScanHeader(lines, i, a, b, file, cursor)
            == Ok((file.(Type := DiffFileRename, oldName := Some(a), Name := Some(b)), i))
  {
    NotEarlierKeyword(lines[i]);
  }

  /** The header loop passes over a run of lines that start with no keyword. */
  lemma {:induction false} ScanHeaderPassesOver(lines: seq<string>, i: nat, j: nat, a: string, b: string,
                                                file: DiffFile, cursor: int)
    requires i < j <= |lines|
    requires forall k :: i <= k < j ==> PassedOver(lines[k])
    ensures ScanHeader(lines, i, a, b, file, cursor) == ScanHeader(lines, j, a, b, file, j - 1)
    decreases j - i
  {
    if i + 1 < j {
      ScanHeaderPassesOver(lines, i + 1, j, a, b, file, i);
    }
  }

  /** A partial rename sets the rename names and goes on with the next line. */
  lemma ScanHeaderSimilarity(lines: seq<string>, i: nat, a: string, b: string, file: DiffFile, cursor: int)
    requires i < |lines| && StartsWith(lines[i], "similarity index ") && !EndsWith(lines[i], "100%")
    ensures ScanHeader(lines, i, a, b, file, cursor)
            == ScanHeader(lines, i + 1, a, b, file.(Type := DiffFileRename, oldName := Some(a), Name := Some(b)), i)
  {
    NotEarlierKeyword(lines[i]);
  }

  /**
   * A partial rename, any lines without keywords ("rename from", "rename to")
   * and an index line: the file is renamed from `a` to `b` and holds the new hash.
   */
  lemma ScanHeaderPartialRename(lines: seq<string>, i: nat, j: nat, a: string, b: string, file: DiffFile, cursor: int,
                                o: string, n: string, rest: string)
    requires i < j < |lines|
    requires StartsWith(lines[i], "similarity index ") && !EndsWith(lines[i], "100%")
    requires forall k :: i < k < j ==> PassedOver(lines[k])
    requires lines[j] == "index " + o + ".." + n + rest
    requires HashText(o) && HashText(n) && (|rest| == 0 || IsWhiteSpace(rest[0]))
    ensures ScanHeader(lines, i, a, b, file, cursor)
            == Ok((file.(Type := DiffFileRename, oldName := Some(a), Name := Some(b), Index := Some(n)), j))
  {
    var renamed := file.(Type := DiffFileRename, oldName := Some(a), Name := Some(b));
    ScanHeaderIndexHashes(lines, j, a, b, renamed, j - 1, o, n, rest);
    ScanHeaderRenameThen(lines, i, j, a, b, file, cursor);
  }

  /** A partial rename and lines without keywords lead on to line `j` with the renamed file. */
  lemma ScanHeaderRenameThen(lines: seq<string>, i: nat, j: nat, a: string, b: string, file: DiffFile, cursor: int)
    requires i < j <= |lines|
    requires StartsWith(lines[i], "similarity index ") && !EndsWith(lines[i], "100%")
    requires forall k :: i < k < j ==> PassedOver(lines[k])
    ensures ScanHeader(lines, i, a, b, file, cursor)
            == ScanHeader(lines, j, a, b, file.(Type := DiffFileRename, oldName := Some(a), Name := Some(b)), j - 1)
  {
    var renamed := file.(Type := DiffFileRename, oldName := Some(a), Name := Some(b));
    if i + 1 < j {
      ScanHeaderPassesOver(lines, i + 1, j, a, b, renamed, i);
    }
    ScanHeaderSimilarity(lines, i, a, b, file, cursor);
  }

  /** "old mode" ends the header and changes nothing. */
  lemma ScanHeaderOldMode(lines: seq<string>, i: nat, a: string, b: string, file: DiffFile, cursor: int)
    requires i < |lines| && StartsWith(lines[i], "old mode")
    ensures ScanHeader(lines, i, a, b, file, cursor) == Ok((file, i))
  {
    var line := lines[i];
    assert |line| > 0 && !StartsWith(line, "new file") && !StartsWith(line, "deleted") && !StartsWith(line, "index")
           && !StartsWith(line, "similarity index ") by {
      assert line[0] == 'o';
    }
  }

  /** The old name changes only to `a`, and only on a "similarity index" line. */
  lemma {:induction false} ScanHeaderOldName(lines: seq<string>, i: nat, a: string, b: string, file: DiffFile, cursor: int)
    requires i <= |lines|
    ensures var r := ScanHeader(lines, i, a, b, file, cursor);
            r.Ok? && r.value.0.oldName != file.oldName ==>
              r.value.0.oldName == Some(a) && exists k :: i <= k < |lines| && StartsWith(lines[k], "similarity index ")
    decreases |lines| - i
  {
    if i < |lines| {
      var line := lines[i];
      if |line| == 0 {
        ScanHeaderOldName(lines, i + 1, a, b, file, i);
      } else if StartsWith(line, "new file") {
        ScanHeaderOldName(lines, i + 1, a, b, file.(Type := DiffFileAdd, isSubmodule := EndsWith(line, " 160000")), i);
      } else if StartsWith(line, "deleted") {
        ScanHeaderOldName(lines, i + 1, a, b, file.(Type := DiffFileDelete, isSubmodule := EndsWith(line, " 160000")), i);
      } else if StartsWith(line, "index") {
      } else if StartsWith(line, "similarity index ") {
        assert StartsWith(lines[i], "similarity index ");
        if !EndsWith(line, "100%") {
          ScanHeaderOldName(lines, i + 1, a, b, file.(Type := DiffFileRename, oldName := Some(a), Name := Some(b)), i);
        }
      } else if !StartsWith(line, "old mode") {
        ScanHeaderOldName(lines, i + 1, a, b, file, i);
      }
    }
  }

  /** A parsed file header has an old name only if a "similarity index" line followed the header line. */
  lemma FileHeaderOldName(lines: seq<string>, cursor: nat, corrected: bool)
    requires cursor < |lines| && |lines[cursor]| > 0
    ensures var r := FileHeader(lines, cursor, corrected);
            r.Ok? && r.value.0.oldName.Some? ==>
              exists k :: cursor < k < |lines| && StartsWith(lines[k], "similarity index ")
  {
    var names := HeaderNames(lines[cursor], corrected);
    if names.Ok? {
      ScanHeaderOldName(lines, cursor + 1, names.value.0, names.value.1,
                        NewDiffFile().(Name := Some(names.value.0), Type := DiffFileChange), cursor);
    }
  }

  // ---------------------------------------------------------------------------------
  // The diff and the state of the loop

  function FileAdds(files: seq<DiffFile>): int {
    if |files| == 0 then 0 else FileAdds(files[..|files| - 1]) + files[|files| - 1].numAdditions
  }

  function FileDels(files: seq<DiffFile>): int {
    if |files| == 0 then 0 else FileDels(files[..|files| - 1]) + files[|files| - 1].numDeletions
  }

  /**
   * A parsed diff: no more files than `maxFiles` allows, every file well
   * formed, and any incomplete file makes the diff incomplete.
   */
  predicate DiffOk(lim: Limits, d: Diff) {
    && (lim.maxFiles > 0 ==> |d.Files| <= lim.maxFiles)
    && (forall k :: 0 <= k < |d.Files| ==> FileOk(lim, d.Files[k]))
    && (forall k :: 0 <= k < |d.Files| ==> d.Files[k].isIncomplete ==> d.isIncomplete)
  }

  /**
   * The invariant of Parse's loop: the diff so far is well formed, so is the
   * file made before any header, the totals are the sums over the files plus
   * that file, and the line count is that of the current file's sections.
   */
  predicate StateOk(lim: Limits, st: ParseState) {
    && st.Valid()
    && DiffOk(lim, st.diff)
    && FileOk(lim, st.detached)
    && (st.detached.isIncomplete ==> st.diff.isIncomplete)
    && st.diff.totalAdditions == FileAdds(st.diff.Files) + st.detached.numAdditions
    && st.diff.totalDeletions == FileDels(st.diff.Files) + st.detached.numDeletions
    && st.fileLines == SectionLines(st.Current().Sections)
  }

  lemma InitialStateOk(lim: Limits)
    ensures StateOk(lim, InitialState())
  {
  }

  /** Replacing the last file changes the sums by the difference of its counts. */
  lemma ReplaceLast(files: seq<DiffFile>, f: DiffFile)
    requires |files| > 0
    ensures FileAdds(files[..|files| - 1] + [f]) == FileAdds(files) - files[|files| - 1].numAdditions + f.numAdditions
    ensures FileDels(files[..|files| - 1] + [f]) == FileDels(files) - files[|files| - 1].numDeletions + f.numDeletions
  {
    var g := files[..|files| - 1] + [f];
    assert g[..|g| - 1] == files[..|files| - 1];
  }

  /**
   * Replacing the current file by a well-formed one keeps every file well
   * formed and changes the sum of the counts by the difference of the two
   * files' counts; an incomplete file is either the new one or was there before.
   */
  lemma ReplaceCurrent(lim: Limits, st: ParseState, f: DiffFile)
    requires StateOk(lim, st) && FileOk(lim, f)
    ensures var st1 := st.SetCurrent(f);
            && st1.diff == st.diff.(Files := st1.diff.Files)
            && st1.attached == st.attached && st1.fileLines == st.fileLines
            && (forall k :: 0 <= k < |st1.diff.Files| ==> FileOk(lim, st1.diff.Files[k]))
            && (forall k :: 0 <= k < |st1.diff.Files| ==> st1.diff.Files[k].isIncomplete ==> st.diff.isIncomplete || f.isIncomplete)
            && FileOk(lim, st1.detached)
            && (st1.detached.isIncomplete ==> st.diff.isIncomplete || f.isIncomplete)
            && FileAdds(st1.diff.Files) + st1.detached.numAdditions
               == FileAdds(st.diff.Files) + st.detached.numAdditions - st.Current().numAdditions + f.numAdditions
            && FileDels(st1.diff.Files) + st1.detached.numDeletions
               == FileDels(st.diff.Files) + st.detached.numDeletions - st.Current().numDeletions + f.numDeletions
  {
    var st1 := st.SetCurrent(f);
    if st.attached {
      var files := st.diff.Files;
      var n := |files|;
      ReplaceLast(files, f);
      assert forall k :: 0 <= k < n - 1 ==> st1.diff.Files[k] == files[k];
      assert st1.diff.Files[n - 1] == f;
    }
  }

  /**
   * The current file may be replaced by a well-formed one with the same
   * sections and counts (the binary flag and the incomplete flag change that
   * way) as long as its being incomplete implies the diff is.
   */
  lemma SetCurrentOk(lim: Limits, st: ParseState, f: DiffFile)
    requires StateOk(lim, st)
    requires f.Sections == st.Current().Sections
    requires f.numAdditions == st.Current().numAdditions && f.numDeletions == st.Current().numDeletions
    requires f.isIncomplete ==> st.diff.isIncomplete
    ensures StateOk(lim, st.SetCurrent(f))
  {
    ReplaceCurrent(lim, st, f);
  }

  /** Marking the diff incomplete keeps the invariant. */
  lemma MarkDiffOk(lim: Limits, st: ParseState)
    requires StateOk(lim, st)
    ensures StateOk(lim, st.(diff := st.diff.(isIncomplete := true)))
  {
  }

  /** A section that is allowed in keeps its file well formed. */
  lemma WithSectionOk(lim: Limits, file: DiffFile, sec: DiffSection, truncated: bool)
    requires FileOk(lim, file) && SectionOk(lim.maxLineChars, sec)
    requires !(lim.maxFileLines > 0 && SectionLines(file.Sections) > lim.maxFileLines)
    ensures FileOk(lim, WithSection(file, sec, truncated))
    ensures SectionLines(WithSection(file, sec, truncated).Sections) == SectionLines(file.Sections) + |sec.Lines|
  {
    var secs := file.Sections + [sec];
    assert secs[..|secs| - 1] == file.Sections;
  }

  /** A parsed section that is allowed in joins the current file and keeps the invariant. */
  lemma AddSectionOk(lim: Limits, st: ParseState, sec: DiffSection, truncated: bool)
    requires StateOk(lim, st)
    requires SectionOk(lim.maxLineChars, sec)
    requires !(lim.maxFileLines > 0 && st.fileLines > lim.maxFileLines)
    ensures StateOk(lim, st.AddSection(sec, truncated))
  {
    var file1 := WithSection(st.Current(), sec, truncated);
    WithSectionOk(lim, st.Current(), sec, truncated);
    ReplaceCurrent(lim, st, file1);
  }

  /** A file from a header joins the diff, when there is room, and keeps the invariant. */
  lemma AttachOk(lim: Limits, st: ParseState, f: DiffFile)
    requires StateOk(lim, st)
    requires f.Sections == [] && f.numAdditions == 0 && f.numDeletions == 0 && !f.isIncomplete
    requires lim.maxFiles > 0 ==> |st.diff.Files| < lim.maxFiles
    ensures StateOk(lim, st.(diff := st.diff.(Files := st.diff.Files + [f]), attached := true, fileLines := 0))
  {
    var files := st.diff.Files + [f];
    assert files[..|files| - 1] == st.diff.Files;
    assert forall k :: 0 <= k < |files| - 1 ==> files[k] == st.diff.Files[k];
    assert FileOk(lim, f);
  }

  /** A file header keeps the invariant, or stops with a well-formed incomplete diff. */
  lemma HeaderStepOk(lim: Limits, corrected: bool, lines: seq<string>, i: nat, st: ParseState)
    requires i < |lines| && StartsWith(lines[i], DiffHead) && StateOk(lim, st)
    ensures HeaderStep(lim, corrected, lines, i, st).Ok? ==>
              match HeaderStep(lim, corrected, lines, i, st).value
              case Continue(st1) =>
                StateOk(lim, st1) && (st.attached ==> st1.detached == st.detached)
              case Stop(d) =>
                && DiffOk(lim, d) && d.isIncomplete
                && d.totalAdditions == FileAdds(d.Files) + st.detached.numAdditions
                && d.totalDeletions == FileDels(d.Files) + st.detached.numDeletions
  {
    if !(lim.maxFiles > 0 && |st.diff.Files| >= lim.maxFiles) {
      FileHeaderEmpty(lines, i, corrected);
      var header := FileHeader(lines, i, corrected);
      if header.Ok? {
        AttachOk(lim, st, header.value.0);
      }
    }
  }

  /** Any other line keeps the invariant and leaves attachment alone. */
  lemma BodyStepOk(lim: Limits, corrected: bool, lines: seq<string>, i: nat, st: ParseState)
    requires i < |lines| && StateOk(lim, st)
    ensures BodyStep(lim, corrected, lines, i, st).Ok? ==>
              && BodyStep(lim, corrected, lines, i, st).value.Continue?
              && StateOk(lim, BodyStep(lim, corrected, lines, i, st).value.state)
              && BodyStep(lim, corrected, lines, i, st).value.state.attached == st.attached
              && (st.attached ==> BodyStep(lim, corrected, lines, i, st).value.state.detached == st.detached)
  {
    var line := lines[i];
    var file := st.Current();
    if file.isIncomplete {
    } else if StartsWith(line, "Binary") {
      SetCurrentOk(lim, st, file.(isBinary := true));
    } else if |line| == 0 || line[0] != '@' {
    } else if lim.maxFileLines > 0 && st.fileLines > lim.maxFileLines {
      TruncateOk(lim, st);
    } else {
      SectionStepOk(lim, lines, i, st);
    }
  }

  /** A hunk read at line `i` keeps the invariant and the attachment. */
  lemma SectionStepOk(lim: Limits, lines: seq<string>, i: nat, st: ParseState)
    requires i < |lines| && StateOk(lim, st)
    requires !(lim.maxFileLines > 0 && st.fileLines > lim.maxFileLines)
    ensures var fs := Section(lim.maxLineChars, lines, i);
            fs.Ok? ==> var st1 := st.AddSection(fs.value.0, fs.value.1);
                       && StateOk(lim, st1) && st1.attached == st.attached
                       && (st.attached ==> st1.detached == st.detached)
  {
    SectionIsOk(lim.maxLineChars, lines, i);
    var fs := Section(lim.maxLineChars, lines, i);
    if fs.Ok? {
      AddSectionOk(lim, st, fs.value.0, fs.value.1);
    }
  }

  /** Marking the current file and the diff incomplete keeps the invariant and the attachment. */
  lemma TruncateOk(lim: Limits, st: ParseState)
    requires StateOk(lim, st)
    ensures var st1 := st.SetCurrent(st.Current().(isIncomplete := true));
            var st2 := st1.(diff := st1.diff.(isIncomplete := true));
            && StateOk(lim, st2) && st2.attached == st.attached
            && (st.attached ==> st2.detached == st.detached)
  {
    var file := st.Current();
    MarkDiffOk(lim, st);
    var st0 := st.(diff := st.diff.(isIncomplete := true));
    SetCurrentOk(lim, st0, file.(isIncomplete := true));
    assert st0.SetCurrent(file.(isIncomplete := true))
        == st.SetCurrent(file.(isIncomplete := true)).(diff := st.SetCurrent(file.(isIncomplete := true)).diff.(isIncomplete := true));
  }

  /**
   * A "Binary" line marks the current file binary and goes on with it: the
   * rest of the state is unchanged. A file already incomplete is left alone.
   */
  lemma StepBinary(lim: Limits, corrected: bool, lines: seq<string>, i: nat, st: ParseState)
    requires i < |lines| && st.Valid() && StartsWith(lines[i], "Binary")
    ensures var r := Step(lim, corrected, lines, i, st);
            && r.Ok? && r.value.Continue?
            && r.value.state.Current() == (if st.Current().isIncomplete then st.Current() else st.Current().(isBinary := true))
            && r.value.state.attached == st.attached && |r.value.state.diff.Files| == |st.diff.Files|
            && r.value.state.diff.(Files := st.diff.Files) == st.diff && r.value.state.fileLines == st.fileLines
  {
    assert lines[i][0] == 'B';
  }

  /**
   * One pass of the loop body keeps the invariant; once a header was read the
   * file made before it is never touched again; a stop returns a well-formed,
   * incomplete diff.
   */
  lemma StepOk(lim: Limits, corrected: bool, lines: seq<string>, i: nat, st: ParseState)
    requires i < |lines| && StateOk(lim, st)
    ensures Step(lim, corrected, lines, i, st).Ok? ==>
              match Step(lim, corrected, lines, i, st).value
              case Continue(st1) =>
                StateOk(lim, st1) && (st.attached ==> st1.attached && st1.detached == st.detached)
              case Stop(d) =>
                && DiffOk(lim, d) && d.isIncomplete
                && d.totalAdditions == FileAdds(d.Files) + st.detached.numAdditions
                && d.totalDeletions == FileDels(d.Files) + st.detached.numDeletions
  {
    var line := lines[i];
    if StartsWith(line, "+++ ") || StartsWith(line, "--- ") {
    } else if StartsWith(line, DiffHead) {
      HeaderStepOk(lim, corrected, lines, i, st);
    } else {
      BodyStepOk(lim, corrected, lines, i, st);
    }
  }

  /**
   * What the parse loop promises from state `st`: a diff it returns is well
   * formed, and when the current file is attached its totals are the sums
   * over its files plus the counts of the file made before the first header.
   */
  predicate ParsedOk(lim: Limits, st: ParseState, r: Result<Diff>) {
    r.Ok? ==>
      && DiffOk(lim, r.value)
      && (st.attached ==> r.value.totalAdditions == FileAdds(r.value.Files) + st.detached.numAdditions
                          && r.value.totalDeletions == FileDels(r.value.Files) + st.detached.numDeletions)
  }

  /**
   * The loop from any state that satisfies the invariant returns a
   * well-formed diff; from a state after a header, its totals are the sums
   * over its files plus the counts of the file made before that header.
   */
  lemma {:induction false} ParseFromOk(lim: Limits, corrected: bool, lines: seq<string>, i: nat, st: ParseState)
    requires i <= |lines| && StateOk(lim, st)
    ensures ParsedOk(lim, st, ParseFrom(lim, corrected, lines, i, st))
    decreases |lines| - i
  {
    if i < |lines| {
      ParseFromStepOk(lim, corrected, lines, i, st);
      var next := Step(lim, corrected, lines, i, st);
      if next.Ok? && next.value.Continue? {
        ParseFromOk(lim, corrected, lines, i + 1, next.value.state);
      }
    }
  }

  /**
   * One line of the parse loop keeps its promise: a step that goes on
   * reaches a state satisfying the invariant from which the promise carries
   * back; any other step keeps the promise at once.
   */
  lemma ParseFromStepOk(lim: Limits, corrected: bool, lines: seq<string>, i: nat, st: ParseState)
    requires i < |lines| && StateOk(lim, st)
    ensures var next := Step(lim, corrected, lines, i, st);
            if next.Ok? && next.value.Continue? then
              && StateOk(lim, next.value.state)
              && (ParsedOk(lim, next.value.state, ParseFrom(lim, corrected, lines, i + 1, next.value.state))
                  ==> ParsedOk(lim, st, ParseFrom(lim, corrected, lines, i, st)))
            else ParsedOk(lim, st, ParseFrom(lim, corrected, lines, i, st))
  {
    StepOk(lim, corrected, lines, i, st);
    ParseFromCons(lim, corrected, lines, i, st);
  }

  /** One line of the parse loop: its step fails, stops with a diff, or hands a state to the next line. */
  lemma ParseFromCons(lim: Limits, corrected: bool, lines: seq<string>, i: nat, st: ParseState)
    requires i < |lines| && st.Valid()
    ensures var next := Step(lim, corrected, lines, i, st);
            && (next.Err? ==> ParseFrom(lim, corrected, lines, i, st) == Err(next.error))
            && (next.Ok? && next.value.Stop? ==> ParseFrom(lim, corrected, lines, i, st) == Ok(next.value.diff))
            && (next.Ok? && next.value.Continue? ==>
                  next.value.state.Valid()
                  && ParseFrom(lim, corrected, lines, i, st) == ParseFrom(lim, corrected, lines, i + 1, next.value.state))
  {
  }

  /** Every diff Parse returns is well formed (with or without empty lines skipped). */
  lemma ParseTextOk(lim: Limits, corrected: bool, text: string, splitChar: char)
    ensures ParseText(lim, corrected, text, splitChar).Ok? ==> DiffOk(lim, ParseText(lim, corrected, text, splitChar).value)
  {
    if |text| > 0 {
      ParseFromOk(lim, corrected, Split(text, splitChar), 0, InitialState());
    }
  }

  /**
   * When the text starts with a file header, every section belongs to a file
   * in the result, so the totals are exactly the sums of the files' counts.
   */
  lemma ParseTextTotals(lim: Limits, corrected: bool, text: string, splitChar: char)
    requires StartsWith(text, DiffHead) && splitChar !in DiffHead
    ensures ParseText(lim, corrected, text, splitChar).Ok? ==>
              var d := ParseText(lim, corrected, text, splitChar).value;
              d.totalAdditions == FileAdds(d.Files) && d.totalDeletions == FileDels(d.Files)
  {
    if |text| > 0 {
      FirstLineHeader(text, splitChar);
      HeaderFirstTotals(lim, corrected, Split(text, splitChar));
    }
  }

  /** Text that starts with a file header has it on its first line. */
  lemma FirstLineHeader(text: string, splitChar: char)
    requires StartsWith(text, DiffHead) && splitChar !in DiffHead
    ensures StartsWith(Split(text, splitChar)[0], DiffHead)
  {
    var lines := Split(text, splitChar);
    SplitFirst(text, splitChar);
    if splitChar in text {
      var k := IndexOfChar(text, splitChar);
      assert k >= |DiffHead|;
      assert lines[0][..|DiffHead|] == text[..|DiffHead|];
    }
  }

  /** Lines that start with a file header: the totals are the sums over the files. */
  lemma HeaderFirstTotals(lim: Limits, corrected: bool, lines: seq<string>)
    requires |lines| > 0 && StartsWith(lines[0], DiffHead)
    ensures ParseFrom(lim, corrected, lines, 0, InitialState()).Ok? ==>
              var d := ParseFrom(lim, corrected, lines, 0, InitialState()).value;
              d.totalAdditions == FileAdds(d.Files) && d.totalDeletions == FileDels(d.Files)
  {
    var st := InitialState();
    var next := Step(lim, corrected, lines, 0, st);
    assert next == HeaderStep(lim, corrected, lines, 0, st) by {
      assert lines[0][0] == DiffHead[0];
    }
    StepOk(lim, corrected, lines, 0, st);
    if next.Ok? && next.value.Continue? {
      var st1 := next.value.state;
      assert st1.attached && st1.detached == st.detached;
      ParseFromOk(lim, corrected, lines, 1, st1);
      ParseFromCons(lim, corrected, lines, 0, st);
    } else {
      ParseFromCons(lim, corrected, lines, 0, st);
    }
  }

  // ---------------------------------------------------------------------------------
  // Empty lines at the top level

  /**
   * As written, the loop body reads `line[0]` of an empty line unless the
   * current file is already incomplete; so when the last line is empty (the
   * text ends with the separator) the parse fails or the diff is incomplete.
   */
  lemma {:induction false} ParseFromLastBlank(lim: Limits, lines: seq<string>, i: nat, st: ParseState)
    requires i < |lines| && lines[|lines| - 1] == "" && StateOk(lim, st)
    ensures ParseFrom(lim, false, lines, i, st).Ok? ==> ParseFrom(lim, false, lines, i, st).value.isIncomplete
    decreases |lines| - i
  {
    LastBlankStep(lim, lines, i, st);
    var next := Step(lim, false, lines, i, st);
    if next.Ok? && next.value.Continue? && i + 1 < |lines| {
      ParseFromLastBlank(lim, lines, i + 1, next.value.state);
    }
  }

  /** One line of ParseFromLastBlank: where the parse goes from line `i`. */
  lemma LastBlankStep(lim: Limits, lines: seq<string>, i: nat, st: ParseState)
    requires i < |lines| && lines[|lines| - 1] == "" && StateOk(lim, st)
    ensures var r := ParseFrom(lim, false, lines, i, st);
            var next := Step(lim, false, lines, i, st);
            && (next.Err? ==> r.Err?)
            && (next.Ok? && next.value.Stop? ==> r == Ok(next.value.diff) && next.value.diff.isIncomplete)
            && (next.Ok? && next.value.Continue? ==>
                  && StateOk(lim, next.value.state)
                  && r == ParseFrom(lim, false, lines, i + 1, next.value.state)
                  && (i + 1 == |lines| ==> next.value.state.diff.isIncomplete))
  {
    StepOk(lim, false, lines, i, st);
    var next := Step(lim, false, lines, i, st);
    if next.Ok? {
      match next.value
      case Stop(d) =>
        assert ParseFrom(lim, false, lines, i, st) == Ok(d);
      case Continue(st1) =>
        assert ParseFrom(lim, false, lines, i, st) == ParseFrom(lim, false, lines, i + 1, st1);
        if i + 1 == |lines| {
          assert lines[i] == "";
          assert st.Current().isIncomplete;
        }
    }
  }

  /**
   * Parse as written never returns a complete diff for text that ends with
   * the separator, which is how the command runner delivers git's output.
   */
  lemma AsWrittenTrailingSeparator(lim: Limits, text: string, splitChar: char)
    ensures ParseDiff(lim, text + [splitChar], splitChar).Ok? ==>
              ParseDiff(lim, text + [splitChar], splitChar).value.isIncomplete
  {
    SplitTrailing(text, splitChar);
    var lines := Split(text + [splitChar], splitChar);
    ParseFromLastBlank(lim, lines, 0, InitialState());
  }

  /** The one-file header "diff --git a/x b/x" names the file "x" on both sides. */
  lemma OneFileHeaderNames()
    ensures HeaderNames("diff --git a/x b/x", false) == Ok(("x", "x"))
  {
    var header := "diff --git a/x b/x";
    OneFileHeaderMiddle();
    assert |DiffHead| == 11 && header[|header| - 1] == 'x';
    assert header[13..14] == "x" && header[17..] == "x";
  }

  /** The " b/" of "diff --git a/x b/x" is the one at position 14. */
  lemma OneFileHeaderMiddle()
    ensures IndexOf("diff --git a/x b/x", " b/") == 14
  {
    var header := "diff --git a/x b/x";
    assert OccursAt(header, " b/", 14) by {
      assert header[14..17] == " b/";
    }
    forall j | 0 <= j < 14
      ensures !OccursAt(header, " b/", j)
    {
      OccursAtChars(header, " b/", j);
      OneFileHeaderNoEarlyB(header, j);
    }
    IndexOfAt(header, " b/", 14);
  }

  /** Before position 14, "diff --git a/x b/x" has no blank followed by a 'b'. */
  lemma OneFileHeaderNoEarlyB(header: string, j: int)
    requires header == "diff --git a/x b/x" && 0 <= j < 14
    ensures header[j] != ' ' || header[j + 1] != 'b'
  {
  }

  /** The one-file header followed by an empty line reads as a changed file "x" and stops before the empty line. */
  lemma OneFileHeaderRead()
    ensures FileHeader(["diff --git a/x b/x", ""], 0, false)
            == Ok((NewDiffFile().(Name := Some("x"), Type := DiffFileChange), 1))
  {
    var lines := ["diff --git a/x b/x", ""];
    OneFileHeaderNames();
    var file := NewDiffFile().(Name := Some("x"), Type := DiffFileChange);
    assert ScanHeader(lines, 2, "x", "x", file, 1) == Ok((file, 1));
    assert ScanHeader(lines, 1, "x", "x", file, 0) == Ok((file, 1));
  }

  /** Step reads the one-file header from the initial state and attaches its file. */
  lemma OneFileHeaderStep(lim: Limits)
    ensures Step(lim, false, ["diff --git a/x b/x", ""], 0, InitialState())
            == Ok(Continue(ParseState(NewDiff().(Files := [NewDiffFile().(Name := Some("x"), Type := DiffFileChange)]),
                                      NewDiffFile(), true, 0)))
  {
    var lines := ["diff --git a/x b/x", ""];
    var header := lines[0];
    assert StartsWith(header, DiffHead) by {
      assert header == DiffHead + "a/x b/x";
      assert (DiffHead + "a/x b/x")[..|DiffHead|] == DiffHead;
    }
    assert !StartsWith(header, "+++ ") && !StartsWith(header, "--- ") by {
      assert header[..4][0] == 'd';
    }
    OneFileHeaderAttaches(lim);
  }

  /** HeaderStep on the one-file header, from the initial state, attaches the file it reads. */
  lemma OneFileHeaderAttaches(lim: Limits)
    requires StartsWith("diff --git a/x b/x", DiffHead)
    ensures HeaderStep(lim, false, ["diff --git a/x b/x", ""], 0, InitialState())
            == Ok(Continue(ParseState(NewDiff().(Files := [NewDiffFile().(Name := Some("x"), Type := DiffFileChange)]),
                                      NewDiffFile(), true, 0)))
  {
    OneFileHeaderRead();
    var file := NewDiffFile().(Name := Some("x"), Type := DiffFileChange);
    assert InitialState().diff.Files + [file] == [file];
  }

  /** The empty line after the one-file header reaches `line[0]` and throws. */
  lemma OneFileBlankLineFails(lim: Limits)
    ensures Step(lim, false, ["diff --git a/x b/x", ""], 1,
                 ParseState(NewDiff().(Files := [NewDiffFile().(Name := Some("x"), Type := DiffFileChange)]),
                            NewDiffFile(), true, 0))
            == Err(IndexOutOfRange)
  {
  }

  /** A one-file diff header as git prints it, newline included, is an exception. */
  lemma AsWrittenNewlineFails(lim: Limits)
    ensures ParseDiff(lim, "diff --git a/x b/x\n", '\n') == Err(IndexOutOfRange)
  {
    var header := "diff --git a/x b/x";
    assert Split("diff --git a/x b/x\n", '\n') == [header, ""] by {
      SplitLastSeparator(header, '\n');
      assert header + ['\n'] == "diff --git a/x b/x\n";
    }
    OneFileParseFails(lim);
  }

  /** The loop over the one-file header and the empty line after it throws. */
  lemma OneFileParseFails(lim: Limits)
    ensures ParseFrom(lim, false, ["diff --git a/x b/x", ""], 0, InitialState()) == Err(IndexOutOfRange)
  {
    var lines := ["diff --git a/x b/x", ""];
    var st1 := ParseState(NewDiff().(Files := [NewDiffFile().(Name := Some("x"), Type := DiffFileChange)]),
                          NewDiffFile(), true, 0);
    OneFileHeaderStep(lim);
    assert ParseFrom(lim, false, lines, 0, InitialState()) == ParseFrom(lim, false, lines, 1, st1);
    OneFileBlankLineFails(lim);
  }

  /** The two results agree on the diff and on any exception. */
  predicate SameResult<T>(r1: Result<(DiffFile, T)>, r2: Result<(DiffFile, T)>) {
    r1.Ok? == r2.Ok? && (r1.Ok? ==> r1.value.0 == r2.value.0) && (r1.Err? ==> r1.error == r2.error)
  }

  lemma {:induction false} ScanHeaderBlank(lines: seq<string>, i: nat, a: string, b: string, file: DiffFile, cursor: int)
    requires i <= |lines|
    ensures SameResult(ScanHeader(lines + [""], i, a, b, file, cursor), ScanHeader(lines, i, a, b, file, cursor))
    decreases |lines| - i
  {
    var more := lines + [""];
    if i < |lines| {
      assert more[i] == lines[i];
      var line := lines[i];
      if |line| == 0 {
        ScanHeaderBlank(lines, i + 1, a, b, file, i);
      } else if StartsWith(line, "new file") {
        ScanHeaderBlank(lines, i + 1, a, b, file.(Type := DiffFileAdd, isSubmodule := EndsWith(line, " 160000")), i);
      } else if StartsWith(line, "deleted") {
        ScanHeaderBlank(lines, i + 1, a, b, file.(Type := DiffFileDelete, isSubmodule := EndsWith(line, " 160000")), i);
      } else if StartsWith(line, "index") {
      } else if StartsWith(line, "similarity index ") {
        ScanHeaderBlank(lines, i + 1, a, b, file.(Type := DiffFileRename, oldName := Some(a), Name := Some(b)), i);
      } else if !StartsWith(line, "old mode") {
        ScanHeaderBlank(lines, i + 1, a, b, file, i);
      }
    } else {
      assert more[i] == "";
    }
  }

  lemma {:induction false} ScanSectionBlank(maxLineChars: int, lines: seq<string>, i: nat, sec: DiffSection,
                                            left: int, right: int, cursor: int)
    requires i <= |lines|
    ensures ScanSection(maxLineChars, lines + [""], i, sec, left, right, cursor).0
            == ScanSection(maxLineChars, lines, i, sec, left, right, cursor).0
    ensures ScanSection(maxLineChars, lines + [""], i, sec, left, right, cursor).1
            == ScanSection(maxLineChars, lines, i, sec, left, right, cursor).1
    decreases |lines| - i
  {
    var more := lines + [""];
    if i < |lines| {
      assert more[i] == lines[i];
      match SectionLine(maxLineChars, lines[i], sec, left, right)
      case Skip => ScanSectionBlank(maxLineChars, lines, i + 1, sec, left, right, i);
      case Finish(_) =>
      case Extend(sec1, left1, right1) => ScanSectionBlank(maxLineChars, lines, i + 1, sec1, left1, right1, i);
    } else {
      assert more[i] == "";
    }
  }

  /** An empty last line changes nothing a loop body before it computes. */
  lemma StepBlank(lim: Limits, lines: seq<string>, i: nat, st: ParseState)
    requires i < |lines| && st.Valid()
    ensures Step(lim, true, lines + [""], i, st) == Step(lim, true, lines, i, st)
  {
    var more := lines + [""];
    assert more[i] == lines[i];
    var line := lines[i];
    if StartsWith(line, DiffHead) {
      var names := HeaderNames(line, true);
      if names.Ok? {
        ScanHeaderBlank(lines, i + 1, names.value.0, names.value.1,
                        NewDiffFile().(Name := Some(names.value.0), Type := DiffFileChange), i);
      }
    } else if |line| > 0 && line[0] == '@' {
      var start := SectionStart(line);
      if start.Ok? {
        var sec := DiffSection([DiffLine(DiffLineSection, line, 0, 0)], 0, 0);
        ScanSectionBlank(lim.maxLineChars, lines, i + 1, sec, start.value.0, start.value.1, i);
      }
    }
  }

  lemma {:induction false} ParseFromBlank(lim: Limits, lines: seq<string>, i: nat, st: ParseState)
    requires i <= |lines| && st.Valid()
    ensures ParseFrom(lim, true, lines + [""], i, st) == ParseFrom(lim, true, lines, i, st)
    decreases |lines| - i
  {
    var more := lines + [""];
    if i < |lines| {
      BlankStep(lim, lines, i, st);
      var next := Step(lim, true, lines, i, st);
      if next.Ok? && next.value.Continue? {
        ParseFromBlank(lim, lines, i + 1, next.value.state);
      }
    } else {
      assert more[i] == "";
    }
  }

  /** One line of ParseFromBlank: both parses take the same step. */
  lemma BlankStep(lim: Limits, lines: seq<string>, i: nat, st: ParseState)
    requires i < |lines| && st.Valid()
    ensures var next := Step(lim, true, lines, i, st);
            && (!(next.Ok? && next.value.Continue?) ==>
                  ParseFrom(lim, true, lines + [""], i, st) == ParseFrom(lim, true, lines, i, st))
            && (next.Ok? && next.value.Continue? ==>
                  && ParseFrom(lim, true, lines + [""], i, st) == ParseFrom(lim, true, lines + [""], i + 1, next.value.state)
                  && ParseFrom(lim, true, lines, i, st) == ParseFrom(lim, true, lines, i + 1, next.value.state))
  {
    StepBlank(lim, lines, i, st);
  }

  /**
   * With empty lines skipped, a separator at the end of the text changes
   * nothing: the output of the command runner parses like the diff itself.
   */
  lemma CorrectedIgnoresTrailingSeparator(lim: Limits, text: string, splitChar: char)
    requires |text| > 0
    ensures ParseDiffCorrected(lim, text + [splitChar], splitChar) == ParseDiffCorrected(lim, text, splitChar)
  {
    SplitTrailing(text, splitChar);
    ParseFromBlank(lim, Split(text, splitChar), 0, InitialState());
  }

  /** A line that does not end with a quote has the same names either way. */
  lemma HeaderNamesAgree(line: string)
    requires |line| > 0 && line[|line| - 1] != '"'
    ensures HeaderNames(line, true) == HeaderNames(line, false)
  {
  }

  /** The lines the two variants of the parser read alike. */
  predicate Unremarkable(line: string) {
    |line| > 0 && line[|line| - 1] != '"'
  }

  lemma {:induction false} ParseFromAgree(lim: Limits, lines: seq<string>, i: nat, st: ParseState)
    requires i <= |lines| && st.Valid()
    requires forall k :: i <= k < |lines| ==> Unremarkable(lines[k])
    ensures ParseFrom(lim, true, lines, i, st) == ParseFrom(lim, false, lines, i, st)
    decreases |lines| - i
  {
    if i < |lines| {
      HeaderNamesAgree(lines[i]);
      assert Step(lim, true, lines, i, st) == Step(lim, false, lines, i, st);
      var next := Step(lim, true, lines, i, st);
      if next.Ok? && next.value.Continue? {
        ParseFromAgree(lim, lines, i + 1, next.value.state);
      }
    }
  }

  /**
   * The corrected parser differs from the one as written only on empty lines
   * and on lines that end with a quote.
   */
  lemma CorrectedAgrees(lim: Limits, text: string, splitChar: char)
    requires forall k :: 0 <= k < |Split(text, splitChar)| ==> Unremarkable(Split(text, splitChar)[k])
    ensures ParseDiffCorrected(lim, text, splitChar) == ParseDiff(lim, text, splitChar)
  {
    if |text| > 0 {
      ParseFromAgree(lim, Split(text, splitChar), 0, InitialState());
    }
  }

  // ---------------------------------------------------------------------------------
  // Names in the header line

  /** The header git writes for a path pair without quoting. */
  function PlainHeader(a: string, b: string): string {
    DiffHead + "a/" + a + " b/" + b
  }

  /** The header git writes when it quotes the paths. */
  function QuotedHeader(a: string, b: string): string {
    DiffHead + "\"a/" + a + "\" \"b/" + b + "\""
  }

  /** An unquoted header gives back both paths, in either variant. */
  lemma HeaderNamesPlain(a: string, b: string, corrected: bool)
    requires ' ' !in a
    requires |b| == 0 || b[|b| - 1] != '"'
    ensures HeaderNames(PlainHeader(a, b), corrected) == Ok((a, b))
  {
    var line := PlainHeader(a, b);
    var m := |DiffHead| + 2 + |a|;
    assert line[m..m + 3] == " b/";
    assert line[|line| - 1] != '"';
    assert IndexOf(line, " b/") == m by {
      assert OccursAt(line, " b/", m);
      forall j | 0 <= j < m
        ensures !OccursAt(line, " b/", j)
      {
        assert line[..|DiffHead|] == DiffHead;
        if j >= |DiffHead| + 2 {
          assert line[j] == a[j - |DiffHead| - 2];
        }
        if j + 3 <= |line| {
          assert line[j..j + 3][0] == line[j] && line[j..j + 3][1] == line[j + 1];
        }
      }
    }
    assert line[|DiffHead| + 2..m] == a;
    assert line[m + 3..] == b;
  }

  /**
   * A quoted header as written: the names lose the opening "a/ and "b/ but keep
   * the closing quote.
   */
  lemma HeaderNamesQuotedAsWritten(a: string, b: string)
    requires '"' !in a
    ensures HeaderNames(QuotedHeader(a, b), false) == Ok((a + "\"", b + "\""))
  {
    QuotedMiddle(a, b);
    var line := QuotedHeader(a, b);
    var m := |DiffHead| + 4 + |a|;
    assert line[|DiffHead| + 2..m] == "/" + a + "\"";
    assert line[m + 3..] == "/" + b + "\"";
    assert ("/" + a + "\"")[1..] == a + "\"";
    assert ("/" + b + "\"")[1..] == b + "\"";
  }

  /** A quoted header, corrected: the names are the paths themselves. */
  lemma HeaderNamesQuotedCorrected(a: string, b: string)
    requires '"' !in a
    ensures HeaderNames(QuotedHeader(a, b), true) == Ok((a, b))
  {
    QuotedMiddle(a, b);
    var line := QuotedHeader(a, b);
    var m := |DiffHead| + 4 + |a|;
    assert line[|DiffHead| + 2..m] == "/" + a + "\"";
    assert line[m + 3..] == "/" + b + "\"";
  }

  /** Where the second name of a quoted header starts. */
  lemma QuotedMiddle(a: string, b: string)
    requires '"' !in a
    ensures var line := QuotedHeader(a, b);
            line[|line| - 1] == '"' && IndexOf(line, " \"b/") == |DiffHead| + 4 + |a|
  {
    var line := QuotedHeader(a, b);
    var m := |DiffHead| + 4 + |a|;
    assert line[m..m + 4] == " \"b/";
    assert OccursAt(line, " \"b/", m);
    forall j | 0 <= j < m
      ensures !OccursAt(line, " \"b/", j)
    {
      QuotedNoEarlyMiddle(a, b, j);
      OccursQuoteB(line, j);
    }
  }

  /** An occurrence of ` "b/` at `j` puts '"' at j + 1 and 'b' at j + 2. */
  lemma OccursQuoteB(s: string, j: int)
    ensures OccursAt(s, " \"b/", j) ==> s[j + 1] == '"' && s[j + 2] == 'b'
  {
    if OccursAt(s, " \"b/", j) {
      assert s[j..j + 4][1] == s[j + 1] && s[j..j + 4][2] == s[j + 2];
    }
  }

  /** Before the second name of a quoted header, no '"' is followed by a 'b'. */
  lemma QuotedNoEarlyMiddle(a: string, b: string, j: int)
    requires '"' !in a && 0 <= j < |DiffHead| + 4 + |a|
    ensures var line := QuotedHeader(a, b);
            j + 2 < |line| && (line[j + 1] != '"' || line[j + 2] != 'b')
  {
    var line := QuotedHeader(a, b);
    var h := |DiffHead|;
    var m := h + 4 + |a|;
    if j + 1 < h {
      assert line[..h] == DiffHead;
      assert line[j + 1] == DiffHead[j + 1];
    } else if j + 1 <= h + 2 {
      assert line[h] == '"' && line[h + 1] == 'a' && line[h + 2] == '/';
    } else if j + 1 < m - 1 {
      assert line[j + 1] == a[j + 1 - h - 3];
    } else {
      assert line[m - 1] == '"' && line[m] == ' ';
    }
  }

  /** An occurrence of a pattern fixes the characters it covers. */
  lemma OccursAtChars(s: string, p: string, k: int)
    ensures OccursAt(s, p, k) ==> forall i :: 0 <= i < |p| ==> s[k + i] == p[i]
  {
    if OccursAt(s, p, k) {
      forall i | 0 <= i < |p| ensures s[k + i] == p[i] {
        assert s[k..k + |p|][i] == s[k + i];
      }
    }
  }
}
