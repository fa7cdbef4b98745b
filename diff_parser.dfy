/**
 * The unified-diff parser (Diffs/DiffParser.cs): a line-by-line state machine
 * that turns `git diff` output into files, sections and lines, with three
 * truncation limits. Each method is proved equal to a function that describes
 * its loop; the properties of the parser are proved about those functions.
 */
module DiffParsing {
  import opened Base
  import opened Text
  import opened Diffs

  /** The prefix of a file header line. */
  const DiffHead: string := "diff --git "

  // ---------------------------------------------------------------------------------
  // parseFileHeader

  /**
   * The two names of a header line "diff --git a/X b/Y": the text between
   * position 13 and the " b/" separator, and the text after it. When the line
   * ends with a quote the separator is ` "b/` and, as written, one more leading
   * character is dropped from each name, so the closing quote stays on both;
   * corrected, the closing quote is dropped as well. Bounds that Substring
   * rejects are an exception.
   */
  function HeaderNames(line: string, corrected: bool): (r: Result<(string, string)>)
    requires |line| > 0
  {
    var hasQuote := line[|line| - 1] == '"';
    var middle := if hasQuote then IndexOf(line, " \"b/") else IndexOf(line, " b/");
    var beg := |DiffHead|;
    if middle < beg + 2 then Err(ArgumentOutOfRange)
    else
      var a := line[beg + 2..middle];
      var b := line[middle + 3..];
      if !hasQuote then Ok((a, b))
      else if |a| == 0 then Err(ArgumentOutOfRange)
      else
        assert line[middle + 3] == '/' by { assert line[middle..middle + 4][3] == '/'; }
        if !corrected then Ok((a[1..], b[1..]))
        else if |a| < 2 then Err(ArgumentOutOfRange)
        else Ok((a[1..|a| - 1], b[1..|b| - 1]))
  }

  /**
   * The header loop from line `i` on: extended header lines set the type, the
   * submodule flag, the index and the rename names; "index" (which must name
   * two hashes), a complete rename and "old mode" end the header. The result
   * is the file and the last position looked at.
   */
  function ScanHeader(lines: seq<string>, i: nat, a: string, b: string, file: DiffFile, cursor: int)
    : (r: Result<(DiffFile, int)>)
    requires i <= |lines|
    decreases |lines| - i
  {
    if i == |lines| then Ok((file, cursor))
    else
      var line := lines[i];
      if |line| == 0 then ScanHeader(lines, i + 1, a, b, file, i)
      else if StartsWith(line, "new file") then
        ScanHeader(lines, i + 1, a, b, file.(Type := DiffFileAdd, isSubmodule := EndsWith(line, " 160000")), i)
      else if StartsWith(line, "deleted") then
        ScanHeader(lines, i + 1, a, b, file.(Type := DiffFileDelete, isSubmodule := EndsWith(line, " 160000")), i)
      else if StartsWith(line, "index") then IndexLine(line, file, i)
      else if StartsWith(line, "similarity index ") then
        var renamed := file.(Type := DiffFileRename, oldName := Some(a), Name := Some(b));
        if EndsWith(line, "100%") then Ok((renamed, i))
        else ScanHeader(lines, i + 1, a, b, renamed, i)
      else if StartsWith(line, "old mode") then Ok((file, i))
      else ScanHeader(lines, i + 1, a, b, file, i)
  }

  /**
   * The "index" line at `i`, which ends the header: its first field after
   * "index " must split into two hashes at "..", and the file keeps the new
   * one (the old one when it is deleted).
   */
  function IndexLine(line: string, file: DiffFile, i: int): Result<(DiffFile, int)> {
    if |line| < 6 then Err(ArgumentOutOfRange)
    else
      var fields := SplitOnWhiteSpace(line[6..]);
      var shas := SplitOnDotAny(fields[0]);
      if |shas| != 2 then Err(Failure("malformed index: expect two SHAs in the form of <old>..<new>"))
      else Ok((file.(Index := Some(if file.IsDeleted() then shas[0] else shas[1])), i))
  }

  /** parseFileHeader on the header line at `cursor`. */
  function FileHeader(lines: seq<string>, cursor: nat, corrected: bool): (r: Result<(DiffFile, int)>)
    requires cursor < |lines| && |lines[cursor]| > 0
  {
    var names :- HeaderNames(lines[cursor], corrected);
    ScanHeader(lines, cursor + 1, names.0, names.1,
               NewDiffFile().(Name := Some(names.0), Type := DiffFileChange), cursor)
  }

  // ---------------------------------------------------------------------------------
  // parseSection

  /**
   * The starting line numbers of a hunk header "@@ -l,s +r,s @@": the text after
   * the first "@@" loses one character, is split on blanks, and the parts
   * before ',' of the first two pieces are read as Int32 (the first without its
   * sign character). With one piece only, the right number is the left one.
   */
  function SectionStart(line: string): (r: Result<(int, int)>)
    ensures r.Ok? ==> Int32Min <= r.value.0 <= Int32Max && Int32Min <= r.value.1 <= Int32Max
  {
    var ss := SplitOnString(line, "@@");
    if |ss| < 2 then Err(IndexOutOfRange)
    else if |ss[1]| == 0 then Err(ArgumentOutOfRange)
    else
      var ranges := Split(ss[1][1..], ' ');
      var first := Split(ranges[0], ',')[0];
      if |first| == 0 then Err(ArgumentOutOfRange)
      else
        var left :- ToInt32(first[1..]);
        if |ranges| > 1 then
          var right :- ToInt32(Split(ranges[1], ',')[0]);
          Ok((left, right))
        else Ok((left, left))
  }

  /** The line continues the body of a section. */
  predicate IsBodyLine(line: string) {
    |line| > 0 && (line[0] == ' ' || line[0] == '+' || line[0] == '-')
  }

  const NoNewline: string := "\\ No newline at end of file"

  /** What one line after a hunk header does to the section being read. */
  datatype SectionStep =
    | Skip
    | Finish(truncated: bool)
    | Extend(sec: DiffSection, left: int, right: int)

  /**
   * One line of a section body, with the running left and right line numbers.
   * Empty lines and "\ No newline at end of file" are skipped; any other line
   * that is not a body line ends the section; a body line longer than
   * `maxLineChars` UTF-16 code units (when positive) ends it as truncated. A
   * context line takes both numbers, an added line the right one, a deleted
   * line the left one (which only advances while it is positive); the numbers
   * are Int32 and wrap around.
   */
  function SectionLine(maxLineChars: int, line: string, sec: DiffSection, left: int, right: int): (r: SectionStep)
  {
    if |line| == 0 then Skip
    else if !IsBodyLine(line) then
      if line[0] == '\\' && StartsWith(line, NoNewline) then Skip else Finish(false)
    else if maxLineChars > 0 && Utf16Length(line) > maxLineChars then Finish(true)
    else if line[0] == ' ' then
      Extend(sec.(Lines := sec.Lines + [DiffLine(DiffLinePlain, line, left, right)]), Wrap32(left + 1), Wrap32(right + 1))
    else if line[0] == '+' then
      Extend(sec.(Lines := sec.Lines + [DiffLine(DiffLineAdd, line, 0, right)],
                  NumAdditions := sec.NumAdditions + 1), left, Wrap32(right + 1))
    else
      Extend(sec.(Lines := sec.Lines + [DiffLine(DiffLineDelete, line, left, 0)],
                  NumDeletions := sec.NumDeletions + 1), if left > 0 then Wrap32(left + 1) else left, right)
  }

  /**
   * The section loop from line `i` on. The result is the section, whether it
   * was truncated, and the last position looked at.
   */
  function ScanSection(maxLineChars: int, lines: seq<string>, i: nat, sec: DiffSection,
                       left: int, right: int, cursor: int): (r: (DiffSection, bool, int))
    requires i <= |lines|
    decreases |lines| - i
  {
    if i == |lines| then (sec, false, cursor)
    else
      match SectionLine(maxLineChars, lines[i], sec, left, right)
      case Skip => ScanSection(maxLineChars, lines, i + 1, sec, left, right, i)
      case Finish(truncated) => (sec, truncated, i)
      case Extend(sec1, left1, right1) => ScanSection(maxLineChars, lines, i + 1, sec1, left1, right1, i)
  }

  /** parseSection on the hunk header at `cursor`. */
  function Section(maxLineChars: int, lines: seq<string>, cursor: nat): (r: Result<(DiffSection, bool, int)>)
    requires cursor < |lines|
  {
    var start :- SectionStart(lines[cursor]);
    var header := DiffLine(DiffLineSection, lines[cursor], 0, 0);
    Ok(ScanSection(maxLineChars, lines, cursor + 1, DiffSection([header], 0, 0), start.0, start.1, cursor))
  }

  // ---------------------------------------------------------------------------------
  // Parse

  datatype Limits = Limits(maxFiles: int, maxFileLines: int, maxLineChars: int)

  /**
   * The state of Parse between lines: the diff so far, the file made before any
   * header (its sections count in the totals, it is never in Files), whether
   * the current file is the last of Files rather than that detached one, and
   * the number of section lines of the current file.
   */
  datatype ParseState = ParseState(diff: Diff, detached: DiffFile, attached: bool, fileLines: int) {
    predicate Valid() {
      attached ==> |diff.Files| > 0
    }

    /** The file that `file` refers to in Parse. */
    function Current(): DiffFile
      requires Valid()
    {
      if attached then diff.Files[|diff.Files| - 1] else detached
    }

    /** Changes the current file in place: the last of Files, or the detached one. */
    function SetCurrent(f: DiffFile): (st: ParseState)
      requires Valid()
      ensures st.Valid() && st.Current() == f && st.attached == attached
      ensures |st.diff.Files| == |diff.Files|
      ensures attached ==> st.diff.Files[..|diff.Files| - 1] == diff.Files[..|diff.Files| - 1]
      ensures !attached ==> st.diff.Files == diff.Files
      ensures st.diff.(Files := diff.Files) == diff && st.fileLines == fileLines
    {
      if attached then this.(diff := diff.(Files := diff.Files[..|diff.Files| - 1] + [f]))
      else this.(detached := f)
    }

    /**
     * A parsed section joins the current file and its counts go to the diff
     * totals, its lines to the file's line count; a truncated section makes
     * the diff incomplete.
     */
    function AddSection(sec: DiffSection, truncated: bool): (st: ParseState)
      requires Valid()
      ensures st.Valid() && st.attached == attached && |st.diff.Files| == |diff.Files|
      ensures st.Current() == WithSection(Current(), sec, truncated)
      ensures attached ==> st.diff.Files[..|diff.Files| - 1] == diff.Files[..|diff.Files| - 1]
      ensures st.diff.totalAdditions == diff.totalAdditions + sec.NumAdditions
      ensures st.diff.totalDeletions == diff.totalDeletions + sec.NumDeletions
      ensures st.diff.isIncomplete == (diff.isIncomplete || truncated)
      ensures st.fileLines == fileLines + sec.NumLines()
    {
      var st1 := SetCurrent(WithSection(Current(), sec, truncated));
      st1.(diff := st1.diff.(totalAdditions := st1.diff.totalAdditions + sec.NumAdditions,
                             totalDeletions := st1.diff.totalDeletions + sec.NumDeletions,
                             isIncomplete := st1.diff.isIncomplete || truncated),
           fileLines := fileLines + sec.NumLines())
    }
  }

  /** A file with one more section, its counts added, incomplete if the section was truncated. */
  function WithSection(file: DiffFile, sec: DiffSection, truncated: bool): DiffFile {
    file.(Sections := file.Sections + [sec],
          numAdditions := file.numAdditions + sec.NumAdditions,
          numDeletions := file.numDeletions + sec.NumDeletions,
          isIncomplete := file.isIncomplete || truncated)
  }

  function InitialState(): ParseState {
    ParseState(NewDiff(), NewDiffFile(), false, 0)
  }

  /** What one top-level line does: go on with a new state, or stop with the final diff. */
  datatype Next = Continue(state: ParseState) | Stop(diff: Diff)

  /**
   * The loop body of Parse on line `i`. With `corrected` false it is the body
   * as written, where an empty line reaches `line[0]`; with `corrected` true an
   * empty line is passed over like any other line that is not a hunk header,
   * and quoted file names lose both quotes.
   */
  function Step(lim: Limits, corrected: bool, lines: seq<string>, i: nat, st: ParseState): (r: Result<Next>)
    requires i < |lines| && st.Valid()
    ensures r.Ok? && r.value.Continue? ==> r.value.state.Valid()
    ensures StartsWith(lines[i], "+++ ") || StartsWith(lines[i], "--- ") ==> r == Ok(Continue(st))
    ensures r.Ok? && r.value.Stop? ==>
              && StartsWith(lines[i], DiffHead) && lim.maxFiles > 0 && |st.diff.Files| >= lim.maxFiles
              && r.value.diff == st.diff.(isIncomplete := true)
    ensures r.Ok? && !StartsWith(lines[i], DiffHead) ==>
              && r.value.Continue?
              && r.value.state.attached == st.attached && |r.value.state.diff.Files| == |st.diff.Files|
    ensures r.Err? ==>
              || StartsWith(lines[i], DiffHead)
              || (|lines[i]| == 0 && !corrected)
              || (|lines[i]| > 0 && lines[i][0] == '@')
  {
    var line := lines[i];
    if StartsWith(line, "+++ ") || StartsWith(line, "--- ") then Ok(Continue(st))
    else if StartsWith(line, DiffHead) then HeaderStep(lim, corrected, lines, i, st)
    else BodyStep(lim, corrected, lines, i, st)
  }

  /**
   * A file header: with `maxFiles` files already, the diff is incomplete and
   * the parse stops; otherwise the header's file joins the diff and becomes
   * the current file.
   */
  function HeaderStep(lim: Limits, corrected: bool, lines: seq<string>, i: nat, st: ParseState): (r: Result<Next>)
    requires i < |lines| && StartsWith(lines[i], DiffHead)
    ensures r.Ok? && r.value.Continue? ==>
              && r.value.state.Valid() && r.value.state.attached && r.value.state.fileLines == 0
              && FileHeader(lines, i, corrected).Ok?
              && r.value.state.diff.Files == st.diff.Files + [FileHeader(lines, i, corrected).value.0]
    ensures r.Ok? && r.value.Stop? ==>
              lim.maxFiles > 0 && |st.diff.Files| >= lim.maxFiles && r.value.diff == st.diff.(isIncomplete := true)
  {
    if lim.maxFiles > 0 && |st.diff.Files| >= lim.maxFiles then Ok(Stop(st.diff.(isIncomplete := true)))
    else
      var header :- FileHeader(lines, i, corrected);
      Ok(Continue(st.(diff := st.diff.(Files := st.diff.Files + [header.0]), attached := true, fileLines := 0)))
  }

  /**
   * Any other line, unless the current file is incomplete: "Binary" marks the
   * file binary, a hunk header starts a section (or marks the file incomplete
   * once it has more than `maxFileLines` lines), anything else is passed over.
   */
  function BodyStep(lim: Limits, corrected: bool, lines: seq<string>, i: nat, st: ParseState): (r: Result<Next>)
    requires i < |lines| && st.Valid()
    ensures r.Ok? ==>
              && r.value.Continue? && r.value.state.Valid()
              && r.value.state.attached == st.attached && |r.value.state.diff.Files| == |st.diff.Files|
              && (st.attached ==> r.value.state.diff.Files[..|st.diff.Files| - 1] == st.diff.Files[..|st.diff.Files| - 1])
              && (!st.attached ==> r.value.state.diff.Files == st.diff.Files)
    ensures st.Current().isIncomplete ==> r == Ok(Continue(st))
    ensures StartsWith(lines[i], "Binary") ==>
              && r.Ok?
              && r.value.state.Current() == (if st.Current().isIncomplete then st.Current() else st.Current().(isBinary := true))
              && r.value.state.diff.(Files := st.diff.Files) == st.diff && r.value.state.fileLines == st.fileLines
    ensures r.Err? ==> (|lines[i]| == 0 && !corrected) || (|lines[i]| > 0 && lines[i][0] == '@')
  {
    var line := lines[i];
    var file := st.Current();
    if file.isIncomplete then Ok(Continue(st))
    else if StartsWith(line, "Binary") then Ok(Continue(st.SetCurrent(file.(isBinary := true))))
    else if |line| == 0 then (if corrected then Ok(Continue(st)) else Err(IndexOutOfRange))
    else if line[0] != '@' then Ok(Continue(st))
    else if lim.maxFileLines > 0 && st.fileLines > lim.maxFileLines then
      var st1 := st.SetCurrent(file.(isIncomplete := true));
      Ok(Continue(st1.(diff := st1.diff.(isIncomplete := true))))
    else
      var fs :- Section(lim.maxLineChars, lines, i);
      Ok(Continue(st.AddSection(fs.0, fs.1)))
  }

  /** The top-level loop from line `i` on. */
  function ParseFrom(lim: Limits, corrected: bool, lines: seq<string>, i: nat, st: ParseState): (r: Result<Diff>)
    requires i <= |lines| && st.Valid()
    decreases |lines| - i
  {
    if i == |lines| then Ok(st.diff)
    else
      var next :- Step(lim, corrected, lines, i, st);
      match next
      case Stop(d) => Ok(d)
      case Continue(st1) => ParseFrom(lim, corrected, lines, i + 1, st1)
  }

  /** Parse: empty input is an exception; otherwise the text is split at `splitChar` and scanned. */
  function ParseText(lim: Limits, corrected: bool, text: string, splitChar: char): (r: Result<Diff>)
  {
    if |text| == 0 then Err(Failure("git diff result can not be null"))
    else ParseFrom(lim, corrected, Split(text, splitChar), 0, InitialState())
  }

  /** Parse as written. */
  function ParseDiff(lim: Limits, text: string, splitChar: char): (r: Result<Diff>)
  {
    ParseText(lim, false, text, splitChar)
  }

  /** Parse with empty lines skipped at the top level and quoted names unquoted. */
  function ParseDiffCorrected(lim: Limits, text: string, splitChar: char): (r: Result<Diff>)
  {
    ParseText(lim, true, text, splitChar)
  }

  // ---------------------------------------------------------------------------------
  // The classes.

  /** The lines of the diff and the position the parser is at. */
  class FileResult {
    var Result: seq<string>
    var Cursor: int

    constructor(result: seq<string>, cursor: int)
      ensures Result == result && Cursor == cursor
    {
      Result := result;
      Cursor := cursor;
    }
  }

  class DiffParser {
    var maxFiles: int
    var maxFileLines: int
    var maxLineChars: int

    constructor(maxFiles: int, maxFileLines: int, maxLineChars: int)
      ensures this.maxFiles == maxFiles && this.maxFileLines == maxFileLines && this.maxLineChars == maxLineChars
    {
      this.maxFileLines := maxFileLines;
      this.maxFiles := maxFiles;
      this.maxLineChars := maxLineChars;
    }

    /** The three limits the parser was made with. */
    function Bounds(): Limits
      reads this
    {
      Limits(maxFiles, maxFileLines, maxLineChars)
    }

    /** parseFileHeader: reads the header at the cursor and the extended header lines after it. */
    method ParseFileHeader(fr: FileResult) returns (r: Result<(DiffFile, int)>)
      requires 0 <= fr.Cursor < |fr.Result| && StartsWith(fr.Result[fr.Cursor], DiffHead)
      modifies fr
      ensures fr.Result == old(fr.Result)
      ensures r == FileHeader(fr.Result, old(fr.Cursor), false)
      ensures r.Ok? ==> fr.Cursor == r.value.1
    {
      var line := fr.Result[fr.Cursor];
      var middle := 0;
      var hasQuote := line[|line| - 1] == '"';
      if hasQuote {
        middle := IndexOf(line, " \"b/");
      } else {
        middle := IndexOf(line, " b/");
      }
      var beg := |DiffHead|;
      if middle < beg + 2 {
        return Err(ArgumentOutOfRange);
      }
      var a := line[beg + 2..middle];
      var b := line[middle + 3..];
      if hasQuote {
        if |a| == 0 {
          return Err(ArgumentOutOfRange);
        }
        assert line[middle + 3] == '/' by { assert line[middle..middle + 4][3] == '/'; }
        a := a[1..];
        b := b[1..];
      }
      assert HeaderNames(line, false) == Ok((a, b));
      var file := NewDiffFile().(Name := Some(a), Type := DiffFileChange);
      r := ReadExtendedHeader(fr, a, b, file);
    }

    /** The loop of parseFileHeader over the extended header lines after the cursor. */
    method ReadExtendedHeader(fr: FileResult, a: string, b: string, file0: DiffFile) returns (r: Result<(DiffFile, int)>)
      requires 0 <= fr.Cursor < |fr.Result|
      modifies fr
      ensures fr.Result == old(fr.Result)
      ensures r == ScanHeader(fr.Result, old(fr.Cursor) + 1, a, b, file0, old(fr.Cursor))
      ensures r.Ok? ==> fr.Cursor == r.value.1
    {
      var file := file0;
      var i := fr.Cursor + 1;
      while i < |fr.Result|
        invariant old(fr.Cursor) < i <= |fr.Result|
        invariant fr.Result == old(fr.Result)
        invariant ScanHeader(fr.Result, i, a, b, file, fr.Cursor) == ScanHeader(fr.Result, old(fr.Cursor) + 1, a, b, file0, old(fr.Cursor))
      {
        fr.Cursor := i;
        var line := fr.Result[i];
        if |line| == 0 {
          i := i + 1;
          continue;
        }
        if StartsWith(line, "new file") {
          file := file.(Type := DiffFileAdd, isSubmodule := EndsWith(line, " 160000"));
        } else if StartsWith(line, "deleted") {
          file := file.(Type := DiffFileDelete, isSubmodule := EndsWith(line, " 160000"));
        } else if StartsWith(line, "index") {
          if |line| < 6 {
            return Err(ArgumentOutOfRange);
          }
          var raw := line[6..];
          var fields := SplitOnWhiteSpace(raw);
          var shas := SplitOnDotAny(fields[0]);
          if |shas| != 2 {
            return Err(Failure("malformed index: expect two SHAs in the form of <old>..<new>"));
          }
          if file.IsDeleted() {
            file := file.(Index := Some(shas[0]));
          } else {
            file := file.(Index := Some(shas[1]));
          }
          return Ok((file, i));
        } else if StartsWith(line, "similarity index ") {
          file := file.(Type := DiffFileRename, oldName := Some(a), Name := Some(b));
          if EndsWith(line, "100%") {
            return Ok((file, i));
          }
        } else if StartsWith(line, "old mode") {
          return Ok((file, i));
        }
        i := i + 1;
      }
      r := Ok((file, fr.Cursor));
    }

    /** parseSection: reads the hunk at the cursor and its body lines, numbering them. */
    method ParseSection(fr: FileResult) returns (r: Result<(DiffSection, bool, int)>)
      requires 0 <= fr.Cursor < |fr.Result|
      modifies fr
      ensures fr.Result == old(fr.Result)
      ensures r == Section(maxLineChars, fr.Result, old(fr.Cursor))
      ensures r.Ok? ==> fr.Cursor == r.value.2
    {
      var line := fr.Result[fr.Cursor];
      var section := DiffSection([DiffLine(DiffLineSection, line, 0, 0)], 0, 0);
      var start := SectionStart(line);
      if start.Err? {
        return Err(start.error);
      }
      var body := ReadSectionBody(fr, section, start.value.0, start.value.1);
      r := Ok(body);
    }

    /** The body loop of parseSection, from the line after the cursor. */
    method ReadSectionBody(fr: FileResult, section: DiffSection, leftLine: int, rightLine: int)
      returns (r: (DiffSection, bool, int))
      requires 0 <= fr.Cursor < |fr.Result|
      modifies fr
      ensures fr.Result == old(fr.Result)
      ensures r == ScanSection(maxLineChars, fr.Result, old(fr.Cursor) + 1, section, leftLine, rightLine, old(fr.Cursor))
      ensures fr.Cursor == r.2
    {
      var maxChars := maxLineChars;
      var lines := fr.Result;
      var sec, left, right := section, leftLine, rightLine;
      ghost var target := ScanSection(maxChars, lines, fr.Cursor + 1, sec, left, right, fr.Cursor);
      var i := fr.Cursor + 1;
      while i < |lines|
        invariant old(fr.Cursor) < i <= |lines|
        invariant fr.Result == lines
        invariant ScanSection(maxChars, lines, i, sec, left, right, fr.Cursor) == target
      {
        fr.Cursor := i;
        var line := lines[i];
        if |line| == 0 {
          i := i + 1;
          continue;
        }
        if line[0] != ' ' && line[0] != '+' && line[0] != '-' {
          if line[0] == '\\' && StartsWith(line, NoNewline) {
            i := i + 1;
            continue;
          }
          return (sec, false, i);
        }
        if maxChars > 0 && Utf16Length(line) > maxChars {
          return (sec, true, i);
        }
        if line[0] == ' ' {
          sec := sec.(Lines := sec.Lines + [DiffLine(DiffLinePlain, line, left, right)]);
          left := Wrap32(left + 1);
          right := Wrap32(right + 1);
        } else if line[0] == '+' {
          sec := sec.(Lines := sec.Lines + [DiffLine(DiffLineAdd, line, 0, right)],
                      NumAdditions := sec.NumAdditions + 1);
          right := Wrap32(right + 1);
        } else {
          sec := sec.(Lines := sec.Lines + [DiffLine(DiffLineDelete, line, left, 0)],
                      NumDeletions := sec.NumDeletions + 1);
          if left > 0 {
            left := Wrap32(left + 1);
          }
        }
        i := i + 1;
      }
      r := (sec, false, fr.Cursor);
    }

    /**
     * Parse: splits the text into lines and runs the loop body on each line,
     * until the lines run out, a body stops the parse or raises an exception.
     */
    method Parse(lines: string, splitChar: char) returns (r: Result<Diff>)
      ensures r == ParseDiff(Bounds(), lines, splitChar)
    {
      var st := InitialState();
      if |lines| == 0 {
        return Err(Failure("git diff result can not be null"));
      }
      var fr := new FileResult(Split(lines, splitChar), 0);
      ghost var goal := ParseDiff(Bounds(), lines, splitChar);
      var i := 0;
      while i < |fr.Result|
        invariant 0 <= i <= |fr.Result|
        invariant fr.Result == Split(lines, splitChar)
        invariant st.Valid()
        invariant ParseFrom(Bounds(), false, fr.Result, i, st) == goal
      {
        var next := ParseLine(fr, i, st);
        if next.Err? {
          return Err(next.error);
        }
        if next.value.Stop? {
          return Ok(next.value.diff);
        }
        st := next.value.state;
        i := i + 1;
      }
      r := Ok(st.diff);
    }

    /**
     * The body of Parse's loop on line `i`. The current file is the last one
     * added to Files (or the one made before any header); a change to it is
     * written back there.
     */
    method ParseLine(fr: FileResult, i: nat, st: ParseState) returns (r: Result<Next>)
      requires i < |fr.Result| && st.Valid()
      modifies fr
      ensures fr.Result == old(fr.Result)
      ensures r == Step(Bounds(), false, fr.Result, i, st)
    {
      fr.Cursor := i;
      var line := fr.Result[fr.Cursor];
      var diff := st.diff;
      var file := st.Current();
      if StartsWith(line, "+++ ") || StartsWith(line, "--- ") {
        return Ok(Continue(st));
      }
      if StartsWith(line, DiffHead) {
        if maxFiles > 0 && |diff.Files| >= maxFiles {
          diff := diff.(isIncomplete := true);
          return Ok(Stop(diff));
        }
        var fh := ParseFileHeader(fr);
        if fh.Err? {
          return Err(fh.error);
        }
        file := fh.value.0;
        fr.Cursor := fh.value.1;
        diff := diff.(Files := diff.Files + [file]);
        return Ok(Continue(st.(diff := diff, attached := true, fileLines := 0)));
      }
      if file.isIncomplete {
        return Ok(Continue(st));
      }
      if StartsWith(line, "Binary") {
        file := file.(isBinary := true);
        return Ok(Continue(st.SetCurrent(file)));
      }
      if |line| == 0 {
        return Err(IndexOutOfRange);
      }
      if line[0] != '@' {
        return Ok(Continue(st));
      }
      if maxFileLines > 0 && st.fileLines > maxFileLines {
        file := file.(isIncomplete := true);
        var st1 := st.SetCurrent(file);
        return Ok(Continue(st1.(diff := st1.diff.(isIncomplete := true))));
      }
      var fs := ParseSection(fr);
      if fs.Err? {
        return Err(fs.error);
      }
      fr.Cursor := fs.value.2;
      r := Ok(Continue(st.AddSection(fs.value.0, fs.value.1)));
    }

    /** StreamParseDiff: reassigns the limits to themselves and parses. */
    method StreamParseDiff(lines: string, splitChar: char) returns (r: Result<Diff>)
      modifies this
      ensures Bounds() == old(Bounds())
      ensures r == ParseDiff(Bounds(), lines, splitChar)
    {
      this.maxFileLines := maxFileLines;
      this.maxFiles := maxFiles;
      this.maxLineChars := maxLineChars;
      r := Parse(lines, splitChar);
    }
  }
}
