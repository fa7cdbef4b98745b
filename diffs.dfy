/**
 * The diff data model (Diffs/DiffLine.cs, Diffs/DiffOptions.cs,
 * Diffs/DiffSection.cs, Diffs/DiffFile.cs, diffs/Diff.cs). The parser builds
 * these records; after parsing they are only read, so they are values here.
 */
module Diffs {
  import opened Base
  import Text

  /** DiffLineType, a C# enum whose declared values start at 1 (0 is the default of an unset field). */
  newtype DiffLineType = int

  const DiffLinePlain: DiffLineType := 1
  const DiffLineAdd: DiffLineType := 2
  const DiffLineDelete: DiffLineType := 3
  const DiffLineSection: DiffLineType := 4

  /** DiffFileType, a C# enum whose declared values start at 1. */
  newtype DiffFileType = int

  const DiffFileAdd: DiffFileType := 1
  const DiffFileChange: DiffFileType := 2
  const DiffFileDelete: DiffFileType := 3
  const DiffFileRename: DiffFileType := 4

  /** One line of a section; an unset line number is 0. */
  datatype DiffLine = DiffLine(Type: DiffLineType, Content: string, LeftLine: int, RightLine: int)

  predicate IsChange(t: DiffLineType) {
    t == DiffLineAdd || t == DiffLineDelete
  }

  // ---------------------------------------------------------------------------------
  // A reference description of what DiffSection.Line looks up.

  /**
   * The offset RightLine - LeftLine of the last context (non-change) line
   * among the first `i` lines, 0 if none. The subtraction is C#'s unchecked
   * Int32 one, so it wraps.
   */
  function OffsetBefore(lines: seq<DiffLine>, i: nat): int
    requires i <= |lines|
  {
    if i == 0 then 0
    else if IsChange(lines[i - 1].Type) then OffsetBefore(lines, i - 1)
    else Text.Wrap32(lines[i - 1].RightLine - lines[i - 1].LeftLine)
  }

  /** Additions since the last context line among the first `i` lines, counted by an Int32 `++` that wraps. */
  function RunAdds(lines: seq<DiffLine>, i: nat): int
    requires i <= |lines|
  {
    if i == 0 then 0
    else if lines[i - 1].Type == DiffLineAdd then Text.Wrap32(RunAdds(lines, i - 1) + 1)
    else if lines[i - 1].Type == DiffLineDelete then RunAdds(lines, i - 1)
    else 0
  }

  /** Deletions since the last context line among the first `i` lines, counted by an Int32 `++` that wraps. */
  function RunDels(lines: seq<DiffLine>, i: nat): int
    requires i <= |lines|
  {
    if i == 0 then 0
    else if lines[i - 1].Type == DiffLineDelete then Text.Wrap32(RunDels(lines, i - 1) + 1)
    else if lines[i - 1].Type == DiffLineAdd then RunDels(lines, i - 1)
    else 0
  }

  /** The run of changes that ends before position `i` has as many additions as deletions. */
  predicate Balanced(lines: seq<DiffLine>, i: nat)
    requires i <= |lines|
  {
    RunAdds(lines, i) == RunDels(lines, i)
  }

  /**
   * A line answers a lookup of type `typ` for line number `n` under offset `d`:
   * a deletion has no right number and left number n - d; an addition has no
   * left number and right number n + d, both in unchecked Int32 arithmetic.
   */
  predicate Matches(typ: DiffLineType, n: int, d: int, item: DiffLine) {
    (typ == DiffLineDelete && item.RightLine == 0 && item.LeftLine == Text.Wrap32(n - d))
    || (typ == DiffLineAdd && item.LeftLine == 0 && item.RightLine == Text.Wrap32(n + d))
  }

  /** Line `k` answers the lookup under the offset in force at `k` (a context line sets the offset itself). */
  predicate MatchesAt(lines: seq<DiffLine>, typ: DiffLineType, n: int, k: nat)
    requires k < |lines|
  {
    Matches(typ, n, OffsetBefore(lines, k + 1), lines[k])
  }

  /** The first position at or after `from` that answers the lookup, or -1. */
  function FirstMatch(lines: seq<DiffLine>, typ: DiffLineType, n: int, from: nat): (k: int)
    requires from <= |lines|
    ensures k == -1 || (from <= k < |lines| && MatchesAt(lines, typ, n, k))
    ensures forall j :: from <= j < |lines| && (k == -1 || j < k) ==> !MatchesAt(lines, typ, n, j)
    decreases |lines| - from
  {
    if from == |lines| then -1
    else if MatchesAt(lines, typ, n, from) then from
    else FirstMatch(lines, typ, n, from + 1)
  }

  /** The first context line at or after `j`, or the end. */
  function NextContext(lines: seq<DiffLine>, j: nat): (e: nat)
    requires j <= |lines|
    ensures j <= e <= |lines|
    ensures e < |lines| ==> !IsChange(lines[e].Type)
    ensures forall t :: j <= t < e ==> IsChange(lines[t].Type)
    decreases |lines| - j
  {
    if j == |lines| then j
    else if !IsChange(lines[j].Type) then j
    else NextContext(lines, j + 1)
  }

  /** The last position in [lo, hi) that answers the lookup, or -1. */
  function LastMatchIn(lines: seq<DiffLine>, typ: DiffLineType, n: int, lo: nat, hi: nat): (k: int)
    requires lo <= hi <= |lines|
    ensures k == -1 || (lo <= k < hi && MatchesAt(lines, typ, n, k))
    ensures forall j :: lo <= j < hi && k < j ==> !MatchesAt(lines, typ, n, j)
    decreases hi
  {
    if hi == lo then -1
    else if MatchesAt(lines, typ, n, hi - 1) then hi - 1
    else LastMatchIn(lines, typ, n, lo, hi - 1)
  }

  /**
   * What DiffSection.Line answers, as a position (-1 for null): the last
   * matching line of the first run of changes that holds a match, provided that
   * run is balanced when it ends; with no match at all, null provided the final
   * run is balanced. An unbalanced run is the "diff line error".
   */
  function ExpectedLine(lines: seq<DiffLine>, typ: DiffLineType, n: int): (r: Result<int>)
    ensures r.Ok? ==> -1 <= r.value < |lines|
  {
    var f := FirstMatch(lines, typ, n, 0);
    if f == -1 then
      if Balanced(lines, |lines|) then Ok(-1) else Err(Failure("diff line error"))
    else
      var e := NextContext(lines, f + 1);
      if Balanced(lines, e) then Ok(LastMatchIn(lines, typ, n, f, e)) else Err(Failure("diff line error"))
  }

  // ---------------------------------------------------------------------------------
  // The lookup loop of DiffSection.Line, as a function of its loop state.

  /** The end of the lookup: the pending match if the current run is balanced, an error otherwise. */
  function Finish(addCount: int, delCount: int, matchedAt: int): Result<int> {
    if addCount == delCount then Ok(matchedAt) else Err(Failure("diff line error"))
  }

  /** The offset after `item`: a context line sets it to its own RightLine - LeftLine (wrapping). */
  function NextOffset(item: DiffLine, difference: int): int {
    if IsChange(item.Type) then difference else Text.Wrap32(item.RightLine - item.LeftLine)
  }

  /** The addition count after a line of type `t`: an addition counts (wrapping), a context line restarts. */
  function NextAdds(t: DiffLineType, addCount: int): int {
    if t == DiffLineAdd then Text.Wrap32(addCount + 1) else if IsChange(t) then addCount else 0
  }

  /** The deletion count after a line of type `t`. */
  function NextDels(t: DiffLineType, delCount: int): int {
    if t == DiffLineDelete then Text.Wrap32(delCount + 1) else if IsChange(t) then delCount else 0
  }

  /**
   * The rest of the lookup from line `i`, with the loop's variables: the
   * current offset, the run's addition and deletion counts, and the position
   * of the pending match (-1 for none).
   */
  function LineFrom(lines: seq<DiffLine>, i: nat, typ: DiffLineType, n: int,
                    difference: int, addCount: int, delCount: int, matchedAt: int): (r: Result<int>)
    requires i <= |lines| && -1 <= matchedAt < i
    ensures r.Ok? ==> -1 <= r.value < |lines|
    decreases |lines| - i
  {
    if i == |lines| then Finish(addCount, delCount, matchedAt)
    else
      var item := lines[i];
      if !IsChange(item.Type) && matchedAt >= 0 then Finish(addCount, delCount, matchedAt)
      else
        var d := NextOffset(item, difference);
        var a := NextAdds(item.Type, addCount);
        var x := NextDels(item.Type, delCount);
        var m := if Matches(typ, n, d, item) then i else matchedAt;
        LineFrom(lines, i + 1, typ, n, d, a, x, m)
  }

  /** The whole lookup. */
  function LineAt(lines: seq<DiffLine>, typ: DiffLineType, n: int): (r: Result<int>)
    ensures r.Ok? ==> -1 <= r.value < |lines|
  {
    LineFrom(lines, 0, typ, n, 0, 0, 0, -1)
  }

  /** The loop state keeps the reference description's answer. */
  lemma {:induction false} LineFromExpected(lines: seq<DiffLine>, i: nat, typ: DiffLineType, n: int,
                                            difference: int, addCount: int, delCount: int, matchedAt: int)
    requires i <= |lines| && -1 <= matchedAt < i
    requires difference == OffsetBefore(lines, i)
    requires addCount == RunAdds(lines, i) && delCount == RunDels(lines, i)
    requires matchedAt == -1 ==> FirstMatch(lines, typ, n, 0) == FirstMatch(lines, typ, n, i)
    requires matchedAt >= 0 ==>
               var f := FirstMatch(lines, typ, n, 0);
               0 <= f < i && NextContext(lines, f + 1) >= i && matchedAt == LastMatchIn(lines, typ, n, f, i)
    ensures LineFrom(lines, i, typ, n, difference, addCount, delCount, matchedAt) == ExpectedLine(lines, typ, n)
    decreases |lines| - i
  {
    var f := FirstMatch(lines, typ, n, 0);
    if i == |lines| {
      assert LineFrom(lines, i, typ, n, difference, addCount, delCount, matchedAt) == Finish(addCount, delCount, matchedAt);
      if matchedAt >= 0 {
        assert NextContext(lines, f + 1) == i;
      }
    } else {
      var item := lines[i];
      if !IsChange(item.Type) && matchedAt >= 0 {
        assert LineFrom(lines, i, typ, n, difference, addCount, delCount, matchedAt) == Finish(addCount, delCount, matchedAt);
        assert NextContext(lines, f + 1) == i;
      } else {
        var d := NextOffset(item, difference);
        var a := NextAdds(item.Type, addCount);
        var x := NextDels(item.Type, delCount);
        var m := if Matches(typ, n, d, item) then i else matchedAt;
        LineFromStep(lines, i, typ, n, difference, addCount, delCount, matchedAt);
        LineStepKeeps(lines, i, typ, n, difference, addCount, delCount, matchedAt);
        LineFromExpected(lines, i + 1, typ, n, d, a, x, m);
      }
    }
  }

  /** A line that does not finish the lookup hands the updated loop state to the next line. */
  lemma LineFromStep(lines: seq<DiffLine>, i: nat, typ: DiffLineType, n: int,
                     difference: int, addCount: int, delCount: int, matchedAt: int)
    requires i < |lines| && -1 <= matchedAt < i
    requires IsChange(lines[i].Type) || matchedAt < 0
    ensures var item := lines[i];
            var d := NextOffset(item, difference);
            var m := if Matches(typ, n, d, item) then i else matchedAt;
            LineFrom(lines, i, typ, n, difference, addCount, delCount, matchedAt)
            == LineFrom(lines, i + 1, typ, n, d, NextAdds(item.Type, addCount), NextDels(item.Type, delCount), m)
  {
  }

  /** After line `i` the loop's offset and counts are the reference offset and run counts. */
  lemma LineStepCounts(lines: seq<DiffLine>, i: nat, difference: int, addCount: int, delCount: int)
    requires i < |lines|
    requires difference == OffsetBefore(lines, i)
    requires addCount == RunAdds(lines, i) && delCount == RunDels(lines, i)
    ensures NextOffset(lines[i], difference) == OffsetBefore(lines, i + 1)
    ensures NextAdds(lines[i].Type, addCount) == RunAdds(lines, i + 1)
    ensures NextDels(lines[i].Type, delCount) == RunDels(lines, i + 1)
  {
  }

  /** One step of the lookup loop that does not finish keeps LineFromExpected's requirements. */
  lemma LineStepKeeps(lines: seq<DiffLine>, i: nat, typ: DiffLineType, n: int,
                      difference: int, addCount: int, delCount: int, matchedAt: int)
    requires i < |lines| && -1 <= matchedAt < i
    requires IsChange(lines[i].Type) || matchedAt < 0
    requires difference == OffsetBefore(lines, i)
    requires addCount == RunAdds(lines, i) && delCount == RunDels(lines, i)
    requires matchedAt == -1 ==> FirstMatch(lines, typ, n, 0) == FirstMatch(lines, typ, n, i)
    requires matchedAt >= 0 ==>
               var f := FirstMatch(lines, typ, n, 0);
               0 <= f < i && NextContext(lines, f + 1) >= i && matchedAt == LastMatchIn(lines, typ, n, f, i)
    ensures var item := lines[i];
            var d := NextOffset(item, difference);
            var m := if Matches(typ, n, d, item) then i else matchedAt;
            var f := FirstMatch(lines, typ, n, 0);
            && d == OffsetBefore(lines, i + 1)
            && NextAdds(item.Type, addCount) == RunAdds(lines, i + 1)
            && NextDels(item.Type, delCount) == RunDels(lines, i + 1)
            && -1 <= m < i + 1
            && (m == -1 ==> f == FirstMatch(lines, typ, n, i + 1))
            && (m >= 0 ==> 0 <= f < i + 1 && NextContext(lines, f + 1) >= i + 1 && m == LastMatchIn(lines, typ, n, f, i + 1))
  {
    LineStepCounts(lines, i, difference, addCount, delCount);
    if matchedAt >= 0 {
      assert NextContext(lines, FirstMatch(lines, typ, n, 0) + 1) >= i + 1;
    }
  }

  /** The lookup loop computes exactly the reference description. */
  lemma LineAtExpected(lines: seq<DiffLine>, typ: DiffLineType, n: int)
    ensures LineAt(lines, typ, n) == ExpectedLine(lines, typ, n)
  {
    LineFromExpected(lines, 0, typ, n, 0, 0, 0, -1);
  }

  /** A line found by the lookup is a line of the section and matches the offset in force at it. */
  lemma LineAtMatches(lines: seq<DiffLine>, typ: DiffLineType, n: int)
    ensures var r := LineAt(lines, typ, n);
            r.Ok? && r.value >= 0 ==>
              MatchesAt(lines, typ, n, r.value)
              && (typ == DiffLineDelete ==>
                    lines[r.value].RightLine == 0 && lines[r.value].LeftLine == Text.Wrap32(n - OffsetBefore(lines, r.value + 1)))
              && (typ == DiffLineAdd ==>
                    lines[r.value].LeftLine == 0 && lines[r.value].RightLine == Text.Wrap32(n + OffsetBefore(lines, r.value + 1)))
  {
    LineAtExpected(lines, typ, n);
  }

  /** Null is returned exactly when no line matches and the final run is balanced. */
  lemma LineAtNull(lines: seq<DiffLine>, typ: DiffLineType, n: int)
    ensures LineAt(lines, typ, n) == Ok(-1) <==>
              (forall k :: 0 <= k < |lines| ==> !MatchesAt(lines, typ, n, k)) && Balanced(lines, |lines|)
  {
    LineAtExpected(lines, typ, n);
    var f := FirstMatch(lines, typ, n, 0);
    if f != -1 {
      assert MatchesAt(lines, typ, n, f);
    }
  }

  /** Within the run of the returned line, no later line matches: the last match wins. */
  lemma LineAtLastWins(lines: seq<DiffLine>, typ: DiffLineType, n: int)
    ensures var r := LineAt(lines, typ, n);
            r.Ok? && r.value >= 0 ==>
              forall j :: r.value < j < NextContext(lines, r.value + 1) ==> !MatchesAt(lines, typ, n, j)
  {
    LineAtExpected(lines, typ, n);
    var r := LineAt(lines, typ, n);
    if r.Ok? && r.value >= 0 {
      var f := FirstMatch(lines, typ, n, 0);
      var e := NextContext(lines, f + 1);
      NextContextWithin(lines, f + 1, r.value + 1);
    }
  }

  /** The next context line seen from inside a run of changes is the one that ends the run. */
  lemma {:induction false} NextContextWithin(lines: seq<DiffLine>, j: nat, k: nat)
    requires j <= |lines| && j <= k <= NextContext(lines, j)
    ensures NextContext(lines, k) == NextContext(lines, j)
    decreases k - j
  {
    if j < k {
      NextContextWithin(lines, j + 1, k);
    }
  }

  /** A lookup whose type is neither Add nor Delete never finds a line. */
  lemma LineAtOtherType(lines: seq<DiffLine>, typ: DiffLineType, n: int)
    requires typ != DiffLineAdd && typ != DiffLineDelete
    ensures LineAt(lines, typ, n).Ok? ==> LineAt(lines, typ, n).value == -1
  {
    LineAtExpected(lines, typ, n);
  }

  /**
   * The offsets wrap: after a context line with left number -1 and right
   * number Int32Max the offset is Int32Min, so a lookup of the deletion for
   * line Int32Min aims at left number 0 and finds the deleted line.
   */
  lemma LineAtWrappedOffset()
    ensures var ls := [ DiffLine(DiffLineSection, "@@ --1 +2147483647 @@", 0, 0),
                        DiffLine(DiffLinePlain, " c", -1, Text.Int32Max),
                        DiffLine(DiffLineDelete, "-d", 0, 0),
                        DiffLine(DiffLineAdd, "+e", 0, Text.Int32Min) ];
            OffsetBefore(ls, 2) == Text.Int32Min && LineAt(ls, DiffLineDelete, Text.Int32Min) == Ok(2)
  {
    var ls := [ DiffLine(DiffLineSection, "@@ --1 +2147483647 @@", 0, 0),
                DiffLine(DiffLinePlain, " c", -1, Text.Int32Max),
                DiffLine(DiffLineDelete, "-d", 0, 0),
                DiffLine(DiffLineAdd, "+e", 0, Text.Int32Min) ];
    var n := Text.Int32Min;
    LineAtExpected(ls, DiffLineDelete, n);
    assert OffsetBefore(ls, 1) == 0;
    assert Text.Wrap32(Text.Int32Max + 1) == Text.Int32Min;
    assert OffsetBefore(ls, 2) == Text.Int32Min;
    assert OffsetBefore(ls, 3) == Text.Int32Min;
    assert !MatchesAt(ls, DiffLineDelete, n, 0);
    assert !MatchesAt(ls, DiffLineDelete, n, 1);
    assert MatchesAt(ls, DiffLineDelete, n, 2);
    assert FirstMatch(ls, DiffLineDelete, n, 2) == 2;
    assert FirstMatch(ls, DiffLineDelete, n, 0) == 2;
    assert NextContext(ls, 3) == 4;
    assert !MatchesAt(ls, DiffLineDelete, n, 3);
    assert LastMatchIn(ls, DiffLineDelete, n, 2, 4) == 2;
    assert RunAdds(ls, 2) == 0 && RunDels(ls, 2) == 0;
    assert Balanced(ls, 4);
  }

  /** A hunk of a file: its header line first, then its body lines. */
  datatype DiffSection = DiffSection(Lines: seq<DiffLine>, NumAdditions: int, NumDeletions: int) {

    /** NumLines: the number of entries in Lines, the header included. */
    function NumLines(): (n: nat)
      ensures n == |Lines|
    {
      |Lines|
    }

    /**
     * Line: finds the addition or deletion with the given line number, by the
     * offset of the nearest preceding context line (offsets, targets and run
     * counts in unchecked Int32 arithmetic); null if there is none, and
     * an exception if the run holding the answer (or the last run) has unequal
     * numbers of additions and deletions. The section is not changed.
     */
    method Line(typ: DiffLineType, line: int) returns (r: Result<Option<DiffLine>>)
      ensures r.Ok? <==> LineAt(Lines, typ, line).Ok?
      ensures r.Ok? ==> var k := LineAt(Lines, typ, line).value;
                        r.value == if k == -1 then None else Some(Lines[k])
    {
      var difference := 0;
      var addCount := 0;
      var delCount := 0;
      var matchedDiffLine: Option<DiffLine> := None;
      ghost var matchedAt := -1;
      var i := 0;
      while i < |Lines|
        invariant 0 <= i <= |Lines| && -1 <= matchedAt < i
        invariant matchedDiffLine == if matchedAt == -1 then None else Some(Lines[matchedAt])
        invariant LineFrom(Lines, i, typ, line, difference, addCount, delCount, matchedAt)
                  == LineAt(Lines, typ, line)
      {
        var item := Lines[i];
        if item.Type == DiffLineAdd {
          addCount := Text.Wrap32(addCount + 1);
        } else if item.Type == DiffLineDelete {
          delCount := Text.Wrap32(delCount + 1);
        } else {
          if matchedDiffLine.Some? {
            if addCount == delCount {
              return Ok(matchedDiffLine);
            }
            return Err(Failure("diff line error"));
          }
          difference := Text.Wrap32(item.RightLine - item.LeftLine);
          addCount := 0;
          delCount := 0;
        }
        if typ == DiffLineDelete {
          if item.RightLine == 0 && item.LeftLine == Text.Wrap32(line - difference) {
            matchedDiffLine := Some(item);
            matchedAt := i;
          }
        } else if typ == DiffLineAdd {
          if item.LeftLine == 0 && item.RightLine == Text.Wrap32(line + difference) {
            matchedDiffLine := Some(item);
            matchedAt := i;
          }
        }
        i := i + 1;
      }
      if addCount == delCount {
        return Ok(matchedDiffLine);
      }
      return Err(Failure("diff line error"));
    }
  }

  /** One file of a diff. Counters and flags are written by the parser; the rest only reads them. */
  datatype DiffFile = DiffFile(
    Name: Option<string>,
    Type: DiffFileType,
    Index: Option<string>,
    Sections: seq<DiffSection>,
    numAdditions: int,
    numDeletions: int,
    oldName: Option<string>,
    isBinary: bool,
    isSubmodule: bool,
    isIncomplete: bool)
  {
    function NumSections(): (n: nat)
      ensures n == |Sections|
    {
      |Sections|
    }

    function NumAdditions(): int { numAdditions }

    function NumDeletions(): int { numDeletions }

    predicate IsCreated() { Type == DiffFileAdd }

    predicate IsDeleted() { Type == DiffFileDelete }

    predicate IsRenamed() { Type == DiffFileRename }

    function OldName(): Option<string> { oldName }

    predicate IsBinary() { isBinary }

    predicate IsSubmodule() { isSubmodule }

    predicate IsIncomplete() { isIncomplete }
  }

  /** The file `new DiffFile()` makes: every field at its default, no sections. */
  function NewDiffFile(): (f: DiffFile)
    ensures f.NumSections() == 0 && f.NumAdditions() == 0 && f.NumDeletions() == 0
    ensures !f.IsCreated() && !f.IsDeleted() && !f.IsRenamed()
    ensures !f.IsBinary() && !f.IsSubmodule() && !f.IsIncomplete() && f.OldName() == None
  {
    DiffFile(None, 0, None, [], 0, 0, None, false, false, false)
  }

  /** IsCreated, IsDeleted and IsRenamed each test one file type, so at most one holds. */
  lemma TypePredicatesExclusive(f: DiffFile)
    ensures f.IsCreated() <==> f.Type == DiffFileAdd
    ensures f.IsDeleted() <==> f.Type == DiffFileDelete
    ensures f.IsRenamed() <==> f.Type == DiffFileRename
    ensures !(f.IsCreated() && f.IsDeleted()) && !(f.IsCreated() && f.IsRenamed()) && !(f.IsDeleted() && f.IsRenamed())
  {
  }

  /** A whole diff. */
  datatype Diff = Diff(Files: seq<DiffFile>, totalAdditions: int, totalDeletions: int, isIncomplete: bool) {
    function NumFiles(): (n: nat)
      ensures n == |Files|
    {
      |Files|
    }

    function TotalAdditions(): int { totalAdditions }

    function TotalDeletions(): int { totalDeletions }

    predicate IsIncomplete() { isIncomplete }
  }

  /** The diff `new Diff()` makes. */
  function NewDiff(): (d: Diff)
    ensures d.NumFiles() == 0 && d.TotalAdditions() == 0 && d.TotalDeletions() == 0 && !d.IsIncomplete()
  {
    Diff([], 0, 0, false)
  }

  // ---------------------------------------------------------------------------------
  // The section of the unit test for DiffSection.Line (a pom.xml change).

  const PomDelete: DiffLine := DiffLine(DiffLineDelete, "-  <groupId>com.ambientideas</groupId>", 4, 0)
  const PomAdd: DiffLine := DiffLine(DiffLineAdd, "+  <groupId>com.github</groupId", 0, 4)

  function PomLines(): seq<DiffLine> {
    [ DiffLine(DiffLineSection, "@@ -1,7 +1,7 @@", 0, 0),
      DiffLine(DiffLinePlain, " <project>", 1, 1),
      DiffLine(DiffLinePlain, "   xsi:schemaLocation", 2, 2),
      DiffLine(DiffLinePlain, "   <modelVersion>4.0.0</modelVersion>", 3, 3),
      PomDelete,
      PomAdd,
      DiffLine(DiffLinePlain, "   <artifactId>egitdemo</artifactId>", 5, 5),
      DiffLine(DiffLinePlain, "   <packaging>jar</packaging>", 6, 6),
      DiffLine(DiffLinePlain, "   <version>1.0-SNAPSHOT</version>", 7, 7) ]
  }

  /** The offsets and run counts of the fixture, line by line. */
  lemma PomOffsets()
    ensures OffsetBefore(PomLines(), 1) == 0 && OffsetBefore(PomLines(), 2) == 0
    ensures OffsetBefore(PomLines(), 3) == 0 && OffsetBefore(PomLines(), 4) == 0
    ensures OffsetBefore(PomLines(), 5) == 0 && OffsetBefore(PomLines(), 6) == 0
    ensures RunAdds(PomLines(), 6) == 1 && RunDels(PomLines(), 6) == 1
    ensures NextContext(PomLines(), 5) == 6
  {
    var ls := PomLines();
    assert OffsetBefore(ls, 0) == 0;
    assert OffsetBefore(ls, 1) == 0;
    assert OffsetBefore(ls, 2) == 0;
    assert OffsetBefore(ls, 3) == 0;
    assert OffsetBefore(ls, 4) == 0;
    assert OffsetBefore(ls, 5) == 0;
    assert OffsetBefore(ls, 6) == 0;
    assert RunAdds(ls, 4) == 0 && RunDels(ls, 4) == 0;
    assert NextContext(ls, 6) == 6;
  }

  /** Line(Delete, 4) on the fixture finds the deleted line. */
  lemma PomFixtureDelete()
    ensures LineAt(PomLines(), DiffLineDelete, 4) == Ok(4) && PomLines()[4] == PomDelete
  {
    var ls := PomLines();
    PomOffsets();
    LineAtExpected(ls, DiffLineDelete, 4);
    assert !MatchesAt(ls, DiffLineDelete, 4, 0);
    assert !MatchesAt(ls, DiffLineDelete, 4, 1);
    assert !MatchesAt(ls, DiffLineDelete, 4, 2);
    assert !MatchesAt(ls, DiffLineDelete, 4, 3);
    assert MatchesAt(ls, DiffLineDelete, 4, 4);
    assert FirstMatch(ls, DiffLineDelete, 4, 4) == 4;
    assert FirstMatch(ls, DiffLineDelete, 4, 3) == 4;
    assert FirstMatch(ls, DiffLineDelete, 4, 2) == 4;
    assert FirstMatch(ls, DiffLineDelete, 4, 1) == 4;
    assert FirstMatch(ls, DiffLineDelete, 4, 0) == 4;
    assert !MatchesAt(ls, DiffLineDelete, 4, 5);
    assert LastMatchIn(ls, DiffLineDelete, 4, 4, 5) == 4;
    assert LastMatchIn(ls, DiffLineDelete, 4, 4, 6) == 4;
    assert Balanced(ls, 6);
  }

  /** Line(Add, 4) on the fixture finds the added line. */
  lemma PomFixtureAdd()
    ensures LineAt(PomLines(), DiffLineAdd, 4) == Ok(5) && PomLines()[5] == PomAdd
  {
    var ls := PomLines();
    PomOffsets();
    LineAtExpected(ls, DiffLineAdd, 4);
    assert MatchesAt(ls, DiffLineAdd, 4, 5);
    assert FirstMatch(ls, DiffLineAdd, 4, 5) == 5;
    assert FirstMatch(ls, DiffLineAdd, 4, 4) == 5;
    assert FirstMatch(ls, DiffLineAdd, 4, 3) == 5;
    assert FirstMatch(ls, DiffLineAdd, 4, 2) == 5;
    assert FirstMatch(ls, DiffLineAdd, 4, 1) == 5;
    assert FirstMatch(ls, DiffLineAdd, 4, 0) == 5;
    assert LastMatchIn(ls, DiffLineAdd, 4, 5, 6) == 5;
  }
}
