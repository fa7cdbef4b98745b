/**
 * What Repository does with the standard output of the git commands whose
 * output it reads line by line: the short name of a reference, the
 * name-status classification of `git show --name-status`, the disk-usage
 * report of `git count-objects -v`, the reference listings of `git show-ref`
 * and `git ls-remote`, and the tag list of `git tag --list`.
 */
module OutputHandlers {
  import opened Base
  import opened Text
  import opened RepoOptions

  const RefsHeads: string := "refs/heads/"
  const RefsTags: string := "refs/tags/"

  /**
   * The standard-output text Command.RunAsync collects: each line it is
   * handed, followed by the split character when one is given.
   */
  function Collected(lines: seq<string>, splitChar: Option<char>): (s: string)
    ensures splitChar.Some? ==> |s| >= |lines|
  {
    if |lines| == 0 then ""
    else lines[0] + ((if splitChar.Some? then [splitChar.value] else []) + Collected(lines[1..], splitChar))
  }

  // ---------------------------------------------------------------------------------
  // RefShortName

  /** The short name of a branch or tag reference; any other reference is returned as it is. */
  function RefShortName(refname: string): (r: string)
    ensures StartsWith(refname, RefsHeads) ==> refname == RefsHeads + r
    ensures !StartsWith(refname, RefsHeads) && StartsWith(refname, RefsTags) ==> refname == RefsTags + r
    ensures !StartsWith(refname, RefsHeads) && !StartsWith(refname, RefsTags) ==> r == refname
  {
    if StartsWith(refname, RefsHeads) then refname[|RefsHeads|..]
    else if StartsWith(refname, RefsTags) then refname[|RefsTags|..]
    else refname
  }

  // ---------------------------------------------------------------------------------
  // git show --name-status

  datatype ChangeKind = Modify | Add | Delete

  /** A changed path and how it changed. */
  datatype Change = Change(kind: ChangeKind, path: string)

  function Letter(k: ChangeKind): string {
    match k
    case Modify => "M"
    case Add => "A"
    case Delete => "D"
  }

  /**
   * The change a line of the output reports: the line must start with M, A
   * or D, and the trimmed line split at tabs must have at least two pieces,
   * the first exactly one of those letters and the second the path.
   */
  function ChangeOf(item: string): Option<Change> {
    if !StartsWith(item, "M") && !StartsWith(item, "A") && !StartsWith(item, "D") then None
    else
      var status := Split(Trim(item), '\t');
      if |status| < 2 then None
      else if status[0] == "M" then Some(Change(Modify, status[1]))
      else if status[0] == "A" then Some(Change(Add, status[1]))
      else if status[0] == "D" then Some(Change(Delete, status[1]))
      else None
  }

  /** The path a line adds to the list of kind `k`: none or one. */
  function PathOf(item: string, k: ChangeKind): seq<string> {
    match ChangeOf(item)
    case Some(c) => if c.kind == k then [c.path] else []
    case None => []
  }

  /** The paths of kind `k` the lines report, in order. */
  function Paths(lines: seq<string>, k: ChangeKind): seq<string> {
    if |lines| == 0 then []
    else Paths(lines[..|lines| - 1], k) + PathOf(lines[|lines| - 1], k)
  }

  /** The handler given each output line: it appends the line's path to the list its status names. */
  method ReceiveNameStatus(fileStatus: NameStatus, item: string)
    modifies fileStatus
    ensures fileStatus.Added == old(fileStatus.Added) + PathOf(item, Add)
    ensures fileStatus.Removed == old(fileStatus.Removed) + PathOf(item, Delete)
    ensures fileStatus.Modified == old(fileStatus.Modified) + PathOf(item, Modify)
  {
    if !StartsWith(item, "M") && !StartsWith(item, "A") && !StartsWith(item, "D") {
      return;
    }
    var status := Split(Trim(item), '\t');
    if |status| < 2 {
      return;
    }
    if status[0] == "M" {
      fileStatus.Modified := fileStatus.Modified + [status[1]];
    } else if status[0] == "A" {
      fileStatus.Added := fileStatus.Added + [status[1]];
    } else if status[0] == "D" {
      fileStatus.Removed := fileStatus.Removed + [status[1]];
    }
  }

  /**
   * RepoShowNameStatus once git has run: every output line goes to the
   * handler; error output, or no output at all, fails the call.
   */
  method ShowNameStatus(lines: seq<string>, stderr: string) returns (r: Result<NameStatus>)
    ensures stderr != "" ==> r == Err(Failure(stderr))
    ensures stderr == "" && Collected(lines, None) == "" ==> r == Err(Failure("StdOut can not be null"))
    ensures stderr == "" && Collected(lines, None) != "" ==> r.Ok?
    ensures r.Ok? ==> && fresh(r.value)
                      && r.value.Added == Paths(lines, Add)
                      && r.value.Removed == Paths(lines, Delete)
                      && r.value.Modified == Paths(lines, Modify)
  {
    var fileStatus := new NameStatus();
    for i := 0 to |lines|
      invariant fileStatus.Added == Paths(lines[..i], Add)
      invariant fileStatus.Removed == Paths(lines[..i], Delete)
      invariant fileStatus.Modified == Paths(lines[..i], Modify)
    {
      assert lines[..i + 1][..i] == lines[..i];
      ReceiveNameStatus(fileStatus, lines[i]);
    }
    assert lines[..|lines|] == lines;
    if stderr != "" {
      return Err(Failure(stderr));
    }
    if Collected(lines, None) == "" {
      return Err(Failure("StdOut can not be null"));
    }
    return Ok(fileStatus);
  }

  // ---------------------------------------------------------------------------------
  // git count-objects -v

  /** The fields of CountObject, one per line of the report. */
  datatype CountField = Count | Size | InPack | Packs | SizePack | PrunePackable | Garbage | SizeGarbage

  /** The text a report line for the field starts with. */
  function Prefix(f: CountField): string {
    match f
    case Count => "count: "
    case Size => "size: "
    case InPack => "in-pack: "
    case Packs => "packs: "
    case SizePack => "size-pack: "
    case PrunePackable => "prune-packable: "
    case Garbage => "garbage: "
    case SizeGarbage => "size-garbage: "
  }

  /** Sizes are reported in KiB and stored in bytes. */
  function Scale(f: CountField): int {
    if f == Size || f == SizePack || f == SizeGarbage then 1024 else 1
  }

  /** The value of a product in unchecked 64-bit two's-complement arithmetic. */
  function Wrap64(v: int): (w: int)
    ensures Int64Min <= w <= Int64Max
    ensures Int64Min <= v <= Int64Max ==> w == v
  {
    (v - Int64Min) % 0x1_0000_0000_0000_0000 + Int64Min
  }

  /** The field a report line sets, if any. */
  function FieldOfLine(item: string): (r: Option<CountField>)
    ensures r.Some? ==> StartsWith(item, Prefix(r.value))
  {
    if StartsWith(item, "count: ") then Some(Count)
    else if StartsWith(item, "size: ") then Some(Size)
    else if StartsWith(item, "in-pack: ") then Some(InPack)
    else if StartsWith(item, "packs: ") then Some(Packs)
    else if StartsWith(item, "size-pack: ") then Some(SizePack)
    else if StartsWith(item, "prune-packable: ") then Some(PrunePackable)
    else if StartsWith(item, "garbage: ") then Some(Garbage)
    else if StartsWith(item, "size-garbage: ") then Some(SizeGarbage)
    else None
  }

  /** The value a line stores in field `f`: the number after the prefix, in bytes for sizes. */
  function Reading(item: string, f: CountField): (r: Result<int>)
    requires StartsWith(item, Prefix(f))
    ensures r.Ok? ==> Int64Min <= r.value <= Int64Max
  {
    var v :- ToInt64(item[|Prefix(f)|..]);
    Ok(Wrap64(v * Scale(f)))
  }

  /** The fields of a CountObject. */
  function Snapshot(co: CountObject): map<CountField, int>
    reads co
  {
    map[Count := co.Count, Size := co.Size, InPack := co.InPack, Packs := co.Packs,
        SizePack := co.SizePack, PrunePackable := co.PrunePackable, Garbage := co.Garbage,
        SizeGarbage := co.SizeGarbage]
  }

  /** A new CountObject: every field zero. */
  const Zero: map<CountField, int> :=
    map[Count := 0, Size := 0, InPack := 0, Packs := 0, SizePack := 0, PrunePackable := 0,
        Garbage := 0, SizeGarbage := 0]

  /** The fields after one line: its field is overwritten with its reading; a bad number fails. */
  function CountLine(m: map<CountField, int>, item: string): Result<map<CountField, int>> {
    match FieldOfLine(item)
    case None => Ok(m)
    case Some(f) =>
      var v :- Reading(item, f);
      Ok(m[f := v])
  }

  /** The fields after a sequence of lines, or the first conversion error. */
  function CountLines(m: map<CountField, int>, lines: seq<string>): Result<map<CountField, int>> {
    if |lines| == 0 then Ok(m)
    else
      var before :- CountLines(m, lines[..|lines| - 1]);
      CountLine(before, lines[|lines| - 1])
  }

  /** The handler given each output line: it stores the number of the field the line names. */
  method ReceiveCountLine(countObject: CountObject, item: string) returns (o: Outcome)
    modifies countObject
    ensures o.Pass? ==> CountLine(old(Snapshot(countObject)), item) == Ok(Snapshot(countObject))
    ensures o.Fail? ==> CountLine(old(Snapshot(countObject)), item) == Err(o.error)
  {
    match FieldOfLine(item)
    case None =>
      return Pass;
    case Some(f) =>
      var v := Reading(item, f);
      if v.Err? {
        return Fail(v.error);
      }
      SetCountField(countObject, f, v.value);
      return Pass;
  }

  /** Stores a value in one field of a CountObject. */
  method SetCountField(countObject: CountObject, f: CountField, v: int)
    modifies countObject
    ensures Snapshot(countObject) == old(Snapshot(countObject))[f := v]
  {
    match f {
      case Count => countObject.Count := v;
      case Size => countObject.Size := v;
      case InPack => countObject.InPack := v;
      case Packs => countObject.Packs := v;
      case SizePack => countObject.SizePack := v;
      case PrunePackable => countObject.PrunePackable := v;
      case Garbage => countObject.Garbage := v;
      case SizeGarbage => countObject.SizeGarbage := v;
    }
  }

  /**
   * RepoCountObjects once git has run: every output line goes to the
   * handler, and error output fails the call. A conversion error thrown by
   * the handler is returned here as the call's error; in the source it is
   * thrown inside the output event of the process, not to the caller.
   */
  method CountObjects(lines: seq<string>, stderr: string) returns (r: Result<CountObject>)
    ensures CountLines(Zero, lines).Err? ==> r == Err(CountLines(Zero, lines).error)
    ensures CountLines(Zero, lines).Ok? && stderr != "" ==> r == Err(Failure(stderr))
    ensures r.Ok? ==> fresh(r.value) && stderr == "" && CountLines(Zero, lines) == Ok(Snapshot(r.value))
    ensures CountLines(Zero, lines).Ok? && stderr == "" ==> r.Ok?
  {
    var countObject := new CountObject();
    assert Snapshot(countObject) == Zero;
    for i := 0 to |lines|
      invariant CountLines(Zero, lines[..i]) == Ok(Snapshot(countObject))
    {
      assert lines[..i + 1][..i] == lines[..i];
      var o := ReceiveCountLine(countObject, lines[i]);
      if o.Fail? {
        CountLinesFailFrom(lines, i + 1);
        return Err(o.error);
      }
    }
    assert lines[..|lines|] == lines;
    if stderr != "" {
      return Err(Failure(stderr));
    }
    return Ok(countObject);
  }

  /** Once a prefix of the lines fails, all of them fail with the same error. */
  lemma {:induction false} CountLinesFailFrom(lines: seq<string>, n: nat)
    requires n <= |lines| && CountLines(Zero, lines[..n]).Err?
    ensures CountLines(Zero, lines) == CountLines(Zero, lines[..n])
    decreases |lines| - n
  {
    if n < |lines| {
      assert lines[..n + 1][..n] == lines[..n];
      CountLinesFailFrom(lines, n + 1);
    } else {
      assert lines[..n] == lines;
    }
  }

  // ---------------------------------------------------------------------------------
  // git show-ref and git ls-remote

  /** The reference a line lists: first and last whitespace-separated field; a line with fewer than two is skipped. */
  function ReferenceOf(item: string): Option<Reference> {
    var fields := SplitOnWhiteSpace(item);
    if |fields| < 2 then None else Some(Reference(fields[0], fields[|fields| - 1]))
  }

  /** The references the lines list, in order. */
  function ReferencesOf(lines: seq<string>): seq<Reference> {
    if |lines| == 0 then []
    else ReferencesOf(lines[..|lines| - 1]) + (match ReferenceOf(lines[|lines| - 1])
                                                case Some(rf) => [rf]
                                                case None => [])
  }

  /**
   * ShowRef and LsRemote once git has run: error output fails the call, and
   * every line of the output text that has at least two fields becomes a
   * reference.
   */
  method ListReferences(stdout: string, stderr: string) returns (r: Result<seq<Reference>>)
    ensures stderr != "" ==> r == Err(Failure(stderr))
    ensures stderr == "" ==> r == Ok(ReferencesOf(Split(stdout, '\n')))
  {
    if stderr != "" {
      return Err(Failure(stderr));
    }
    var lines := Split(stdout, '\n');
    var refs: seq<Reference> := [];
    for i := 0 to |lines|
      invariant refs == ReferencesOf(lines[..i])
    {
      assert lines[..i + 1][..i] == lines[..i];
      assert ReferencesOf(lines[..i + 1]) == ReferencesOf(lines[..i]) + (match ReferenceOf(lines[i])
                                                                         case Some(rf) => [rf]
                                                                         case None => []);
      var fields := SplitOnWhiteSpace(lines[i]);
      if |fields| < 2 {
        continue;
      }
      refs := refs + [Reference(fields[0], fields[|fields| - 1])];
    }
    assert lines[..|lines|] == lines;
    return Ok(refs);
  }

  // ---------------------------------------------------------------------------------
  // git tag --list

  /** Puts `x` in front of the first tag that does not sort after it. */
  function InsertDescending(x: string, s: seq<string>): (r: seq<string>)
    ensures multiset(r) == multiset(s) + multiset{x}
  {
    if |s| == 0 then [x]
    else if OrdinalLess(x, s[0]) then
      assert s == [s[0]] + s[1..];
      [s[0]] + InsertDescending(x, s[1..])
    else [x] + s
  }

  /** Enumerable.OrderByDescending on the tag itself. */
  function SortDescending(xs: seq<string>): (r: seq<string>)
    ensures multiset(r) == multiset(xs)
  {
    if |xs| == 0 then []
    else
      assert xs == [xs[0]] + xs[1..];
      InsertDescending(xs[0], SortDescending(xs[1..]))
  }

  /** No tag sorts after an earlier one. */
  predicate Descending(s: seq<string>) {
    forall i, j :: 0 <= i < j < |s| ==> !OrdinalLess(s[i], s[j])
  }

  /**
   * RepoTags once git has run: error output fails the call; otherwise the
   * output text split at line breaks, without its last piece, ordered from
   * the greatest tag down.
   */
  function Tags(stdout: string, stderr: string): (r: Result<seq<string>>)
    ensures r.Err? <==> stderr != ""
  {
    if stderr != "" then Err(Failure(stderr))
    else
      var t := Split(stdout, '\n');
      Ok(SortDescending(t[..|t| - 1]))
  }
}
