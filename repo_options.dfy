/**
 * The option and result records of the repository operations (RepoOptions.cs)
 * that carry behaviour: the raw-diff format names, the records whose
 * constructors start their lists empty, and the records the output handlers
 * fill in.
 */
module RepoOptions {
  import opened Base

  // ---------------------------------------------------------------------------------
  // RawDiffFormat

  /** A C# enum: any int can be stored, two values are declared. */
  newtype RawDiffFormat = int

  const RawDiffNormal: RawDiffFormat := 0
  const RawDiffPatch: RawDiffFormat := 1

  predicate IsDeclared(f: RawDiffFormat) {
    f == RawDiffNormal || f == RawDiffPatch
  }

  /** RawDiffFormatOpt.ToRawDiffFormat: "diff" and "patch" name the two formats; any other text is null. */
  function ToRawDiffFormat(msg: string): (r: Option<RawDiffFormat>)
    ensures r.Some? ==> IsDeclared(r.value) && ToTypeString(r.value) == msg
    ensures r.None? <==> msg != "diff" && msg != "patch"
  {
    match msg
    case "diff" => Some(RawDiffNormal)
    case "patch" => Some(RawDiffPatch)
    case _ => None
  }

  /** RawDiffFormatExtensions.ToTypeString: the name of a declared format, "" for any other value. */
  function ToTypeString(f: RawDiffFormat): (s: string)
    ensures s == "" <==> !IsDeclared(f)
  {
    if f == RawDiffNormal then "diff"
    else if f == RawDiffPatch then "patch"
    else ""
  }

  /** Reading a format's name back gives the format. */
  lemma RawDiffFormatRoundTrip(f: RawDiffFormat)
    requires IsDeclared(f)
    ensures ToRawDiffFormat(ToTypeString(f)) == Some(f)
  {
  }

  /** The two formats have different names. */
  lemma RawDiffNamesDiffer()
    ensures ToTypeString(RawDiffNormal) != ToTypeString(RawDiffPatch)
  {
  }

  // ---------------------------------------------------------------------------------
  // Records with list-initialising constructors

  /** NameStatus: the paths a commit added, removed and modified. */
  class NameStatus {
    var Added: seq<string>
    var Removed: seq<string>
    var Modified: seq<string>

    constructor ()
      ensures Added == [] && Removed == [] && Modified == []
    {
      Added := [];
      Removed := [];
      Modified := [];
    }
  }

  /** FsckOptions: extra arguments for git fsck and a timeout. */
  class FsckOptions {
    var Args: seq<string>
    var Timeout: int

    constructor ()
      ensures Args == [] && Timeout == 0
    {
      Args := [];
      Timeout := 0;
    }
  }

  /** ShowRefOptions: whether to list heads and tags, the patterns to filter by, and a timeout. */
  class ShowRefOptions {
    var Heads: bool
    var Tags: bool
    var Patterns: seq<string>
    var Timeout: int

    constructor ()
      ensures !Heads && !Tags && Patterns == [] && Timeout == 0
    {
      Heads := false;
      Tags := false;
      Patterns := [];
      Timeout := 0;
    }
  }

  // ---------------------------------------------------------------------------------
  // Records the output handlers fill

  /** CountObject: the disk-usage report of git count-objects -v, sizes in bytes. */
  class CountObject {
    var Count: int
    var Size: int
    var InPack: int
    var Packs: int
    var SizePack: int
    var PrunePackable: int
    var Garbage: int
    var SizeGarbage: int

    constructor ()
      ensures Count == 0 && Size == 0 && InPack == 0 && Packs == 0
      ensures SizePack == 0 && PrunePackable == 0 && Garbage == 0 && SizeGarbage == 0
    {
      Count := 0;
      Size := 0;
      InPack := 0;
      Packs := 0;
      SizePack := 0;
      PrunePackable := 0;
      Garbage := 0;
      SizeGarbage := 0;
    }
  }

  /** Reference: an object id and the name of the reference pointing at it. */
  datatype Reference = Reference(ID: string, Refspec: string)
}
