/**
 * The commit record of the commits namespace (commits/Commit.cs): its parent
 * accessors, its summary line, and the scanner that reads the submodules of
 * the commit from its ".gitmodules" text into the map shared by all commits.
 */
module Commits {
  import opened Base
  import opened Text
  import opened Sha1
  import opened Signatures

  /** A submodule: its path, its URL and the commit id rev-parse reports for it. */
  datatype Submodule = Submodule(Name: string, URL: string, Commit: string)

  /**
   * The first line of a message, which is what Summary returns: the longest
   * prefix without a '\n'.
   */
  function FirstLine(message: string): (s: string)
    ensures '\n' !in s
    ensures StartsWith(message, s)
    ensures |s| < |message| ==> message[|s|] == '\n'
  {
    SplitFirst(message, '\n');
    Split(message, '\n')[0]
  }

  /** SHA1.String() on a commit's id: null throws, an id of fewer than 20 bytes overruns. */
  function IdText(id: Option<SHA1>): (r: Result<string>)
    ensures r.Ok? ==> id.Some? && |r.value| == 40
  {
    if id.None? then Err(NullReference)
    else if |id.value.Bytes| < 20 then Err(IndexOutOfRange)
    else
      HexStringLength(id.value.Bytes[..20]);
      Ok(HexString(id.value.Bytes[..20]))
  }

  /** The hex form has two characters per byte. */
  lemma {:induction false} HexStringLength(bs: seq<byte>)
    ensures |HexString(bs)| == 2 * |bs|
  {
    if |bs| > 0 {
      HexStringLength(bs[1..]);
      HexStringAppend([bs[0]], bs[1..]);
      assert [bs[0]] + bs[1..] == bs;
    }
  }

  /** The ".gitmodules" scanner's variables: inside a "[submodule" section, the pending path, and the map. */
  datatype ScanState = ScanState(inSection: bool, path: string, mods: map<string, Submodule>)

  /**
   * One line of ".gitmodules": empty lines are skipped, a "[submodule" line
   * opens a section, lines outside a section are skipped; inside one, "path"
   * sets the pending path and "url" adds a submodule under that path (unless
   * the path is already present) and closes the section. The value is the
   * trimmed text between the first and the second run of '='; a key with no
   * '=' after it overruns the field array.
   */
  function ScanLine(st: ScanState, item: string, id: Option<SHA1>, revParse: string -> string): (r: Result<ScanState>)
  {
    if item == "" then Ok(st)
    else if StartsWith(item, "[submodule") then Ok(st.(inSection := true))
    else if !st.inSection then Ok(st)
    else ScanField(st, SplitOnEquals(item), id, revParse)
  }

  /** A line inside a section, split on its runs of '=': the switch on the trimmed key. */
  function ScanField(st: ScanState, fields: seq<string>, id: Option<SHA1>, revParse: string -> string): (r: Result<ScanState>)
    requires |fields| >= 1
  {
    var key := Trim(fields[0]);
    if key == "path" then
      if |fields| < 2 then Err(IndexOutOfRange) else Ok(st.(path := Trim(fields[1])))
    else if key == "url" then
      if |fields| < 2 then Err(IndexOutOfRange)
      else
        var rev :- IdText(id);
        var m := Submodule(st.path, Trim(fields[1]), revParse(rev + ":" + st.path));
        var mods := if st.path in st.mods then st.mods else st.mods[st.path := m];
        Ok(ScanState(false, st.path, mods))
    else Ok(st)
  }

  /**
   * The scan of all lines in order. A failing line ends it; the map keeps
   * what was added before, since the source adds to the shared map as it goes.
   */
  function Scan(st: ScanState, lines: seq<string>, id: Option<SHA1>, revParse: string -> string): (ScanState, Outcome)
    decreases |lines|
  {
    if |lines| == 0 then (st, Pass)
    else
      match ScanLine(st, lines[0], id, revParse)
      case Err(e) => (st, Fail(e))
      case Ok(next) => Scan(next, lines[1..], id, revParse)
  }

  /** The static Submodules map that every commit shares. */
  class SubmoduleRegistry {
    var Submodules: map<string, Submodule>

    constructor ()
      ensures Submodules == map[]
    {
      Submodules := map[];
    }
  }

  class Commit {
    var ID: Option<SHA1>
    var TreeID: Option<SHA1>
    var Author: Option<Signature>
    var Committer: Option<Signature>
    var Message: Option<string>
    var Parents: seq<SHA1>
    /** The static map, reached through the commit. */
    var shared: SubmoduleRegistry

    /** A new commit has no parents and empties the map every commit shares. */
    constructor (registry: SubmoduleRegistry)
      modifies registry
      ensures shared == registry && registry.Submodules == map[]
      ensures Parents == [] && ID == None && TreeID == None
      ensures Author == None && Committer == None && Message == None
    {
      ID := None;
      TreeID := None;
      Author := None;
      Committer := None;
      Message := None;
      Parents := [];
      shared := registry;
      registry.Submodules := map[];
    }

    /** Summary: the message's first line; a missing message throws. */
    function Summary(): (r: Result<string>)
      reads this
      ensures r.Ok? <==> Message.Some?
      ensures r.Ok? ==> r.value == FirstLine(Message.value)
    {
      if Message.None? then Err(NullReference) else Ok(FirstLine(Message.value))
    }

    /** ParentsCount: the number of parents, 0 exactly for a root commit. */
    function ParentsCount(): (n: nat)
      reads this
      ensures n == |Parents|
      ensures n == 0 <==> Parents == []
    {
      |Parents|
    }

    /**
     * ParentID: the n-th parent. An n at or past the count throws the
     * source's message; a negative n is refused by the list indexer.
     */
    function ParentID(n: int): (r: Result<SHA1>)
      reads this
      ensures r.Ok? <==> 0 <= n < ParentsCount()
      ensures r.Ok? ==> r.value == Parents[n]
      ensures n >= ParentsCount() ==> r == Err(Failure("n can not be greater than parents count"))
      ensures n < 0 && n < ParentsCount() ==> r == Err(ArgumentOutOfRange)
    {
      if n >= |Parents| then Err(Failure("n can not be greater than parents count"))
      else if n < 0 then Err(ArgumentOutOfRange)
      else Ok(Parents[n])
    }

    /**
     * Ancestors: a root commit has none; otherwise the answer is what git log
     * reports from the commit on, passed in as `log`.
     */
    function Ancestors<C>(log: seq<C>): (r: seq<C>)
      reads this
      ensures ParentsCount() == 0 ==> r == []
      ensures ParentsCount() > 0 ==> r == log
    {
      if |Parents| == 0 then [] else log
    }

    /**
     * GetSubmodules. A non-empty shared map is returned as it is. With no
     * ".gitmodules" entry the answer is a new empty map and the shared one is
     * left alone. Otherwise the lines of the file are scanned into the shared
     * map, which is the answer; `revParse` stands for git rev-parse.
     */
    method GetSubmodules(gitmodules: Option<string>, revParse: string -> string)
      returns (r: Result<map<string, Submodule>>)
      modifies shared
      ensures |old(shared.Submodules)| > 0 ==> r == Ok(old(shared.Submodules)) && shared.Submodules == old(shared.Submodules)
      ensures |old(shared.Submodules)| == 0 && gitmodules.None? ==> r == Ok(map[]) && shared.Submodules == old(shared.Submodules)
      ensures |old(shared.Submodules)| == 0 && gitmodules.Some? ==>
                var (st, outcome) := Scan(ScanState(false, "", old(shared.Submodules)), Split(gitmodules.value, '\n'), ID, revParse);
                && shared.Submodules == st.mods
                && (outcome.Pass? ==> r == Ok(st.mods))
                && (outcome.Fail? ==> r == Err(outcome.error))
    {
      if |shared.Submodules| > 0 {
        return Ok(shared.Submodules);
      }
      if gitmodules.None? {
        return Ok(map[]);
      }
      var lines := Split(gitmodules.value, '\n');
      ghost var start := ScanState(false, "", shared.Submodules);
      var inSection := false;
      var path := "";
      var i := 0;
      while i < |lines|
        invariant 0 <= i <= |lines|
        invariant Scan(ScanState(inSection, path, shared.Submodules), lines[i..], ID, revParse)
                  == Scan(start, lines, ID, revParse)
      {
        var item := lines[i];
        assert lines[i..][1..] == lines[i + 1..];
        ghost var st := ScanState(inSection, path, shared.Submodules);
        if item == "" {
          ScanStep(st, lines[i..], st, ID, revParse);
          i := i + 1;
          continue;
        }
        if StartsWith(item, "[submodule") {
          ScanStep(st, lines[i..], st.(inSection := true), ID, revParse);
          inSection := true;
          i := i + 1;
          continue;
        } else if !inSection {
          ScanStep(st, lines[i..], st, ID, revParse);
          i := i + 1;
          continue;
        }
        var fields := SplitOnEquals(item);
        var key := Trim(fields[0]);
        ghost var after := ScanField(st, fields, ID, revParse);
        if key == "path" {
          if |fields| < 2 {
            return Err(IndexOutOfRange);
          }
          path := Trim(fields[1]);
        } else if key == "url" {
          if |fields| < 2 {
            return Err(IndexOutOfRange);
          }
          var rev := IdText(ID);
          if rev.Err? {
            return Err(rev.error);
          }
          var m := Submodule(path, Trim(fields[1]), revParse(rev.value + ":" + path));
          if path !in shared.Submodules {
            shared.Submodules := shared.Submodules[path := m];
          }
          inSection := false;
        }
        assert after == Ok(ScanState(inSection, path, shared.Submodules));
        ScanStep(st, lines[i..], after.value, ID, revParse);
        i := i + 1;
      }
      r := Ok(shared.Submodules);
    }

    /**
     * GetSubmodule: scans as GetSubmodules does, failing when that scan
     * fails, then answers null for an empty path or one that is not in the
     * shared map.
     */
    method GetSubmodule(path: string, gitmodules: Option<string>, revParse: string -> string)
      returns (r: Result<Option<Submodule>>)
      modifies shared
      ensures |old(shared.Submodules)| > 0 || gitmodules.None? ==> r.Ok? && shared.Submodules == old(shared.Submodules)
      ensures |old(shared.Submodules)| == 0 && gitmodules.Some? ==>
                var (st, outcome) := Scan(ScanState(false, "", old(shared.Submodules)), Split(gitmodules.value, '\n'), ID, revParse);
                && shared.Submodules == st.mods
                && (r.Err? <==> outcome.Fail?)
                && (r.Err? ==> r.error == outcome.error)
      ensures r.Ok? && path == "" ==> r.value == None
      ensures r.Ok? && path != "" ==>
                r.value == (if path in shared.Submodules then Some(shared.Submodules[path]) else None)
    {
      var mods := GetSubmodules(gitmodules, revParse);
      if mods.Err? {
        ghost var outcome := Scan(ScanState(false, "", old(shared.Submodules)), Split(gitmodules.value, '\n'), ID, revParse).1;
        assert outcome.Fail? && mods.error == outcome.error;
        return Err(mods.error);
      }
      if path == "" {
        return Ok(None);
      }
      if path in shared.Submodules {
        return Ok(Some(shared.Submodules[path]));
      }
      r := Ok(None);
    }
  }

  // ---------------------------------------------------------------------------------
  // Properties

  /** A line without '\n' is its own first line, also when more lines follow. */
  lemma FirstLineOf(line: string, rest: string)
    requires '\n' !in line
    ensures FirstLine(line) == line
    ensures FirstLine(line + "\n" + rest) == line
  {
    var s := line + "\n" + rest;
    assert s[..|line|] == line;
    IndexOfCharFirst(s, '\n', |line|);
    SplitFirst(s, '\n');
  }

  /** The map of submodules only grows: a path, once added, keeps its first submodule. */
  lemma {:induction false} ScanKeepsEntries(st: ScanState, lines: seq<string>, id: Option<SHA1>, revParse: string -> string)
    ensures var mods := Scan(st, lines, id, revParse).0.mods;
            forall p :: p in st.mods ==> p in mods && mods[p] == st.mods[p]
    decreases |lines|
  {
    if |lines| > 0 {
      var next := ScanLine(st, lines[0], id, revParse);
      LineKeepsEntries(st, lines[0], id, revParse);
      if next.Ok? {
        ScanKeepsEntries(next.value, lines[1..], id, revParse);
      }
    }
  }

  /** Every submodule in the map is stored under its own name. */
  predicate KeysAreNames(mods: map<string, Submodule>) {
    forall p :: p in mods ==> mods[p].Name == p
  }

  /** Every submodule the scan adds is stored under its own name. */
  lemma {:induction false} ScanKeysAreNames(st: ScanState, lines: seq<string>, id: Option<SHA1>, revParse: string -> string)
    requires KeysAreNames(st.mods)
    ensures KeysAreNames(Scan(st, lines, id, revParse).0.mods)
    decreases |lines|
  {
    if |lines| > 0 {
      var next := ScanLine(st, lines[0], id, revParse);
      LineKeepsEntries(st, lines[0], id, revParse);
      if next.Ok? {
        var n := next.value;
        forall p | p in n.mods ensures n.mods[p].Name == p {
          if p !in st.mods {
            assert p == st.path && n.mods[p].Name == p;
          }
        }
        ScanKeysAreNames(n, lines[1..], id, revParse);
        assert Scan(st, lines, id, revParse) == Scan(n, lines[1..], id, revParse);
      } else {
        assert Scan(st, lines, id, revParse).0 == st;
      }
    }
  }

  /**
   * One line keeps the submodules already in the map and adds at most the
   * pending path, stored under its own name.
   */
  lemma LineKeepsEntries(st: ScanState, item: string, id: Option<SHA1>, revParse: string -> string)
    ensures var r := ScanLine(st, item, id, revParse);
            r.Ok? ==> && (forall p :: p in st.mods ==> p in r.value.mods && r.value.mods[p] == st.mods[p])
                      && (forall p :: p in r.value.mods && p !in st.mods ==> p == st.path && r.value.mods[p].Name == p)
  {
    if item != "" && !StartsWith(item, "[submodule") && st.inSection {
      FieldKeepsEntries(st, SplitOnEquals(item), id, revParse);
    }
  }

  /** The same for the switch on the key. */
  lemma FieldKeepsEntries(st: ScanState, fields: seq<string>, id: Option<SHA1>, revParse: string -> string)
    requires |fields| >= 1
    ensures var r := ScanField(st, fields, id, revParse);
            r.Ok? ==> && (forall p :: p in st.mods ==> p in r.value.mods && r.value.mods[p] == st.mods[p])
                      && (forall p :: p in r.value.mods && p !in st.mods ==> p == st.path && r.value.mods[p].Name == p)
  {
  }

  /** Outside a section, with no "[submodule" line to open one, the scan changes nothing. */
  lemma {:induction false} ScanOutsideSections(st: ScanState, lines: seq<string>, id: Option<SHA1>, revParse: string -> string)
    requires !st.inSection
    requires forall i :: 0 <= i < |lines| ==> !StartsWith(lines[i], "[submodule")
    ensures Scan(st, lines, id, revParse) == (st, Pass)
    decreases |lines|
  {
    if |lines| > 0 {
      ScanOutsideSections(st, lines[1..], id, revParse);
    }
  }

  /** A "url" line inside a section adds the pending path when it is new, and closes the section. */
  lemma ScanUrl(st: ScanState, url: string, id: Option<SHA1>, revParse: string -> string)
    requires st.inSection && id.Some? && |id.value.Bytes| >= 20
    requires '=' !in url && |url| > 0 && !IsWhiteSpace(url[0]) && !IsWhiteSpace(url[|url| - 1])
    ensures var m := Submodule(st.path, url, revParse(HexString(id.value.Bytes[..20]) + ":" + st.path));
            ScanLine(st, "url=" + url, id, revParse)
            == Ok(ScanState(false, st.path, if st.path in st.mods then st.mods else st.mods[st.path := m]))
  {
    var line := "url=" + url;
    assert line == "url" + "=" + url;
    assert line[0] == 'u';
    assert !StartsWith(line, "[submodule") by { assert "[submodule"[0] == '['; }
    assert line != "";
    KeyValueFields("url", url);
    var fields := SplitOnEquals(line);
    assert ScanLine(st, line, id, revParse) == ScanField(st, fields, id, revParse);
    assert Trim(fields[0]) == "url" && Trim(fields[1]) == url;
    assert IdText(id) == Ok(HexString(id.value.Bytes[..20]));
  }

  /** A "path" line inside a section sets the pending path and changes nothing else. */
  lemma ScanPath(st: ScanState, path: string, id: Option<SHA1>, revParse: string -> string)
    requires st.inSection
    requires '=' !in path && |path| > 0 && !IsWhiteSpace(path[0]) && !IsWhiteSpace(path[|path| - 1])
    ensures ScanLine(st, "path=" + path, id, revParse) == Ok(st.(path := path))
  {
    var line := "path=" + path;
    assert line == "path" + "=" + path;
    assert line[0] == 'p';
    assert !StartsWith(line, "[submodule") by { assert "[submodule"[0] == '['; }
    assert line != "";
    KeyValueFields("path", path);
    var fields := SplitOnEquals(line);
    assert ScanLine(st, line, id, revParse) == ScanField(st, fields, id, revParse);
    assert Trim(fields[0]) == "path";
    assert ScanField(st, fields, id, revParse) == Ok(st.(path := Trim(fields[1])));
  }

  /** A "key=value" line splits on its '=' into the key and the value. */
  lemma KeyValueFields(key: string, value: string)
    requires '=' !in key && '=' !in value && |key| > 0 && |value| > 0
    requires !IsWhiteSpace(key[0]) && !IsWhiteSpace(key[|key| - 1])
    requires !IsWhiteSpace(value[0]) && !IsWhiteSpace(value[|value| - 1])
    ensures var fields := SplitOnEquals(key + "=" + value);
            |fields| == 2 && Trim(fields[0]) == key && Trim(fields[1]) == value
  {
    var parts := [key, value];
    assert Join(parts, "=") == key + "=" + value;
    SplitRunsJoin(parts, IsEquals, '=');
  }

  /**
   * A whole ".gitmodules" file with one section: the scan yields exactly one
   * submodule, under its path, with its URL and the commit rev-parse reports.
   */
  lemma {:induction false} ScanOneSection(header: string, path: string, url: string, id: Option<SHA1>, revParse: string -> string)
    requires StartsWith(header, "[submodule")
    requires id.Some? && |id.value.Bytes| >= 20
    requires '=' !in path && |path| > 0 && !IsWhiteSpace(path[0]) && !IsWhiteSpace(path[|path| - 1])
    requires '=' !in url && |url| > 0 && !IsWhiteSpace(url[0]) && !IsWhiteSpace(url[|url| - 1])
    ensures Scan(ScanState(false, "", map[]), [header, "path=" + path, "url=" + url], id, revParse)
            == (ScanState(false, path, map[path := Submodule(path, url, revParse(HexString(id.value.Bytes[..20]) + ":" + path))]), Pass)
  {
    var lines := [header, "path=" + path, "url=" + url];
    var s1 := ScanState(true, "", map[]);
    var s2 := ScanState(true, path, map[]);
    var m := Submodule(path, url, revParse(HexString(id.value.Bytes[..20]) + ":" + path));
    assert ScanLine(ScanState(false, "", map[]), header, id, revParse) == Ok(s1) by {
      assert |header| >= 10;
    }
    ScanStep(ScanState(false, "", map[]), lines, s1, id, revParse);
    ScanPath(s1, path, id, revParse);
    ScanStep(s1, lines[1..], s2, id, revParse);
    ScanUrl(s2, url, id, revParse);
    ScanStep(s2, lines[1..][1..], ScanState(false, path, map[path := m]), id, revParse);
    assert lines[1..][1..][1..] == [];
  }

  /** A line that scans without failing hands its state on to the rest. */
  lemma ScanStep(st: ScanState, lines: seq<string>, next: ScanState, id: Option<SHA1>, revParse: string -> string)
    requires |lines| > 0 && ScanLine(st, lines[0], id, revParse) == Ok(next)
    ensures Scan(st, lines, id, revParse) == Scan(next, lines[1..], id, revParse)
  {
  }
}
