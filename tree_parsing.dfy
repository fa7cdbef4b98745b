/**
 * Reading `git ls-tree` output into tree entries (Repository.parseTree):
 * every non-empty line must split on whitespace runs into exactly four
 * fields, the mode, the kind, the id and the name; the mode alone decides
 * the entry's mode and kind.
 */
module TreeParsing {
  import opened Base
  import opened Text
  import opened Sha1
  import opened ObjectTypes
  import opened TreeEntries

  /** The one exception parseTree throws for a line it cannot read. */
  const FormatError: Error := Failure("error message format,should 100644 blob 67b72042b5c3ea21777ca62ea731b0cd89a78bbd    .DS_Store")

  /** The kind of object an entry of a given mode names: a tree, a submodule commit, or a blob. */
  function KindOf(m: EntryMode): (t: ObjectType)
    ensures IsDeclared(t)
  {
    if m == EntryTree then ObjectTree else if m == EntryCommit then ObjectCommit else ObjectBlob
  }

  /** The mode column as git writes it for each declared mode. */
  function ModeText(m: EntryMode): (s: string)
    ensures IsDeclaredMode(m) ==> |s| == 6 && forall j :: 0 <= j < |s| ==> IsDigit(s[j])
  {
    if m == EntryTree then "040000"
    else if m == EntryBlob then "100644"
    else if m == EntryExec then "100755"
    else if m == EntrySymlink then "120000"
    else if m == EntryCommit then "160000"
    else ""
  }

  /**
   * The mode table of parseTree: six mode texts are accepted (the
   * group-writable 100664 reads as a plain blob) and give a declared mode with
   * the kind it names; every other text is rejected.
   */
  function ModeOf(field: string): (r: Option<(EntryMode, ObjectType)>)
    ensures r.Some? ==> IsDeclaredMode(r.value.0) && r.value.1 == KindOf(r.value.0)
  {
    match field
    case "100644" => Some((EntryBlob, ObjectBlob))
    case "100664" => Some((EntryBlob, ObjectBlob))
    case "100755" => Some((EntryExec, ObjectBlob))
    case "120000" => Some((EntrySymlink, ObjectBlob))
    case "160000" => Some((EntryCommit, ObjectCommit))
    case "040000" => Some((EntryTree, ObjectTree))
    case _ => None
  }

  /** What every entry parseTree returns satisfies. */
  predicate WellFormed(e: TreeEntry, tree: Option<SHA1>) {
    && e.Parent == tree && IsDeclaredMode(e.Mode) && e.Typ == KindOf(e.Mode)
    && e.ID.Some? && |e.ID.value.Bytes| == 20 && e.UniqueId.Some?
  }

  /**
   * One non-empty line: four fields, a mode from the table, a 40-character
   * id; the name is the fourth field and the second field is not read. A
   * line with another number of fields or an unknown mode throws the format
   * error; a bad id throws NewIDFromString's error.
   */
  function TreeLine(tree: Option<SHA1>, item: string, uid: Guid): (r: Result<TreeEntry>)
    ensures r.Ok? ==> WellFormed(r.value, tree) && r.value.UniqueId == Some(uid)
    ensures r.Ok? ==> |SplitOnWhiteSpace(item)| == 4 && r.value.Name == SplitOnWhiteSpace(item)[3]
    ensures |SplitOnWhiteSpace(item)| != 4 ==> r == Err(FormatError)
    ensures |SplitOnWhiteSpace(item)| == 4 && ModeOf(SplitOnWhiteSpace(item)[0]).None? ==> r == Err(FormatError)
    ensures |SplitOnWhiteSpace(item)| == 4 && ModeOf(SplitOnWhiteSpace(item)[0]).Some? && NewIDFromString(SplitOnWhiteSpace(item)[2]).Err?
            ==> r == Err(NewIDFromString(SplitOnWhiteSpace(item)[2]).error)
    ensures r.Ok? ==> ModeOf(SplitOnWhiteSpace(item)[0]) == Some((r.value.Mode, r.value.Typ))
                      && NewIDFromString(SplitOnWhiteSpace(item)[2]) == Ok(r.value.ID.value)
  {
    var fields := SplitOnWhiteSpace(item);
    if |fields| != 4 then Err(FormatError)
    else
      match ModeOf(fields[0])
      case None => Err(FormatError)
      case Some((mode, typ)) =>
        var id :- NewIDFromString(fields[2]);
        Ok(TreeEntry(Some(uid), mode, typ, Some(id), fields[3], tree))
  }

  /**
   * The lines from line number `next` on, appended to `acc`: empty lines are
   * skipped, the first line that throws ends the parse. The entry made for
   * line number n receives `uid(n)`.
   */
  function TreeLinesFrom(acc: seq<TreeEntry>, tree: Option<SHA1>, lines: seq<string>, uid: nat -> Guid, next: nat): (r: Result<seq<TreeEntry>>)
    decreases |lines|
  {
    if |lines| == 0 then Ok(acc)
    else if lines[0] == "" then TreeLinesFrom(acc, tree, lines[1..], uid, next + 1)
    else
      var e :- TreeLine(tree, lines[0], uid(next));
      TreeLinesFrom(acc + [e], tree, lines[1..], uid, next + 1)
  }

  /** One line of TreeLinesFrom: an empty line is passed over, any other line is read or fails. */
  lemma TreeLinesFromCons(acc: seq<TreeEntry>, tree: Option<SHA1>, lines: seq<string>, uid: nat -> Guid, next: nat)
    requires |lines| > 0
    ensures lines[0] == "" ==> TreeLinesFrom(acc, tree, lines, uid, next) == TreeLinesFrom(acc, tree, lines[1..], uid, next + 1)
    ensures lines[0] != "" && TreeLine(tree, lines[0], uid(next)).Err? ==>
              TreeLinesFrom(acc, tree, lines, uid, next) == Err(TreeLine(tree, lines[0], uid(next)).error)
    ensures lines[0] != "" && TreeLine(tree, lines[0], uid(next)).Ok? ==>
              TreeLinesFrom(acc, tree, lines, uid, next)
              == TreeLinesFrom(acc + [TreeLine(tree, lines[0], uid(next)).value], tree, lines[1..], uid, next + 1)
  {
  }

  /** parseTree on the whole text. */
  function ParseTreeText(tree: Option<SHA1>, text: string, uid: nat -> Guid): Result<seq<TreeEntry>>
  {
    TreeLinesFrom([], tree, Split(text, '\n'), uid, 0)
  }

  /** Repository.parseTree: the entries of the lines, in order. */
  method ParseTree(tree: Option<SHA1>, text: string, uid: nat -> Guid) returns (r: Result<seq<TreeEntry>>)
    ensures r == ParseTreeText(tree, text, uid)
  {
    var entries := [];
    var list := Split(text, '\n');
    var i := 0;
    assert list[0..] == list;
    while i < |list|
      invariant 0 <= i <= |list|
      invariant TreeLinesFrom(entries, tree, list[i..], uid, i) == ParseTreeText(tree, text, uid)
    {
      var line := list[i];
      assert list[i..][0] == line && list[i..][1..] == list[i + 1..];
      TreeLinesFromCons(entries, tree, list[i..], uid, i);
      if line != "" {
        var entry := ParseTreeLine(tree, line, uid(i));
        if entry.Err? {
          return Err(entry.error);
        }
        entries := entries + [entry.value];
      }
      i := i + 1;
    }
    assert list[i..] == [];
    r := Ok(entries);
  }

  /** The body of parseTree's loop for a non-empty line. */
  method ParseTreeLine(tree: Option<SHA1>, item: string, uid: Guid) returns (r: Result<TreeEntry>)
    ensures r == TreeLine(tree, item, uid)
  {
    var fields := SplitOnWhiteSpace(item);
    if |fields| != 4 {
      return Err(FormatError);
    }
    var mode := ModeOf(fields[0]);
    if mode.None? {
      return Err(FormatError);
    }
    var id := NewIDFromString(fields[2]);
    if id.Err? {
      return Err(id.error);
    }
    r := Ok(TreeEntry(Some(uid), mode.value.0, mode.value.1, Some(id.value), fields[3], tree));
  }

  // ---------------------------------------------------------------------------------
  // Properties of one line

  /** The mode table accepts exactly six texts. */
  lemma ModeOfAccepts(field: string)
    ensures ModeOf(field).Some? <==> field in {"100644", "100664", "100755", "120000", "160000", "040000"}
  {
  }

  /** The mode text git writes reads back as the same mode, with the kind it names. */
  lemma ModeTextRoundTrip(m: EntryMode)
    requires IsDeclaredMode(m)
    ensures ModeOf(ModeText(m)) == Some((m, KindOf(m)))
  {
  }

  /** Text without whitespace. */
  predicate Word(s: string) {
    forall j :: 0 <= j < |s| ==> !IsWhiteSpace(s[j])
  }

  /** The id column holds no whitespace and starts with a hex digit. */
  lemma HexWord(bs: seq<byte>)
    requires |bs| == 20
    ensures Word(HexString(bs)) && !IsWhiteSpace(HexString(bs)[0])
  {
    HexStringLowerHex(bs);
  }

  /** A line as `git ls-tree` writes it: the mode, the kind and the id separated by blanks, a tab, then the name. */
  function LsTreeLine(mode: string, kind: string, hex: string, name: string): (line: string)
    ensures |line| == |mode| + |kind| + |hex| + |name| + 3
  {
    mode + (" " + (kind + (" " + (hex + ("\t" + name)))))
  }

  /** A word, a blank, then text that does not start with one: the word is the first field. */
  lemma WordThen(a: string, c: char, rest: string)
    requires Word(a) && IsWhiteSpace(c) && (|rest| == 0 || !IsWhiteSpace(rest[0]))
    ensures SplitOnWhiteSpace(a + ([c] + rest)) == [a] + SplitOnWhiteSpace(rest)
  {
    SplitRunsCons(a, c, rest, IsWhiteSpace);
  }

  /** Such a line splits into its first three columns, then the fields of the name. */
  lemma ColumnsThen(mode: string, kind: string, hex: string, name: string)
    requires |kind| > 0 && |hex| > 0 && |name| > 0 && !IsWhiteSpace(name[0])
    requires Word(mode) && Word(kind) && Word(hex)
    ensures SplitOnWhiteSpace(LsTreeLine(mode, kind, hex, name)) == [mode, kind, hex] + SplitOnWhiteSpace(name)
  {
    var idName := hex + ("\t" + name);
    var rest := kind + (" " + idName);
    WordThen(hex, '\t', name);
    assert idName[0] == hex[0];
    WordThen(kind, ' ', idName);
    assert rest[0] == kind[0];
    WordThen(mode, ' ', rest);
  }

  /** Such a line splits into its four columns when none of them holds whitespace. */
  lemma LineFields(mode: string, kind: string, hex: string, name: string)
    requires |mode| > 0 && |kind| > 0 && |hex| > 0 && |name| > 0
    requires Word(mode) && Word(kind) && Word(hex) && Word(name)
    ensures SplitOnWhiteSpace(LsTreeLine(mode, kind, hex, name)) == [mode, kind, hex, name]
  {
    SplitOnWhiteSpaceNone(name);
    ColumnsThen(mode, kind, hex, name);
  }

  /**
   * Round trip: the line git writes for an entry (with a name without
   * whitespace) reads back as that entry, whatever the kind column says.
   */
  lemma TreeLineOf(tree: Option<SHA1>, m: EntryMode, kind: string, bs: seq<byte>, name: string, uid: Guid)
    requires IsDeclaredMode(m) && |bs| == 20
    requires |kind| > 0 && Word(kind) && |name| > 0 && Word(name)
    ensures TreeLine(tree, LsTreeLine(ModeText(m), kind, HexString(bs), name), uid)
            == Ok(TreeEntry(Some(uid), m, KindOf(m), Some(SHA1(bs)), name, tree))
  {
    var line := LsTreeLine(ModeText(m), kind, HexString(bs), name);
    ModeTextRoundTrip(m);
    NewIDFromStringHex(bs);
    HexWord(bs);
    LineFields(ModeText(m), kind, HexString(bs), name);
    TreeLineFrom(tree, line, uid, m, SHA1(bs));
  }

  /** TreeLine on a line whose four fields give the mode `m` and the id `id`. */
  lemma TreeLineFrom(tree: Option<SHA1>, item: string, uid: Guid, m: EntryMode, id: SHA1)
    requires |SplitOnWhiteSpace(item)| == 4
    requires ModeOf(SplitOnWhiteSpace(item)[0]) == Some((m, KindOf(m)))
    requires NewIDFromString(SplitOnWhiteSpace(item)[2]) == Ok(id)
    ensures TreeLine(tree, item, uid) == Ok(TreeEntry(Some(uid), m, KindOf(m), Some(id), SplitOnWhiteSpace(item)[3], tree))
  {
  }

  /** As written, a name holding a blank splits into five fields, and the line throws. */
  lemma NameWithBlankFails(tree: Option<SHA1>, m: EntryMode, kind: string, bs: seq<byte>, n1: string, n2: string, uid: Guid)
    requires IsDeclaredMode(m) && |bs| == 20
    requires |kind| > 0 && Word(kind) && |n1| > 0 && Word(n1) && |n2| > 0 && Word(n2)
    ensures TreeLine(tree, LsTreeLine(ModeText(m), kind, HexString(bs), n1 + (" " + n2)), uid) == Err(FormatError)
  {
    var hex := HexString(bs);
    var name := n1 + (" " + n2);
    HexWord(bs);
    assert SplitOnWhiteSpace(name) == [n1, n2] by {
      SplitOnWhiteSpaceNone(n2);
      WordThen(n1, ' ', n2);
    }
    assert name[0] == n1[0];
    ColumnsThen(ModeText(m), kind, hex, name);
  }

  /**
   * A line as git writes it, read as intended: the mode, the kind and the id
   * are separated by blanks, and the name is everything after the tab.
   */
  function TreeLineCorrected(tree: Option<SHA1>, item: string, uid: Guid): (r: Result<TreeEntry>)
    ensures r.Ok? ==> WellFormed(r.value, tree) && r.value.UniqueId == Some(uid)
  {
    var tab := IndexOfChar(item, '\t');
    if tab < 0 then Err(FormatError)
    else
      var fields := SplitOnWhiteSpace(item[..tab]);
      if |fields| != 3 then Err(FormatError)
      else
        match ModeOf(fields[0])
        case None => Err(FormatError)
        case Some((mode, typ)) =>
          var id :- NewIDFromString(fields[2]);
          Ok(TreeEntry(Some(uid), mode, typ, Some(id), item[tab + 1..], tree))
  }

  /** Corrected, any name without a tab (blanks included) reads back whole. */
  lemma TreeLineCorrectedOf(tree: Option<SHA1>, m: EntryMode, kind: string, bs: seq<byte>, name: string, uid: Guid)
    requires IsDeclaredMode(m) && |bs| == 20
    requires |kind| > 0 && Word(kind) && '\t' !in name
    ensures TreeLineCorrected(tree, LsTreeLine(ModeText(m), kind, HexString(bs), name), uid)
            == Ok(TreeEntry(Some(uid), m, KindOf(m), Some(SHA1(bs)), name, tree))
  {
    var hex := HexString(bs);
    var line := LsTreeLine(ModeText(m), kind, hex, name);
    HexWord(bs);
    ModeTextRoundTrip(m);
    NewIDFromStringHex(bs);
    HeadFields(ModeText(m), kind, hex);
    TabAfterColumns(ModeText(m), kind, hex, name);
    TreeLineCorrectedFrom(tree, line, uid, |ModeText(m)| + |kind| + |hex| + 2, m, SHA1(bs));
  }

  /** TreeLineCorrected on a line whose three fields before the tab give the mode `m` and the id `id`. */
  lemma TreeLineCorrectedFrom(tree: Option<SHA1>, item: string, uid: Guid, tab: nat, m: EntryMode, id: SHA1)
    requires tab < |item| && IndexOfChar(item, '\t') == tab
    requires |SplitOnWhiteSpace(item[..tab])| == 3
    requires ModeOf(SplitOnWhiteSpace(item[..tab])[0]) == Some((m, KindOf(m)))
    requires NewIDFromString(SplitOnWhiteSpace(item[..tab])[2]) == Ok(id)
    ensures TreeLineCorrected(tree, item, uid) == Ok(TreeEntry(Some(uid), m, KindOf(m), Some(id), item[tab + 1..], tree))
  {
  }

  /** The part before the tab splits into the mode, the kind and the id. */
  lemma HeadFields(mode: string, kind: string, hex: string)
    requires |mode| > 0 && |kind| > 0 && |hex| > 0
    requires Word(mode) && Word(kind) && Word(hex)
    ensures SplitOnWhiteSpace(mode + (" " + (kind + (" " + hex)))) == [mode, kind, hex]
  {
    SplitOnWhiteSpaceNone(hex);
    WordThen(kind, ' ', hex);
    assert (kind + (" " + hex))[0] == kind[0];
    WordThen(mode, ' ', kind + (" " + hex));
  }

  /** The first tab of such a line follows the id, and what comes after it is the name. */
  lemma TabAfterColumns(mode: string, kind: string, hex: string, name: string)
    requires Word(mode) && Word(kind) && Word(hex)
    ensures var line := LsTreeLine(mode, kind, hex, name);
            var tab := |mode| + |kind| + |hex| + 2;
            && IndexOfChar(line, '\t') == tab
            && line[..tab] == mode + (" " + (kind + (" " + hex)))
            && line[tab + 1..] == name
  {
    var line := LsTreeLine(mode, kind, hex, name);
    var tab := |mode| + |kind| + |hex| + 2;
    var head := mode + (" " + (kind + (" " + hex)));
    assert |head| == tab;
    assert forall j :: 0 <= j < tab ==> line[j] == head[j];
    assert line[..tab] == head;
    assert forall j :: 0 <= j < tab ==> line[j] != '\t' by {
      assert forall j :: 0 <= j < tab ==> !IsWhiteSpace(head[j]) || head[j] == ' ';
    }
    assert line[tab] == '\t';
    IndexOfCharFirst(line, '\t', tab);
    assert line[tab + 1..] == name;
  }

  /** On names without whitespace the corrected reading and the written one agree. */
  lemma CorrectedAgreesOnWords(tree: Option<SHA1>, m: EntryMode, kind: string, bs: seq<byte>, name: string, uid: Guid)
    requires IsDeclaredMode(m) && |bs| == 20
    requires |kind| > 0 && Word(kind) && |name| > 0 && Word(name)
    ensures var line := LsTreeLine(ModeText(m), kind, HexString(bs), name);
            TreeLineCorrected(tree, line, uid) == TreeLine(tree, line, uid)
  {
    TreeLineOf(tree, m, kind, bs, name, uid);
    assert '\t' !in name by {
      assert forall j :: 0 <= j < |name| ==> name[j] != '\t';
    }
    TreeLineCorrectedOf(tree, m, kind, bs, name, uid);
  }

  // ---------------------------------------------------------------------------------
  // Properties of the whole listing

  /** The name column of each non-empty line, in order. */
  function NameFields(lines: seq<string>): (names: seq<string>)
    ensures |names| <= |lines|
  {
    if |lines| == 0 then []
    else if lines[0] == "" then NameFields(lines[1..])
    else
      var fields := SplitOnWhiteSpace(lines[0]);
      [if |fields| == 4 then fields[3] else ""] + NameFields(lines[1..])
  }

  /** The names of a list of entries. */
  function Names(entries: seq<TreeEntry>): (names: seq<string>)
    ensures |names| == |entries|
    ensures forall k :: 0 <= k < |entries| ==> names[k] == entries[k].Name
  {
    if |entries| == 0 then [] else [entries[0].Name] + Names(entries[1..])
  }

  /** A line the parse gets past: an empty one, or one that reads. */
  predicate LineReads(tree: Option<SHA1>, line: string, uid: Guid) {
    line == "" || TreeLine(tree, line, uid).Ok?
  }

  /** Every line from line number `next` on reads. */
  predicate AllRead(tree: Option<SHA1>, lines: seq<string>, uid: nat -> Guid, next: nat) {
    forall i :: 0 <= i < |lines| ==> LineReads(tree, lines[i], uid(next + i))
  }

  /** The parse succeeds exactly when every non-empty line reads. */
  lemma {:induction false} TreeLinesOk(acc: seq<TreeEntry>, tree: Option<SHA1>, lines: seq<string>, uid: nat -> Guid, next: nat)
    ensures TreeLinesFrom(acc, tree, lines, uid, next).Ok? <==> AllRead(tree, lines, uid, next)
    decreases |lines|
  {
    if |lines| > 0 {
      var e := TreeLine(tree, lines[0], uid(next));
      var acc' := if lines[0] == "" || e.Err? then acc else acc + [e.value];
      TreeLinesOk(acc', tree, lines[1..], uid, next + 1);
      AllReadStep(tree, lines, uid, next);
    }
  }

  /** All lines read when the first does and all the others do. */
  lemma AllReadStep(tree: Option<SHA1>, lines: seq<string>, uid: nat -> Guid, next: nat)
    requires |lines| > 0
    ensures AllRead(tree, lines, uid, next)
            <==> LineReads(tree, lines[0], uid(next)) && AllRead(tree, lines[1..], uid, next + 1)
  {
    var ok := (line: string, n: nat) => LineReads(tree, line, uid(n));
    AllFromStep(lines, ok, next);
    assert AllRead(tree, lines, uid, next) <==> AllFrom(lines, ok, next);
    assert AllRead(tree, lines[1..], uid, next + 1) <==> AllFrom(lines[1..], ok, next + 1);
  }

  /** `ok` holds for every line, numbered from `next`. */
  predicate AllFrom(lines: seq<string>, ok: (string, nat) -> bool, next: nat) {
    forall i :: 0 <= i < |lines| ==> ok(lines[i], next + i)
  }

  /** A property of every numbered line is one of the first line and of every later one. */
  lemma AllFromStep(lines: seq<string>, ok: (string, nat) -> bool, next: nat)
    requires |lines| > 0
    ensures AllFrom(lines, ok, next) <==> ok(lines[0], next) && AllFrom(lines[1..], ok, next + 1)
  {
    if ok(lines[0], next) && AllFrom(lines[1..], ok, next + 1) {
      forall i | 0 <= i < |lines| ensures ok(lines[i], next + i) {
        if i > 0 {
          assert lines[i] == lines[1..][i - 1] && next + i == next + 1 + (i - 1);
        }
      }
    }
    if AllFrom(lines, ok, next) {
      forall i | 0 <= i < |lines[1..]| ensures ok(lines[1..][i], next + 1 + i) {
        assert lines[1..][i] == lines[i + 1] && next + 1 + i == next + (i + 1);
      }
    }
  }

  /**
   * The entries past `acc` are well-formed entries of `tree` and carry the
   * given names, in order.
   */
  predicate Shape(acc: seq<TreeEntry>, v: seq<TreeEntry>, names: seq<string>, tree: Option<SHA1>) {
    && |acc| <= |v| && v[..|acc|] == acc
    && Names(v[|acc|..]) == names
    && forall j :: |acc| <= j < |v| ==> WellFormed(v[j], tree)
  }

  /**
   * A successful parse keeps the entries it started with and adds one
   * well-formed entry per non-empty line, named by that line's fourth field,
   * in the lines' order.
   */
  lemma {:induction false} TreeLinesShape(acc: seq<TreeEntry>, tree: Option<SHA1>, lines: seq<string>, uid: nat -> Guid, next: nat)
    ensures var r := TreeLinesFrom(acc, tree, lines, uid, next);
            r.Ok? ==> Shape(acc, r.value, NameFields(lines), tree)
    decreases |lines|
  {
    var r := TreeLinesFrom(acc, tree, lines, uid, next);
    if |lines| > 0 && r.Ok? {
      if lines[0] == "" {
        TreeLinesShape(acc, tree, lines[1..], uid, next + 1);
      } else {
        var e := TreeLine(tree, lines[0], uid(next)).value;
        TreeLinesShape(acc + [e], tree, lines[1..], uid, next + 1);
        ShapeStep(acc, e, r.value, NameFields(lines[1..]), tree);
      }
    } else if r.Ok? {
      assert r.value[|acc|..] == [];
    }
  }

  /** A well-formed entry ahead of the others adds its name at the front. */
  lemma ShapeStep(acc: seq<TreeEntry>, e: TreeEntry, v: seq<TreeEntry>, names: seq<string>, tree: Option<SHA1>)
    requires WellFormed(e, tree)
    requires Shape(acc + [e], v, names, tree)
    ensures Shape(acc, v, [e.Name] + names, tree)
  {
    var acc' := acc + [e];
    assert v[..|acc'|][..|acc|] == v[..|acc|];
    assert v[|acc|] == e;
    assert v[|acc|..] == [e] + v[|acc'|..];
    assert Names(v[|acc|..])[1..] == Names(v[|acc'|..]);
  }

  /**
   * With a Guid source that never repeats, the entries a parse adds have
   * distinct UniqueIds, none of them one handed out for an earlier line.
   */
  lemma {:induction false} TreeLinesDistinct(acc: seq<TreeEntry>, tree: Option<SHA1>, lines: seq<string>, uid: nat -> Guid, next: nat)
    requires forall a, b :: uid(a) == uid(b) ==> a == b
    ensures var r := TreeLinesFrom(acc, tree, lines, uid, next);
            r.Ok? ==> FreshIds(acc, r.value, uid, next)
    decreases |lines|
  {
    var r := TreeLinesFrom(acc, tree, lines, uid, next);
    if |lines| > 0 && r.Ok? {
      if lines[0] == "" {
        TreeLinesDistinct(acc, tree, lines[1..], uid, next + 1);
        FreshIdsSkip(acc, r.value, uid, next);
      } else {
        var e := TreeLine(tree, lines[0], uid(next)).value;
        TreeLinesDistinct(acc + [e], tree, lines[1..], uid, next + 1);
        FreshIdsStep(acc, e, r.value, uid, next);
      }
    } else if r.Ok? {
      assert r.value == acc;
    }
  }

  /**
   * The entries past `acc` have distinct UniqueIds, none of them one handed
   * out before line number `next`.
   */
  predicate FreshIds(acc: seq<TreeEntry>, v: seq<TreeEntry>, uid: nat -> Guid, next: nat) {
    && |acc| <= |v| && v[..|acc|] == acc
    && (forall j, n :: |acc| <= j < |v| && 0 <= n < next ==> v[j].UniqueId != Some(uid(n)))
    && (forall j, k :: |acc| <= j < k < |v| ==> v[j].UniqueId != v[k].UniqueId)
  }

  /** Skipping a line number keeps the entries fresh for the earlier numbers. */
  lemma FreshIdsSkip(acc: seq<TreeEntry>, v: seq<TreeEntry>, uid: nat -> Guid, next: nat)
    requires FreshIds(acc, v, uid, next + 1)
    ensures FreshIds(acc, v, uid, next)
  {
  }

  /** An entry with the Guid of line `next`, ahead of entries fresh past it, keeps them all fresh. */
  lemma FreshIdsStep(acc: seq<TreeEntry>, e: TreeEntry, v: seq<TreeEntry>, uid: nat -> Guid, next: nat)
    requires forall a, b :: uid(a) == uid(b) ==> a == b
    requires e.UniqueId == Some(uid(next))
    requires FreshIds(acc + [e], v, uid, next + 1)
    ensures FreshIds(acc, v, uid, next)
  {
    assert v[|acc|] == (acc + [e])[|acc|] == e;
    assert v[..|acc|] == v[..|acc| + 1][..|acc|];
  }

  /** For a whole listing: one well-formed entry per non-empty line, in order, with distinct UniqueIds. */
  lemma ParseTreeFacts(tree: Option<SHA1>, text: string, uid: nat -> Guid)
    requires forall a, b :: uid(a) == uid(b) ==> a == b
    ensures var r := ParseTreeText(tree, text, uid);
            r.Ok? ==> && Names(r.value) == NameFields(Split(text, '\n'))
                      && (forall j :: 0 <= j < |r.value| ==> WellFormed(r.value[j], tree))
                      && (forall j, k :: 0 <= j < k < |r.value| ==> r.value[j].UniqueId != r.value[k].UniqueId)
  {
    var r := ParseTreeText(tree, text, uid);
    TreeLinesShape([], tree, Split(text, '\n'), uid, 0);
    assert r.Ok? ==> Shape([], r.value, NameFields(Split(text, '\n')), tree);
    TreeLinesDistinct([], tree, Split(text, '\n'), uid, 0);
    if r.Ok? {
      assert r.value[0..] == r.value;
      assert FreshIds([], r.value, uid, 0);
    }
  }
}
