/** Properties of the output handlers: what each reads back from the lines git prints. */
module OutputHandlersFacts {
  import opened Base
  import opened Text
  import opened RepoOptions
  import opened OutputHandlers

  // ---------------------------------------------------------------------------------
  // Collected output

  /** Lines collected with a separator they do not contain are the text's lines joined, plus a final empty one. */
  lemma {:induction false} CollectedJoin(lines: seq<string>, c: char)
    ensures Collected(lines, Some(c)) == Join(lines + [""], [c])
  {
    if |lines| > 0 {
      CollectedJoin(lines[1..], c);
      assert (lines + [""])[1..] == lines[1..] + [""];
    }
  }

  /** Splitting the collected text at the separator gives the lines back, and one empty piece after the last. */
  lemma CollectedSplit(lines: seq<string>, c: char)
    requires forall i :: 0 <= i < |lines| ==> c !in lines[i]
    ensures Split(Collected(lines, Some(c)), c) == lines + [""]
  {
    CollectedJoin(lines, c);
    JoinSplit(lines + [""], c);
  }

  /** Without a separator the collected text is empty exactly when every line is. */
  lemma {:induction false} CollectedEmpty(lines: seq<string>)
    ensures Collected(lines, None) == "" <==> forall i :: 0 <= i < |lines| ==> lines[i] == ""
  {
    if |lines| > 0 {
      CollectedEmpty(lines[1..]);
      assert forall i :: 1 <= i < |lines| ==> lines[i] == lines[1..][i - 1];
    }
  }

  // ---------------------------------------------------------------------------------
  // RefShortName

  /** A branch's short name is its name under refs/heads/. */
  lemma BranchShortName(name: string)
    ensures RefShortName(RefsHeads + name) == name
  {
    assert (RefsHeads + name)[..|RefsHeads|] == RefsHeads;
  }

  /** A tag's short name is its name under refs/tags/. */
  lemma TagShortName(name: string)
    ensures RefShortName(RefsTags + name) == name
  {
    var s := RefsTags + name;
    assert s[5] == 't';
    assert s[..|RefsTags|] == RefsTags;
  }

  /** Only one prefix is stripped: a branch named like a tag reference keeps the tag prefix. */
  lemma ShortNameStripsOnce(name: string)
    ensures RefShortName(RefsHeads + RefsTags + name) == RefsTags + name
  {
    assert RefsHeads + RefsTags + name == RefsHeads + (RefsTags + name);
    BranchShortName(RefsTags + name);
  }

  /** Remote-tracking references are returned unchanged. */
  lemma RemoteRefUnchanged(name: string)
    ensures RefShortName("refs/remotes/" + name) == "refs/remotes/" + name
  {
    var s := "refs/remotes/" + name;
    assert s[5] == 'r';
  }

  // ---------------------------------------------------------------------------------
  // git show --name-status

  /** The line git prints for a change: its letter, a tab, the path. */
  function StatusLine(c: Change): string {
    Letter(c.kind) + ("\t" + c.path)
  }

  /** A path git prints as it is: non-empty, without tabs, not ending in whitespace. */
  predicate PlainPath(p: string) {
    |p| > 0 && '\t' !in p && !IsWhiteSpace(p[|p| - 1])
  }

  /** A string that starts and ends with non-whitespace is its own trim. */
  lemma TrimPlain(s: string)
    requires |s| > 0 && !IsWhiteSpace(s[0]) && !IsWhiteSpace(s[|s| - 1])
    ensures Trim(s) == s
  {
  }

  /** One character, a tab, and tab-free text split at tabs into the character and the text. */
  lemma SplitStatus(l: string, p: string)
    requires |l| == 1 && l[0] != '\t' && '\t' !in p
    ensures Split(l + ("\t" + p), '\t') == [l, p]
  {
    var s := l + ("\t" + p);
    assert s == l + ['\t'] + p;
    IndexOfAfterPrefix(l, '\t', p);
    assert s[..1] == l && s[2..] == p;
    assert Split(p, '\t') == [p];
  }

  /** A change's status line is read back as that change. */
  lemma ChangeOfStatusLine(c: Change)
    requires PlainPath(c.path)
    ensures ChangeOf(StatusLine(c)) == Some(c)
  {
    var s := StatusLine(c);
    var l := Letter(c.kind);
    assert s[0] == l[0];
    assert s[|s| - 1] == c.path[|c.path| - 1];
    TrimPlain(s);
    SplitStatus(l, c.path);
  }

  /** Trimming a string that starts with non-whitespace only shortens it at the end. */
  lemma TrimKeepsStart(item: string)
    requires |item| > 0 && !IsWhiteSpace(item[0])
    ensures Trim(item) == item[..|Trim(item)|] && |Trim(item)| > 0
  {
    assert TrimStart(item) == item;
  }

  /** The first of two or more pieces is the text before the first separator. */
  lemma SplitFirstPiece(t: string, c: char)
    requires |Split(t, c)| >= 2
    ensures 0 <= IndexOfChar(t, c) < |t| && Split(t, c)[0] == t[..IndexOfChar(t, c)]
  {
  }

  /** A line is read as a change only when it starts with that change's letter and a tab; the path holds no tab. */
  lemma ChangeOfShape(item: string)
    ensures ChangeOf(item).Some? ==> && StartsWith(item, Letter(ChangeOf(item).value.kind) + "\t")
                                     && '\t' !in ChangeOf(item).value.path
  {
    if ChangeOf(item).Some? {
      var c := ChangeOf(item).value;
      var t := Trim(item);
      ChangeOfPieces(item);
      TrimKeepsStart(item);
      SplitFirstPiece(t, '\t');
      var k := IndexOfChar(t, '\t');
      assert k == 1 && t[1] == '\t' by {
        assert t[..k] == Letter(c.kind);
      }
      assert item[..2] == t[..2];
    }
  }

  /** A line read as a change starts with a letter, and its first two tab-separated pieces are the letter and the path. */
  lemma ChangeOfPieces(item: string)
    requires ChangeOf(item).Some?
    ensures var status := Split(Trim(item), '\t');
            && |item| > 0 && !IsWhiteSpace(item[0])
            && |status| >= 2 && status[0] == Letter(ChangeOf(item).value.kind) && status[1] == ChangeOf(item).value.path
  {
    assert item[..1][0] == item[0];
  }

  /** The status lines of a list of changes. */
  function StatusLines(cs: seq<Change>): seq<string> {
    seq(|cs|, i requires 0 <= i < |cs| => StatusLine(cs[i]))
  }

  /** The paths of the changes of kind `k`, in order. */
  function PathsOfKind(cs: seq<Change>, k: ChangeKind): seq<string> {
    if |cs| == 0 then []
    else PathsOfKind(cs[..|cs| - 1], k) + (if cs[|cs| - 1].kind == k then [cs[|cs| - 1].path] else [])
  }

  /** Reading the status lines of a list of changes sorts each change's path into the list of its kind, in order. */
  lemma {:induction false} NameStatusRoundTrip(cs: seq<Change>, k: ChangeKind)
    requires forall i :: 0 <= i < |cs| ==> PlainPath(cs[i].path)
    ensures Paths(StatusLines(cs), k) == PathsOfKind(cs, k)
  {
    if |cs| > 0 {
      var n := |cs| - 1;
      assert StatusLines(cs)[..n] == StatusLines(cs[..n]);
      NameStatusRoundTrip(cs[..n], k);
      ChangeOfStatusLine(cs[n]);
    }
  }

  // ---------------------------------------------------------------------------------
  // git count-objects -v

  /**
   * No report line starts with two of the prefixes, so the eight independent
   * tests of the handler set at most one field, the one FieldOfLine finds.
   */
  lemma FieldOfLineComplete(item: string, f: CountField)
    requires StartsWith(item, Prefix(f))
    ensures FieldOfLine(item) == Some(f)
  {
    var p := Prefix(f);
    assert item[..|p|] == p;
    assert item[0] == p[0] && item[1] == p[1];
    assert |p| > 5 ==> item[4] == p[4] && item[5] == p[5];
  }

  /** The line git prints for a field: its prefix and the decimal number. */
  function ReportLine(f: CountField, n: nat): string {
    Prefix(f) + DecimalString(n)
  }

  /** A report line stores its number in its field, sizes times 1024 in 64-bit arithmetic. */
  lemma CountLineReads(m: map<CountField, int>, f: CountField, n: nat)
    requires n <= Int64Max
    ensures CountLine(m, ReportLine(f, n)) == Ok(m[f := Wrap64(n * Scale(f))])
    ensures n * Scale(f) <= Int64Max ==> CountLine(m, ReportLine(f, n)) == Ok(m[f := n * Scale(f)])
  {
    var s := ReportLine(f, n);
    assert s[..|Prefix(f)|] == Prefix(f);
    FieldOfLineComplete(s, f);
    assert s[|Prefix(f)|..] == DecimalString(n);
    ParseIntegerDecimal(n, Int64Min, Int64Max);
  }

  /** A product between 2^63 and 2^64 wraps to itself less 2^64. */
  lemma WrapAbove(v: int)
    requires 0x8000_0000_0000_0000 <= v < 0x1_0000_0000_0000_0000
    ensures Wrap64(v) == v - 0x1_0000_0000_0000_0000
  {
    assert 0x1_0000_0000_0000_0000 <= v - Int64Min < 2 * 0x1_0000_0000_0000_0000;
  }

  /** A size of 2^53 KiB or more no longer fits in 64 bits once in bytes: the stored size is negative. */
  lemma SizeWraps(m: map<CountField, int>, n: nat)
    requires 0x20_0000_0000_0000 <= n < 0x40_0000_0000_0000
    ensures CountLine(m, ReportLine(Size, n)) == Ok(m[Size := n * 1024 - 0x1_0000_0000_0000_0000])
    ensures n * 1024 - 0x1_0000_0000_0000_0000 < 0
  {
    CountLineReads(m, Size, n);
    WrapAbove(n * 1024);
  }

  /** A field's prefix followed by text that is not a number fails with the conversion's error. */
  lemma BadNumberFails(m: map<CountField, int>, f: CountField, s: string)
    requires ToInt64(s).Err?
    ensures CountLine(m, Prefix(f) + s) == Err(ToInt64(s).error)
  {
    var item := Prefix(f) + s;
    assert item[..|Prefix(f)|] == Prefix(f);
    FieldOfLineComplete(item, f);
    assert item[|Prefix(f)|..] == s;
  }

  /** The report lines of a list of (field, number) pairs. */
  function ReportLines(entries: seq<(CountField, nat)>): seq<string> {
    seq(|entries|, i requires 0 <= i < |entries| => ReportLine(entries[i].0, entries[i].1))
  }

  /** The fields after storing each pair's number in turn, sizes in bytes. */
  function Applied(m: map<CountField, int>, entries: seq<(CountField, nat)>): map<CountField, int> {
    if |entries| == 0 then m
    else
      var e := entries[|entries| - 1];
      Applied(m, entries[..|entries| - 1])[e.0 := Wrap64(e.1 * Scale(e.0))]
  }

  /** Reading a whole report stores every reported number, a later line for a field overriding an earlier one. */
  lemma {:induction false} CountReport(m: map<CountField, int>, entries: seq<(CountField, nat)>)
    requires forall i :: 0 <= i < |entries| ==> entries[i].1 <= Int64Max
    ensures CountLines(m, ReportLines(entries)) == Ok(Applied(m, entries))
  {
    if |entries| > 0 {
      var n := |entries| - 1;
      assert ReportLines(entries)[..n] == ReportLines(entries[..n]);
      CountReport(m, entries[..n]);
      CountLineReads(Applied(m, entries[..n]), entries[n].0, entries[n].1);
    }
  }

  // ---------------------------------------------------------------------------------
  // git show-ref and git ls-remote

  /** A reference git lists as it is: id and name non-empty and without whitespace. */
  predicate WellFormedRef(rf: Reference) {
    && |rf.ID| > 0 && |rf.Refspec| > 0
    && (forall i :: 0 <= i < |rf.ID| ==> !IsWhiteSpace(rf.ID[i]))
    && (forall i :: 0 <= i < |rf.Refspec| ==> !IsWhiteSpace(rf.Refspec[i]))
  }

  /** The line git prints for a reference: id, one separator, name. */
  function RefLine(rf: Reference, c: char): string {
    rf.ID + ([c] + rf.Refspec)
  }

  /** A reference's line is read back as that reference. */
  lemma ReferenceOfLine(rf: Reference, c: char)
    requires WellFormedRef(rf) && IsWhiteSpace(c)
    ensures ReferenceOf(RefLine(rf, c)) == Some(rf)
  {
    SplitRunsCons(rf.ID, c, rf.Refspec, IsWhiteSpace);
    SplitOnWhiteSpaceNone(rf.Refspec);
  }

  /** Whitespace before the id leaves an empty first field, which becomes the id. */
  lemma LeadingBlankEmptiesId(rf: Reference, c: char, d: char)
    requires WellFormedRef(rf) && IsWhiteSpace(c) && IsWhiteSpace(d)
    ensures ReferenceOf([d] + RefLine(rf, c)) == Some(Reference("", rf.Refspec))
  {
    var s := RefLine(rf, c);
    SplitRunsCons("", d, s, IsWhiteSpace);
    assert "" + ([d] + s) == [d] + s;
    SplitRunsCons(rf.ID, c, rf.Refspec, IsWhiteSpace);
    SplitOnWhiteSpaceNone(rf.Refspec);
  }

  /** The lines of a list of references. */
  function RefLines(refs: seq<Reference>, c: char): seq<string> {
    seq(|refs|, i requires 0 <= i < |refs| => RefLine(refs[i], c))
  }

  /** Reading the references' lines gives the references, in order. */
  lemma {:induction false} ReferencesOfLines(refs: seq<Reference>, c: char)
    requires forall i :: 0 <= i < |refs| ==> WellFormedRef(refs[i])
    requires IsWhiteSpace(c)
    ensures ReferencesOf(RefLines(refs, c)) == refs
  {
    if |refs| > 0 {
      var n := |refs| - 1;
      assert RefLines(refs, c)[..n] == RefLines(refs[..n], c);
      ReferencesOfLines(refs[..n], c);
      ReferenceOfLine(refs[n], c);
    }
  }

  /**
   * The output git show-ref or git ls-remote prints for a list of
   * references, collected with line breaks, is read back as those references:
   * the empty piece after the last line break is skipped.
   */
  lemma ReferencesRoundTrip(refs: seq<Reference>, c: char)
    requires forall i :: 0 <= i < |refs| ==> WellFormedRef(refs[i])
    requires c == ' ' || c == '\t'
    ensures ReferencesOf(Split(Collected(RefLines(refs, c), Some('\n')), '\n')) == refs
  {
    var lines := RefLines(refs, c);
    CollectedSplit(lines, '\n');
    assert (lines + [""])[..|lines|] == lines;
    assert SplitOnWhiteSpace("") == [""];
    ReferencesOfLines(refs, c);
  }

  // ---------------------------------------------------------------------------------
  // git tag --list

  /** The tail of a descending list is descending. */
  lemma DescendingTail(s: seq<string>)
    requires |s| > 0 && Descending(s)
    ensures Descending(s[1..])
  {
    forall i, j | 0 <= i < j < |s[1..]| ensures !OrdinalLess(s[1..][i], s[1..][j]) {
      assert s[1..][i] == s[i + 1] && s[1..][j] == s[j + 1];
    }
  }

  /** A tag no later tag sorts after may head a descending list. */
  lemma ConsDescending(x: string, t: seq<string>)
    requires Descending(t)
    requires forall y :: y in t ==> !OrdinalLess(x, y)
    ensures Descending([x] + t)
  {
    var r := [x] + t;
    forall i, j | 0 <= i < j < |r| ensures !OrdinalLess(r[i], r[j]) {
      assert r[j] == t[j - 1];
      if i == 0 {
        assert r[j] in t;
      } else {
        assert r[i] == t[i - 1];
      }
    }
  }

  /** Inserting into a descending list keeps it descending. */
  lemma {:induction false} InsertDescendingSorted(x: string, s: seq<string>)
    requires Descending(s)
    ensures Descending(InsertDescending(x, s))
    decreases |s|
  {
    if |s| > 0 {
      if OrdinalLess(x, s[0]) {
        var t := InsertDescending(x, s[1..]);
        DescendingTail(s);
        InsertDescendingSorted(x, s[1..]);
        forall y | y in t ensures !OrdinalLess(s[0], y) {
          assert y in multiset(t);
          if y == x {
            OrdinalAsymmetric(x, s[0]);
          } else {
            var j :| 0 <= j < |s[1..]| && s[1..][j] == y;
            assert s[j + 1] == y;
          }
        }
        ConsDescending(s[0], t);
      } else {
        forall y | y in s ensures !OrdinalLess(x, y) {
          var j :| 0 <= j < |s| && s[j] == y;
          if j > 0 && OrdinalLess(x, y) {
            OrdinalTotal(x, s[0]);
            if x != s[0] {
              OrdinalTransitive(s[0], x, y);
            }
          }
        }
        ConsDescending(x, s);
      }
    }
  }

  /** OrderByDescending sorts from the greatest tag down. */
  lemma {:induction false} SortDescendingSorted(xs: seq<string>)
    ensures Descending(SortDescending(xs))
  {
    if |xs| > 0 {
      SortDescendingSorted(xs[1..]);
      InsertDescendingSorted(xs[0], SortDescending(xs[1..]));
    }
  }

  /** The tag list holds the pieces of the output before the last line break, greatest first. */
  lemma TagsOrder(stdout: string, stderr: string)
    ensures var r := Tags(stdout, stderr);
            var t := Split(stdout, '\n');
            r.Ok? ==> Descending(r.value) && multiset(r.value) == multiset(t[..|t| - 1])
  {
    var t := Split(stdout, '\n');
    SortDescendingSorted(t[..|t| - 1]);
  }

  /** The output git tag --list prints, collected with line breaks, is read back as exactly its lines, greatest first. */
  lemma TagsOfLines(lines: seq<string>)
    requires forall i :: 0 <= i < |lines| ==> '\n' !in lines[i]
    ensures Tags(Collected(lines, Some('\n')), "").Ok?
    ensures Descending(Tags(Collected(lines, Some('\n')), "").value)
    ensures multiset(Tags(Collected(lines, Some('\n')), "").value) == multiset(lines)
  {
    CollectedSplit(lines, '\n');
    assert (lines + [""])[..|lines|] == lines;
    TagsOrder(Collected(lines, Some('\n')), "");
  }
}
