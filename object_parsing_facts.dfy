/**
 * Properties of the commit and tag readers, and the two places where the
 * readers as written differ from what the code evidently intends: message
 * lines are read as header lines, and the "type" line of a tag is read as a
 * signature.
 */
module ObjectParsingFacts {
  import opened Base
  import opened Text
  import opened Sha1
  import opened Signatures
  import opened ObjectParsing

  // ---------------------------------------------------------------------------------
  // Leading newline and the unreachable second branch

  /** Text that starts with '\n' is all message, and no header is read. */
  lemma LeadingNewline(m: string, clock: Clock)
    ensures ParseCommitText("\n" + m, clock) == Ok(NoHeader.(Message := Some(m)))
    ensures ParseTagText("\n" + m, clock) == Ok(NoTag.(Message := Some(m)))
  {
    IndexOfCharFirst("\n" + m, '\n', 0);
    assert ("\n" + m)[1..] == m;
  }

  /** A first piece that is empty while more pieces follow means the text starts with '\n'. */
  lemma EmptyFirstLineIsLeadingNewline(data: string)
    requires |Split(data, '\n')| > 1 && Split(data, '\n')[0] == ""
    ensures IndexOfChar(data, '\n') == 0
  {
    SplitFirst(data, '\n');
  }

  /** When the text does not start with '\n', every line is dispatched. */
  lemma DispatchesEveryLine(data: string, clock: Clock)
    requires data == "" || data[0] != '\n'
    ensures ParseCommitText(data, clock) == CommitLines(NoHeader, Split(data, '\n'), clock)
    ensures ParseTagText(data, clock) == TagLines(NoTag, Split(data, '\n'), clock)
  {
    var lines := Split(data, '\n');
    assert IndexOfChar(data, '\n') != 0;
    if |lines| > 1 && lines[0] == "" {
      EmptyFirstLineIsLeadingNewline(data);
      assert false;
    }
    assert ParseCommitText(data, clock) == CommitLines(NoHeader, lines, clock);
    assert ParseTagText(data, clock) == TagLines(NoTag, lines, clock);
  }

  /** On that path the message is never set. */
  lemma {:induction false} CommitLinesKeepMessage(h: CommitHeader, lines: seq<string>, clock: Clock)
    ensures CommitLines(h, lines, clock).Ok? ==> CommitLines(h, lines, clock).value.Message == h.Message
    decreases |lines|
  {
    if |lines| > 0 {
      var next := CommitLine(h, lines[0], clock);
      if next.Ok? {
        CommitLinesKeepMessage(next.value, lines[1..], clock);
      }
    }
  }

  /** A commit text that does not start with '\n' never gets a message. */
  lemma NoMessageUnlessLeadingNewline(data: string, clock: Clock)
    requires data == "" || data[0] != '\n'
    ensures ParseCommitText(data, clock).Ok? ==> ParseCommitText(data, clock).value.Message == None
  {
    DispatchesEveryLine(data, clock);
    CommitLinesKeepMessage(NoHeader, Split(data, '\n'), clock);
  }

  // ---------------------------------------------------------------------------------
  // Header lines

  /** "tree" and "object" lines with the hex form of an id set the tree id; "parent" lines append it. */
  lemma IdLines(h: CommitHeader, bs: seq<byte>, clock: Clock)
    requires |bs| == 20
    ensures CommitLine(h, "tree " + HexString(bs), clock) == Ok(h.(TreeID := Some(SHA1(bs))))
    ensures CommitLine(h, "object " + HexString(bs), clock) == Ok(h.(TreeID := Some(SHA1(bs))))
    ensures CommitLine(h, "parent " + HexString(bs), clock) == Ok(h.(Parents := h.Parents + [SHA1(bs)]))
  {
    var hex := HexString(bs);
    WithIdHex(h, false, bs);
    WithIdHex(h, true, bs);
    assert "tree " + hex == "tree" + " " + hex;
    assert "object " + hex == "object" + " " + hex;
    assert "parent " + hex == "parent" + " " + hex;
    IdLine(h, "tree", hex, clock);
    IdLine(h, "object", hex, clock);
    IdLine(h, "parent", hex, clock);
  }

  /** The hex form of an id sets the tree id, or appends a parent. */
  lemma WithIdHex(h: CommitHeader, parent: bool, bs: seq<byte>)
    requires |bs| == 20
    ensures WithId(h, parent, HexString(bs))
            == Ok(if parent then h.(Parents := h.Parents + [SHA1(bs)]) else h.(TreeID := Some(SHA1(bs))))
  {
    NewIDFromStringHex(bs);
  }

  /** A "tree", "object" or "parent" line goes to WithId. */
  lemma IdLine(h: CommitHeader, key: string, val: string, clock: Clock)
    requires key == "tree" || key == "object" || key == "parent"
    ensures CommitLine(h, key + " " + val, clock) == WithId(h, key == "parent", val)
  {
    KeyValueOf(key, val);
  }

  /** A tree, object or parent value that is not 40 UTF-16 code units long once trimmed throws a length error. */
  lemma BadIdFails(h: CommitHeader, key: string, val: string, clock: Clock)
    requires key == "tree" || key == "object" || key == "parent"
    requires Utf16Length(Trim(val)) != 40
    ensures CommitLine(h, key + " " + val, clock) == Err(LengthNotMatch("byte array length must equal 40"))
  {
    IdLine(h, key, val, clock);
  }

  /**
   * A signature line replaces the author ("author", "tagger") or the
   * committer ("committer"), whatever was there before; a signature that does
   * not parse throws.
   */
  lemma SignatureLines(h: CommitHeader, key: string, val: string, clock: Clock)
    requires key == "author" || key == "tagger" || key == "committer"
    ensures var r := CommitLine(h, key + " " + val, clock);
            match ParseSignature(val, clock)
            case Err(e) => r == Err(e)
            case Ok(sig) => r == Ok(if key == "committer" then h.(Committer := Some(sig)) else h.(Author := Some(sig)))
  {
    KeyValueOf(key, val);
    assert CommitLine(h, key + " " + val, clock) == WithSignature(h, key == "committer", val, clock);
  }

  /** Lines with another key, with no blank, or starting with a blank change nothing. */
  lemma IgnoredLines(h: CommitHeader, key: string, val: string, line: string, clock: Clock)
    requires |key| > 0 && ' ' !in key
    requires key !in {"tree", "object", "parent", "author", "tagger", "committer"}
    requires ' ' !in line || line[0] == ' '
    ensures CommitLine(h, key + " " + val, clock) == Ok(h)
    ensures CommitLine(h, line, clock) == Ok(h)
  {
    KeyValueOf(key, val);
  }

  /** The "parent " lines of a list of ids. */
  function ParentLines(ids: seq<SHA1>): (lines: seq<string>)
    ensures |lines| == |ids|
  {
    if |ids| == 0 then [] else ["parent " + HexString(ids[0].Bytes)] + ParentLines(ids[1..])
  }

  /** Parent lines append their ids in input order. */
  lemma {:induction false} ParentsInOrder(h: CommitHeader, ids: seq<SHA1>, clock: Clock)
    requires forall i :: 0 <= i < |ids| ==> |ids[i].Bytes| == 20
    ensures CommitLines(h, ParentLines(ids), clock) == Ok(h.(Parents := h.Parents + ids))
    decreases |ids|
  {
    if |ids| > 0 {
      ParentsInOrder(h.(Parents := h.Parents + [ids[0]]), ids[1..], clock);
      ParentStep(h, ids, clock);
    } else {
      assert h.Parents + ids == h.Parents;
    }
  }

  /** The first parent line appends the first id, and the rest append the rest. */
  lemma ParentStep(h: CommitHeader, ids: seq<SHA1>, clock: Clock)
    requires |ids| > 0 && |ids[0].Bytes| == 20
    requires var next := h.(Parents := h.Parents + [ids[0]]);
             CommitLines(next, ParentLines(ids[1..]), clock) == Ok(next.(Parents := next.Parents + ids[1..]))
    ensures CommitLines(h, ParentLines(ids), clock) == Ok(h.(Parents := h.Parents + ids))
  {
    var lines := ParentLines(ids);
    assert lines[0] == "parent " + HexString(ids[0].Bytes) && lines[1..] == ParentLines(ids[1..]);
    IdLines(h, ids[0].Bytes, clock);
    AppendHead(h.Parents, ids);
  }

  /** Appending the head and then the tail appends the whole. */
  lemma AppendHead<T>(a: seq<T>, b: seq<T>)
    requires |b| > 0
    ensures a + [b[0]] + b[1..] == a + b
  {
    assert b == [b[0]] + b[1..];
  }

  /** "object" lines with the hex form of an id set the tag's target. */
  lemma TagObjectLine(h: TagHeader, bs: seq<byte>, clock: Clock)
    requires |bs| == 20
    ensures TagLine(h, "object " + HexString(bs), clock) == Ok(h.(CommitID := Some(SHA1(bs))))
  {
    TagIdLine(h, HexString(bs), clock);
    NewIDFromStringHex(bs);
  }

  /** An "object" line of a tag hands its value to the id conversion. */
  lemma TagIdLine(h: TagHeader, val: string, clock: Clock)
    ensures TagLine(h, "object " + val, clock) == TagWithId(h, val)
  {
    var line := "object " + val;
    assert line == "object" + " " + val;
    KeyValueOf("object", val);
    assert KeyValue(line) == Some(("object", val));
  }

  // ---------------------------------------------------------------------------------
  // Message lines are dispatched as header lines

  /** Join over a concatenation puts one separator between the two joins. */
  lemma {:induction false} JoinAppend(a: seq<string>, b: seq<string>, sep: string)
    requires |a| > 0 && |b| > 0
    ensures Join(a + b, sep) == Join(a, sep) + sep + Join(b, sep)
    decreases |a|
  {
    if |a| > 1 {
      JoinAppend(a[1..], b, sep);
      assert (a + b)[1..] == a[1..] + b;
    }
  }

  /** A header and a message separated by a blank line split into the header lines, one empty line and the message's lines. */
  lemma SplitHeaderMessage(hs: seq<string>, m: string)
    requires |hs| > 0 && forall i :: 0 <= i < |hs| ==> |hs[i]| > 0 && '\n' !in hs[i]
    ensures var data := Join(hs, "\n") + "\n\n" + m;
            && Split(data, '\n') == hs + [""] + Split(m, '\n')
            && IndexOfChar(data, '\n') != 0
  {
    var parts := hs + [""] + Split(m, '\n');
    JoinAppend(hs + [""], Split(m, '\n'), "\n");
    JoinAppend(hs, [""], "\n");
    SplitJoin(m, '\n');
    assert Join(parts, "\n") == Join(hs, "\n") + "\n\n" + m;
    forall i | 0 <= i < |parts| ensures '\n' !in parts[i] {
      if i > |hs| {
        assert parts[i] == Split(m, '\n')[i - |hs| - 1];
      }
    }
    JoinSplit(parts, '\n');
    JoinStart(hs);
  }

  /** A join of lines whose first is not empty starts with that line's first character. */
  lemma JoinStart(hs: seq<string>)
    requires |hs| > 0 && |hs[0]| > 0
    ensures |Join(hs, "\n")| > 0 && Join(hs, "\n")[0] == hs[0][0]
  {
  }

  /** As written, the message's lines are dispatched after the header lines and the empty line. */
  lemma AsWrittenDispatchesMessage(hs: seq<string>, m: string, clock: Clock)
    requires |hs| > 0 && forall i :: 0 <= i < |hs| ==> |hs[i]| > 0 && '\n' !in hs[i]
    ensures ParseCommitText(Join(hs, "\n") + "\n\n" + m, clock)
            == CommitLines(NoHeader, hs + [""] + Split(m, '\n'), clock)
  {
    var data := Join(hs, "\n") + "\n\n" + m;
    SplitHeaderMessage(hs, m);
    assert data[0] != '\n' by { JoinStart(hs); }
    DispatchesEveryLine(data, clock);
  }

  /**
   * Corrected: the header is read from the lines before the blank line only,
   * and the message is the text after it.
   */
  lemma CorrectedSeparatesMessage(hs: seq<string>, m: string, clock: Clock)
    requires |hs| > 0 && forall i :: 0 <= i < |hs| ==> |hs[i]| > 0 && '\n' !in hs[i]
    ensures var r := ParseCommitTextCorrected(Join(hs, "\n") + "\n\n" + m, clock);
            match CommitLines(NoHeader, hs, clock)
            case Err(e) => r == Err(e)
            case Ok(h) => r == Ok(h.(Message := Some(m)))
  {
    var lines := hs + [""] + Split(m, '\n');
    assert FirstEmpty(lines) == |hs| by {
      FirstEmptyAt(lines, |hs|);
    }
    assert lines[..|hs|] == hs;
    assert Join(lines[|hs| + 1..], "\n") == m by {
      assert lines[|hs| + 1..] == Split(m, '\n');
      SplitJoin(m, '\n');
    }
    SplitHeaderMessage(hs, m);
  }

  /** FirstEmpty finds an empty line with none before it. */
  lemma {:induction false} FirstEmptyAt(lines: seq<string>, k: nat)
    requires k < |lines| && lines[k] == ""
    requires forall j :: 0 <= j < k ==> lines[j] != ""
    ensures FirstEmpty(lines) == k
    decreases k
  {
    if k > 0 {
      FirstEmptyAt(lines[1..], k - 1);
    }
  }

  /** Reading two runs of lines reads the first, then the second from where it stopped. */
  lemma {:induction false} CommitLinesAppend(h: CommitHeader, a: seq<string>, b: seq<string>, clock: Clock)
    ensures CommitLines(h, a + b, clock)
            == match CommitLines(h, a, clock)
               case Err(e) => Err(e)
               case Ok(next) => CommitLines(next, b, clock)
    decreases |a|
  {
    if |a| > 0 {
      assert (a + b)[0] == a[0] && (a + b)[1..] == a[1..] + b;
      var step := CommitLine(h, a[0], clock);
      if step.Ok? {
        CommitLinesAppend(step.value, a[1..], b, clock);
      }
    } else {
      assert a + b == b;
    }
  }

  /** A "parent …" line whose value is not an id has no '\n' when the value has none. */
  lemma ParentLineShape(v: string)
    requires '\n' !in v
    ensures '\n' !in "parent " + v && Split("parent " + v, '\n') == ["parent " + v]
    ensures "parent " + v == "parent" + " " + v
  {
    var m := "parent " + v;
    assert forall k :: 0 <= k < |m| ==> m[k] == (if k < 7 then "parent "[k] else v[k - 7]);
  }

  /**
   * As written, a message line "parent …" whose value is not an id is read as
   * a parent and the parse throws. ("encoding UTF-8", a blank line and
   * "parent is here" is one such commit.)
   */
  lemma MessageLineBreaksParse(hs: seq<string>, v: string, clock: Clock)
    requires |hs| > 0 && forall i :: 0 <= i < |hs| ==> |hs[i]| > 0 && '\n' !in hs[i]
    requires CommitLines(NoHeader, hs, clock).Ok?
    requires Utf16Length(Trim(v)) != 40 && '\n' !in v
    ensures ParseCommitText(Join(hs, "\n") + "\n\n" + ("parent " + v), clock).Err?
  {
    var m := "parent " + v;
    ParentLineShape(v);
    AsWrittenDispatchesMessage(hs, m, clock);
    var h := CommitLines(NoHeader, hs, clock).value;
    CommitLinesAppend(NoHeader, hs + [""], [m], clock);
    CommitLinesAppend(NoHeader, hs, [""], clock);
    assert CommitLines(h, [""], clock) == Ok(h) by {
      assert CommitLine(h, "", clock) == Ok(h);
      assert [""][1..] == [];
    }
    BadIdFails(h, "parent", v, clock);
    assert CommitLines(h, [m], clock).Err?;
  }

  /** Corrected, that line is the message. */
  lemma MessageLineCorrected(hs: seq<string>, v: string, clock: Clock)
    requires |hs| > 0 && forall i :: 0 <= i < |hs| ==> |hs[i]| > 0 && '\n' !in hs[i]
    requires CommitLines(NoHeader, hs, clock).Ok?
    requires '\n' !in v
    ensures ParseCommitTextCorrected(Join(hs, "\n") + "\n\n" + ("parent " + v), clock)
            == Ok(CommitLines(NoHeader, hs, clock).value.(Message := Some("parent " + v)))
  {
    ParentLineShape(v);
    CorrectedSeparatesMessage(hs, "parent " + v, clock);
  }

  // ---------------------------------------------------------------------------------
  // The "type" line of a tag is read as a signature

  /** As written, a "type" line whose value holds no '<' throws. */
  lemma TypeLineFails(h: TagHeader, t: string, clock: Clock)
    requires '<' !in t
    ensures TagLine(h, "type " + t, clock).Err?
  {
    KeyValueOf("type", t);
    assert "type " + t == "type" + " " + t;
    ParseSignatureRejectsDelimiters(t, clock);
  }

  /** So does every tag text with such a line, wherever it stands. */
  lemma {:induction false} TagLinesFailAt(h: TagHeader, lines: seq<string>, i: nat, t: string, clock: Clock)
    requires i < |lines| && lines[i] == "type " + t && '<' !in t
    ensures TagLines(h, lines, clock).Err?
    decreases i
  {
    if i == 0 {
      TypeLineFails(h, t, clock);
    } else {
      var next := TagLine(h, lines[0], clock);
      if next.Ok? {
        TagLinesFailAt(next.value, lines[1..], i - 1, t, clock);
      }
    }
  }

  /** An annotated tag ("object …", "type commit", "tag …", "tagger …") never parses as written. */
  lemma AsWrittenTagFails(data: string, i: nat, t: string, clock: Clock)
    requires data == "" || data[0] != '\n'
    requires i < |Split(data, '\n')| && Split(data, '\n')[i] == "type " + t && '<' !in t
    ensures ParseTagText(data, clock).Err?
  {
    DispatchesEveryLine(data, clock);
    TagLinesFailAt(NoTag, Split(data, '\n'), i, t, clock);
  }

  /** Corrected: a "type" line records its value and never throws. */
  lemma CorrectedTypeLine(h: TagHeader, t: string, clock: Clock)
    ensures TagLineCorrected(h, "type " + t, clock) == Ok(h.(Typ := Some(t)))
  {
    KeyValueOf("type", t);
    assert "type " + t == "type" + " " + t;
  }

  /** The corrected reading agrees with the written one on every text without a "type" line. */
  lemma {:induction false} CorrectedAgreesWithoutType(h: TagHeader, lines: seq<string>, clock: Clock)
    requires forall i :: 0 <= i < |lines| ==> KeyValue(lines[i]).None? || KeyValue(lines[i]).value.0 != "type"
    ensures TagLinesCorrected(h, lines, clock) == TagLines(h, lines, clock)
    decreases |lines|
  {
    if |lines| > 0 {
      assert TagLineCorrected(h, lines[0], clock) == TagLine(h, lines[0], clock);
      var next := TagLine(h, lines[0], clock);
      if next.Ok? {
        CorrectedAgreesWithoutType(next.value, lines[1..], clock);
      }
    }
  }

  /** The "type commit" line: as written it throws, corrected it records the kind. */
  lemma TypeCommitLine(clock: Clock)
    ensures TagLines(NoTag, ["type commit"], clock).Err?
    ensures TagLinesCorrected(NoTag, ["type commit"], clock) == Ok(NoTag.(Typ := Some("commit")))
  {
    assert "type " + "commit" == "type commit";
    TypeLineFails(NoTag, "commit", clock);
    CorrectedTypeLine(NoTag, "commit", clock);
  }
}
