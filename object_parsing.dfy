/**
 * Reading raw commit and tag objects (Repository.parseCommit and
 * Repository.parseTag): every '\n'-separated line whose first blank is not at
 * its start is a key and a value, dispatched on the key. Text that starts
 * with '\n' is all message.
 */
module ObjectParsing {
  import opened Base
  import opened Text
  import opened Sha1
  import opened Signatures
  import Commits

  /** The key of a line (the text before its first blank) and its value (the text after), unless the line has no blank or starts with one. */
  function KeyValue(line: string): (r: Option<(string, string)>)
    ensures r.Some? ==> |r.value.0| > 0 && ' ' !in r.value.0 && line == r.value.0 + " " + r.value.1
    ensures r.None? <==> ' ' !in line || line[0] == ' '
  {
    var sp := IndexOfChar(line, ' ');
    if sp < 1 then None
    else
      assert line == line[..sp] + " " + line[sp + 1..];
      Some((line[..sp], line[sp + 1..]))
  }

  /** A line that is a key, a blank and a value splits into exactly those. */
  lemma KeyValueOf(key: string, val: string)
    requires |key| > 0 && ' ' !in key
    ensures KeyValue(key + " " + val) == Some((key, val))
  {
    var line := key + " " + val;
    assert line[..|key|] == key;
    IndexOfCharFirst(line, ' ', |key|);
    assert line[|key| + 1..] == val;
  }

  // ---------------------------------------------------------------------------------
  // parseCommit

  /** The fields of a commit that parseCommit sets. */
  datatype CommitHeader = CommitHeader(
    TreeID: Option<SHA1>,
    Parents: seq<SHA1>,
    Author: Option<Signature>,
    Committer: Option<Signature>,
    Message: Option<string>)

  /** Those fields on a new commit. */
  const NoHeader := CommitHeader(None, [], None, None, None)

  /**
   * One line of a commit: "tree" and "object" set the tree id, "parent"
   * appends a parent, "author" and "tagger" set the author, "committer" the
   * committer; ids and signatures that do not parse throw, other keys and
   * lines without a key are ignored.
   */
  function CommitLine(h: CommitHeader, line: string, clock: Clock): (r: Result<CommitHeader>)
  {
    match KeyValue(line)
    case None => Ok(h)
    case Some((key, val)) =>
      if key == "tree" || key == "object" || key == "parent" then WithId(h, key == "parent", val)
      else if key == "author" || key == "tagger" || key == "committer" then WithSignature(h, key == "committer", val, clock)
      else Ok(h)
  }

  /** A "tree"/"object" id sets the tree id, a "parent" id is appended to the parents. */
  function WithId(h: CommitHeader, parent: bool, val: string): (r: Result<CommitHeader>)
  {
    var id :- NewIDFromString(val);
    Ok(if parent then h.(Parents := h.Parents + [id]) else h.(TreeID := Some(id)))
  }

  /** An "author"/"tagger" signature sets the author, a "committer" one the committer. */
  function WithSignature(h: CommitHeader, committer: bool, val: string, clock: Clock): (r: Result<CommitHeader>)
  {
    var sig :- ParseSignature(val, clock);
    Ok(if committer then h.(Committer := Some(sig)) else h.(Author := Some(sig)))
  }

  /** The lines in order; the first that throws ends the parse. */
  function CommitLines(h: CommitHeader, lines: seq<string>, clock: Clock): (r: Result<CommitHeader>)
    decreases |lines|
  {
    if |lines| == 0 then Ok(h)
    else
      var next :- CommitLine(h, lines[0], clock);
      CommitLines(next, lines[1..], clock)
  }

  /**
   * parseCommit as written: text starting with '\n' is all message; text
   * whose first line is empty takes its second line as the message (a case
   * the first one already covers); otherwise every line is dispatched,
   * message lines included, and the message is never set.
   */
  function ParseCommitText(data: string, clock: Clock): (r: Result<CommitHeader>)
  {
    var eol := IndexOfChar(data, '\n');
    if eol == 0 then Ok(NoHeader.(Message := Some(data[1..])))
    else
      var lines := Split(data, '\n');
      if |lines| > 1 && lines[0] == "" then Ok(NoHeader.(Message := Some(lines[1])))
      else CommitLines(NoHeader, lines, clock)
  }

  /** The fields of a commit object that parseCommit sets. */
  function HeaderOf(c: Commits.Commit): CommitHeader
    reads c
  {
    CommitHeader(c.TreeID, c.Parents, c.Author, c.Committer, c.Message)
  }

  /**
   * Repository.parseCommit: makes a new commit (which empties the shared
   * submodule map) and fills it in line by line.
   */
  method ParseCommit(data: string, clock: Clock, registry: Commits.SubmoduleRegistry) returns (r: Result<Commits.Commit>)
    modifies registry
    ensures registry.Submodules == map[]
    ensures r.Ok? <==> ParseCommitText(data, clock).Ok?
    ensures r.Err? ==> r.error == ParseCommitText(data, clock).error
    ensures r.Ok? ==> fresh(r.value) && r.value.shared == registry && r.value.ID == None
                      && HeaderOf(r.value) == ParseCommitText(data, clock).value
  {
    var commit := new Commits.Commit(registry);
    var eol := IndexOfChar(data, '\n');
    if eol == 0 {
      commit.Message := Some(data[1..]);
      return Ok(commit);
    }
    var lines := Split(data, '\n');
    if |lines| > 1 && lines[0] == "" {
      commit.Message := Some(lines[1]);
      return Ok(commit);
    }
    var o := DispatchCommitLines(commit, lines, clock);
    if o.Fail? {
      return Err(o.error);
    }
    r := Ok(commit);
  }

  /** parseCommit's loop: the lines applied in order to the commit being filled, stopping at the first that throws. */
  method DispatchCommitLines(commit: Commits.Commit, lines: seq<string>, clock: Clock) returns (o: Outcome)
    modifies commit
    ensures commit.shared == old(commit.shared) && commit.ID == old(commit.ID)
    ensures var r := CommitLines(old(HeaderOf(commit)), lines, clock);
            && (r.Ok? ==> o.Pass? && HeaderOf(commit) == r.value)
            && (r.Err? ==> o == Fail(r.error))
  {
    var i := 0;
    while i < |lines|
      invariant 0 <= i <= |lines|
      invariant commit.shared == old(commit.shared) && commit.ID == old(commit.ID)
      invariant CommitLines(HeaderOf(commit), lines[i..], clock) == CommitLines(old(HeaderOf(commit)), lines, clock)
    {
      assert lines[i..][0] == lines[i] && lines[i..][1..] == lines[i + 1..];
      o := DispatchCommitLine(commit, lines[i], clock);
      if o.Fail? {
        return;
      }
      i := i + 1;
    }
    o := Pass;
  }

  /** The body of parseCommit's loop: one line applied to the commit being filled. */
  method DispatchCommitLine(commit: Commits.Commit, line: string, clock: Clock) returns (o: Outcome)
    modifies commit
    ensures commit.shared == old(commit.shared) && commit.ID == old(commit.ID)
    ensures var r := CommitLine(old(HeaderOf(commit)), line, clock);
            && (r.Ok? ==> o.Pass? && HeaderOf(commit) == r.value)
            && (r.Err? ==> o == Fail(r.error))
  {
    var spacepos := IndexOfChar(line, ' ');
    if spacepos < 1 {
      return Pass;
    }
    var reftype := line[..spacepos];
    var val := line[spacepos + 1..];
    assert KeyValue(line) == Some((reftype, val));
    if reftype == "tree" || reftype == "object" || reftype == "parent" {
      o := SetCommitId(commit, reftype == "parent", val);
    } else if reftype == "author" || reftype == "tagger" || reftype == "committer" {
      o := SetCommitSignature(commit, reftype == "committer", val, clock);
    } else {
      o := Pass;
    }
  }

  /** The "tree", "object" and "parent" cases: the id sets the tree id or is appended to the parents. */
  method SetCommitId(commit: Commits.Commit, parent: bool, val: string) returns (o: Outcome)
    modifies commit
    ensures commit.shared == old(commit.shared) && commit.ID == old(commit.ID)
    ensures var r := WithId(old(HeaderOf(commit)), parent, val);
            && (r.Ok? ==> o.Pass? && HeaderOf(commit) == r.value)
            && (r.Err? ==> o == Fail(r.error))
  {
    var id := NewIDFromString(val);
    if id.Err? {
      return Fail(id.error);
    }
    if parent {
      commit.Parents := commit.Parents + [id.value];
    } else {
      commit.TreeID := Some(id.value);
    }
    o := Pass;
  }

  /** The "author", "tagger" and "committer" cases: the signature sets the author or the committer. */
  method SetCommitSignature(commit: Commits.Commit, committer: bool, val: string, clock: Clock) returns (o: Outcome)
    modifies commit
    ensures commit.shared == old(commit.shared) && commit.ID == old(commit.ID)
    ensures var r := WithSignature(old(HeaderOf(commit)), committer, val, clock);
            && (r.Ok? ==> o.Pass? && HeaderOf(commit) == r.value)
            && (r.Err? ==> o == Fail(r.error))
  {
    var sig := ParseSignature(val, clock);
    if sig.Err? {
      return Fail(sig.error);
    }
    if committer {
      commit.Committer := Some(sig.value);
    } else {
      commit.Author := Some(sig.value);
    }
    o := Pass;
  }

  // ---------------------------------------------------------------------------------
  // parseTag

  /** The fields of a tag that parseTag sets; `Typ` is only set by the corrected reading. */
  datatype TagHeader = TagHeader(CommitID: Option<SHA1>, Tagger: Option<Signature>, Message: Option<string>, Typ: Option<string>)

  const NoTag := TagHeader(None, None, None, None)

  /**
   * One line of a tag as written: "object" sets the tagged id, and both
   * "type" and "tagger" lines go to the signature parser and set the tagger.
   */
  function TagLine(h: TagHeader, line: string, clock: Clock): (r: Result<TagHeader>)
  {
    match KeyValue(line)
    case None => Ok(h)
    case Some((key, val)) =>
      if key == "object" then TagWithId(h, val)
      else if key == "type" || key == "tagger" then TagWithSignature(h, val, clock)
      else Ok(h)
  }

  /** An "object" id sets the tagged id. */
  function TagWithId(h: TagHeader, val: string): (r: Result<TagHeader>)
  {
    var id :- NewIDFromString(val);
    Ok(h.(CommitID := Some(id)))
  }

  /** A "type" or "tagger" signature sets the tagger. */
  function TagWithSignature(h: TagHeader, val: string, clock: Clock): (r: Result<TagHeader>)
  {
    var sig :- ParseSignature(val, clock);
    Ok(h.(Tagger := Some(sig)))
  }

  function TagLines(h: TagHeader, lines: seq<string>, clock: Clock): (r: Result<TagHeader>)
    decreases |lines|
  {
    if |lines| == 0 then Ok(h)
    else
      var next :- TagLine(h, lines[0], clock);
      TagLines(next, lines[1..], clock)
  }

  /** parseTag as written; the test for no lines at all can never succeed, since a split yields at least one piece. */
  function ParseTagText(data: string, clock: Clock): (r: Result<TagHeader>)
  {
    var eol := IndexOfChar(data, '\n');
    if eol == 0 then Ok(NoTag.(Message := Some(data[1..])))
    else
      var lines := Split(data, '\n');
      if |lines| == 0 then Ok(NoTag)
      else if |lines| > 1 && lines[0] == "" then Ok(NoTag.(Message := Some(lines[1])))
      else TagLines(NoTag, lines, clock)
  }

  /** Repository.parseTag: fills a new tag line by line. */
  method ParseTag(data: string, clock: Clock) returns (r: Result<TagHeader>)
    ensures r == ParseTagText(data, clock)
  {
    var tag := NoTag;
    var eol := IndexOfChar(data, '\n');
    if eol == 0 {
      tag := tag.(Message := Some(data[1..]));
      return Ok(tag);
    }
    var lines := Split(data, '\n');
    if |lines| > 1 && lines[0] == "" {
      tag := tag.(Message := Some(lines[1]));
      return Ok(tag);
    }
    r := ApplyTagLines(tag, lines, clock);
  }

  /** parseTag's loop: the lines applied in order, stopping at the first that throws. */
  method ApplyTagLines(start: TagHeader, lines: seq<string>, clock: Clock) returns (r: Result<TagHeader>)
    ensures r == TagLines(start, lines, clock)
  {
    var tag := start;
    var i := 0;
    while i < |lines|
      invariant 0 <= i <= |lines|
      invariant TagLines(tag, lines[i..], clock) == TagLines(start, lines, clock)
    {
      assert lines[i..][0] == lines[i] && lines[i..][1..] == lines[i + 1..];
      var next := ApplyTagLine(tag, lines[i], clock);
      if next.Err? {
        return Err(next.error);
      }
      tag := next.value;
      i := i + 1;
    }
    r := Ok(tag);
  }

  /** The body of parseTag's loop: one line applied to the tag being filled. */
  method ApplyTagLine(tag: TagHeader, line: string, clock: Clock) returns (r: Result<TagHeader>)
    ensures r == TagLine(tag, line, clock)
  {
    var spacepos := IndexOfChar(line, ' ');
    if spacepos < 1 {
      return Ok(tag);
    }
    var reftype := line[..spacepos];
    var val := line[spacepos + 1..];
    assert KeyValue(line) == Some((reftype, val));
    if reftype == "object" {
      var id := NewIDFromString(val);
      if id.Err? {
        return Err(id.error);
      }
      r := Ok(tag.(CommitID := Some(id.value)));
    } else if reftype == "type" || reftype == "tagger" {
      var sig := ParseSignature(val, clock);
      if sig.Err? {
        return Err(sig.error);
      }
      r := Ok(tag.(Tagger := Some(sig.value)));
    } else {
      r := Ok(tag);
    }
  }

  // ---------------------------------------------------------------------------------
  // Corrected readings

  /** The position of the first empty line, which ends a header; -1 when there is none. */
  function FirstEmpty(lines: seq<string>): (k: int)
    ensures -1 <= k < |lines|
    ensures k >= 0 ==> lines[k] == ""
    ensures forall j :: 0 <= j < |lines| && (k == -1 || j < k) ==> lines[j] != ""
  {
    if |lines| == 0 then -1
    else if lines[0] == "" then 0
    else
      var k := FirstEmpty(lines[1..]);
      if k == -1 then -1 else k + 1
  }

  /**
   * parseCommit as its comment describes it: the lines before the first
   * empty line are the header, and the text after the blank line is the message.
   */
  function ParseCommitTextCorrected(data: string, clock: Clock): (r: Result<CommitHeader>)
  {
    var eol := IndexOfChar(data, '\n');
    if eol == 0 then Ok(NoHeader.(Message := Some(data[1..])))
    else
      var lines := Split(data, '\n');
      var k := FirstEmpty(lines);
      if k < 0 then CommitLines(NoHeader, lines, clock)
      else
        var h :- CommitLines(NoHeader, lines[..k], clock);
        Ok(h.(Message := Some(Join(lines[k + 1..], "\n"))))
  }

  /** A tag line as intended: "type" records the object kind instead of reading a signature. */
  function TagLineCorrected(h: TagHeader, line: string, clock: Clock): (r: Result<TagHeader>)
  {
    match KeyValue(line)
    case Some((key, val)) =>
      if key == "type" then Ok(h.(Typ := Some(val))) else TagLine(h, line, clock)
    case None => Ok(h)
  }

  function TagLinesCorrected(h: TagHeader, lines: seq<string>, clock: Clock): (r: Result<TagHeader>)
    decreases |lines|
  {
    if |lines| == 0 then Ok(h)
    else
      var next :- TagLineCorrected(h, lines[0], clock);
      TagLinesCorrected(next, lines[1..], clock)
  }
}
