/**
 * The commit record of the top-level namespace (Commit.cs): the same
 * accessors as the commits namespace's record, without the shared submodule
 * map. Its own submodule dictionary is private and unused by these accessors.
 */
module PlainCommits {
  import opened Base
  import opened Sha1
  import opened Signatures
  import Commits

  class Commit {
    var ID: Option<SHA1>
    var Author: Option<Signature>
    var Committer: Option<Signature>
    var Message: Option<string>
    var Parents: seq<SHA1>

    /** A new commit has no parents and no message. */
    constructor ()
      ensures Parents == [] && ID == None && Author == None && Committer == None && Message == None
    {
      ID := None;
      Author := None;
      Committer := None;
      Message := None;
      Parents := [];
    }

    /** Summary: the message's first line; a missing message throws. */
    function Summary(): (r: Result<string>)
      reads this
      ensures r.Ok? <==> Message.Some?
      ensures r.Ok? ==> '\n' !in r.value && |r.value| <= |Message.value|
                        && r.value == Message.value[..|r.value|]
                        && (|r.value| < |Message.value| ==> Message.value[|r.value|] == '\n')
    {
      if Message.None? then Err(NullReference) else Ok(Commits.FirstLine(Message.value))
    }

    /** ParentsCount: the number of parents, 0 exactly for a root commit. */
    function ParentsCount(): (n: nat)
      reads this
      ensures n == |Parents|
      ensures n == 0 <==> Parents == []
    {
      |Parents|
    }

    /** ParentID: the n-th parent; an n at or past the count, or a negative one, throws. */
    function ParentID(n: int): (r: Result<SHA1>)
      reads this
      ensures r.Ok? <==> 0 <= n < ParentsCount()
      ensures r.Ok? ==> r.value == Parents[n]
      ensures n >= ParentsCount() ==> r == Err(Failure("n can not be greater than parents count"))
      ensures n < 0 && n < ParentsCount() ==> r == Err(ArgumentOutOfRange)
    {
      if n >= |Parents| then Err(Failure("n can not be greater than parents count"))
      else if n < 0 then Err(ArgumentOutOfRange)
      else Ok(Parents[n])
    }
  }

  /** A commit whose message is one line followed by more has that line as its summary. */
  lemma SummaryOfMessage(c: Commit, line: string, rest: string)
    requires c.Message == Some(line + "\n" + rest) && '\n' !in line
    ensures c.Summary() == Ok(line)
  {
    Commits.FirstLineOf(line, rest);
  }
}
