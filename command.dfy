/**
 * The git command builder (Command.cs): the program name, its arguments in
 * order and the extra environment entries. Running the command is not
 * modelled here.
 */
module Commands {
  import opened Base
  import opened Text

  /** The text String() shows: the name alone, or the name and the arguments separated by single blanks. */
  function CommandLine(name: string, args: seq<string>): string {
    if |args| == 0 then name else name + " " + Join(args, " ")
  }

  /** The pairs of a dictionary, in its enumeration order, have distinct keys. */
  predicate DistinctKeys(pairs: seq<(string, string)>) {
    forall i, j :: 0 <= i < j < |pairs| ==> pairs[i].0 != pairs[j].0
  }

  /** The dictionary holding the pairs. */
  function PairsMap(pairs: seq<(string, string)>): map<string, string> {
    if |pairs| == 0 then map[] else map[pairs[0].0 := pairs[0].1] + PairsMap(pairs[1..])
  }

  /**
   * Dictionary.Add for each pair in order: the first key already present
   * throws, keeping the pairs added before it.
   */
  function AddPairs(envs: map<string, string>, pairs: seq<(string, string)>): (map<string, string>, Outcome)
    decreases |pairs|
  {
    if |pairs| == 0 then (envs, Pass)
    else if pairs[0].0 in envs then (envs, Fail(DuplicateKey))
    else AddPairs(envs[pairs[0].0 := pairs[0].1], pairs[1..])
  }

  class Command {
    var name: string
    var args: seq<string>
    var envs: map<string, string>

    /** Command(params string[] args): runs "git" with the given arguments and no extra environment. */
    constructor (args: seq<string>)
      ensures name == "git" && this.args == args && envs == map[]
    {
      name := "git";
      this.args := args;
      envs := map[];
    }

    /** String(): the command line as shown in logs; it splits back into the name and the arguments when none holds a blank. */
    function String(): (s: string)
      reads this
      ensures ' ' !in name && (forall i :: 0 <= i < |args| ==> ' ' !in args[i]) ==> Split(s, ' ') == [name] + args
    {
      if ' ' !in name && (forall i :: 0 <= i < |args| ==> ' ' !in args[i]) then
        CommandLineSplits(name, args);
        CommandLine(name, args)
      else
        CommandLine(name, args)
    }

    /** AddArgs: appends the arguments in order (a null or empty array adds nothing). */
    method AddArgs(more: seq<string>)
      modifies this
      ensures args == old(args) + more
      ensures name == old(name) && envs == old(envs)
    {
      if |more| > 0 {
        args := args + more;
      }
    }

    /**
     * AddEnvs(key, val): nothing happens when either is null or empty;
     * otherwise the pair is added, and a key already present throws.
     */
    method AddEnv(key: string, val: string) returns (r: Outcome)
      modifies this
      ensures name == old(name) && args == old(args)
      ensures (envs, r) == (if key == "" || val == "" then (old(envs), Pass) else AddPairs(old(envs), [(key, val)]))
    {
      if key == "" || val == "" {
        return Pass;
      }
      if key in envs {
        return Fail(DuplicateKey);
      }
      envs := envs[key := val];
      r := Pass;
    }

    /**
     * AddEnvs(dictionary): adds every pair in the dictionary's order; the
     * first key already present throws (a null or empty dictionary adds nothing).
     */
    method AddEnvs(pairs: seq<(string, string)>) returns (r: Outcome)
      requires DistinctKeys(pairs)
      modifies this
      ensures name == old(name) && args == old(args)
      ensures (envs, r) == AddPairs(old(envs), pairs)
    {
      var i := 0;
      while i < |pairs|
        invariant 0 <= i <= |pairs|
        invariant name == old(name) && args == old(args)
        invariant AddPairs(envs, pairs[i..]) == AddPairs(old(envs), pairs)
      {
        var (key, val) := pairs[i];
        if key in envs {
          return Fail(DuplicateKey);
        }
        envs := envs[key := val];
        assert pairs[i..][1..] == pairs[i + 1..];
        i := i + 1;
      }
      r := Pass;
    }

    /** GetArgs: the arguments, those String() shows after the name. */
    function GetArgs(): (r: seq<string>)
      reads this
      ensures String() == CommandLine(name, r)
      ensures r == args
    {
      args
    }

    /** GetEnvs: the environment entries, those AddEnv and AddEnvs added. */
    function GetEnvs(): (r: map<string, string>)
      reads this
      ensures r == envs
    {
      envs
    }
  }

  // ---------------------------------------------------------------------------------
  // Properties

  /** String() splits back into the name and the arguments when none of them holds a blank. */
  lemma CommandLineSplits(name: string, args: seq<string>)
    requires ' ' !in name
    requires forall i :: 0 <= i < |args| ==> ' ' !in args[i]
    ensures Split(CommandLine(name, args), ' ') == [name] + args
  {
    var parts := [name] + args;
    assert forall i :: 0 <= i < |parts| ==> ' ' !in parts[i];
    assert CommandLine(name, args) == Join(parts, " ") by {
      if |args| > 0 {
        assert parts[1..] == args;
      }
    }
    JoinSplit(parts, ' ');
  }

  /** The first two command lines of the String() test. */
  lemma CommandLineFixtures()
    ensures CommandLine("git", []) == "git"
    ensures CommandLine("git", ["version"]) == "git version"
  {
  }

  /**
   * Adding a dictionary succeeds exactly when none of its keys is present,
   * and then the environment gains exactly its pairs.
   */
  lemma {:induction false} AddPairsSucceeds(envs: map<string, string>, pairs: seq<(string, string)>)
    requires DistinctKeys(pairs)
    ensures AddPairs(envs, pairs).1.Pass? <==> forall i :: 0 <= i < |pairs| ==> pairs[i].0 !in envs
    ensures AddPairs(envs, pairs).1.Pass? ==> AddPairs(envs, pairs).0 == envs + PairsMap(pairs)
    decreases |pairs|
  {
    if |pairs| > 0 && pairs[0].0 !in envs {
      var rest := pairs[1..];
      var envs' := envs[pairs[0].0 := pairs[0].1];
      AddPairsSucceeds(envs', rest);
      assert forall i :: 0 <= i < |rest| ==> rest[i].0 != pairs[0].0 && rest[i] == pairs[i + 1];
      UpdateThenUnion(envs, pairs[0].0, pairs[0].1, PairsMap(rest));
    }
  }

  /**
   * When adding fails, the environment holds the old entries and the pairs
   * before the first key that was already present.
   */
  lemma {:induction false} AddPairsFails(envs: map<string, string>, pairs: seq<(string, string)>)
    requires DistinctKeys(pairs)
    requires AddPairs(envs, pairs).1.Fail?
    ensures exists k :: 0 <= k < |pairs| && pairs[k].0 in envs
                        && AddPairs(envs, pairs) == (envs + PairsMap(pairs[..k]), Fail(DuplicateKey))
    decreases |pairs|
  {
    if pairs[0].0 in envs {
      assert pairs[..0] == [];
      assert envs + PairsMap([]) == envs;
      assert AddPairs(envs, pairs) == (envs + PairsMap(pairs[..0]), Fail(DuplicateKey));
    } else {
      var rest := pairs[1..];
      var envs' := envs[pairs[0].0 := pairs[0].1];
      assert DistinctKeys(rest) by {
        assert forall i :: 0 <= i < |rest| ==> rest[i] == pairs[i + 1];
      }
      AddPairsFails(envs', rest);
      var k :| 0 <= k < |rest| && rest[k].0 in envs'
               && AddPairs(envs', rest) == (envs' + PairsMap(rest[..k]), Fail(DuplicateKey));
      assert rest[k] == pairs[k + 1];
      assert pairs[k + 1].0 in envs by { assert rest[k].0 != pairs[0].0; }
      var front := pairs[..k + 1];
      assert PairsMap(front) == map[pairs[0].0 := pairs[0].1] + PairsMap(rest[..k]) by {
        assert front[1..] == rest[..k] && front[0] == pairs[0];
      }
      UpdateThenUnion(envs, pairs[0].0, pairs[0].1, PairsMap(rest[..k]));
      assert AddPairs(envs, pairs) == AddPairs(envs', rest);
    }
  }

  /** Adding one entry and then a dictionary is adding the entry followed by the dictionary. */
  lemma UpdateThenUnion(m: map<string, string>, k: string, v: string, more: map<string, string>)
    ensures m[k := v] + more == m + (map[k := v] + more)
  {
  }

  /** The environment of the AddEnvs test. */
  lemma AddEnvsFixture()
    ensures AddPairs(map["GIT_DIR" := "/tmp"], [("HOME", "/Users/unknwon"), ("GIT_EDITOR", "code")])
            == (map["GIT_DIR" := "/tmp", "HOME" := "/Users/unknwon", "GIT_EDITOR" := "code"], Pass)
  {
  }
}
