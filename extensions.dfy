/** The string extension methods. */
module Extensions {
  import opened Text

  /** Extensions.TrimSuffix: drops one copy of `suffix` from the end of `s`, if it is there. */
  function TrimSuffix(s: string, suffix: string): (r: string)
    ensures EndsWith(s, suffix) ==> r + suffix == s
    ensures !EndsWith(s, suffix) ==> r == s
  {
    if EndsWith(s, suffix) then s[..|s| - |suffix|] else s
  }

  /** The result is always a prefix of `s`. */
  lemma TrimSuffixPrefix(s: string, suffix: string)
    ensures StartsWith(s, TrimSuffix(s, suffix))
  {
  }

  /** Trimming undoes appending. */
  lemma TrimSuffixAppended(t: string, suffix: string)
    ensures TrimSuffix(t + suffix, suffix) == t
  {
    assert (t + suffix)[|t|..] == suffix;
  }

  /** An empty suffix leaves the string as it is. */
  lemma TrimSuffixEmpty(s: string)
    ensures TrimSuffix(s, "") == s
  {
  }

  /** Only one copy goes: "a.git.git" becomes "a.git", so trimming is not idempotent. */
  lemma TrimSuffixOnce()
    ensures TrimSuffix("a.git.git", ".git") == "a.git"
    ensures TrimSuffix(TrimSuffix("a.git.git", ".git"), ".git") != TrimSuffix("a.git.git", ".git")
  {
    TrimSuffixAppended("a.git", ".git");
    assert "a.git.git" == "a.git" + ".git";
    TrimSuffixAppended("a", ".git");
    assert "a.git" == "a" + ".git";
  }
}
