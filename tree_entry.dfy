/**
 * Entries of a git tree (TreeEntry.cs, EntryBase.cs): the file mode, the
 * object kind, the id and the name of one entry, the mode predicates and the
 * entry comparator.
 */
module TreeEntries {
  import opened Base
  import opened Text
  import opened Sha1
  import opened ObjectTypes

  /**
   * EntryMode. The source writes the values with leading zeros, but C# reads
   * them as decimal numbers, so these are the values the enum holds.
   */
  newtype EntryMode = int

  const EntryTree: EntryMode := 40000
  const EntryBlob: EntryMode := 100644
  const EntryExec: EntryMode := 100755
  const EntrySymlink: EntryMode := 120000
  const EntryCommit: EntryMode := 160000

  predicate IsDeclaredMode(m: EntryMode) {
    m == EntryTree || m == EntryBlob || m == EntryExec || m == EntrySymlink || m == EntryCommit
  }

  /** The Guid every entry receives when it is created; the model takes it as given. */
  type Guid = nat

  /**
   * A tree entry. `Parent` is the id of the tree it was listed from; `ID`
   * and `Parent` are null until set.
   */
  datatype TreeEntry = TreeEntry(
    UniqueId: Option<Guid>,
    Mode: EntryMode,
    Typ: ObjectType,
    ID: Option<SHA1>,
    Name: string,
    Parent: Option<SHA1>)
  {
    predicate IsTree() { Mode == EntryTree }
    predicate IsBlob() { Mode == EntryBlob }
    predicate IsExec() { Mode == EntryExec }
    predicate IsSymlink() { Mode == EntrySymlink }
    predicate IsCommit() { Mode == EntryCommit }

    /**
     * CompareTo: a tree or submodule sorts after an entry that is neither;
     * otherwise the later name sorts after, and every other case answers -1.
     * The mirrored test for the other entry is commented out in the source, so
     * the comparison is not antisymmetric and never answers 0.
     */
    function CompareTo(other: TreeEntry): (c: int)
      ensures c == 1 || c == -1
    {
      if (IsTree() || IsCommit()) && !other.IsTree() && !other.IsCommit() then 1
      else if CompareOrdinal(Name, other.Name) > 0 then 1
      else -1
    }
  }

  // ---------------------------------------------------------------------------------
  // Properties

  /** 1 when the flag holds, 0 otherwise. */
  function One(flag: bool): nat {
    if flag then 1 else 0
  }

  /** Each declared mode satisfies exactly one of the five predicates. */
  lemma ExactlyOneMode(e: TreeEntry)
    requires IsDeclaredMode(e.Mode)
    ensures One(e.IsTree()) + One(e.IsBlob()) + One(e.IsExec()) + One(e.IsSymlink()) + One(e.IsCommit()) == 1
  {
  }

  /** The enum's values, in increasing order: tree, blob, executable, symlink, submodule. */
  lemma ModeOrder()
    ensures EntryTree < EntryBlob < EntryExec < EntrySymlink < EntryCommit
  {
  }

  /** A tree or submodule compared with an entry that is neither answers 1. */
  lemma CompareDirectoryFirst(a: TreeEntry, b: TreeEntry)
    requires a.IsTree() || a.IsCommit()
    requires !b.IsTree() && !b.IsCommit()
    ensures a.CompareTo(b) == 1
  {
  }

  /** In every other case the answer is 1 exactly when a's name sorts after b's. */
  lemma CompareByName(a: TreeEntry, b: TreeEntry)
    requires !((a.IsTree() || a.IsCommit()) && !b.IsTree() && !b.IsCommit())
    ensures a.CompareTo(b) == 1 <==> OrdinalLess(b.Name, a.Name)
  {
    OrdinalAsymmetric(a.Name, b.Name);
    OrdinalTotal(a.Name, b.Name);
    OrdinalIrreflexive(a.Name);
  }

  /** No entry compares equal, not even to itself: it answers -1. */
  lemma CompareSelf(a: TreeEntry)
    ensures a.CompareTo(a) == -1
  {
    OrdinalIrreflexive(a.Name);
  }

  /** A blob named "b" and a tree named "a" each sort after the other. */
  lemma CompareNotAntisymmetric()
    ensures var blob := TreeEntry(None, EntryBlob, ObjectBlob, None, "b", None);
            var tree := TreeEntry(None, EntryTree, ObjectTree, None, "a", None);
            blob.CompareTo(tree) == 1 && tree.CompareTo(blob) == 1
  {
    var blob := TreeEntry(None, EntryBlob, ObjectBlob, None, "b", None);
    var tree := TreeEntry(None, EntryTree, ObjectTree, None, "a", None);
    assert OrdinalLess("a", "b") by {
      assert "a"[0] < "b"[0];
    }
    CompareByName(blob, tree);
  }
}
