/**
 * The order Repository.LsTree gives a tree's entries: the parsed listing is
 * ordered by name and then by mode, both with Enumerable.OrderBy, which is a
 * stable sort. The result is ordered by mode, and within one mode by name.
 */
module TreeOrder {
  import opened Base
  import opened Text
  import opened Sha1
  import opened TreeEntries
  import opened TreeParsing

  /** The two keys LsTree orders by. */
  datatype SortKey = ByName | ByMode

  /** `a`'s key is strictly smaller than `b`'s: names compare ordinally, modes as numbers. */
  predicate Before(k: SortKey, a: TreeEntry, b: TreeEntry) {
    match k
    case ByName => OrdinalLess(a.Name, b.Name)
    case ByMode => a.Mode < b.Mode
  }

  /** Puts `x` in front of the first entry whose key is not smaller than its own. */
  function Insert(k: SortKey, x: TreeEntry, s: seq<TreeEntry>): (r: seq<TreeEntry>)
    ensures multiset(r) == multiset(s) + multiset{x}
  {
    if |s| == 0 then [x]
    else if Before(k, s[0], x) then
      assert s == [s[0]] + s[1..];
      [s[0]] + Insert(k, x, s[1..])
    else [x] + s
  }

  /** Enumerable.OrderBy on a key: an insertion sort that keeps entries with equal keys in their input order. */
  function OrderBy(k: SortKey, xs: seq<TreeEntry>): (r: seq<TreeEntry>)
    ensures multiset(r) == multiset(xs)
  {
    if |xs| == 0 then []
    else
      assert xs == [xs[0]] + xs[1..];
      Insert(k, xs[0], OrderBy(k, xs[1..]))
  }

  /** No entry's key is smaller than an earlier one's. */
  predicate SortedBy(k: SortKey, s: seq<TreeEntry>) {
    forall i, j :: 0 <= i < j < |s| ==> !Before(k, s[j], s[i])
  }

  /** The entries of one mode, in their order. */
  function Keep(m: EntryMode, s: seq<TreeEntry>): (r: seq<TreeEntry>)
    ensures forall y :: y in r ==> y in s && y.Mode == m
    ensures |r| <= |s|
  {
    if |s| == 0 then []
    else (if s[0].Mode == m then [s[0]] else []) + Keep(m, s[1..])
  }

  /** A listed tree: its id and its ordered entries. */
  datatype Tree = Tree(TreeID: SHA1, Entries: seq<TreeEntry>)

  /**
   * Repository.LsTree once the revision is resolved: the tree id is read from
   * the resolved revision, any error output of git fails the call, and the
   * parsed entries are ordered by name and then by mode.
   */
  function LsTree(rev: string, stdout: string, stderr: string, uid: nat -> Guid): (r: Result<Tree>)
    ensures r.Ok? ==> stderr == "" && MustIDFromString(rev) == Ok(r.value.TreeID)
  {
    var id :- MustIDFromString(rev);
    if stderr != "" then Err(Failure(stderr))
    else
      var entries :- ParseTreeText(Some(id), stdout, uid);
      Ok(Tree(id, OrderBy(ByMode, OrderBy(ByName, entries))))
  }

  // ---------------------------------------------------------------------------------
  // Properties

  /**
   * Both keys are strict weak orders: no key is smaller than itself, and
   * "not smaller" is transitive.
   */
  lemma BeforeOrder(k: SortKey, a: TreeEntry, b: TreeEntry, c: TreeEntry)
    ensures !Before(k, a, a)
    ensures Before(k, a, b) ==> !Before(k, b, a)
    ensures !Before(k, b, a) && !Before(k, c, b) ==> !Before(k, c, a)
  {
    if k == ByName {
      OrdinalIrreflexive(a.Name);
      OrdinalAsymmetric(a.Name, b.Name);
      OrdinalTotal(a.Name, b.Name);
      if OrdinalLess(c.Name, a.Name) && OrdinalLess(a.Name, b.Name) {
        OrdinalTransitive(c.Name, a.Name, b.Name);
      }
    }
  }

  /** Inserting into a sorted list keeps it sorted. */
  lemma {:induction false} InsertSorted(k: SortKey, x: TreeEntry, s: seq<TreeEntry>)
    requires SortedBy(k, s)
    ensures SortedBy(k, Insert(k, x, s))
    decreases |s|
  {
    if |s| > 0 {
      if Before(k, s[0], x) {
        var t := Insert(k, x, s[1..]);
        SortedTail(k, s);
        InsertSorted(k, x, s[1..]);
        forall y | y in t ensures !Before(k, y, s[0]) {
          assert y in multiset(t);
          if y == x {
            BeforeOrder(k, s[0], x, x);
          } else {
            assert y in s[1..];
            SortedHead(k, s, y);
          }
        }
        ConsSorted(k, s[0], t);
      } else {
        forall y | y in s ensures !Before(k, y, x) {
          if y != s[0] {
            assert y in s[1..] by { assert s == [s[0]] + s[1..]; }
            SortedHead(k, s, y);
          }
          BeforeOrder(k, x, s[0], y);
        }
        ConsSorted(k, x, s);
      }
    }
  }

  /** OrderBy sorts. */
  lemma {:induction false} OrderBySorted(k: SortKey, xs: seq<TreeEntry>)
    ensures SortedBy(k, OrderBy(k, xs))
    decreases |xs|
  {
    if |xs| > 0 {
      OrderBySorted(k, xs[1..]);
      InsertSorted(k, xs[0], OrderBy(k, xs[1..]));
    }
  }

  /**
   * Inserting by mode into a list sorted by mode leaves each mode's entries
   * as if the new entry had been put in front: it goes before the entries of
   * its own mode.
   */
  lemma {:induction false} KeepInsert(m: EntryMode, x: TreeEntry, s: seq<TreeEntry>)
    requires SortedBy(ByMode, s)
    ensures Keep(m, Insert(ByMode, x, s)) == Keep(m, [x] + s)
    decreases |s|
  {
    if |s| > 0 && Before(ByMode, s[0], x) {
      var t := Insert(ByMode, x, s[1..]);
      SortedTail(ByMode, s);
      KeepInsert(m, x, s[1..]);
      KeepPast(m, x, s, t);
    }
  }

  /** An entry of a smaller mode may move past `x` without changing any mode's entries. */
  lemma KeepPast(m: EntryMode, x: TreeEntry, s: seq<TreeEntry>, t: seq<TreeEntry>)
    requires |s| > 0 && s[0].Mode < x.Mode
    requires Keep(m, t) == Keep(m, [x] + s[1..])
    ensures Keep(m, [s[0]] + t) == Keep(m, [x] + s)
  {
    KeepCons(m, s[0], t);
    KeepCons(m, x, s[1..]);
    KeepCons(m, x, s);
    assert Keep(m, s) == (if s[0].Mode == m then [s[0]] else []) + Keep(m, s[1..]);
    if x.Mode == m {
      assert Keep(m, [s[0]] + t) == Keep(m, t);
      assert Keep(m, s) == Keep(m, s[1..]);
    } else {
      assert Keep(m, [x] + s) == Keep(m, s);
      assert Keep(m, t) == Keep(m, s[1..]);
    }
  }

  /** Keep on a list with a head: the head, if it has the mode, then the rest's. */
  lemma KeepCons(m: EntryMode, y: TreeEntry, t: seq<TreeEntry>)
    ensures Keep(m, [y] + t) == (if y.Mode == m then [y] else []) + Keep(m, t)
  {
    assert ([y] + t)[1..] == t;
  }

  /** Stability: ordering by mode leaves the entries of each mode in their input order. */
  lemma {:induction false} KeepOrderBy(m: EntryMode, xs: seq<TreeEntry>)
    ensures Keep(m, OrderBy(ByMode, xs)) == Keep(m, xs)
    decreases |xs|
  {
    if |xs| > 0 {
      OrderBySorted(ByMode, xs[1..]);
      KeepInsert(m, xs[0], OrderBy(ByMode, xs[1..]));
      KeepOrderBy(m, xs[1..]);
      assert ([xs[0]] + OrderBy(ByMode, xs[1..]))[1..] == OrderBy(ByMode, xs[1..]);
    }
  }

  /** The tail of a sorted list is sorted. */
  lemma SortedTail(k: SortKey, s: seq<TreeEntry>)
    requires |s| > 0 && SortedBy(k, s)
    ensures SortedBy(k, s[1..])
  {
    forall i, j | 0 <= i < j < |s[1..]| ensures !Before(k, s[1..][j], s[1..][i]) {
      assert s[1..][i] == s[i + 1] && s[1..][j] == s[j + 1];
    }
  }

  /** In a sorted list, no later entry has a smaller key than the first. */
  lemma SortedHead(k: SortKey, s: seq<TreeEntry>, y: TreeEntry)
    requires |s| > 0 && SortedBy(k, s) && y in s[1..]
    ensures !Before(k, y, s[0])
  {
    var j :| 0 <= j < |s[1..]| && s[1..][j] == y;
    assert s[j + 1] == y;
  }

  /** The entries of one mode of a list sorted by name are sorted by name. */
  lemma {:induction false} KeepSorted(m: EntryMode, s: seq<TreeEntry>)
    requires SortedBy(ByName, s)
    ensures SortedBy(ByName, Keep(m, s))
    decreases |s|
  {
    if |s| > 0 {
      SortedTail(ByName, s);
      KeepSorted(m, s[1..]);
      var t := Keep(m, s[1..]);
      if s[0].Mode == m {
        forall y | y in t ensures !Before(ByName, y, s[0]) {
          SortedHead(ByName, s, y);
        }
        ConsSorted(ByName, s[0], t);
      }
    }
  }

  /** An entry whose key no later entry undercuts may head a sorted list. */
  lemma ConsSorted(k: SortKey, x: TreeEntry, t: seq<TreeEntry>)
    requires SortedBy(k, t)
    requires forall y :: y in t ==> !Before(k, y, x)
    ensures SortedBy(k, [x] + t)
  {
    var r := [x] + t;
    forall i, j | 0 <= i < j < |r| ensures !Before(k, r[j], r[i]) {
      assert r[j] == t[j - 1];
      if i == 0 {
        assert r[j] in t;
      } else {
        assert r[i] == t[i - 1];
      }
    }
  }

  /**
   * LsTree's order: the entries are the parsed ones, ordered by mode, and
   * within each mode ordered by name.
   */
  lemma LsTreeOrder(rev: string, stdout: string, stderr: string, uid: nat -> Guid)
    ensures var r := LsTree(rev, stdout, stderr, uid);
            r.Ok? ==> && ParseTreeText(Some(r.value.TreeID), stdout, uid).Ok?
                      && multiset(r.value.Entries) == multiset(ParseTreeText(Some(r.value.TreeID), stdout, uid).value)
                      && SortedBy(ByMode, r.value.Entries)
                      && forall m :: SortedBy(ByName, Keep(m, r.value.Entries))
  {
    var r := LsTree(rev, stdout, stderr, uid);
    if r.Ok? {
      var byName := OrderBy(ByName, ParseTreeText(Some(r.value.TreeID), stdout, uid).value);
      OrderBySorted(ByMode, byName);
      OrderBySorted(ByName, ParseTreeText(Some(r.value.TreeID), stdout, uid).value);
      forall m ensures SortedBy(ByName, Keep(m, r.value.Entries)) {
        KeepOrderBy(m, byName);
        KeepSorted(m, byName);
      }
    }
  }

  /** Trees come first: a tree entry is never preceded by an entry of another mode. */
  lemma TreesFirst(rev: string, stdout: string, stderr: string, uid: nat -> Guid)
    ensures var r := LsTree(rev, stdout, stderr, uid);
            r.Ok? ==> forall i, j :: 0 <= i < j < |r.value.Entries| && r.value.Entries[j].IsTree()
                                     ==> r.value.Entries[i].IsTree()
  {
    var r := LsTree(rev, stdout, stderr, uid);
    if r.Ok? {
      var parsed := ParseTreeText(Some(r.value.TreeID), stdout, uid).value;
      LsTreeOrder(rev, stdout, stderr, uid);
      TreeLinesShape([], Some(r.value.TreeID), Split(stdout, '\n'), uid, 0);
      forall i | 0 <= i < |r.value.Entries| ensures IsDeclaredMode(r.value.Entries[i].Mode) {
        var e := r.value.Entries[i];
        assert e in multiset(parsed);
        var k :| 0 <= k < |parsed| && parsed[k] == e;
        assert WellFormed(parsed[k], Some(r.value.TreeID));
      }
    }
  }
}
