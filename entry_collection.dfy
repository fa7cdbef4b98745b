/**
 * The collection of tree entries (EntryCollection.cs) and its enumerator
 * (EntryEnumerator.cs). Entries are told apart by their UniqueId, not by
 * their contents.
 */
module EntryCollections {
  import opened Base
  import opened TreeEntries
  import Text

  /** The position of the first entry with the given UniqueId, or -1. */
  function FirstWithId(items: seq<TreeEntry>, id: Option<Guid>): (k: int)
    ensures -1 <= k < |items|
    ensures k >= 0 ==> items[k].UniqueId == id
    ensures forall j :: 0 <= j < |items| && (k == -1 || j < k) ==> items[j].UniqueId != id
    decreases |items|
  {
    if |items| == 0 then -1
    else if items[0].UniqueId == id then 0
    else
      var k := FirstWithId(items[1..], id);
      if k == -1 then -1 else k + 1
  }

  /** The list without its entry at `k`. */
  function RemoveAt(items: seq<TreeEntry>, k: nat): (rest: seq<TreeEntry>)
    requires k < |items|
    ensures |rest| == |items| - 1
  {
    items[..k] + items[k + 1..]
  }

  class EntryCollection {
    var items: seq<TreeEntry>
    var isReadOnly: bool

    /** A new collection is empty; the read-only flag is never set. */
    constructor ()
      ensures items == [] && !isReadOnly
    {
      items := [];
      isReadOnly := false;
    }

    /** Count: the number of entries. */
    function Count(): nat
      reads this
    {
      |items|
    }

    /** IsReadOnly: the flag, which no member sets. */
    function IsReadOnly(): bool
      reads this
    {
      isReadOnly
    }

    /** The indexer's getter: the entry at `index`, or ArgumentOutOfRange outside the list. */
    function Get(index: int): (r: Result<TreeEntry>)
      reads this
      ensures r.Ok? <==> 0 <= index < Count()
      ensures r.Ok? ==> r.value == items[index]
    {
      if 0 <= index < |items| then Ok(items[index]) else Err(ArgumentOutOfRange)
    }

    /** The indexer's setter: replaces the entry at `index` and nothing else, or throws outside the list. */
    method Set(index: int, value: TreeEntry) returns (r: Outcome)
      modifies this
      ensures r.Pass? <==> 0 <= index < |old(items)|
      ensures r.Pass? ==> items == old(items)[index := value]
      ensures r.Fail? ==> items == old(items)
      ensures isReadOnly == old(isReadOnly)
    {
      if 0 <= index < |items| {
        items := items[index := value];
        r := Pass;
      } else {
        r := Fail(ArgumentOutOfRange);
      }
    }

    /** Add: appends the entry at the end. */
    method Add(item: TreeEntry)
      modifies this
      ensures items == old(items) + [item]
      ensures isReadOnly == old(isReadOnly)
    {
      items := items + [item];
    }

    /** Clear: empties the list. */
    method Clear()
      modifies this
      ensures items == []
      ensures isReadOnly == old(isReadOnly)
    {
      items := [];
    }

    /** Val: replaces the list. */
    method Val(list: seq<TreeEntry>)
      modifies this
      ensures items == list
      ensures isReadOnly == old(isReadOnly)
    {
      items := list;
    }

    /** CopyTo: does nothing. */
    method CopyTo(target: seq<TreeEntry>, arrayIndex: int)
      ensures unchanged(this)
    {
    }

    /** Contains: whether some entry has the item's UniqueId. */
    method Contains(item: TreeEntry) returns (b: bool)
      ensures b <==> exists k :: 0 <= k < |items| && items[k].UniqueId == item.UniqueId
    {
      var i := 0;
      while i < |items|
        invariant 0 <= i <= |items|
        invariant forall k :: 0 <= k < i ==> items[k].UniqueId != item.UniqueId
      {
        if items[i].UniqueId == item.UniqueId {
          return true;
        }
        i := i + 1;
      }
      b := false;
    }

    /**
     * Remove: deletes the first entry with the item's UniqueId and answers
     * true; with no such entry it answers false and changes nothing.
     */
    method Remove(item: TreeEntry) returns (b: bool)
      modifies this
      ensures var k := FirstWithId(old(items), item.UniqueId);
              && (b <==> k >= 0)
              && items == (if k >= 0 then RemoveAt(old(items), k) else old(items))
      ensures isReadOnly == old(isReadOnly)
    {
      b := false;
      var i := 0;
      while i < |items|
        invariant 0 <= i <= |items|
        invariant items == old(items)
        invariant forall k :: 0 <= k < i ==> items[k].UniqueId != item.UniqueId
      {
        if items[i].UniqueId == item.UniqueId {
          FirstWithIdIs(items, item.UniqueId, i);
          items := RemoveAt(items, i);
          b := true;
          break;
        }
        i := i + 1;
      }
      if !b {
        FirstWithIdNone(items, item.UniqueId);
      }
    }

    /** GetEnumerator: a new enumerator over this collection, before its first entry. */
    method GetEnumerator() returns (e: EntryEnumerator)
      ensures fresh(e)
      ensures e.collection == this && e.index == -1 && e.current == None
    {
      e := new EntryEnumerator(this);
    }
  }

  class EntryEnumerator {
    var collection: EntryCollection?
    var index: int
    var current: Option<TreeEntry>

    /** The default constructor leaves every field at its default: no collection, index 0, no current entry. */
    constructor Default()
      ensures collection == null && index == 0 && current == None
    {
      collection := null;
      index := 0;
      current := None;
    }

    /** A new enumerator stands before the first entry, with no current entry. */
    constructor (c: EntryCollection)
      ensures collection == c && index == -1 && current == None
    {
      collection := c;
      index := -1;
      current := None;
    }

    /** Current: the last entry MoveNext stepped onto. */
    function Current(): Option<TreeEntry>
      reads this
    {
      current
    }

    /** Dispose: drops the collection and resets the position and the current entry. */
    method Dispose()
      modifies this
      ensures collection == null && index == -1 && current == None
    {
      collection := null;
      current := None;
      index := -1;
    }

    /** Reset: back before the first entry, with no current entry; the collection stays. */
    method Reset()
      modifies this
      ensures collection == old(collection) && index == -1 && current == None
    {
      current := None;
      index := -1;
    }

    /**
     * MoveNext: advances the position (an Int32 `++`, which wraps past
     * Int32Max), then answers true and steps onto the entry there while it is
     * inside the collection, and false past the end (leaving the current entry
     * as it was). A disposed enumerator throws.
     */
    method MoveNext() returns (r: Result<bool>)
      modifies this
      ensures collection == old(collection) && index == Text.Wrap32(old(index) + 1)
      ensures collection == null ==> r == Err(NullReference) && current == old(current)
      ensures collection != null && index >= |collection.items| ==> r == Ok(false) && current == old(current)
      ensures collection != null && 0 <= index < |collection.items|
              ==> r == Ok(true) && current == Some(collection.items[index])
      ensures collection != null && index < 0 ==> r == Err(ArgumentOutOfRange) && current == old(current)
    {
      index := Text.Wrap32(index + 1);
      if collection == null {
        return Err(NullReference);
      }
      if index >= collection.Count() {
        return Ok(false);
      }
      var item := collection.Get(index);
      if item.Err? {
        return Err(item.error);
      }
      current := Some(item.value);
      r := Ok(true);
    }
  }

  // ---------------------------------------------------------------------------------
  // Properties

  /** FirstWithId finds a matching entry with none before it. */
  lemma {:induction false} FirstWithIdIs(items: seq<TreeEntry>, id: Option<Guid>, k: nat)
    requires k < |items| && items[k].UniqueId == id
    requires forall j :: 0 <= j < k ==> items[j].UniqueId != id
    ensures FirstWithId(items, id) == k
    decreases k
  {
    if k > 0 {
      FirstWithIdIs(items[1..], id, k - 1);
    }
  }

  /** With no matching entry, FirstWithId answers -1. */
  lemma FirstWithIdNone(items: seq<TreeEntry>, id: Option<Guid>)
    requires forall j :: 0 <= j < |items| ==> items[j].UniqueId != id
    ensures FirstWithId(items, id) == -1
  {
  }

  /**
   * Removing the entry at `k` takes exactly that entry out: the remaining
   * entries are the old ones less it.
   */
  lemma RemoveAtMultiset(items: seq<TreeEntry>, k: nat)
    requires k < |items|
    ensures multiset(RemoveAt(items, k)) + multiset{items[k]} == multiset(items)
  {
    assert items == items[..k] + [items[k]] + items[k + 1..];
  }

  /**
   * Removal keeps the order of the other entries: the entries before the
   * match stay where they are and the ones after it move up by one.
   */
  lemma RemoveAtOrder(items: seq<TreeEntry>, k: nat)
    requires k < |items|
    ensures forall j :: 0 <= j < k ==> RemoveAt(items, k)[j] == items[j]
    ensures forall j :: k <= j < |items| - 1 ==> RemoveAt(items, k)[j] == items[j + 1]
  {
  }
}
