// A section of an ini file: its items (entries and nested sections) kept
// twice, in a map by key and in a list in insertion order.

module IniSections {
  import opened Common

  /**
   * An item of a section, as far as the section looks at it: its key (the
   * name of an entry or a nested section), whether it is an entry (the
   * other kind is a nested section) and whether it is transient (not
   * written back to the file).
   */
  datatype IniItem = IniItem(key: string, isEntry: bool, isTransient: bool)

  /** The outcome of `addItem`: the item it returns (null when validation fails), or the exception it throws. */
  datatype AddOutcome = Returned(item: Option<IniItem>) | IllegalArgument

  /** `list.remove(x)`: the list without the first element equal to `x`, unchanged when there is none. */
  function RemoveFirst<T(==)>(s: seq<T>, x: T): (r: seq<T>)
    ensures x !in s ==> r == s
    ensures x in s ==> |r| == |s| - 1
    ensures multiset(r) == multiset(s) - multiset{x}
  {
    if s == [] then []
    else
      assert s == [s[0]] + s[1..];
      if s[0] == x then s[1..]
      else [s[0]] + RemoveFirst(s[1..], x)
  }

  /** Removing the first `x`, found at `i`, keeps the elements before it and after it in order. */
  lemma {:induction false} RemoveFirstAt<T>(s: seq<T>, x: T, i: nat)
    requires i < |s| && s[i] == x && x !in s[..i]
    ensures RemoveFirst(s, x) == s[..i] + s[i + 1..]
  {
    if i > 0 {
      assert s[0] != x by {
        assert s[0] == s[..i][0];
      }
      assert s[1..][..i - 1] == s[..i][1..];
      RemoveFirstAt(s[1..], x, i - 1);
      assert s[..i] == [s[0]] + s[1..][..i - 1];
      assert s[i + 1..] == s[1..][i..];
    }
  }

  /** Elements other than `x` survive the removal. */
  lemma {:induction false} RemoveFirstKeepsOthers<T>(s: seq<T>, x: T, y: T)
    requires y in s && y != x
    ensures y in RemoveFirst(s, x)
  {
    if s[0] != x && s[0] != y {
      RemoveFirstKeepsOthers(s[1..], x, y);
    }
  }

  class IniSection {
    const name: string
    var itemMap: map<string, IniItem>
    var itemList: seq<IniItem>

    /**
     * What `addItem`, `removeItem` and `putEntry` keep: every item in the
     * map is stored under its own key and also appears in the list. (The
     * list may hold more: `putEntry` appends even when it replaces.)
     */
    ghost predicate Valid()
      reads this
    {
      forall k :: k in itemMap ==> itemMap[k].key == k && itemMap[k] in itemList
    }

    /** A section named `name` with no items. */
    constructor (name: string)
      ensures this.name == name && itemMap == map[] && itemList == []
      ensures Valid()
    {
      this.name := name;
      itemMap := map[];
      itemList := [];
    }

    /** `subItemByKey(key)`: the item stored under `key`, if any. */
    function SubItemByKey(key: string): (r: Option<IniItem>)
      reads this
      ensures r.Some? <==> key in itemMap
      ensures r.Some? ==> r.value == itemMap[key]
      ensures Valid() && r.Some? ==> r.value in itemList && r.value.key == key
    {
      if key in itemMap then Some(itemMap[key]) else None
    }

    /** `hasChildren()`: whether any item is stored by key. */
    function HasChildren(): (r: bool)
      reads this
      ensures r <==> itemMap != map[]
    {
      itemMap != map[]
    }

    /**
     * `addItem(item)`: a fresh key is stored in the map and appended to the
     * list; an entry is then validated by the enclosing unit (`validate`,
     * where None stands for the parser exception the source turns into
     * null), another item returned as it is. A key already present throws
     * IllegalArgumentException and changes nothing.
     */
    method AddItem(item: IniItem, validate: IniItem -> Option<IniItem>) returns (r: AddOutcome)
      requires Valid()
      modifies this
      ensures Valid()
      ensures item.key in old(itemMap) ==> r == IllegalArgument && itemMap == old(itemMap) && itemList == old(itemList)
      ensures item.key !in old(itemMap) ==>
        && itemMap == old(itemMap)[item.key := item]
        && itemList == old(itemList) + [item]
        && r == Returned(if item.isEntry then validate(item) else Some(item))
    {
      if item.key !in itemMap {
        itemMap := itemMap[item.key := item];
        itemList := itemList + [item];
        return Returned(if item.isEntry then validate(item) else Some(item));
      } else {
        return IllegalArgument;
      }
    }

    /** `removeItem(item)`: drops the key of `item` from the map and the first `item` from the list. */
    method RemoveItem(item: IniItem)
      requires Valid()
      modifies this
      ensures Valid()
      ensures itemMap == old(itemMap) - {item.key}
      ensures itemList == RemoveFirst(old(itemList), item)
    {
      itemMap := itemMap - {item.key};
      itemList := RemoveFirst(itemList, item);
      forall k | k in itemMap
        ensures itemMap[k] in itemList
      {
        RemoveFirstKeepsOthers(old(itemList), item, old(itemMap)[k]);
      }
    }

    /** `putEntry(entry)`: stores the entry under its name, replacing any item there, and appends it to the list. */
    method PutEntry(entry: IniItem)
      requires Valid()
      requires entry.isEntry
      modifies this
      ensures Valid()
      ensures itemMap == old(itemMap)[entry.key := entry]
      ensures itemList == old(itemList) + [entry]
    {
      itemMap := itemMap[entry.key := entry];
      itemList := itemList + [entry];
    }

    /** `hasPersistentItems()`: whether some item of the list is not transient. */
    method HasPersistentItems() returns (r: bool)
      ensures r <==> exists i :: 0 <= i < |itemList| && !itemList[i].isTransient
    {
      var i := 0;
      while i < |itemList|
        invariant 0 <= i <= |itemList|
        invariant forall j :: 0 <= j < i ==> itemList[j].isTransient
      {
        if !itemList[i].isTransient {
          return true;
        }
        i := i + 1;
      }
      return false;
    }
  }

  /** A valid section with children has items in its list. */
  lemma ChildrenAreListed(section: IniSection)
    requires section.Valid()
    ensures section.HasChildren() ==> section.itemList != []
  {
    if section.HasChildren() {
      var k :| k in section.itemMap;
      assert section.itemMap[k] in section.itemList;
    }
  }
}
