/** The doubly linked child list of an array or object.  The `prev` of the first child is the last
    child, so that appending needs no walk; sorting a list may leave another child there, or none. */
module ChildList {
  import opened ListTail

  /** The list part of a cJSON item. */
  class Item {
    const key: string
    var next: Item?
    var prev: Item?

    constructor (key: string)
      ensures this.key == key && next == null && prev == null
    {
      this.key, next, prev := key, null, null;
    }
  }

  ghost predicate Distinct(s: seq<Item>) {
    forall i, j | 0 <= i < j < |s| :: s[i] != s[j]
  }

  /** Forward and backward links between neighbours; the ends are not looked at. */
  ghost predicate Linked(s: seq<Item>)
    reads s
  {
    && (forall i {:trigger s[i].next} | 0 <= i < |s| - 1 :: s[i].next == s[i+1])
    && (forall i {:trigger s[i].prev} | 0 < i < |s| :: s[i].prev == s[i-1])
  }

  /** The links around position `k`. */
  lemma Neighbours(s: seq<Item>, k: nat)
    requires Linked(s) && k < |s|
    ensures k > 0 ==> s[k-1].next == s[k] && s[k].prev == s[k-1]
    ensures k + 1 < |s| ==> s[k].next == s[k+1] && s[k+1].prev == s[k]
  {
  }

  /** Linking a new item in between two neighbours leaves the whole list linked. */
  lemma LinkedAfterInsert(s: seq<Item>, k: nat, item: Item)
    requires k < |s| && Distinct(s) && item !in s
    requires forall i {:trigger s[i].next} | 0 <= i < |s| - 1 :: s[i].next == if i + 1 == k then item else s[i+1]
    requires s[k].prev == item && forall i {:trigger s[i].prev} | 0 < i < |s| :: s[i].prev == if i == k then item else s[i-1]
    requires item.next == s[k] && (k > 0 ==> item.prev == s[k-1])
    ensures var r := s[..k] + [item] + s[k..]; Distinct(r) && Linked(r)
  {
  }

  function Last<T>(s: seq<T>): T
    requires s != []
  {
    s[|s|-1]
  }

  /** An item that is in no list. */
  predicate Loose(item: Item)
    reads item
  {
    item.next == null && item.prev == null
  }

  /** The tail of a list whose first child has this `prev`. */
  function TailOf(s: seq<Item>, prev: Item?): Tail {
    if prev == null then NoChild else if prev in s then AtChild(Position<Item>(s, prev)) else Gone
  }

  lemma TailAt(s: seq<Item>, k: nat)
    requires Distinct(s) && k < |s|
    ensures TailOf(s, s[k]) == AtChild(k)
  {
  }

  /** Without the item at `k` the others move up. */
  lemma TailWithout(s: seq<Item>, prev: Item?, k: nat)
    requires Distinct(s) && k < |s| && |s| > 1
    ensures var r := s[..k] + s[k+1..];
      Distinct(r) && if k == |s| - 1 then TailOf(r, s[k-1]) == AtChild(k - 1) else TailOf(r, prev) == DetachTail(|s|, TailOf(s, prev), k)
  {
    var r := s[..k] + s[k+1..];
    assert forall i | 0 <= i < |r| :: r[i] == s[if i < k then i else i + 1];
    if k == |s| - 1 {
      TailAt(r, k - 1);
    } else if prev != null && prev in s {
      var j := Position<Item>(s, prev);
      if j != k { TailAt(r, if j < k then j else j - 1); }
    }
  }

  /** Linking a new item behind the one at `k` ends the list there. */
  lemma LinkedAfterSuffix(s: seq<Item>, k: nat, item: Item)
    requires k < |s| && Distinct(s) && item !in s
    requires forall i {:trigger s[i].next} | 0 <= i <= k :: s[i].next == if i == k then item else s[i+1]
    requires forall i {:trigger s[i].prev} | 0 < i <= k :: s[i].prev == s[i-1]
    requires item.prev == s[k] && item.next == null
    ensures var r := s[..k+1] + [item];
      Distinct(r) && Linked(r) && Last(r) == item && TailOf(r, item) == AtChild(k + 1)
  {
    var r := s[..k+1] + [item];
    assert forall i | 0 <= i <= k :: r[i] == s[i];
    TailAt(r, k + 1);
  }

  /** Unlinking the item at `k` leaves the others linked. */
  lemma LinkedAfterRemove(s: seq<Item>, k: nat)
    requires k < |s|
    requires forall i {:trigger s[i].next} | 0 <= i < |s| && i != k ::
      s[i].next == if i + 1 < |s| && i + 1 != k then s[i+1] else if i + 1 == k && k + 1 < |s| then s[k+1] else null
    requires forall i {:trigger s[i].prev} | 0 < i < |s| && i != k && (i != 1 || k > 1) ::
      s[i].prev == if i == k + 1 then s[k-1] else s[i-1]
    ensures var r := s[..k] + s[k+1..];
      Linked(r) && (r != [] ==> Last(r).next == null && r[0] == if k > 0 then s[0] else s[1])
  {
    var r := s[..k] + s[k+1..];
    assert forall i | 0 <= i < |r| :: r[i] == s[if i < k then i else i + 1];
  }

  lemma DetachedAtEnd(n: nat, tail: Tail, k: nat)
    requires k < n && tail == AtChild(n - 1)
    ensures n > 1 ==> DetachTail(n, tail, k) == AtChild(n - 2)
  {
  }

  class Parent {
    var child: Item?
    ghost var items: seq<Item>

    /** All links but the tail are right. */
    ghost predicate Chained()
      reads this, items
    {
      && Distinct(items)
      && Linked(items)
      && (if items == [] then child == null else child == items[0] && Last(items).next == null)
    }

    ghost predicate Valid()
      reads this, items
    {
      Chained() && (items != [] ==> child.prev == Last(items))
    }

    ghost function Tail(): (t: Tail)
      requires Chained()
      reads this, items
      ensures t.AtChild? ==> t.index < |items|
    {
      if child == null then NoChild else TailOf(items, child.prev)
    }

    lemma TailIs()
      requires Chained()
      ensures Valid() <==> AtEnd(items, Tail())
      ensures forall k | 0 <= k < |items| && child.prev == items[k] :: Tail() == AtChild(k)
      ensures Tail().AtChild? ==> child.prev == items[Tail().index]
      ensures items != [] ==> (child.prev == null <==> Tail() == NoChild)
    {
    }

    constructor ()
      ensures Valid() && items == []
    {
      child, items := null, [];
    }

    /** `add_item_to_array`. */
    method Append(item: Item?) returns (ok: bool)
      requires Chained() && Tail() != Gone && (item != null ==> item !in items && Loose(item))
      modifies this, items, item
      ensures Chained() && ok == (item != null)
      ensures item == null ==> items == old(items) && Tail() == old(Tail())
      ensures item != null ==> (items, Tail()) == Appended(old(items), old(Tail()), item)
      ensures old(AtEnd(items, Tail())) ==> Valid() && items == if item == null then old(items) else old(items) + [item]
    {
      hide Distinct, Linked, Position, TailOf;
      TailIs();
      if item == null { return false; }
      if child == null {
        AppendFirst(item);
      } else if child.prev != null {
        AppendBehind(item, Tail().index);
      }
      TailIs();
      return true;
    }

    method AppendFirst(item: Item)
      requires Chained() && child == null
      modifies this, item
      ensures Chained() && items == [item] && Tail() == AtChild(0)
    {
      child := item;
      item.prev := item;
      item.next := null;
      items := [item];
      TailIs();
    }

    /** The item behind the tail, which is at `k`. */
    method AppendBehind(item: Item, ghost k: nat)
      requires Chained() && k < |items| && child.prev == items[k] && item !in items && Loose(item)
      modifies child, items[k], item
      modifies this`items
      ensures Chained() && items == old(items)[..k+1] + [item] && Tail() == AtChild(k + 1)
    {
      Neighbours(items, k);
      child.prev.next := item;
      item.prev := child.prev;
      child.prev := item;
      LinkedAfterSuffix(items, k, item);
      items := items[..k+1] + [item];
    }

    /** `get_array_item`. */
    method GetItem(index: nat) returns (item: Item?)
      requires Valid()
      ensures item == if index < |items| then items[index] else null
    {
      item := child;
      var left := index;
      while item != null && left > 0
        invariant 0 <= left <= index && index - left <= |items|
        invariant item == if index - left < |items| then items[index - left] else null
        decreases left
      {
        left := left - 1;
        item := item.next;
      }
    }

    /** `cJSON_InsertItemInArray`: behind the end it appends. */
    method Insert(which: int, item: Item?) returns (ok: bool)
      requires Valid() && (item != null ==> item !in items && Loose(item))
      modifies this, items, item
      ensures Valid() && ok == (which >= 0 && item != null)
      ensures items == if !ok then old(items)
                       else if which < |old(items)| then old(items)[..which] + [item] + old(items)[which..]
                       else old(items) + [item]
    {
      hide TailOf, Distinct, Linked;
      TailIs();
      if which < 0 || item == null { return false; }
      var after := GetItem(which);
      if after == null {
        ok := Append(item);
        return;
      }
      Neighbours(items, which);
      if after != child && after.prev == null { return false; }
      InsertBefore(after, item, which);
      return true;
    }

    method InsertBefore(after: Item, item: Item, ghost k: nat)
      requires Valid() && k < |items| && items[k] == after && item !in items && Loose(item)
      modifies this, items, item
      ensures Valid() && items == old(items)[..k] + [item] + old(items)[k..]
    {
      Neighbours(items, k);
      item.next := after;
      item.prev := after.prev;
      after.prev := item;
      if after == child {
        child := item;
      } else {
        item.prev.next := item;
      }
      LinkedAfterInsert(items, k, item);
      items := items[..k] + [item] + items[k..];
    }

    /** `cJSON_DetachItemViaPointer`; `k` is where the item is in the list. */
    method Detach(item: Item?, ghost k: nat) returns (r: Item?)
      requires Chained() && (item != null ==> (k < |items| && items[k] == item) || (item !in items && item.prev == null))
      modifies this, items
      ensures Chained()
      ensures item != null && item in old(items) ==>
        && r == item && Loose(item) && k < |old(items)|
        && items == old(items)[..k] + old(items)[k+1..] && Tail() == DetachTail(|old(items)|, old(Tail()), k)
      ensures item == null || item !in old(items) ==> r == null && items == old(items) && Tail() == old(Tail())
      ensures old(Valid()) ==> Valid()
    {
      hide TailOf, Distinct, Linked;
      TailIs();
      if k < |items| { Neighbours(items, k); }
      if item == null || (item != child && item.prev == null) { return null; }
      Unlink(item, k);
      if |items| > 1 { TailWithout(items, old(child.prev), k); }
      LinkedAfterRemove(items, k);
      items := items[..k] + items[k+1..];
      TailIs();
      if old(Valid()) { DetachedAtEnd(|old(items)|, old(Tail()), k); }
      return item;
    }

    /** The assignments of `cJSON_DetachItemViaPointer`. */
    method Unlink(item: Item, ghost k: nat)
      requires Chained() && k < |items| && items[k] == item
      modifies this`child, items
      ensures Loose(item) && child == if k > 0 then items[0] else if |items| > 1 then items[1] else null
      ensures |items| > 1 ==> child.prev == if k == |items| - 1 then items[k-1] else old(child.prev)
      ensures forall i {:trigger items[i].next} | 0 <= i < |items| && i != k ::
        items[i].next == if i + 1 < |items| && i + 1 != k then items[i+1] else if i + 1 == k && k + 1 < |items| then items[k+1] else null
      ensures forall i {:trigger items[i].prev} | 0 < i < |items| && i != k && (i != 1 || k > 1) ::
        items[i].prev == if i == k + 1 then items[k-1] else items[i-1]
    {
      Neighbours(items, k);
      if item != child {
        item.prev.next := item.next;
      }
      if item.next != null {
        item.next.prev := item.prev;
      }
      if item == child {
        child := item.next;
      } else if item.next == null {
        child.prev := item.prev;
      }
      item.prev := null;
      item.next := null;
    }

    /** `cJSON_DetachItemFromArray`. */
    method DetachAt(which: int) returns (r: Item?)
      requires Valid()
      modifies this, items
      ensures Valid()
      ensures if 0 <= which < |old(items)|
              then r == old(items)[which] && Loose(r) && items == old(items)[..which] + old(items)[which+1..]
              else r == null && items == old(items)
    {
      if which < 0 { return null; }
      var item := GetItem(which);
      r := Detach(item, which);
    }

    /** `cJSON_ReplaceItemViaPointer`; `k` is where the item is in the list. */
    method Replace(item: Item?, replacement: Item?, ghost k: nat) returns (ok: bool)
      requires Valid() && (item != null ==> k < |items| && items[k] == item)
      requires replacement != null ==> replacement == item || (replacement !in items && Loose(replacement))
      modifies this, items, replacement
      ensures Valid() && ok == (item != null && replacement != null)
      ensures items == if ok then old(items)[k := replacement] else old(items)
      ensures ok && replacement != item ==> Loose(item)
    {
      if child == null || replacement == null || item == null { return false; }
      if replacement == item { return true; }
      Neighbours(items, k);
      replacement.next := item.next;
      replacement.prev := item.prev;
      if replacement.next != null {
        replacement.next.prev := replacement;
      }
      if child == item {
        if child.prev == child {
          replacement.prev := replacement;
        }
        child := replacement;
      } else {
        if replacement.prev != null {
          replacement.prev.next := replacement;
        }
        if replacement.next == null {
          child.prev := replacement;
        }
      }
      item.next := null;
      item.prev := null;
      items := items[k := replacement];
      return true;
    }
  }
}
