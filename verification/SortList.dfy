/** `sort_list`: the mergesort that relinks the list in place. */
module SortList {
  import opened CString
  import opened MergeSort
  import opened ListTail
  import opened ChildList

  /** What a comparison in the given mode looks at. */
  function KeyOf(cs: bool): Item -> string {
    (x: Item) => SortKey(x.key, cs)
  }

  /** A list that starts at `head`; the `prev` of its head is not looked at. */
  ghost predicate Chain(head: Item?, s: seq<Item>)
    reads s
  {
    && Distinct(s)
    && Linked(s)
    && (if s == [] then head == null else head == s[0] && Last(s).next == null)
  }

  /** The nodes of `s` from position `i` on, as a list of its own. */
  lemma ChainFrom(head: Item?, s: seq<Item>, i: nat)
    requires Chain(head, s) && i <= |s|
    ensures Chain(if i < |s| then s[i] else null, s[i..])
  {
    var t := s[i..];
    assert forall k | 0 <= k < |t| :: t[k] == s[i+k];
    forall k | 0 <= k < |t| - 1 ensures t[k].next == t[k+1] { assert s[i+k].next == s[i+k+1]; }
    forall k | 0 < k < |t| ensures t[k].prev == t[k-1] { assert s[i+k].prev == s[i+k-1]; }
  }

  ghost predicate Disjoint(a: seq<Item>, b: seq<Item>) {
    forall x | x in a :: x !in b
  }

  /** The first loop: is the list strictly ascending already? */
  method IsAscending(list: Item, cs: bool, ghost s: seq<Item>) returns (sorted: bool)
    requires Chain(list, s)
    ensures sorted == Ascending(s, KeyOf(cs))
  {
    var current := list;
    ghost var i := 0;
    while current.next != null && Less(SortKey(current.key, cs), SortKey(current.next.key, cs))
      invariant i < |s| && current == s[i]
      invariant forall k | 0 < k <= i :: Less(KeyOf(cs)(s[k-1]), KeyOf(cs)(s[k]))
      decreases |s| - i
    {
      Neighbours(s, i);
      current := current.next;
      i := i + 1;
    }
    Neighbours(s, i);
    sorted := current.next == null;
    if !sorted { assert !Less(KeyOf(cs)(s[i]), KeyOf(cs)(s[i+1])); }
  }

  /** The two-pointer walk: the second pointer stops behind the first, longer half. */
  method Middle(list: Item, ghost s: seq<Item>) returns (second: Item?)
    requires Chain(list, s) && |s| >= 2
    ensures 0 < (|s| + 1) / 2 < |s| && second == s[(|s| + 1) / 2] && second.prev == s[(|s| + 1) / 2 - 1]
  {
    var current: Item? := list;
    second := list;
    ghost var j, i := 0, 0;
    while current != null
      invariant 0 <= j <= i <= |s| && j < |s|
      invariant (i < |s| ==> i == 2 * j) && (i == |s| ==> j == (|s| + 1) / 2)
      invariant second == s[j] && current == if i < |s| then s[i] else null
      decreases |s| - i
    {
      Neighbours(s, j);
      Neighbours(s, i);
      second := second.next;
      current := current.next;
      j, i := j + 1, i + 1;
      if current != null {
        Neighbours(s, i);
        current := current.next;
        i := i + 1;
      }
    }
    Neighbours(s, j);
  }

  lemma JoinLinked(m: seq<Item>, c: seq<Item>)
    requires Linked(m) && Linked(c)
    requires m != [] && c != [] ==> Last(m).next == c[0] && c[0].prev == Last(m)
    ensures Linked(m + c)
  {
    var t := m + c;
    forall i | 0 <= i < |t| - 1 ensures t[i].next == t[i+1] && t[i+1].prev == t[i] {
      if i + 1 < |m| { Neighbours(m, i); } else if i >= |m| { Neighbours(c, i - |m|); }
    }
  }

  lemma JoinDistinct(m: seq<Item>, c: seq<Item>)
    requires Distinct(m) && Distinct(c) && Disjoint(m, c)
    ensures Distinct(m + c)
  {
    var t := m + c;
    forall i, j | 0 <= i < j < |t| ensures t[i] != t[j] {
      if i < |m| <= j { assert m[i] in m && c[j-|m|] in c; }
    }
  }

  /** The state of the merge: `m` is merged, `a` and `b` are what is left of the two lists. */
  ghost predicate Merging(head: Item?, tail: Item?, m: seq<Item>, first: Item?, a: seq<Item>, second: Item?, b: seq<Item>)
    reads m, a, b
  {
    && Chain(first, a) && Chain(second, b) && Disjoint(a, b)
    && Distinct(m) && Linked(m) && Disjoint(m, a) && Disjoint(m, b)
    && (if m == [] then head == null else head == m[0] && tail == Last(m))
  }

  /** Move the head of the list `first` behind the merged ones. */
  method Take(head: Item?, tail: Item?, ghost m: seq<Item>, first: Item, ghost a: seq<Item>, second: Item?, ghost b: seq<Item>)
    returns (head': Item, first': Item?)
    requires a != [] && Merging(head, tail, m, first, a, second, b)
    modifies m, a
    ensures Merging(head', first, m + [a[0]], first', a[1..], second, b)
    ensures first' == old(first.next)
    ensures head' == (if head == null then first else head) && head'.prev == old(head'.prev)
  {
    Neighbours(a, 0);
    ChainFrom(first, a, 1);
    first' := first.next;
    if head == null {
      head' := first;
    } else {
      assert tail in m;
      tail.next := first;
      first.prev := tail;
      head' := head;
    }
    assert first == a[0] && a[0] in a;
    JoinDistinct(m, [a[0]]);
    JoinLinked(m, [a[0]]);
  }

  /** Hang what is left of one list behind the merged items. */
  method Finish(head: Item?, tail: Item?, ghost m: seq<Item>, rest: Item?, ghost c: seq<Item>) returns (r: Item?)
    requires Merging(head, tail, m, rest, c, null, []) && m != [] && c != []
    modifies m, c
    ensures Chain(r, m + c) && r == head && r.prev == old(r.prev)
  {
    assert tail in m && rest in c;
    tail.next := rest;
    rest.prev := tail;
    JoinDistinct(m, c);
    JoinLinked(m, c);
    r := head;
    assert Last(m + c) == Last(c);
    assert (m + c)[0] == m[0];
  }

  ghost predicate Within(m: seq<Item>, s: seq<Item>) {
    forall i | 0 <= i < |m| :: m[i] in s
  }

  lemma WithinTrans(a: seq<Item>, b: seq<Item>, c: seq<Item>)
    requires Within(a, b) && Within(b, c)
    ensures Within(a, c)
  {
  }

  lemma WithinConcat(m: seq<Item>, a: seq<Item>, b: seq<Item>, s: seq<Item>)
    requires Within(m, s) && Within(a, s) && Within(b, s)
    ensures Within(m + a + b, s)
  {
  }

  lemma MergingStarts(first: Item, a: seq<Item>, second: Item, b: seq<Item>)
    requires Chain(first, a) && Chain(second, b) && Disjoint(a, b)
    ensures Merging(null, null, [], first, a, second, b) && a != [] && b != []
  {
  }

  /** One of the two lists is used up. */
  lemma MergingEnds(head: Item?, tail: Item?, m: seq<Item>, first: Item?, a: seq<Item>, second: Item?, b: seq<Item>)
    requires Merging(head, tail, m, first, a, second, b) && (first == null || second == null) && (a != [] || b != [])
    ensures var rest, c := if first != null then first else second, if first != null then a else b;
      Merging(head, tail, m, rest, c, null, []) && c != [] && (a == [] || b == []) && (c == a || c == b) && (c == a <==> b == [])
  {
  }

  lemma MergeTakes<T>(m: seq<T>, a: seq<T>, b: seq<T>, key: T -> string)
    requires a != [] && b != []
    ensures m + Merge(a, b, key) ==
      if Less(key(a[0]), key(b[0])) then m + [a[0]] + Merge(a[1..], b, key) else m + [b[0]] + Merge(a, b[1..], key)
  {
    if Less(key(a[0]), key(b[0])) {
      assert m + ([a[0]] + Merge(a[1..], b, key)) == m + [a[0]] + Merge(a[1..], b, key);
    } else {
      assert m + ([b[0]] + Merge(a, b[1..], key)) == m + [b[0]] + Merge(a, b[1..], key);
    }
  }

  /** One turn of the merge loop. */
  method TakeSmaller(head: Item?, tail: Item?, ghost m: seq<Item>, first: Item, ghost a: seq<Item>,
                     second: Item, ghost b: seq<Item>, cs: bool)
    returns (head': Item, tail': Item, first': Item?, second': Item?, ghost m': seq<Item>, ghost a': seq<Item>, ghost b': seq<Item>)
    requires Merging(head, tail, m, first, a, second, b) && a != [] && b != []
    modifies m, a, b
    ensures Merging(head', tail', m', first', a', second', b') && m' != [] && |a'| + |b'| < |a| + |b| && (a' != [] || b' != [])
    ensures (first' != null <==> a' != []) && (second' != null <==> b' != [])
    ensures m' + Merge(a', b', KeyOf(cs)) == m + Merge(a, b, KeyOf(cs))
    ensures Within(m', m + a + b) && Within(a', m + a + b) && Within(b', m + a + b)
    ensures head' == (if head != null then head else if head' == first then first else second) && head'.prev == old(head'.prev)
  {
    hide Merge;
    MergeTakes(m, a, b, KeyOf(cs));
    if Less(SortKey(first.key, cs), SortKey(second.key, cs)) {
      tail', second', b' := first, second, b;
      head', first' := Take(head, tail, m, first, a, second, b);
      m', a' := m + [a[0]], a[1..];
    } else {
      tail', first', a' := second, first, a;
      head', second' := Take(head, tail, m, second, b, first, a);
      m', b' := m + [b[0]], b[1..];
    }
  }

  /** The merge of two sorted lists. */
  method MergeLists(list1: Item, list2: Item, cs: bool, ghost s1: seq<Item>, ghost s2: seq<Item>)
    returns (r: Item?, ghost t: seq<Item>)
    requires Chain(list1, s1) && Chain(list2, s2) && Disjoint(s1, s2)
    modifies s1, s2
    ensures Chain(r, t) && t == Merge(s1, s2, KeyOf(cs))
    ensures (r == list1 || r == list2) && r.prev == old(r.prev)
  {
    hide Merge, Merging;
    assert Merging(null, null, [], list1, s1, list2, s2) by { MergingStarts(list1, s1, list2, s2); }
    var first: Item?, second: Item? := list1, list2;
    var result: Item?, tail: Item? := null, null;
    ghost var a, b, m: seq<Item> := s1, s2, [];
    assert m + Merge(a, b, KeyOf(cs)) == Merge(s1, s2, KeyOf(cs));
    while first != null && second != null
      invariant Merging(result, tail, m, first, a, second, b)
      invariant (first != null <==> a != []) && (second != null <==> b != [])
      invariant (a != [] || b != []) && (a == [] || b == [] ==> m != [])
      invariant Within(m, s1 + s2) && Within(a, s1 + s2) && Within(b, s1 + s2)
      invariant m + Merge(a, b, KeyOf(cs)) == Merge(s1, s2, KeyOf(cs))
      invariant result == null ==> first == list1 && second == list2 && list1.prev == old(list1.prev) && list2.prev == old(list2.prev)
      invariant result != null ==> (result == list1 || result == list2) && result.prev == old(result.prev)
      invariant result == null <==> m == []
      decreases |a| + |b|
    {
      ghost var all := m + a + b;
      WithinConcat(m, a, b, s1 + s2);
      result, tail, first, second, m, a, b := TakeSmaller(result, tail, m, first, a, second, b, cs);
      WithinTrans(m, all, s1 + s2);
      WithinTrans(a, all, s1 + s2);
      WithinTrans(b, all, s1 + s2);
    }
    ghost var c := if first != null then a else b;
    MergingEnds(result, tail, m, first, a, second, b);
    MergeEnds(a, b, KeyOf(cs));
    r := Finish(result, tail, m, if first != null then first else second, c);
    t := m + c;
  }

  lemma MergeEnds<T>(a: seq<T>, b: seq<T>, key: T -> string)
    ensures a == [] ==> Merge(a, b, key) == b
    ensures b == [] ==> Merge(a, b, key) == a
  {
  }

  /** `sort_list`: the same nodes, relinked in the order of `Sort`.  Both halves of a longer list are
      shorter and not empty, so the recursion ends. */
  method SortItems(list: Item?, cs: bool, ghost s: seq<Item>) returns (r: Item?, ghost t: seq<Item>)
    requires Chain(list, s)
    modifies s
    ensures Chain(r, t) && t == Sort(s, KeyOf(cs)) && multiset(t) == multiset(s)
    ensures r != null ==> r.prev == if r == list then old(list.prev) else null
    decreases |s|, 0
  {
    hide Sort, Ascending, Chain, Linked, Distinct, Disjoint, Merge;
    SortUnfolds(s, KeyOf(cs));
    ChainHead(list, s);
    if list == null || list.next == null { return list, s; }
    var sorted := IsAscending(list, cs, s);
    if sorted { return list, s; }
    ghost var h := (|s| + 1) / 2;
    var second := Middle(list, s);
    Split(second, s, h);
    HalvesTogether(s, h);
    r, t := SortHalves(list, second, cs, s[..h], s[h..]);
    SortPermutes(s, KeyOf(cs));
  }

  /** `sort_object`: the children are sorted, and the tail is what sorting makes of it. */
  method SortObject(parent: Parent?, cs: bool)
    requires parent != null ==> parent.Chained()
    modifies parent, if parent == null then [] else parent.items
    ensures parent != null ==> parent.Chained() && parent.items == Sort(old(parent.items), KeyOf(cs))
    ensures parent != null ==> multiset(parent.items) == multiset(old(parent.items))
    ensures parent != null ==> parent.Tail() == SortedTail(old(parent.items), old(parent.Tail()), parent.items)
  {
    hide Sort;
    if parent == null { return; }
    ghost var was, tail, prev := parent.items, parent.Tail(), if parent.child == null then null else parent.child.prev;
    parent.child, parent.items := SortItems(parent.child, cs, parent.items);
    if was != [] { TailSorted(was, prev, parent.items); }
  }

  lemma TailSorted(s: seq<Item>, prev: Item?, t: seq<Item>)
    requires multiset(s) == multiset(t) && s != []
    ensures t != [] && TailOf(t, if t[0] == s[0] then prev else null) == SortedTail(s, TailOf(s, prev), t)
  {
    assert |multiset(s)| == |multiset(t)|;
    if prev != null && prev in s {
      assert prev in multiset(t);
    } else if prev != null {
      assert prev !in multiset(t);
    }
  }

  lemma ChainHead(list: Item?, s: seq<Item>)
    requires Chain(list, s)
    ensures list == null <==> s == []
    ensures list != null ==> list == s[0] && (list.next == null <==> |s| == 1)
  {
    if |s| > 1 { Neighbours(s, 0); }
  }

  lemma HalvesTogether<T>(s: seq<T>, h: nat)
    requires h <= |s|
    ensures forall x :: x in s <==> x in s[..h] || x in s[h..]
  {
    assert s == s[..h] + s[h..];
  }

  /** Cut the list in front of `second`. */
  method Split(second: Item?, ghost s: seq<Item>, ghost h: nat)
    requires s != [] && Chain(s[0], s) && 0 < h < |s| && second == s[h] && second.prev == s[h-1]
    modifies s
    ensures Chain(s[0], s[..h]) && Chain(second, s[h..]) && Disjoint(s[..h], s[h..])
    ensures second.prev == null && s[0].prev == old(s[0].prev)
  {
    if second != null && second.prev != null {
      second.prev.next := null;
      second.prev := null;
    }
  }

  /** Sort two separate lists and merge them. */
  method SortHalves(list1: Item, list2: Item, cs: bool, ghost s1: seq<Item>, ghost s2: seq<Item>)
    returns (r: Item?, ghost t: seq<Item>)
    requires Chain(list1, s1) && Chain(list2, s2) && Disjoint(s1, s2)
    modifies s1, s2
    ensures Chain(r, t) && t == Merge(Sort(s1, KeyOf(cs)), Sort(s2, KeyOf(cs)), KeyOf(cs))
    ensures r.prev == if r == list1 then old(list1.prev) else if r == list2 then old(list2.prev) else null
    decreases if |s1| < |s2| then |s2| else |s1|, 1
  {
    hide Sort, Merge;
    assert forall i | 0 <= i < |s2| :: s2[i] !in s1;
    SortPermutes(s1, KeyOf(cs));
    SortPermutes(s2, KeyOf(cs));
    var first, t1 := SortItems(list1, cs, s1);
    Permuted(s1, t1, s2);
    var second, t2 := SortItems(list2, cs, s2);
    Permuted(s2, t2, t1);
    r, t := MergeLists(first, second, cs, t1, t2);
  }

  lemma SortPermutes<T>(s: seq<T>, key: T -> string)
    ensures multiset(Sort(s, key)) == multiset(s)
  {
  }

  /** A permutation of items has the same items. */
  lemma Permuted(s: seq<Item>, t: seq<Item>, others: seq<Item>)
    requires multiset(t) == multiset(s)
    ensures (forall x :: x in t <==> x in s) && |t| == |s| && Within(t, s)
    ensures Disjoint(s, others) ==> Disjoint(t, others) && Disjoint(others, t)
  {
    assert |multiset(t)| == |multiset(s)|;
    forall x: Item ensures x in t <==> x in s {
      assert x in multiset(t) <==> x in multiset(s);
    }
  }
}
