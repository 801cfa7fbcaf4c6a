/** Items with the tails of their member lists, and what `compare_json` does to them. */
module LinkedTree {
  import opened CString
  import opened JsonTree
  import opened MergeSort
  import opened Compare
  import opened ListTail

  type ScalarItem = j: Json | !j.Array? && !j.Object? witness Null

  /** A cJSON item: the members of an object come with the tail of their list.  Lists of array elements are never sorted
      and always end at their tail. */
  datatype Tree =
    | Scalar(value: ScalarItem)
    | List(items: seq<Tree>)
    | Table(fields: seq<Field>, tail: Tail)

  datatype Field = Field(key: string, value: Tree)

  /** The item without its tails. */
  function Erase(t: Tree): Json {
    match t
    case Scalar(j) => j
    case List(ts) => Array(Values(ts))
    case Table(fs, _) => Object(Members(fs))
  }

  function Values(ts: seq<Tree>): (r: seq<Json>)
    ensures |r| == |ts| && forall i | 0 <= i < |ts| :: r[i] == Erase(ts[i])
  {
    seq(|ts|, i requires 0 <= i < |ts| => Erase(ts[i]))
  }

  function Members(fs: seq<Field>): (r: seq<Member>)
    ensures |r| == |fs| && forall i | 0 <= i < |fs| :: r[i] == Member(fs[i].key, Erase(fs[i].value))
  {
    seq(|fs|, i requires 0 <= i < |fs| => Member(fs[i].key, Erase(fs[i].value)))
  }

  /** All member lists end at their tails. */
  ghost predicate Whole(t: Tree) {
    match t
    case Scalar(_) => true
    case List(ts) => forall i | 0 <= i < |ts| :: Whole(ts[i])
    case Table(fs, tail) => AtEnd(fs, tail) && forall i | 0 <= i < |fs| :: Whole(fs[i].value)
  }

  /** An item as the parser or a copy makes it. */
  function Fresh(j: Json): Tree {
    match j
    case Array(items) => List(seq(|items|, i requires 0 <= i < |items| => Fresh(items[i])))
    case Object(ms) =>
      Table(seq(|ms|, i requires 0 <= i < |ms| => Field(ms[i].key, Fresh(ms[i].value))),
            if ms == [] then NoChild else AtChild(|ms| - 1))
    case _ => Scalar(j)
  }

  lemma {:induction false} FreshIsWhole(j: Json)
    ensures Erase(Fresh(j)) == j && Whole(Fresh(j))
  {
    if j.Array? {
      forall i | 0 <= i < |j.items| ensures Erase(Fresh(j.items[i])) == j.items[i] && Whole(Fresh(j.items[i])) {
        FreshIsWhole(j.items[i]);
      }
      assert Values(Fresh(j).items) == j.items;
    } else if j.Object? {
      var ms := j.members;
      forall i | 0 <= i < |ms| ensures Erase(Fresh(ms[i].value)) == ms[i].value && Whole(Fresh(ms[i].value)) {
        FreshIsWhole(ms[i].value);
      }
      assert Members(Fresh(j).fields) == ms;
    }
  }

  // ----- sorting members together with their tail

  function Indices(n: nat): (r: seq<nat>)
    ensures |r| == n && forall i | 0 <= i < n :: r[i] == i
  {
    seq(n, (i: nat) => i)
  }

  predicate Inside(places: seq<nat>, n: nat) {
    forall k | 0 <= k < |places| :: places[k] < n
  }

  /** The elements at these places. */
  function Pick<T>(s: seq<T>, places: seq<nat>): (r: seq<T>)
    requires Inside(places, |s|)
    ensures |r| == |places| && forall k | 0 <= k < |places| :: r[k] == s[places[k]]
  {
    seq(|places|, k requires 0 <= k < |places| => s[places[k]])
  }

  lemma InsidePermuted(places: seq<nat>, r: seq<nat>, n: nat)
    requires Inside(places, n) && multiset(r) == multiset(places)
    ensures Inside(r, n) && |r| == |places|
  {
    assert |multiset(r)| == |multiset(places)|;
    forall k | 0 <= k < |r| ensures r[k] < n {
      assert r[k] in multiset(r);
      assert r[k] in places;
    }
  }

  function KeyAt(fs: seq<Field>, cs: bool): nat -> string {
    (i: nat) => if i < |fs| then SortKey(fs[i].key, cs) else ""
  }

  /** The places of the members in the order that sorting gives them. */
  function Order(fs: seq<Field>, cs: bool): (r: seq<nat>)
    ensures multiset(r) == multiset(Indices(|fs|)) && |r| == |fs| && Inside(r, |fs|)
  {
    var r := Sort<nat>(Indices(|fs|), KeyAt(fs, cs));
    InsidePermuted(Indices(|fs|), r, |fs|);
    r
  }

  /** `sort_object`. */
  function SortedFields(fs: seq<Field>, cs: bool): seq<Field> {
    Pick(fs, Order(fs, cs))
  }

  function TailAfterSort(fs: seq<Field>, tail: Tail, cs: bool): Tail {
    if tail.AtChild? && tail.index >= |fs| then tail else SortedTail(Indices(|fs|), tail, Order(fs, cs))
  }

  lemma {:induction false} PickMerge<T>(s: seq<T>, a: seq<nat>, b: seq<nat>, at: nat -> string, key: T -> string)
    requires forall i: nat | i < |s| :: at(i) == key(s[i])
    requires Inside(a, |s|) && Inside(b, |s|)
    ensures Inside(Merge<nat>(a, b, at), |s|) && Pick(s, Merge<nat>(a, b, at)) == Merge(Pick(s, a), Pick(s, b), key)
  {
    hide Less;
    if a == [] {
      assert Pick(s, a) == [];
    } else if b == [] {
      assert Pick(s, b) == [];
    } else {
      assert Pick(s, a)[1..] == Pick(s, a[1..]) && Pick(s, b)[1..] == Pick(s, b[1..]);
      assert Less(at(a[0]), at(b[0])) <==> Less(key(Pick(s, a)[0]), key(Pick(s, b)[0]));
      if Less(at(a[0]), at(b[0])) {
        PickMerge(s, a[1..], b, at, key);
        PickCons(s, a[0], Merge<nat>(a[1..], b, at));
      } else {
        PickMerge(s, a, b[1..], at, key);
        PickCons(s, b[0], Merge<nat>(a, b[1..], at));
      }
    }
  }

  lemma PickCons<T>(s: seq<T>, i: nat, places: seq<nat>)
    requires Inside(places, |s|) && i < |s|
    ensures Inside([i] + places, |s|) && Pick(s, [i] + places) == [s[i]] + Pick(s, places)
  {
  }

  lemma PickAscending<T>(s: seq<T>, places: seq<nat>, at: nat -> string, key: T -> string)
    requires Inside(places, |s|) && forall i: nat | i < |s| :: at(i) == key(s[i])
    ensures Ascending<nat>(places, at) <==> Ascending(Pick(s, places), key)
  {
    hide Less;
    var r := Pick(s, places);
    assert forall k | 0 <= k < |r| :: key(r[k]) == at(places[k]);
  }

  /** Sorting places sorts what stands there. */
  lemma {:induction false} PickSort<T>(s: seq<T>, places: seq<nat>, at: nat -> string, key: T -> string)
    requires forall i: nat | i < |s| :: at(i) == key(s[i])
    requires Inside(places, |s|)
    ensures Inside(Sort<nat>(places, at), |s|) && Pick(s, Sort<nat>(places, at)) == Sort(Pick(s, places), key)
    decreases |places|
  {
    hide Merge, Less, Ascending, Sort, Pick;
    PickAscending(s, places, at, key);
    SortUnfolds<nat>(places, at);
    SortUnfolds(Pick(s, places), key);
    if |places| > 1 && !Ascending<nat>(places, at) {
      var h := (|places| + 1) / 2;
      PickHalves(s, places, h);
      PickSort(s, places[..h], at, key);
      PickSort(s, places[h..], at, key);
      PickMerge(s, Sort<nat>(places[..h], at), Sort<nat>(places[h..], at), at, key);
    }
  }

  lemma PickHalves<T>(s: seq<T>, places: seq<nat>, h: nat)
    requires Inside(places, |s|) && h <= |places|
    ensures Inside(places[..h], |s|) && Inside(places[h..], |s|)
    ensures Pick(s, places)[..h] == Pick(s, places[..h]) && Pick(s, places)[h..] == Pick(s, places[h..])
  {
  }

  lemma SortedErases(fs: seq<Field>, cs: bool)
    ensures Members(SortedFields(fs, cs)) == SortMembers(Members(fs), cs)
  {
    hide Sort, Erase;
    var ms, key := Members(fs), (m: Member) => SortKey(m.key, cs);
    PickSort(ms, Indices(|fs|), KeyAt(fs, cs), key);
    assert Pick(ms, Indices(|fs|)) == ms;
    assert Members(SortedFields(fs, cs)) == Pick(ms, Order(fs, cs));
  }

  // ----- comparing

  /** What `compare_json` leaves of an item. */
  function Compared(t: Tree, b: Json, cs: bool): Tree
    decreases Height(b), 1, 0
  {
    match (t, b)
    case (List(ts), Array(ys)) => List(ComparedItems(ts, ys, cs))
    case (Table(fs, tail), Object(ns)) =>
      HeightOfSorted(ns, cs);
      Table(ComparedFields(SortedFields(fs, cs), SortMembers(ns, cs), cs, Height(b)), TailAfterSort(fs, tail, cs))
    case _ => t
  }

  function ComparedItems(ts: seq<Tree>, ys: seq<Json>, cs: bool): seq<Tree>
    decreases HeightOfItems(ys), 0, |ts|
  {
    if ts == [] || ys == [] then ts
    else
      HeightOfItem(ys, 0);
      [Compared(ts[0], ys[0], cs)] + if CompareJson(Erase(ts[0]), ys[0], cs) then ComparedItems(ts[1..], ys[1..], cs) else ts[1..]
  }

  function ComparedFields(fs: seq<Field>, ns: seq<Member>, cs: bool, ghost bound: nat): seq<Field>
    requires forall m | m in ns :: Height(m.value) < bound
    decreases bound, 0, |fs|
  {
    if fs == [] || ns == [] || SortKey(fs[0].key, cs) != SortKey(ns[0].key, cs) then fs
    else
      [Field(fs[0].key, Compared(fs[0].value, ns[0].value, cs))] +
      if CompareJson(Erase(fs[0].value), ns[0].value, cs) then ComparedFields(fs[1..], ns[1..], cs, bound) else fs[1..]
  }

  /** Apart from the tails this is what the comparison leaves of any item. */
  lemma {:induction false} ComparedErases(t: Tree, b: Json, cs: bool)
    ensures Erase(Compared(t, b, cs)) == Walked(Erase(t), b, cs)
    decreases Height(b), 1, 0
  {
    if t.List? && b.Array? {
      ComparedItemsErase(t.items, b.items, cs);
    } else if t.Table? && b.Object? {
      hide ComparedFields, WalkedMembers, SortMembers, Members, TailAfterSort;
      HeightOfSorted(b.members, cs);
      HeightOfSorted(Members(t.fields), cs);
      SortedErases(t.fields, cs);
      ComparedFieldsErase(SortedFields(t.fields, cs), SortMembers(b.members, cs), cs, Height(b), Height(Erase(t)));
    }
  }

  lemma {:induction false} ComparedItemsErase(ts: seq<Tree>, ys: seq<Json>, cs: bool)
    ensures Values(ComparedItems(ts, ys, cs)) == WalkedItems(Values(ts), ys, cs)
    decreases HeightOfItems(ys), 0, |ts|
  {
    hide Walked, CompareJson, Erase, Compared;
    if ts != [] && ys != [] {
      HeightOfItem(ys, 0);
      ComparedErases(ts[0], ys[0], cs);
      ComparedItemsErase(ts[1..], ys[1..], cs);
      assert Values(ts)[1..] == Values(ts[1..]);
      var rest := if CompareJson(Erase(ts[0]), ys[0], cs) then ComparedItems(ts[1..], ys[1..], cs) else ts[1..];
      assert Values([Compared(ts[0], ys[0], cs)] + rest) == [Erase(Compared(ts[0], ys[0], cs))] + Values(rest);
    }
  }

  lemma {:induction false} ComparedFieldsErase(fs: seq<Field>, ns: seq<Member>, cs: bool, bound: nat, bound': nat)
    requires forall m | m in ns :: Height(m.value) < bound
    requires forall m | m in Members(fs) :: Height(m.value) < bound'
    ensures Members(ComparedFields(fs, ns, cs, bound)) == WalkedMembers(Members(fs), ns, cs, bound')
    decreases bound, 0, |fs|
  {
    hide Walked, CompareJson, Erase, Compared, SortKey, Height, Members;
    if fs != [] { MembersCons(fs[0], fs[1..]); }
    assert fs != [] ==> [fs[0]] + fs[1..] == fs;
    NoMembers(fs);
    if fs != [] && ns != [] && SortKey(fs[0].key, cs) == SortKey(ns[0].key, cs) {
      ComparedErases(fs[0].value, ns[0].value, cs);
      ComparedFieldsErase(fs[1..], ns[1..], cs, bound, bound');
      var f := Field(fs[0].key, Compared(fs[0].value, ns[0].value, cs));
      var rest := if CompareJson(Erase(fs[0].value), ns[0].value, cs) then ComparedFields(fs[1..], ns[1..], cs, bound) else fs[1..];
      MembersCons(f, rest);
    }
  }

  lemma MembersCons(f: Field, fs: seq<Field>)
    ensures Members([f] + fs) == [Member(f.key, Erase(f.value))] + Members(fs)
    ensures Members([f] + fs)[1..] == Members(fs)
  {
    hide Erase;
  }

  lemma NoMembers(fs: seq<Field>)
    ensures Members(fs) == [] <==> fs == []
  {
  }

  // ----- when sorting keeps the tail

  /** All objects list their members in strictly ascending order. */
  ghost predicate Tidy(t: Tree, cs: bool) {
    match t
    case Scalar(_) => true
    case List(ts) => forall i | 0 <= i < |ts| :: Tidy(ts[i], cs)
    case Table(fs, _) =>
      && (forall i | 0 < i < |fs| :: Less(SortKey(fs[i-1].key, cs), SortKey(fs[i].key, cs)))
      && forall i | 0 <= i < |fs| :: Tidy(fs[i].value, cs)
  }

  /** Such an item is left as it is. */
  lemma {:induction false} ComparedTidy(t: Tree, b: Json, cs: bool)
    requires Tidy(t, cs)
    ensures Compared(t, b, cs) == t
    decreases Height(b), 1, 0
  {
    if t.List? && b.Array? {
      ComparedTidyItems(t.items, b.items, cs);
    } else if t.Table? && b.Object? {
      hide SortMembers;
      HeightOfSorted(b.members, cs);
      AscendingKept(t.fields, t.tail, cs);
      ComparedTidyFields(t.fields, SortMembers(b.members, cs), cs, Height(b));
    }
  }

  lemma AscendingKept(fs: seq<Field>, tail: Tail, cs: bool)
    requires forall i | 0 < i < |fs| :: Less(SortKey(fs[i-1].key, cs), SortKey(fs[i].key, cs))
    ensures SortedFields(fs, cs) == fs && (tail.AtChild? ==> TailAfterSort(fs, tail, cs) == tail)
    ensures TailAfterSort(fs, tail, cs) == tail
  {
    hide SortKey;
    var places := Indices(|fs|);
    assert Ascending<nat>(places, KeyAt(fs, cs));
    assert Order(fs, cs) == places;
    assert Pick(fs, places) == fs;
  }

  lemma {:induction false} ComparedTidyItems(ts: seq<Tree>, ys: seq<Json>, cs: bool)
    requires forall i | 0 <= i < |ts| :: Tidy(ts[i], cs)
    ensures ComparedItems(ts, ys, cs) == ts
    decreases HeightOfItems(ys), 0, |ts|
  {
    hide CompareJson, Tidy, Compared;
    if ts != [] && ys != [] {
      HeightOfItem(ys, 0);
      ComparedTidy(ts[0], ys[0], cs);
      ComparedTidyItems(ts[1..], ys[1..], cs);
    }
  }

  lemma {:induction false} ComparedTidyFields(fs: seq<Field>, ns: seq<Member>, cs: bool, bound: nat)
    requires forall m | m in ns :: Height(m.value) < bound
    requires forall i | 0 <= i < |fs| :: Tidy(fs[i].value, cs)
    ensures ComparedFields(fs, ns, cs, bound) == fs
    decreases bound, 0, |fs|
  {
    hide CompareJson, Tidy, Compared, SortKey, Height;
    if fs != [] && ns != [] && SortKey(fs[0].key, cs) == SortKey(ns[0].key, cs) {
      ComparedTidy(fs[0].value, ns[0].value, cs);
      ComparedTidyFields(fs[1..], ns[1..], cs, bound);
    }
  }

  /** The first member has the least key. */
  predicate FirstLeast(ms: seq<Member>, cs: bool) {
    forall i | 0 < i < |ms| :: Less(SortKey(ms[0].key, cs), SortKey(ms[i].key, cs))
  }

  /** The last member has the greatest key. */
  predicate LastGreatest(ms: seq<Member>, cs: bool) {
    forall i | 0 <= i < |ms| - 1 :: Less(SortKey(ms[i].key, cs), SortKey(ms[|ms|-1].key, cs))
  }

  /** The mode tells all keys apart. */
  ghost predicate Distinguished(fs: seq<Field>, cs: bool) {
    forall i, j | 0 <= i < j < |fs| :: SortKey(fs[i].key, cs) != SortKey(fs[j].key, cs)
  }

  lemma {:induction false} CountOnce(n: nat, x: nat)
    ensures multiset(Indices(n))[x] == if x < n then 1 else 0
  {
    if n > 0 {
      assert Indices(n) == Indices(n - 1) + [n - 1];
      CountOnce(n - 1, x);
    }
  }

  /** Every place occurs once in the order. */
  lemma OrderOnce(o: seq<nat>, n: nat, i: nat, j: nat)
    requires multiset(o) == multiset(Indices(n)) && i < |o| && j < |o| && o[i] == o[j]
    ensures i == j
  {
    CountOnce(n, o[i]);
    if i < j {
      TwiceIn(o, i, j);
    } else if j < i {
      TwiceIn(o, j, i);
    }
  }

  lemma TwiceIn(o: seq<nat>, i: nat, j: nat)
    requires i < j < |o| && o[i] == o[j]
    ensures multiset(o)[o[i]] >= 2
  {
    assert o == o[..j] + [o[j]] + o[j+1..];
    assert o[i] in o[..j] by { assert o[..j][i] == o[i]; }
  }

  lemma PlaceOf(o: seq<nat>, n: nat, x: nat) returns (p: nat)
    requires multiset(o) == multiset(Indices(n)) && x < n
    ensures p < |o| && o[p] == x
  {
    assert Indices(n)[x] in multiset(Indices(n));
    assert x in multiset(o);
    p :| p < |o| && o[p] == x;
  }

  /** The order lists the places by ascending keys. */
  lemma OrderAscends(fs: seq<Field>, cs: bool, i: nat, j: nat)
    requires Distinguished(fs, cs) && i < j < |fs|
    ensures var o := Order(fs, cs); Less(SortKey(fs[o[i]].key, cs), SortKey(fs[o[j]].key, cs))
  {
    var o, at := Order(fs, cs), KeyAt(fs, cs);
    SortOrdered<nat>(Indices(|fs|), at);
    assert !Less(at(o[j]), at(o[i]));
    if o[i] == o[j] { OrderOnce(o, |fs|, i, j); }
    hide Order, Less, SortKey;
    assert SortKey(fs[o[i]].key, cs) != SortKey(fs[o[j]].key, cs);
    LessTotal(at(o[i]), at(o[j]));
  }

  /** The first member stays first exactly when it has the least key. */
  lemma FirstStays(fs: seq<Field>, cs: bool)
    requires Distinguished(fs, cs) && fs != []
    ensures Order(fs, cs)[0] == 0 <==> FirstLeast(Members(fs), cs)
  {
    var o, n := Order(fs, cs), |fs|;
    hide Order, SortKey, Less, Indices;
    if o[0] == 0 {
      forall i | 0 < i < n ensures Less(SortKey(fs[0].key, cs), SortKey(fs[i].key, cs)) {
        var p := PlaceOf(o, n, i);
        OrderAscends(fs, cs, 0, p);
      }
    } else {
      var p := PlaceOf(o, n, 0);
      OrderAscends(fs, cs, 0, p);
      LessAsymmetric(SortKey(fs[o[0]].key, cs), SortKey(fs[0].key, cs));
    }
  }

  /** The last member stays last exactly when it has the greatest key. */
  lemma LastStays(fs: seq<Field>, cs: bool)
    requires Distinguished(fs, cs) && fs != []
    ensures Order(fs, cs)[|fs|-1] == |fs| - 1 <==> LastGreatest(Members(fs), cs)
  {
    var o, n := Order(fs, cs), |fs|;
    hide Order, SortKey, Less, Indices;
    if o[n-1] == n - 1 {
      forall i | 0 <= i < n - 1 ensures Less(SortKey(fs[i].key, cs), SortKey(fs[n-1].key, cs)) {
        var p := PlaceOf(o, n, i);
        OrderAscends(fs, cs, p, n - 1);
      }
    } else {
      var p := PlaceOf(o, n, n - 1);
      OrderAscends(fs, cs, p, n - 1);
      LessAsymmetric(SortKey(fs[n-1].key, cs), SortKey(fs[o[n-1]].key, cs));
    }
  }

  lemma TailOfOrder(o: seq<nat>, n: nat)
    requires multiset(o) == multiset(Indices(n)) && n > 0
    ensures |o| == n
    ensures var tail := SortedTail(Indices(n), AtChild(n - 1), o);
      && tail != Gone && (tail.AtChild? ==> tail.index < n)
      && (tail == AtChild(n - 1) <==> o[0] == 0 && o[n-1] == n - 1) && (tail == NoChild <==> o[0] != 0)
  {
    assert |multiset(o)| == |multiset(Indices(n))|;
    assert Indices(n)[n-1] in multiset(o);
    var p := Position<nat>(o, n - 1);
    if o[n-1] == n - 1 { OrderOnce(o, n, p, n - 1); }
    hide Position;
  }

  /** What sorting makes of the tail of a whole list. */
  lemma WholeSorted(fs: seq<Field>, cs: bool)
    requires Distinguished(fs, cs) && fs != []
    ensures var tail := TailAfterSort(fs, AtChild(|fs| - 1), cs);
      && tail != Gone && (tail.AtChild? ==> tail.index < |fs|)
      && (tail == AtChild(|fs| - 1) <==> FirstLeast(Members(fs), cs) && LastGreatest(Members(fs), cs))
      && (tail == NoChild <==> !FirstLeast(Members(fs), cs))
  {
    hide Order, SortKey, Less, Position, Members, Indices, SortedTail, FirstLeast, LastGreatest, Distinguished;
    TailOfOrder(Order(fs, cs), |fs|);
    FirstStays(fs, cs);
    LastStays(fs, cs);
  }
}
