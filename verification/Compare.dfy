/** The two comparisons: `compare_json` sorts both objects and walks them in lockstep,
    `cJSON_Compare` looks every member up in the other object, both ways. */
module Compare {
  import opened CString
  import opened JsonTree
  import opened MergeSort

  /** `get_object_item`: index of the first member whose key matches in the given mode. */
  function FindMember(ms: seq<Member>, name: string, cs: bool): (r: Option<nat>)
    ensures r.Some? ==> r.value < |ms| && SortKey(ms[r.value].key, cs) == SortKey(name, cs)
    ensures r.Some? ==> forall j | 0 <= j < r.value :: SortKey(ms[j].key, cs) != SortKey(name, cs)
    ensures r.None? ==> forall j | 0 <= j < |ms| :: SortKey(ms[j].key, cs) != SortKey(name, cs)
  {
    if ms == [] then None
    else if SortKey(ms[0].key, cs) == SortKey(name, cs) then Some(0)
    else match FindMember(ms[1..], name, cs)
      case None => None
      case Some(i) => Some(i + 1)
  }

  /** On separated keys the lookup is exact in both modes. */
  lemma FindMemberExact(ms: seq<Member>, name: string, cs: bool, ks: iset<string>)
    requires KeysFrom(ms, ks) && name in ks && Separates(cs, ks)
    ensures var r := FindMember(ms, name, cs);
      (name in Keys(ms) <==> r.Some?) && (r.Some? ==> ms[r.value].key == name && r.value == IndexOf(ms, name))
  {
    var r := FindMember(ms, name, cs);
    if r.Some? {
      assert ms[r.value].key == name;
      assert ms[r.value].key in Keys(ms);
      var i := IndexOf(ms, name);
      assert i <= r.value;
    } else if name in Keys(ms) {
      var i := IndexOf(ms, name);
      assert false;
    }
  }

  predicate SameScalar(a: Json, b: Json) {
    match (a, b)
    case (Number(m), Number(n)) => m == n
    case (String(s), String(t)) => s == t
    case (Invalid, Invalid) => true
    case (Null, Null) => true
    case (True, True) => true
    case (False, False) => true
    case _ => false
  }

  lemma {:induction false} HeightOfItem(items: seq<Json>, i: nat)
    requires i < |items|
    ensures Height(items[i]) < HeightOfItems(items)
  {
    if i > 0 { HeightOfItem(items[1..], i - 1); }
  }

  lemma {:induction false} HeightOfMember(ms: seq<Member>, m: Member)
    requires m in ms
    ensures Height(m.value) < HeightOfMembers(ms)
  {
    if m != ms[0] { HeightOfMember(ms[1..], m); }
  }

  lemma HeightOfSorted(ms: seq<Member>, cs: bool)
    ensures forall m | m in SortMembers(ms, cs) :: m in ms && Height(m.value) < HeightOfMembers(ms)
  {
    forall m | m in SortMembers(ms, cs) ensures m in ms && Height(m.value) < HeightOfMembers(ms) {
      assert m in multiset(SortMembers(ms, cs));
      HeightOfMember(ms, m);
    }
  }

  /** What `compare_json` returns. */
  predicate CompareJson(a: Json, b: Json, cs: bool)
    decreases Height(a)
  {
    match (a, b)
    case (Array(xs), Array(ys)) =>
      |xs| == |ys| && forall i | 0 <= i < |xs| :: (HeightOfItem(xs, i); CompareJson(xs[i], ys[i], cs))
    case (Object(ms), Object(ns)) =>
      HeightOfSorted(ms, cs);
      var xs, ys := SortMembers(ms, cs), SortMembers(ns, cs);
      |xs| == |ys| && forall i | 0 <= i < |xs| ::
        SortKey(xs[i].key, cs) == SortKey(ys[i].key, cs) && CompareJson(xs[i].value, ys[i].value, cs)
    case _ => SameScalar(a, b)
  }

  /** `compare_json` sorts its arguments in place: what it leaves of the first one, whose objects are sorted up to the
      first difference. */
  function Walked(a: Json, b: Json, cs: bool): Json
    decreases Height(a), 1, 0
  {
    match (a, b)
    case (Array(xs), Array(ys)) => Array(WalkedItems(xs, ys, cs))
    case (Object(ms), Object(ns)) =>
      HeightOfSorted(ms, cs);
      Object(WalkedMembers(SortMembers(ms, cs), SortMembers(ns, cs), cs, Height(a)))
    case _ => a
  }

  function WalkedItems(xs: seq<Json>, ys: seq<Json>, cs: bool): seq<Json>
    decreases HeightOfItems(xs), 0, |xs|
  {
    if xs == [] || ys == [] then xs
    else
      [Walked(xs[0], ys[0], cs)] + if CompareJson(xs[0], ys[0], cs) then WalkedItems(xs[1..], ys[1..], cs) else xs[1..]
  }

  function WalkedMembers(xs: seq<Member>, ys: seq<Member>, cs: bool, ghost bound: nat): seq<Member>
    requires forall m | m in xs :: Height(m.value) < bound
    decreases bound, 0, |xs|
  {
    if xs == [] || ys == [] || SortKey(xs[0].key, cs) != SortKey(ys[0].key, cs) then xs
    else
      [Member(xs[0].key, Walked(xs[0].value, ys[0].value, cs))] +
      if CompareJson(xs[0].value, ys[0].value, cs) then WalkedMembers(xs[1..], ys[1..], cs, bound) else xs[1..]
  }

  /** The comparison treats both arguments alike. */
  lemma {:induction false} CompareSymmetric(a: Json, b: Json, cs: bool)
    ensures CompareJson(a, b, cs) == CompareJson(b, a, cs)
    decreases Height(a), 2
  {
    if a.Array? && b.Array? {
      hide SortMembers, SortKey, SameScalar;
      if |a.items| == |b.items| { ItemsSymmetric(a.items, b.items, cs); }
    } else if a.Object? && b.Object? {
      ObjectsSymmetric(a.members, b.members, cs);
    } else {
      hide SortMembers, SortKey;
    }
  }

  /** Sorted lists of the same keys with the same values. */
  ghost predicate SameMembers(xs: seq<Member>, ys: seq<Member>, cs: bool) {
    |xs| == |ys| && forall i | 0 <= i < |xs| ::
      SortKey(xs[i].key, cs) == SortKey(ys[i].key, cs) && CompareJson(xs[i].value, ys[i].value, cs)
  }

  lemma ObjectsCompare(ms: seq<Member>, ns: seq<Member>, cs: bool)
    ensures CompareJson(Object(ms), Object(ns), cs) <==> SameMembers(SortMembers(ms, cs), SortMembers(ns, cs), cs)
  {
    hide SortMembers, SortKey, SameScalar;
  }

  lemma {:induction false} ObjectsSymmetric(ms: seq<Member>, ns: seq<Member>, cs: bool)
    ensures CompareJson(Object(ms), Object(ns), cs) == CompareJson(Object(ns), Object(ms), cs)
    decreases Height(Object(ms)), 1
  {
    hide SortMembers, CompareJson, SameMembers;
    HeightOfSorted(ms, cs);
    ObjectsCompare(ms, ns, cs);
    ObjectsCompare(ns, ms, cs);
    MembersSymmetric(SortMembers(ms, cs), SortMembers(ns, cs), cs, Height(Object(ms)));
  }

  lemma {:induction false} ItemsSymmetric(xs: seq<Json>, ys: seq<Json>, cs: bool)
    requires |xs| == |ys|
    ensures forall i | 0 <= i < |xs| :: CompareJson(xs[i], ys[i], cs) == CompareJson(ys[i], xs[i], cs)
    decreases HeightOfItems(xs), 0
  {
    forall i | 0 <= i < |xs| ensures CompareJson(xs[i], ys[i], cs) == CompareJson(ys[i], xs[i], cs) {
      HeightOfItem(xs, i);
      CompareSymmetric(xs[i], ys[i], cs);
    }
  }

  lemma {:induction false} MembersSymmetric(xs: seq<Member>, ys: seq<Member>, cs: bool, bound: nat)
    requires forall m | m in xs :: Height(m.value) < bound
    ensures SameMembers(xs, ys, cs) == SameMembers(ys, xs, cs)
    decreases bound, 0
  {
    hide SortKey, CompareJson;
    forall i | 0 <= i < |xs| && i < |ys| ensures CompareJson(xs[i].value, ys[i].value, cs) == CompareJson(ys[i].value, xs[i].value, cs) {
      CompareSymmetric(xs[i].value, ys[i].value, cs);
    }
  }

  /** `compare_json`: the lockstep walk over both child lists, which sorts them as it goes. */
  method CompareJsonWalk(a: Json, b: Json, cs: bool) returns (same: bool, a': Json, b': Json)
    ensures same == CompareJson(a, b, cs) && a' == Walked(a, b, cs) && b' == Walked(b, a, cs)
    decreases Height(a), 1, 0
  {
    hide SortMembers, SortKey, WalkedItems, WalkedMembers, HeightOfItems, HeightOfMembers;
    a', b' := a, b;
    if a.Array? && b.Array? {
      var xs, ys;
      same, xs, ys := WalkItems(a.items, b.items, cs);
      a', b' := Array(xs), Array(ys);
    } else if a.Object? && b.Object? {
      HeightOfSorted(a.members, cs);
      HeightOfSorted(b.members, cs);
      var ms, ns;
      same, ms, ns := WalkMembers(SortMembers(a.members, cs), SortMembers(b.members, cs), cs, Height(a), Height(b));
      a', b' := Object(ms), Object(ns);
    } else {
      same := SameScalar(a, b);
    }
  }

  /** The first `i` elements of `xs` were visited, which left `ws`. */
  ghost predicate ItemsVisited(ws: seq<Json>, xs: seq<Json>, ys: seq<Json>, i: nat, cs: bool) {
    && |ws| == |xs| && i <= |xs| && i <= |ys|
    && ws[i..] == xs[i..]
    && WalkedItems(xs, ys, cs) == ws[..i] + WalkedItems(xs[i..], ys[i..], cs)
  }

  lemma ItemsStart(xs: seq<Json>, ys: seq<Json>, cs: bool)
    ensures ItemsVisited(xs, xs, ys, 0, cs)
  {
    assert xs[0..] == xs && ys[0..] == ys;
  }

  lemma WalkedNext(xs: seq<Json>, ys: seq<Json>, i: nat, cs: bool)
    requires i < |xs| && i < |ys|
    ensures WalkedItems(xs[i..], ys[i..], cs) ==
      [Walked(xs[i], ys[i], cs)] + if CompareJson(xs[i], ys[i], cs) then WalkedItems(xs[i+1..], ys[i+1..], cs) else xs[i+1..]
  {
    hide Walked, CompareJson;
    assert xs[i..][1..] == xs[i+1..] && ys[i..][1..] == ys[i+1..];
  }

  /** The element at `i` of a list is visited. */
  lemma Visited<T>(ws: seq<T>, xs: seq<T>, i: nat, x: T, rest: seq<T>, all: seq<T>)
    requires |ws| == |xs| && i < |xs| && ws[i..] == xs[i..] && all == ws[..i] + ([x] + rest)
    ensures var r := ws[i := x];
      r[i+1..] == xs[i+1..] && all == r[..i+1] + rest && (rest == xs[i+1..] ==> r == all)
  {
    var r := ws[i := x];
    assert r[i+1..] == ws[i..][1..] && xs[i+1..] == xs[i..][1..];
    assert r[..i+1] == ws[..i] + [x];
  }

  lemma VisitItem(ws: seq<Json>, xs: seq<Json>, ys: seq<Json>, i: nat, cs: bool)
    requires ItemsVisited(ws, xs, ys, i, cs) && i < |xs| && i < |ys|
    ensures var r := ws[i := Walked(xs[i], ys[i], cs)];
      if CompareJson(xs[i], ys[i], cs) then ItemsVisited(r, xs, ys, i + 1, cs) else r == WalkedItems(xs, ys, cs)
  {
    hide Walked, CompareJson, WalkedItems;
    WalkedNext(xs, ys, i, cs);
    var rest := if CompareJson(xs[i], ys[i], cs) then WalkedItems(xs[i+1..], ys[i+1..], cs) else xs[i+1..];
    Visited(ws, xs, i, Walked(xs[i], ys[i], cs), rest, WalkedItems(xs, ys, cs));
  }

  lemma ItemsEnd(ws: seq<Json>, xs: seq<Json>, ys: seq<Json>, i: nat, cs: bool)
    requires ItemsVisited(ws, xs, ys, i, cs) && (i == |xs| || i == |ys|)
    ensures ws == WalkedItems(xs, ys, cs)
  {
    assert ws == ws[..i] + xs[i..];
  }

  method WalkItems(xs: seq<Json>, ys: seq<Json>, cs: bool) returns (same: bool, xs': seq<Json>, ys': seq<Json>)
    ensures same <==> |xs| == |ys| && forall j | 0 <= j < |xs| :: CompareJson(xs[j], ys[j], cs)
    ensures xs' == WalkedItems(xs, ys, cs) && ys' == WalkedItems(ys, xs, cs)
    decreases HeightOfItems(xs), 0, |xs|
  {
    hide CompareJson, Walked, WalkedItems, ItemsVisited;
    var i := 0;
    xs', ys' := xs, ys;
    ItemsStart(xs, ys, cs);
    ItemsStart(ys, xs, cs);
    while i < |xs| && i < |ys|
      invariant i <= |xs| && i <= |ys| && |xs'| == |xs| && |ys'| == |ys|
      invariant forall j | 0 <= j < i :: CompareJson(xs[j], ys[j], cs)
      invariant ItemsVisited(xs', xs, ys, i, cs) && ItemsVisited(ys', ys, xs, i, cs)
    {
      HeightOfItem(xs, i);
      CompareSymmetric(xs[i], ys[i], cs);
      VisitItem(xs', xs, ys, i, cs);
      VisitItem(ys', ys, xs, i, cs);
      var identical, x, y := CompareJsonWalk(xs[i], ys[i], cs);
      xs', ys' := xs'[i := x], ys'[i := y];
      if !identical { return false, xs', ys'; }
      i := i + 1;
    }
    ItemsEnd(xs', xs, ys, i, cs);
    ItemsEnd(ys', ys, xs, i, cs);
    return i == |xs| && i == |ys|, xs', ys';
  }

  /** The same for members. */
  ghost predicate MembersVisited(ws: seq<Member>, xs: seq<Member>, ys: seq<Member>, i: nat, cs: bool, bound: nat) {
    && |ws| == |xs| && i <= |xs| && i <= |ys| && (forall m | m in xs :: Height(m.value) < bound)
    && ws[i..] == xs[i..]
    && WalkedMembers(xs, ys, cs, bound) == ws[..i] + WalkedMembers(xs[i..], ys[i..], cs, bound)
  }

  lemma MembersStart(xs: seq<Member>, ys: seq<Member>, cs: bool, bound: nat)
    requires forall m | m in xs :: Height(m.value) < bound
    ensures MembersVisited(xs, xs, ys, 0, cs, bound)
  {
    assert xs[0..] == xs && ys[0..] == ys;
  }

  lemma WalkedNextMember(xs: seq<Member>, ys: seq<Member>, i: nat, cs: bool, bound: nat)
    requires i < |xs| && i < |ys| && SortKey(xs[i].key, cs) == SortKey(ys[i].key, cs) && forall m | m in xs :: Height(m.value) < bound
    ensures WalkedMembers(xs[i..], ys[i..], cs, bound) ==
      [Member(xs[i].key, Walked(xs[i].value, ys[i].value, cs))] +
      if CompareJson(xs[i].value, ys[i].value, cs) then WalkedMembers(xs[i+1..], ys[i+1..], cs, bound) else xs[i+1..]
  {
    hide Walked, CompareJson, SortKey, Height;
    assert xs[i..][1..] == xs[i+1..] && ys[i..][1..] == ys[i+1..];
  }

  lemma VisitMember(ws: seq<Member>, xs: seq<Member>, ys: seq<Member>, i: nat, cs: bool, bound: nat)
    requires MembersVisited(ws, xs, ys, i, cs, bound) && i < |xs| && i < |ys| && SortKey(xs[i].key, cs) == SortKey(ys[i].key, cs)
    ensures var r := ws[i := Member(xs[i].key, Walked(xs[i].value, ys[i].value, cs))];
      if CompareJson(xs[i].value, ys[i].value, cs) then MembersVisited(r, xs, ys, i + 1, cs, bound)
      else r == WalkedMembers(xs, ys, cs, bound)
  {
    hide Walked, CompareJson, SortKey, WalkedMembers, Height;
    WalkedNextMember(xs, ys, i, cs, bound);
    var m := Member(xs[i].key, Walked(xs[i].value, ys[i].value, cs));
    var rest := if CompareJson(xs[i].value, ys[i].value, cs) then WalkedMembers(xs[i+1..], ys[i+1..], cs, bound) else xs[i+1..];
    Visited(ws, xs, i, m, rest, WalkedMembers(xs, ys, cs, bound));
  }

  lemma MembersEnd(ws: seq<Member>, xs: seq<Member>, ys: seq<Member>, i: nat, cs: bool, bound: nat)
    requires MembersVisited(ws, xs, ys, i, cs, bound)
    requires i == |xs| || i == |ys| || SortKey(xs[i].key, cs) != SortKey(ys[i].key, cs)
    ensures ws == WalkedMembers(xs, ys, cs, bound)
  {
    hide Walked, CompareJson, SortKey;
    assert ws == ws[..i] + xs[i..];
  }

  method WalkMembers(xs: seq<Member>, ys: seq<Member>, cs: bool, ghost bound: nat, ghost bound': nat)
    returns (same: bool, xs': seq<Member>, ys': seq<Member>)
    requires forall m | m in xs :: Height(m.value) < bound
    requires forall m | m in ys :: Height(m.value) < bound'
    ensures same <==> |xs| == |ys| && forall j | 0 <= j < |xs| ::
      SortKey(xs[j].key, cs) == SortKey(ys[j].key, cs) && CompareJson(xs[j].value, ys[j].value, cs)
    ensures xs' == WalkedMembers(xs, ys, cs, bound) && ys' == WalkedMembers(ys, xs, cs, bound')
    decreases bound, 0, |xs|
  {
    hide CompareJson, Walked, WalkedMembers, MembersVisited, SortKey, Height;
    var i := 0;
    xs', ys' := xs, ys;
    MembersStart(xs, ys, cs, bound);
    MembersStart(ys, xs, cs, bound');
    while i < |xs| && i < |ys| && SortKey(xs[i].key, cs) == SortKey(ys[i].key, cs)
      invariant i <= |xs| && i <= |ys| && |xs'| == |xs| && |ys'| == |ys|
      invariant forall j | 0 <= j < i ::
        SortKey(xs[j].key, cs) == SortKey(ys[j].key, cs) && CompareJson(xs[j].value, ys[j].value, cs)
      invariant MembersVisited(xs', xs, ys, i, cs, bound) && MembersVisited(ys', ys, xs, i, cs, bound')
    {
      CompareSymmetric(xs[i].value, ys[i].value, cs);
      VisitMember(xs', xs, ys, i, cs, bound);
      VisitMember(ys', ys, xs, i, cs, bound');
      var identical, x, y := CompareJsonWalk(xs[i].value, ys[i].value, cs);
      xs', ys' := xs'[i := Member(xs[i].key, x)], ys'[i := Member(ys[i].key, y)];
      if !identical { return false, xs', ys'; }
      i := i + 1;
    }
    MembersEnd(xs', xs, ys, i, cs, bound);
    MembersEnd(ys', ys, xs, i, cs, bound');
    return i == |xs| && i == |ys|, xs', ys';
  }

  /** Two strictly sorted member lists over the same keys list them in the same order. */
  lemma {:induction false} IncreasingUnique(xs: seq<Member>, ys: seq<Member>, cs: bool)
    requires Increasing(xs, cs) && Increasing(ys, cs) && Keys(xs) == Keys(ys)
    ensures |xs| == |ys| && forall i | 0 <= i < |xs| :: xs[i].key == ys[i].key
  {
    if xs == [] {
      NoKeysNoMembers(ys);
    } else {
      assert xs[0].key in Keys(ys);
      SmallestFirst(xs, ys, cs);
      IncreasingDistinct(xs, cs);
      IncreasingDistinct(ys, cs);
      KeysOfTail(xs);
      KeysOfTail(ys);
      IncreasingUnique(xs[1..], ys[1..], cs);
      forall i | 0 <= i < |xs| ensures xs[i].key == ys[i].key {
        if i > 0 { assert xs[i] == xs[1..][i-1] && ys[i] == ys[1..][i-1]; }
      }
    }
  }

  lemma NoKeysNoMembers(ms: seq<Member>)
    ensures Keys(ms) == {} <==> ms == []
  {
    if ms != [] { assert ms[0].key in Keys(ms); }
  }

  lemma SmallestFirst(xs: seq<Member>, ys: seq<Member>, cs: bool)
    requires Increasing(xs, cs) && Increasing(ys, cs) && Keys(xs) == Keys(ys) && xs != [] && ys != []
    ensures xs[0].key == ys[0].key
  {
    assert xs[0].key in Keys(ys) && ys[0].key in Keys(xs);
    var i, j := IndexOf(ys, xs[0].key), IndexOf(xs, ys[0].key);
    if i > 0 && j > 0 {
      LessAsymmetric(SortKey(ys[0].key, cs), SortKey(ys[i].key, cs));
    }
  }

  /** A key smaller than the first one does not occur. */
  lemma SmallerIsAbsent(k: string, ms: seq<Member>, cs: bool)
    requires Increasing(ms, cs) && (ms == [] || Less(SortKey(k, cs), SortKey(ms[0].key, cs)))
    ensures k !in Keys(ms)
  {
    if k in Keys(ms) {
      var i := IndexOf(ms, k);
      if i > 0 { LessTransitive(SortKey(k, cs), SortKey(ms[0].key, cs), SortKey(k, cs)); }
      LessAsymmetric(SortKey(k, cs), SortKey(k, cs));
    }
  }

  lemma IncreasingDistinct(ms: seq<Member>, cs: bool)
    requires Increasing(ms, cs)
    ensures DistinctKeys(ms)
  {
    forall i, j | 0 <= i < j < |ms| ensures ms[i].key != ms[j].key {
      LessAsymmetric(SortKey(ms[i].key, cs), SortKey(ms[j].key, cs));
    }
  }

  lemma KeysOfTail(ms: seq<Member>)
    requires DistinctKeys(ms) && ms != []
    ensures Keys(ms[1..]) == Keys(ms) - {ms[0].key}
  {
    forall k | k in Keys(ms) - {ms[0].key} ensures k in Keys(ms[1..]) {
      var i := IndexOf(ms, k);
      assert ms[1..][i-1].key == k;
    }
  }

  /** Same keys in the same places, and values of the same meaning. */
  ghost predicate SameInOrder(xs: seq<Member>, ys: seq<Member>) {
    |xs| == |ys| && forall i | 0 <= i < |xs| :: xs[i].key == ys[i].key && Sem(xs[i].value) == Sem(ys[i].value)
  }

  lemma SameObjectInOrder(xs: seq<Member>, ys: seq<Member>, cs: bool)
    requires Increasing(xs, cs) && Increasing(ys, cs) && Sem(Object(xs)) == Sem(Object(ys))
    ensures SameInOrder(xs, ys)
  {
    IncreasingDistinct(xs, cs);
    IncreasingDistinct(ys, cs);
    assert Keys(xs) == Fields(xs).Keys == Fields(ys).Keys == Keys(ys);
    IncreasingUnique(xs, ys, cs);
    forall i | 0 <= i < |xs| ensures Sem(xs[i].value) == Sem(ys[i].value) {
      DistinctIndex(xs, i);
      DistinctIndex(ys, i);
      assert Fields(xs)[xs[i].key] == Fields(ys)[xs[i].key];
    }
  }

  lemma InOrderSameObject(xs: seq<Member>, ys: seq<Member>)
    requires DistinctKeys(xs) && SameInOrder(xs, ys)
    ensures Sem(Object(xs)) == Sem(Object(ys))
  {
    assert Keys(xs) == Keys(ys);
    forall k | k in Keys(xs) ensures Sem(xs[IndexOf(xs, k)].value) == Sem(ys[IndexOf(ys, k)].value) {
      DistinctIndex(ys, IndexOf(xs, k));
    }
    assert Fields(xs) == Fields(ys);
  }

  lemma WellKeyedSorted(ms: seq<Member>, cs: bool, ks: iset<string>)
    requires WellKeyed(Object(ms), ks) && Separates(cs, ks)
    ensures var r := SortMembers(ms, cs);
      WellKeyed(Object(r), ks) && Increasing(r, cs) && Sem(Object(r)) == Sem(Object(ms))
  {
    SortMembersSound(ms, cs, ks);
    var r := SortMembers(ms, cs);
    forall i | 0 <= i < |r| ensures r[i].key in ks && WellKeyed(r[i].value, ks) {
      assert r[i] in multiset(r);
      assert r[i] in ms;
    }
  }

  // ----- what the comparison leaves means the same

  lemma {:induction false} WalkedHeight(a: Json, b: Json, cs: bool)
    ensures Height(Walked(a, b, cs)) <= Height(a)
    decreases Height(a), 1, 0
  {
    match (a, b)
    case (Array(xs), Array(ys)) => WalkedItemsHeight(xs, ys, cs);
    case (Object(ms), Object(ns)) =>
      HeightOfSorted(ms, cs);
      WalkedMembersHeight(SortMembers(ms, cs), SortMembers(ns, cs), cs, Height(a));
    case _ =>
  }

  lemma {:induction false} WalkedItemsHeight(xs: seq<Json>, ys: seq<Json>, cs: bool)
    ensures HeightOfItems(WalkedItems(xs, ys, cs)) <= HeightOfItems(xs)
    decreases HeightOfItems(xs), 0, |xs|
  {
    hide Walked, CompareJson;
    if xs != [] && ys != [] {
      HeightOfItem(xs, 0);
      WalkedHeight(xs[0], ys[0], cs);
      WalkedItemsHeight(xs[1..], ys[1..], cs);
      var x, rest := Walked(xs[0], ys[0], cs), if CompareJson(xs[0], ys[0], cs) then WalkedItems(xs[1..], ys[1..], cs) else xs[1..];
      assert ([x] + rest)[1..] == rest;
    }
  }

  /** The members stay below a bound. */
  lemma {:induction false} WalkedMembersHeight(xs: seq<Member>, ys: seq<Member>, cs: bool, bound: nat)
    requires forall m | m in xs :: Height(m.value) < bound
    ensures HeightOfMembers(WalkedMembers(xs, ys, cs, bound)) <= bound
    decreases bound, 0, |xs|
  {
    hide Walked, CompareJson, SortKey;
    BoundedMembers(xs, bound);
    if xs != [] && ys != [] && SortKey(xs[0].key, cs) == SortKey(ys[0].key, cs) {
      WalkedHeight(xs[0].value, ys[0].value, cs);
      WalkedMembersHeight(xs[1..], ys[1..], cs, bound);
      BoundedMembers(xs[1..], bound);
      var m := Member(xs[0].key, Walked(xs[0].value, ys[0].value, cs));
      var rest := if CompareJson(xs[0].value, ys[0].value, cs) then WalkedMembers(xs[1..], ys[1..], cs, bound) else xs[1..];
      assert ([m] + rest)[1..] == rest;
    }
  }

  lemma {:induction false} BoundedMembers(xs: seq<Member>, bound: nat)
    requires forall m | m in xs :: Height(m.value) < bound
    ensures HeightOfMembers(xs) <= bound
  {
    if xs != [] { BoundedMembers(xs[1..], bound); }
  }

  lemma {:induction false} BoundedItems(xs: seq<Json>, bound: nat)
    requires forall i | 0 <= i < |xs| :: Height(xs[i]) < bound
    ensures HeightOfItems(xs) <= bound
  {
    if xs != [] {
      assert forall i | 0 <= i < |xs| - 1 :: xs[1..][i] == xs[i+1];
      BoundedItems(xs[1..], bound);
    }
  }

  /** The height does not depend on the order of members. */
  lemma {:induction false} SameHeight(a: Json, b: Json, ks: iset<string>)
    requires WellKeyed(a, ks) && WellKeyed(b, ks) && Sem(a) == Sem(b)
    ensures Height(a) <= Height(b)
    decreases a
  {
    SemKind(a);
    SemKind(b);
    if a.Array? {
      forall i | 0 <= i < |a.items| ensures Height(a.items[i]) < Height(b) {
        assert Sem(a).elems[i] == Sem(b).elems[i];
        SameHeight(a.items[i], b.items[i], ks);
        HeightOfItem(b.items, i);
      }
      BoundedItems(a.items, Height(b));
    } else if a.Object? {
      forall m | m in a.members ensures Height(m.value) < Height(b) {
        var i :| 0 <= i < |a.members| && a.members[i] == m;
        FieldAt(a.members, i);
        FieldsKeys(b.members);
        var j := IndexOf(b.members, m.key);
        FieldAt(b.members, j);
        SameHeight(m.value, b.members[j].value, ks);
        HeightOfMember(b.members, b.members[j]);
      }
      BoundedMembers(a.members, Height(b));
    }
  }

  /** Sorting on the way changes neither the keys nor the meaning of an item. */
  lemma {:induction false} WalkedKeeps(a: Json, b: Json, cs: bool, ks: iset<string>)
    requires WellKeyed(a, ks) && Separates(cs, ks)
    ensures WellKeyed(Walked(a, b, cs), ks) && Sem(Walked(a, b, cs)) == Sem(a)
    decreases Height(a), 1, 0
  {
    match (a, b)
    case (Array(xs), Array(ys)) =>
      WalkedItemsKeep(xs, ys, cs, ks);
      assert Sem(Array(WalkedItems(xs, ys, cs))).elems == Sem(a).elems;
    case (Object(ms), Object(ns)) =>
      HeightOfSorted(ms, cs);
      WellKeyedSorted(ms, cs, ks);
      var xs := SortMembers(ms, cs);
      WalkedMembersKeep(xs, SortMembers(ns, cs), cs, Height(a), ks);
      hide SortMembers, Sem, WalkedMembers;
      KeptObject(xs, WalkedMembers(xs, SortMembers(ns, cs), cs, Height(a)), ks);
    case _ =>
  }

  /** The same keys in the same places, with well-keyed values of the same meaning. */
  ghost predicate KeptMembers(xs: seq<Member>, r: seq<Member>, ks: iset<string>) {
    SameInOrder(xs, r) && forall i | 0 <= i < |r| :: WellKeyed(r[i].value, ks)
  }

  lemma KeptObject(xs: seq<Member>, r: seq<Member>, ks: iset<string>)
    requires WellKeyed(Object(xs), ks) && KeptMembers(xs, r, ks)
    ensures WellKeyed(Object(r), ks) && Sem(Object(r)) == Sem(Object(xs))
  {
    InOrderSameObject(xs, r);
  }

  lemma KeptCons(m: Member, n: Member, xs: seq<Member>, r: seq<Member>, ks: iset<string>)
    requires KeptMembers(xs, r, ks) && m.key == n.key && Sem(m.value) == Sem(n.value) && WellKeyed(n.value, ks)
    ensures KeptMembers([m] + xs, [n] + r, ks)
  {
    hide Sem, WellKeyed;
  }

  lemma KeptSame(xs: seq<Member>, ks: iset<string>)
    requires WellKeyed(Object(xs), ks)
    ensures KeptMembers(xs, xs, ks)
  {
    hide Sem;
  }

  lemma {:induction false} WalkedItemsKeep(xs: seq<Json>, ys: seq<Json>, cs: bool, ks: iset<string>)
    requires WellKeyed(Array(xs), ks) && Separates(cs, ks)
    ensures var r := WalkedItems(xs, ys, cs);
      |r| == |xs| && forall i | 0 <= i < |r| :: WellKeyed(r[i], ks) && Sem(r[i]) == Sem(xs[i])
    decreases HeightOfItems(xs), 0, |xs|
  {
    hide Walked, CompareJson, Sem, Separates;
    if xs != [] && ys != [] {
      HeightOfItem(xs, 0);
      WalkedKeeps(xs[0], ys[0], cs, ks);
      assert forall i | 0 <= i < |xs| - 1 :: xs[1..][i] == xs[i+1];
      WalkedItemsKeep(xs[1..], ys[1..], cs, ks);
    }
  }

  lemma {:induction false} WalkedMembersKeep(xs: seq<Member>, ys: seq<Member>, cs: bool, bound: nat, ks: iset<string>)
    requires WellKeyed(Object(xs), ks) && Separates(cs, ks) && forall m | m in xs :: Height(m.value) < bound
    ensures KeptMembers(xs, WalkedMembers(xs, ys, cs, bound), ks)
    decreases bound, 0, |xs|
  {
    hide Walked, CompareJson, SortKey, Sem, Separates, Height, KeptMembers, WellKeyed;
    KeptSame(xs, ks);
    if xs != [] && ys != [] && SortKey(xs[0].key, cs) == SortKey(ys[0].key, cs) {
      WellKeyedTail(xs, ks);
      KeptSame(xs[1..], ks);
      WalkedKeeps(xs[0].value, ys[0].value, cs, ks);
      WalkedMembersKeep(xs[1..], ys[1..], cs, bound, ks);
      var n := Member(xs[0].key, Walked(xs[0].value, ys[0].value, cs));
      var rest := if CompareJson(xs[0].value, ys[0].value, cs) then WalkedMembers(xs[1..], ys[1..], cs, bound) else xs[1..];
      KeptCons(xs[0], n, xs[1..], rest, ks);
      assert [xs[0]] + xs[1..] == xs;
    }
  }

  /** `compare_json` decides equality up to member order, in both case modes. */
  lemma {:induction false} CompareJsonDecides(a: Json, b: Json, cs: bool, ks: iset<string>)
    requires WellKeyed(a, ks) && WellKeyed(b, ks) && Separates(cs, ks)
    ensures CompareJson(a, b, cs) <==> Sem(a) == Sem(b)
    decreases Height(a), 2
  {
    match (a, b)
    case (Array(xs), Array(ys)) =>
      if |xs| == |ys| {
        forall i | 0 <= i < |xs| ensures CompareJson(xs[i], ys[i], cs) <==> Sem(xs[i]) == Sem(ys[i]) {
          HeightOfItem(xs, i);
          CompareJsonDecides(xs[i], ys[i], cs, ks);
        }
        SameArray(xs, ys);
        hide Sem, WellKeyed, Separates;
      } else {
        assert |Sem(a).elems| != |Sem(b).elems|;
      }
    case (Object(ms), Object(ns)) =>
      ObjectsDecide(ms, ns, cs, ks);
    case _ =>
  }

  lemma {:induction false} ObjectsDecide(ms: seq<Member>, ns: seq<Member>, cs: bool, ks: iset<string>)
    requires WellKeyed(Object(ms), ks) && WellKeyed(Object(ns), ks) && Separates(cs, ks)
    ensures CompareJson(Object(ms), Object(ns), cs) <==> Sem(Object(ms)) == Sem(Object(ns))
    decreases HeightOfMembers(ms), 1
  {
    hide Sem, WellKeyed, Increasing, SortMembers;
    var xs, ys := SortMembers(ms, cs), SortMembers(ns, cs);
    WellKeyedSorted(ms, cs, ks);
    WellKeyedSorted(ns, cs, ks);
    HeightOfSorted(ms, cs);
    LockstepDecides(xs, ys, cs, ks, HeightOfMembers(ms));
  }

  /** The lockstep walk over two sorted member lists. */
  lemma {:induction false} LockstepDecides(xs: seq<Member>, ys: seq<Member>, cs: bool, ks: iset<string>, bound: nat)
    requires WellKeyed(Object(xs), ks) && WellKeyed(Object(ys), ks) && Separates(cs, ks)
    requires Increasing(xs, cs) && Increasing(ys, cs) && forall m | m in xs :: Height(m.value) < bound
    ensures Sem(Object(xs)) == Sem(Object(ys)) <==>
      |xs| == |ys| && forall i | 0 <= i < |xs| ::
        SortKey(xs[i].key, cs) == SortKey(ys[i].key, cs) && CompareJson(xs[i].value, ys[i].value, cs)
    decreases bound, 0
  {
    if |xs| == |ys| {
      forall i | 0 <= i < |xs|
        ensures SortKey(xs[i].key, cs) == SortKey(ys[i].key, cs) <==> xs[i].key == ys[i].key
        ensures CompareJson(xs[i].value, ys[i].value, cs) <==> Sem(xs[i].value) == Sem(ys[i].value)
      {
        CompareJsonDecides(xs[i].value, ys[i].value, cs, ks);
      }
    }
    if Sem(Object(xs)) == Sem(Object(ys)) { SameObjectInOrder(xs, ys, cs); }
    if SameInOrder(xs, ys) { InOrderSameObject(xs, ys); }
  }

  lemma SameArray(xs: seq<Json>, ys: seq<Json>)
    requires |xs| == |ys|
    ensures Sem(Array(xs)) == Sem(Array(ys)) <==> forall i | 0 <= i < |xs| :: Sem(xs[i]) == Sem(ys[i])
  {
    var u, v := Sem(Array(xs)).elems, Sem(Array(ys)).elems;
    assert forall i | 0 <= i < |xs| :: u[i] == Sem(xs[i]) && v[i] == Sem(ys[i]);
  }

  /** What `cJSON_Compare` returns. */
  predicate CompareLookup(a: Json, b: Json, cs: bool)
    decreases Height(a) + Height(b), 1
  {
    match (a, b)
    case (Array(xs), Array(ys)) =>
      |xs| == |ys| && forall i | 0 <= i < |xs| ::
        (HeightOfItem(xs, i); HeightOfItem(ys, i); CompareLookup(xs[i], ys[i], cs))
    case (Object(ms), Object(ns)) => AllFound(ms, ns, cs) && AllFound(ns, ms, cs)
    case (Invalid, _) => false
    case _ => SameScalar(a, b)
  }

  /** One pass of `cJSON_Compare` over an object: each member is looked up in the other object. */
  predicate AllFound(ms: seq<Member>, ns: seq<Member>, cs: bool)
    decreases HeightOfMembers(ms) + HeightOfMembers(ns), 0
  {
    forall i | 0 <= i < |ms| ::
      var f := FindMember(ns, ms[i].key, cs);
      f.Some? && (HeightOfMember(ms, ms[i]); HeightOfMember(ns, ns[f.value]);
                  CompareLookup(ms[i].value, ns[f.value].value, cs))
  }

  /** No item of an unknown type anywhere. */
  ghost predicate AllTyped(j: Json) {
    match j
    case Invalid => false
    case Array(items) => forall i | 0 <= i < |items| :: AllTyped(items[i])
    case Object(ms) => forall i | 0 <= i < |ms| :: AllTyped(ms[i].value)
    case _ => true
  }

  lemma {:induction false} CompareLookupDecides(a: Json, b: Json, cs: bool, ks: iset<string>)
    requires WellKeyed(a, ks) && WellKeyed(b, ks) && Separates(cs, ks) && AllTyped(a) && AllTyped(b)
    ensures CompareLookup(a, b, cs) <==> Sem(a) == Sem(b)
    decreases Height(a) + Height(b), 1
  {
    match (a, b)
    case (Array(xs), Array(ys)) =>
      if |xs| == |ys| {
        forall i | 0 <= i < |xs| ensures CompareLookup(xs[i], ys[i], cs) <==> Sem(xs[i]) == Sem(ys[i]) {
          HeightOfItem(xs, i);
          HeightOfItem(ys, i);
          CompareLookupDecides(xs[i], ys[i], cs, ks);
        }
        SameArray(xs, ys);
      } else {
        assert |Sem(a).elems| != |Sem(b).elems|;
      }
    case (Object(ms), Object(ns)) =>
      AllFoundDecides(ms, ns, cs, ks);
      AllFoundDecides(ns, ms, cs, ks);
      MapsAgree(Fields(ms), Fields(ns));
    case _ =>
  }

  /** Every binding of `m` is one of `n`. */
  ghost predicate SubMap(m: map<string, Val>, n: map<string, Val>) {
    forall k | k in m :: k in n && m[k] == n[k]
  }

  lemma MapsAgree(m: map<string, Val>, n: map<string, Val>)
    ensures m == n <==> SubMap(m, n) && SubMap(n, m)
  {
    if SubMap(m, n) && SubMap(n, m) {
      assert m.Keys == n.Keys;
    }
  }

  lemma {:induction false} AllFoundDecides(ms: seq<Member>, ns: seq<Member>, cs: bool, ks: iset<string>)
    requires WellKeyed(Object(ms), ks) && WellKeyed(Object(ns), ks) && Separates(cs, ks)
    requires AllTyped(Object(ms)) && AllTyped(Object(ns))
    ensures AllFound(ms, ns, cs) <==> SubMap(Fields(ms), Fields(ns))
    decreases HeightOfMembers(ms) + HeightOfMembers(ns), 0
  {
    var m, n := Fields(ms), Fields(ns);
    forall i | 0 <= i < |ms| ensures
      var f := FindMember(ns, ms[i].key, cs);
      && ms[i].key in m
      && (f.Some? <==> ms[i].key in n)
      && (f.Some? ==> (CompareLookup(ms[i].value, ns[f.value].value, cs) <==> m[ms[i].key] == n[ms[i].key]))
    {
      FindMemberExact(ns, ms[i].key, cs, ks);
      DistinctIndex(ms, i);
      var f := FindMember(ns, ms[i].key, cs);
      if f.Some? {
        HeightOfMember(ms, ms[i]);
        HeightOfMember(ns, ns[f.value]);
        CompareLookupDecides(ms[i].value, ns[f.value].value, cs, ks);
      }
    }
    if AllFound(ms, ns, cs) {
      forall k | k in m ensures k in n && m[k] == n[k] {
        assert ms[IndexOf(ms, k)].key == k;
      }
    }
  }

  /** The sorting comparison and the looking-up comparison agree. */
  lemma ComparisonsAgree(a: Json, b: Json, cs: bool, ks: iset<string>)
    requires WellKeyed(a, ks) && WellKeyed(b, ks) && Separates(cs, ks) && AllTyped(a) && AllTyped(b)
    ensures CompareJson(a, b, cs) <==> CompareLookup(a, b, cs)
    ensures CompareJson(a, b, cs) <==> Sem(a) == Sem(b)
  {
    CompareJsonDecides(a, b, cs, ks);
    CompareLookupDecides(a, b, cs, ks);
  }
}
