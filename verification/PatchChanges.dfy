/** Every generated patch is needed: it changes a place at which the two values differ, and no more than that place. */
module PatchChanges {
  import opened CString
  import opened JsonTree
  import opened MergeSort
  import opened Compare
  import opened JsonPointer
  import opened PatchApply
  import opened PatchGenerate
  import opened PatchRoundTrip
  import MergePatch

  // ----- one patch

  /** The members of a patch; a value that nests too deep to be copied is missing. */
  ghost predicate Written(p: Json, op: string, path: string, x: Option<Json>) {
    var value := if x.Some? && MergePatch.Shallow(x.value) then [Member("value", x.value)] else [];
    p == Object([Member("op", String(op)), Member("path", String(path))] + value)
  }

  ghost predicate Replacement(p: Json, path: string, v: Val, w: Val) {
    && v != w && !(v.VArray? && w.VArray?) && !(v.VObject? && w.VObject?)
    && exists x :: Sem(x) == w && Written(p, "replace", path, Some(x))
  }

  /** Elements beyond the length of `w` are removed at that length. */
  ghost predicate Shortening(p: Json, path: string, v: Val, w: Val) {
    && v.VArray? && w.VArray? && |v.elems| > |w.elems|
    && Written(p, "remove", path + "/" + Decimal(|w.elems|), None)
  }

  ghost predicate Extension(p: Json, path: string, v: Val, w: Val) {
    && v.VArray? && w.VArray?
    && exists x, i :: |v.elems| <= i < |w.elems| && Sem(x) == w.elems[i] && Written(p, "add", path + "/-", Some(x))
  }

  ghost predicate Removal(p: Json, path: string, v: Val, w: Val) {
    && v.VObject? && w.VObject?
    && exists k :: k in v.fields && k !in w.fields && Written(p, "remove", path + "/" + Encode(k), None)
  }

  ghost predicate Addition(p: Json, path: string, v: Val, w: Val) {
    && v.VObject? && w.VObject?
    && exists k, x :: k in w.fields && k !in v.fields && Sem(x) == w.fields[k] && Written(p, "add", path + "/" + Encode(k), Some(x))
  }

  /** A patch of the values at one place. */
  ghost predicate Change(p: Json, path: string, v: Val, w: Val) {
    || Replacement(p, path, v, w)
    || Shortening(p, path, v, w)
    || Extension(p, path, v, w)
    || Removal(p, path, v, w)
    || Addition(p, path, v, w)
  }

  /** A patch of what both values have behind the steps `q`. */
  ghost predicate NeededAt(p: Json, path: string, v: Val, w: Val, q: seq<Step>) {
    && Get(v, q).Some? && Get(w, q).Some?
    && Change(p, path + PathText(q), Get(v, q).value, Get(w, q).value)
  }

  lemma ComposeWrites(op: string, path: string, x: Option<Json>)
    ensures Written(Compose(op, path, None, x), op, path, x)
  {
    hide MergePatch.Duplicate, MergePatch.Shallow;
    if x.Some? { MergePatch.DuplicateExact(x.value, 0); }
    ShallowIs(x);
  }

  lemma ShallowIs(x: Option<Json>)
    ensures x.Some? ==> (MergePatch.Shallow(x.value) <==> Height(x.value) <= MergePatch.CIRCULAR_LIMIT)
  {
  }

  lemma ComposeChild(op: string, path: string, k: string, x: Option<Json>)
    ensures Compose(op, path, Some(k), x) == Compose(op, path + "/" + Encode(k), None, x)
  {
  }

  // ----- the whole walk

  /** Every patch changes a place that both values have, and at which they differ in kind, in their scalar, in their number
      of elements, or in one key; what it adds is what `to` has there. */
  lemma {:induction false} PatchesNeeded(path: string, from: Json, to: Json, cs: bool, ks: iset<string>, p: Json)
    returns (q: seq<Step>)
    requires WellKeyed(from, ks) && WellKeyed(to, ks) && FoldInjective(ks) && p in Patches(path, from, to, cs)
    ensures NeededAt(p, path, Sem(from), Sem(to), q)
    decreases Height(from), 1, 0
  {
    if from.Array? && to.Array? {
      ElemsAre(from.items);
      ElemsAre(to.items);
      hide Sem, Elems, WellKeyed, NeededAt, CreateForItems;
      ItemKeyed(from.items, ks);
      ItemKeyed(to.items, ks);
      assert from.items[0..] == from.items && to.items[0..] == to.items;
      q := ItemNeeded(path, from.items, to.items, 0, cs, ks, p);
    } else if from.Object? && to.Object? {
      hide Sem, WellKeyed, NeededAt, CreateForMembers, SortMembers, Increasing, FoldInjective;
      var fs, ts := SortMembers(from.members, cs), SortMembers(to.members, cs);
      WellKeyedSorted(from.members, cs, ks);
      WellKeyedSorted(to.members, cs, ks);
      HeightOfSorted(from.members, cs);
      q := MemberNeeded(path, fs, ts, cs, ks, Height(from), p);
    } else {
      hide Compose, WellKeyed, Written;
      q := [];
      assert path + "" == path;
      ComposeWrites("replace", path, Some(to));
    }
  }

  /** What is needed below a child is needed. */
  lemma NeededBelow(p: Json, path: string, v: Val, w: Val, s: Step, q: seq<Step>)
    requires Child(v, s).Some? && Child(w, s).Some?
    requires NeededAt(p, path + "/" + Token(s), Child(v, s).value, Child(w, s).value, q)
    ensures NeededAt(p, path, v, w, [s] + q)
  {
    hide Change, Token, Child;
    assert ([s] + q)[1..] == q;
    assert path + PathText([s] + q) == path + "/" + Token(s) + PathText(q);
  }

  lemma {:induction false} ItemNeeded(path: string, xs: seq<Json>, ys: seq<Json>, index: nat, cs: bool, ks: iset<string>, p: Json)
    returns (q: seq<Step>)
    requires (forall i | 0 <= i < |xs| :: WellKeyed(xs[i], ks)) && (forall i | 0 <= i < |ys| :: WellKeyed(ys[i], ks)) && FoldInjective(ks)
    requires index <= |xs| && index <= |ys| && p in CreateForItems(path, xs[index..], ys[index..], index, cs)
    ensures NeededAt(p, path, VArray(Elems(xs)), VArray(Elems(ys)), q)
    decreases HeightOfItems(xs), 0, |xs| - index
  {
    ElemsAre(xs);
    ElemsAre(ys);
    hide Sem, WellKeyed, Patches, Compose, Decimal, NeededAt, Elems;
    if index < |xs| && index < |ys| {
      assert xs[index..][1..] == xs[index+1..] && ys[index..][1..] == ys[index+1..];
      if p in Patches(path + "/" + Decimal(index), xs[index], ys[index], cs) {
        HeightOfItem(xs, index);
        q := PatchesNeeded(path + "/" + Decimal(index), xs[index], ys[index], cs, ks, p);
        NeededBelow(p, path, VArray(Elems(xs)), VArray(Elems(ys)), Index(index), q);
        q := [Index(index)] + q;
      } else {
        q := ItemNeeded(path, xs, ys, index + 1, cs, ks, p);
      }
    } else {
      q := [];
      LengthNeeded(path, xs, ys, index, cs, p);
    }
  }

  lemma LengthNeeded(path: string, xs: seq<Json>, ys: seq<Json>, index: nat, cs: bool, p: Json)
    requires index <= |xs| && index <= |ys| && (index == |xs| || index == |ys|)
    requires p in CreateForItems(path, xs[index..], ys[index..], index, cs)
    ensures NeededAt(p, path, VArray(Elems(xs)), VArray(Elems(ys)), [])
  {
    ElemsAre(xs);
    ElemsAre(ys);
    hide Sem, Compose, Decimal, CreateForItems, Written, Elems;
    assert path + "" == path;
    if index == |ys| {
      assert ys[index..] == [];
      RemovesOnly(path, xs[index..], index, cs, p);
      assert '~' !in Decimal(index) && '/' !in Decimal(index);
      PlainSurvives(Decimal(index));
      ComposeChild("remove", path, Decimal(index), None);
      ComposeWrites("remove", path + "/" + Decimal(index), None);
    } else {
      assert xs[index..] == [];
      var i := AddsOnly(path, ys[index..], index, cs, p);
      assert Encode("-") == "-" by { assert "-"[1..] == ""; }
      assert path + "/" + "-" == path + "/-" && ys[index..][i] == ys[index+i];
      assert Elems(ys)[index+i] == Sem(ys[index+i]);
      ComposeChild("add", path, "-", Some(ys[index + i]));
      ComposeWrites("add", path + "/-", Some(ys[index + i]));
    }
  }

  lemma {:induction false} RemovesOnly(path: string, xs: seq<Json>, index: nat, cs: bool, p: Json)
    requires p in CreateForItems(path, xs, [], index, cs)
    ensures xs != [] && p == Compose("remove", path, Some(Decimal(index)), None)
    decreases |xs|
  {
    hide Compose, Decimal;
    if p in CreateForItems(path, xs[1..], [], index, cs) { RemovesOnly(path, xs[1..], index, cs, p); }
  }

  lemma {:induction false} AddsOnly(path: string, ys: seq<Json>, index: nat, cs: bool, p: Json) returns (i: nat)
    requires p in CreateForItems(path, [], ys, index, cs)
    ensures i < |ys| && p == Compose("add", path, Some("-"), Some(ys[i]))
    decreases |ys|
  {
    hide Compose;
    if p in CreateForItems(path, [], ys[1..], index + 1, cs) {
      i := AddsOnly(path, ys[1..], index + 1, cs, p);
      i := i + 1;
    } else {
      i := 0;
    }
  }

  // ----- members

  /** More members on either side, whose keys the other side did not have, take nothing away. */
  lemma NeededAmongMore(p: Json, path: string, a: map<string, Val>, b: map<string, Val>, a': map<string, Val>, b': map<string, Val>,
                        q: seq<Step>)
    requires NeededAt(p, path, VObject(a), VObject(b), q)
    requires (forall k | k in a :: k in a' && a'[k] == a[k]) && (forall k | k in b :: k in b' && b'[k] == b[k])
    requires (forall k | k in a' && k in b :: k in a) && (forall k | k in b' && k in a :: k in b)
    ensures NeededAt(p, path, VObject(a'), VObject(b'), q)
  {
    if q == [] {
      hide Written;
      ChangeAmongMore(p, path + PathText(q), a, b, a', b');
    } else {
      hide Change, PathText;
    }
  }

  lemma ChangeAmongMore(p: Json, path: string, a: map<string, Val>, b: map<string, Val>, a': map<string, Val>, b': map<string, Val>)
    requires Change(p, path, VObject(a), VObject(b))
    requires (forall k | k in a :: k in a' && a'[k] == a[k]) && (forall k | k in b :: k in b' && b'[k] == b[k])
    requires (forall k | k in a' && k in b :: k in a) && (forall k | k in b' && k in a :: k in b)
    ensures Change(p, path, VObject(a'), VObject(b'))
  {
    hide Written, Sem;
    if Removal(p, path, VObject(a), VObject(b)) {
      var k :| k in a && k !in b && Written(p, "remove", path + "/" + Encode(k), None);
      assert k in a' && k !in b';
    } else {
      var k, x :| k in b && k !in a && Sem(x) == b[k] && Written(p, "add", path + "/" + Encode(k), Some(x));
      assert k in b' && k !in a' && b'[k] == b[k];
    }
  }

  lemma {:induction false} MemberNeeded(path: string, fs: seq<Member>, ts: seq<Member>, cs: bool, ks: iset<string>, bound: nat, p: Json)
    returns (q: seq<Step>)
    requires WellKeyed(Object(fs), ks) && WellKeyed(Object(ts), ks) && FoldInjective(ks) && Increasing(fs, cs) && Increasing(ts, cs)
    requires (forall m | m in fs :: Height(m.value) < bound) && p in CreateForMembers(path, fs, ts, cs, bound)
    ensures NeededAt(p, path, VObject(Fields(fs)), VObject(Fields(ts)), q)
    decreases bound, 0, |fs| + |ts|
  {
    hide Sem, Fields, WellKeyed, Patches, Compose, SortKey, Less, FoldInjective, Encode, NeededAt, DistinctKeys, Keys, Height;
    KeysKnown(fs, cs);
    KeysKnown(ts, cs);
    if ts == [] || (fs != [] && Less(SortKey(fs[0].key, cs), SortKey(ts[0].key, cs))) {
      SmallerIsAbsent(fs[0].key, ts, cs);
      FieldsTail(fs);
      WellKeyedTail(fs, ks);
      if p == Compose("remove", path, Some(fs[0].key), None) {
        q := RemovalNeeded(p, path, fs, ts);
      } else {
        q := MemberNeeded(path, fs[1..], ts, cs, ks, bound, p);
        NeededAmongMore(p, path, Fields(fs[1..]), Fields(ts), Fields(fs), Fields(ts), q);
      }
    } else if fs == [] || Less(SortKey(ts[0].key, cs), SortKey(fs[0].key, cs)) {
      SmallerIsAbsent(ts[0].key, fs, cs);
      FieldsTail(ts);
      WellKeyedTail(ts, ks);
      if p == Compose("add", path, Some(ts[0].key), Some(ts[0].value)) {
        q := AdditionNeeded(p, path, fs, ts);
      } else {
        q := MemberNeeded(path, fs, ts[1..], cs, ks, bound, p);
        NeededAmongMore(p, path, Fields(fs), Fields(ts[1..]), Fields(fs), Fields(ts), q);
      }
    } else {
      WellKeyedTail(fs, ks);
      WellKeyedTail(ts, ks);
      SameKeys(fs[0].key, ts[0].key, cs, ks);
      FieldsTail(fs);
      FieldsTail(ts);
      var k := fs[0].key;
      if p in Patches(path + "/" + Encode(k), fs[0].value, ts[0].value, cs) {
        q := PatchesNeeded(path + "/" + Encode(k), fs[0].value, ts[0].value, cs, ks, p);
        NeededBelow(p, path, VObject(Fields(fs)), VObject(Fields(ts)), Key(k), q);
        q := [Key(k)] + q;
      } else {
        q := MemberNeeded(path, fs[1..], ts[1..], cs, ks, bound, p);
        NeededAmongMore(p, path, Fields(fs[1..]), Fields(ts[1..]), Fields(fs), Fields(ts), q);
      }
    }
  }

  lemma KeysKnown(ms: seq<Member>, cs: bool)
    requires Increasing(ms, cs)
    ensures DistinctKeys(ms) && Fields(ms).Keys == Keys(ms)
    ensures ms != [] ==> Increasing(ms[1..], cs) && Fields(ms[1..]).Keys == Keys(ms[1..])
  {
    IncreasingDistinct(ms, cs);
    KeysAreFields(ms);
    if ms != [] { KeysAreFields(ms[1..]); }
  }

  lemma RemovalNeeded(p: Json, path: string, fs: seq<Member>, ts: seq<Member>) returns (q: seq<Step>)
    requires DistinctKeys(fs) && fs != [] && fs[0].key !in Fields(ts) && p == Compose("remove", path, Some(fs[0].key), None)
    ensures NeededAt(p, path, VObject(Fields(fs)), VObject(Fields(ts)), q)
  {
    hide Sem, Fields, Compose, Written;
    q := [];
    assert path + "" == path;
    FieldAt(fs, 0);
    ComposeChild("remove", path, fs[0].key, None);
    ComposeWrites("remove", path + "/" + Encode(fs[0].key), None);
  }

  lemma AdditionNeeded(p: Json, path: string, fs: seq<Member>, ts: seq<Member>) returns (q: seq<Step>)
    requires DistinctKeys(ts) && ts != [] && ts[0].key !in Fields(fs)
    requires p == Compose("add", path, Some(ts[0].key), Some(ts[0].value))
    ensures NeededAt(p, path, VObject(Fields(fs)), VObject(Fields(ts)), q)
  {
    hide Sem, Fields, Compose, Written;
    q := [];
    assert path + "" == path;
    FieldAt(ts, 0);
    ComposeChild("add", path, ts[0].key, Some(ts[0].value));
    ComposeWrites("add", path + "/" + Encode(ts[0].key), Some(ts[0].value));
  }
}
