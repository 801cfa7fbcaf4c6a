/** Applying a generated patch turns `from` into `to`, up to member order. */
module PatchRoundTrip {
  import opened CString
  import opened JsonTree
  import opened MergeSort
  import opened Compare
  import opened JsonPointer
  import opened PatchApply
  import opened PatchGenerate
  import MergePatch

  // ----- abstract values addressed by steps

  function Child(v: Val, s: Step): Option<Val> {
    match (v, s)
    case (VArray(e), Index(i)) => if i < |e| then Some(e[i]) else None
    case (VObject(f), Key(k)) => if k in f then Some(f[k]) else None
    case _ => None
  }

  function WithChild(v: Val, s: Step, w: Val): Val
    requires Child(v, s).Some?
  {
    match (v, s)
    case (VArray(e), Index(i)) => VArray(e[i := w])
    case (VObject(f), Key(k)) => VObject(f[k := w])
  }

  function Get(v: Val, steps: seq<Step>): Option<Val>
    decreases steps
  {
    if steps == [] then Some(v)
    else match Child(v, steps[0])
      case None => None
      case Some(c) => Get(c, steps[1..])
  }

  function Set(v: Val, steps: seq<Step>, w: Val): Val
    requires Get(v, steps).Some?
    decreases steps
  {
    if steps == [] then w
    else WithChild(v, steps[0], Set(Child(v, steps[0]).value, steps[1..], w))
  }

  lemma {:induction false} SetLaws(v: Val, steps: seq<Step>, w: Val)
    requires Get(v, steps).Some?
    ensures Get(Set(v, steps, w), steps) == Some(w)
    ensures Set(v, steps, Get(v, steps).value) == v
    ensures forall x :: Set(Set(v, steps, w), steps, x) == Set(v, steps, x)
    decreases steps
  {
    if steps != [] {
      SetLaws(Child(v, steps[0]).value, steps[1..], w);
      WithChildLaws(v, steps[0]);
    }
  }

  lemma WithChildLaws(v: Val, s: Step)
    requires Child(v, s).Some?
    ensures forall w :: Child(WithChild(v, s, w), s) == Some(w)
    ensures WithChild(v, s, Child(v, s).value) == v
    ensures forall w, x :: WithChild(WithChild(v, s, w), s, x) == WithChild(v, s, x)
  {
  }

  lemma {:induction false} GetBelow(v: Val, steps: seq<Step>, s: Step)
    requires Get(v, steps).Some? && Child(Get(v, steps).value, s).Some?
    ensures Get(v, steps + [s]) == Child(Get(v, steps).value, s)
    ensures forall w :: Set(v, steps + [s], w) == Set(v, steps, WithChild(Get(v, steps).value, s, w))
    decreases steps
  {
    if steps == [] {
      assert [] + [s] == [s] && [s][1..] == [];
    } else {
      assert (steps + [s])[1..] == steps[1..] + [s];
      GetBelow(Child(v, steps[0]).value, steps[1..], s);
    }
  }

  // ----- trees refine abstract values

  lemma SemChild(j: Json, s: Step, ks: iset<string>)
    requires WellKeyed(j, ks)
    ensures StepChild(j, s).Some? <==> Child(Sem(j), s).Some?
    ensures StepChild(j, s).Some? ==>
      var i := StepChild(j, s).value;
      WellKeyed(Children(j)[i], ks) && Child(Sem(j), s) == Some(Sem(Children(j)[i]))
  {
    SemKind(j);
    match j
    case Array(items) =>
      hide WellKeyed;
      ItemKeyed(items, ks);
    case Object(ms) =>
      hide Sem, WellKeyed, DistinctKeys;
      MemberKeyed(ms, s, ks);
    case _ =>
  }

  lemma ItemKeyed(items: seq<Json>, ks: iset<string>)
    requires WellKeyed(Array(items), ks)
    ensures forall i | 0 <= i < |items| :: WellKeyed(items[i], ks)
  {
  }

  lemma MemberKeyed(ms: seq<Member>, s: Step, ks: iset<string>)
    requires WellKeyed(Object(ms), ks)
    ensures s.Key? ==> (s.key in Keys(ms) <==> Child(Sem(Object(ms)), s).Some?)
    ensures s.Key? && s.key in Keys(ms) ==> var x := ms[IndexOf(ms, s.key)].value;
      WellKeyed(x, ks) && Child(Sem(Object(ms)), s) == Some(Sem(x))
  {
    FieldsKeys(ms);
    if s.Key? && s.key in Keys(ms) { FieldAt(ms, IndexOf(ms, s.key)); }
    hide Sem, Fields;
  }

  lemma {:induction false} SemResolve(j: Json, steps: seq<Step>, ks: iset<string>)
    requires WellKeyed(j, ks)
    ensures Resolve(j, steps).Some? <==> Get(Sem(j), steps).Some?
    ensures Resolve(j, steps).Some? ==>
      var loc := Resolve(j, steps).value;
      WellKeyed(NodeAt(j, loc), ks) && Get(Sem(j), steps) == Some(Sem(NodeAt(j, loc)))
    decreases steps
  {
    if steps != [] {
      SemChild(j, steps[0], ks);
      var c := StepChild(j, steps[0]);
      if c.Some? { SemResolve(Children(j)[c.value], steps[1..], ks); }
    }
  }

  lemma SemPutChild(j: Json, s: Step, x: Json, ks: iset<string>)
    requires WellKeyed(j, ks) && WellKeyed(x, ks) && StepChild(j, s).Some?
    ensures var r := Put(j, [StepChild(j, s).value], x);
      WellKeyed(r, ks) && Child(Sem(j), s).Some? && Sem(r) == WithChild(Sem(j), s, Sem(x))
  {
    var i := StepChild(j, s).value;
    PutOne(j, i, x);
    SemKind(j);
    match j
    case Array(items) =>
      hide Put, Sem, WellKeyed;
      ItemReplaced(items, i, x, ks);
    case Object(ms) =>
      FieldAt(ms, i);
      hide Put, Sem, WellKeyed;
      MemberReplaced(ms, i, x, ks);
  }

  lemma PutOne(j: Json, i: nat, x: Json)
    requires i < |Children(j)|
    ensures ValidLoc(j, [i])
    ensures j.Array? ==> Put(j, [i], x) == Array(j.items[i := x])
    ensures j.Object? ==> Put(j, [i], x) == Object(j.members[i := Member(j.members[i].key, x)])
  {
    assert [i][1..] == [];
  }

  lemma ItemReplaced(items: seq<Json>, i: nat, x: Json, ks: iset<string>)
    requires WellKeyed(Array(items), ks) && WellKeyed(x, ks) && i < |items|
    ensures WellKeyed(Array(items[i := x]), ks)
    ensures Sem(Array(items[i := x])) == VArray(Sem(Array(items)).elems[i := Sem(x)])
  {
  }

  lemma MemberReplaced(ms: seq<Member>, i: nat, x: Json, ks: iset<string>)
    requires WellKeyed(Object(ms), ks) && WellKeyed(x, ks) && i < |ms|
    ensures var r := ms[i := Member(ms[i].key, x)];
      WellKeyed(Object(r), ks) && Sem(Object(r)) == VObject(Fields(ms)[ms[i].key := Sem(x)])
  {
    FieldsReplaced(ms, i, x);
    FieldsKeys(ms[i := Member(ms[i].key, x)]);
    hide Sem, Fields;
  }

  lemma FieldsReplaced(ms: seq<Member>, i: nat, x: Json)
    requires DistinctKeys(ms) && i < |ms|
    ensures var r := ms[i := Member(ms[i].key, x)];
      DistinctKeys(r) && Fields(r) == Fields(ms)[ms[i].key := Sem(x)]
  {
    var r := ms[i := Member(ms[i].key, x)];
    var f := Fields(ms)[ms[i].key := Sem(x)];
    FieldsKeys(ms);
    FieldAt(ms, i);
    hide Sem, Fields;
    forall n | 0 <= n < |r| ensures r[n].key in f && f[r[n].key] == Sem(r[n].value) {
      FieldAt(ms, n);
    }
    forall k | k in f ensures k in Keys(r) {
      assert r[IndexOf(ms, k)].key == k;
    }
    FieldsAre(r, f);
  }

  lemma {:induction false} SemPut(j: Json, steps: seq<Step>, x: Json, ks: iset<string>)
    requires WellKeyed(j, ks) && WellKeyed(x, ks) && Resolve(j, steps).Some?
    ensures var r := Put(j, Resolve(j, steps).value, x);
      WellKeyed(r, ks) && Get(Sem(j), steps).Some? && Sem(r) == Set(Sem(j), steps, Sem(x))
    decreases steps
  {
    SemResolve(j, steps, ks);
    if steps != [] {
      var s, loc := steps[0], Resolve(j, steps).value;
      SemChild(j, s, ks);
      var c := Children(j)[loc[0]];
      SemPut(c, steps[1..], x, ks);
      var below := Resolve(c, steps[1..]).value;
      assert loc[1..] == below;
      SemPutChild(j, s, Put(c, below, x), ks);
      assert [loc[0]][1..] == [];
      hide WellKeyed, Sem, WithChild;
    }
  }

  // ----- splitting a path

  lemma {:induction false} PathTextAppend(q: seq<Step>, s: Step)
    ensures PathText(q + [s]) == PathText(q) + "/" + Token(s)
  {
    if q == [] {
      assert [] + [s] == [s] && [s][1..] == [];
      assert PathText([s]) == "/" + Token(s) + "";
    } else {
      assert (q + [s])[1..] == q[1..] + [s];
      PathTextAppend(q[1..], s);
    }
  }

  lemma {:induction false} LastSlashAt(a: string, t: string)
    requires '/' !in t
    ensures LastSlash(a + "/" + t) == Some(|a|)
  {
    var s := a + "/" + t;
    if t == "" {
      assert s == a + "/";
    } else {
      assert s[..|s|-1] == a + "/" + t[..|t|-1];
      assert s[|s|-1] == t[|t|-1];
      LastSlashAt(a, t[..|t|-1]);
    }
  }

  lemma SplitPath(q: seq<Step>, t: string)
    requires '/' !in t
    ensures var path := PathText(q) + "/" + t;
      LastSlash(path) == Some(|PathText(q)|) && path[..|PathText(q)|] == PathText(q) && path[|PathText(q)|+1..] == t
  {
    LastSlashAt(PathText(q), t);
  }

  // ----- what the code does at a parent, in terms of abstract values

  /** The keys that survive the in-place decoder and that no case mode confuses. */
  ghost predicate Patchable(ks: iset<string>) {
    FoldInjective(ks) && forall k | k in ks :: Survives(k)
  }

  ghost predicate Applied(r: (nat, Json), v: Val, ks: iset<string>) {
    r.0 == 0 && WellKeyed(r.1, ks) && Sem(r.1) == v
  }

  lemma StepsFromParts(q: seq<Step>, s: Step, ks: iset<string>)
    requires StepsFrom(q + [s], ks)
    ensures StepsFrom(q, ks) && (s.Key? ==> s.key in ks) && (s.Index? ==> s.index < ULONG_RANGE)
  {
    assert (q + [s])[|q|] == s;
    forall i | 0 <= i < |q| ensures (q[i].Key? ==> q[i].key in ks) && (q[i].Index? ==> q[i].index < ULONG_RANGE) {
      assert (q + [s])[i] == q[i];
    }
  }

  lemma IndexTokenDecodes(i: nat)
    requires i < ULONG_RANGE
    ensures Encode(Decimal(i)) == Decimal(i) && DecodeToken(Decimal(i)) == Decimal(i)
    ensures DecodeIndex(Decimal(i)) == Some(i) && Decimal(i) != "-"
  {
    var d := Decimal(i);
    assert '~' !in d && '/' !in d;
    PlainSurvives(d);
    DecodeExact(d);
    DecodeDecimal(i, "");
    assert d + "" == d;
  }

  function WithoutChild(v: Val, s: Step): Val
    requires Child(v, s).Some?
  {
    match (v, s)
    case (VArray(e), Index(i)) => VArray(Without(e, i))
    case (VObject(f), Key(k)) => VObject(f - {k})
  }

  /** Exchanging the node at `q` for another container. */
  lemma SetParent(doc: Json, q: seq<Step>, x: Json, cs: bool, ks: iset<string>)
    requires WellKeyed(doc, ks) && WellKeyed(x, ks) && Separates(cs, ks) && StepsFrom(q, ks) && Get(Sem(doc), q).Some?
    ensures var loc := Locate(doc, PathText(q), cs);
      loc.Some? && WellKeyed(NodeAt(doc, loc.value), ks) && Sem(NodeAt(doc, loc.value)) == Get(Sem(doc), q).value
      && WellKeyed(Put(doc, loc.value, x), ks) && Sem(Put(doc, loc.value, x)) == Set(Sem(doc), q, Sem(x))
  {
    SemResolve(doc, q, ks);
    ResolvedAligned(doc, q);
    LocatePath(doc, q, cs, ks);
    SemPut(doc, q, x, ks);
  }

  lemma ItemsWithout(items: seq<Json>, i: nat)
    requires i < |items|
    ensures Sem(Array(Without(items, i))) == VArray(Without(Sem(Array(items)).elems, i))
  {
    assert Sem(Array(Without(items, i))).elems == Without(Sem(Array(items)).elems, i);
  }

  lemma KeyTokenDecodes(k: string, ks: iset<string>)
    requires Patchable(ks) && k in ks
    ensures DecodeToken(Encode(k)) == k
  {
    DecodeExact(k);
  }

  lemma DetachOne(parent: Json, s: Step, ks: iset<string>)
    requires WellKeyed(parent, ks) && Patchable(ks) && StepsFrom([s], ks) && Child(Sem(parent), s).Some?
    ensures var d := DetachChild(parent, DecodeToken(Token(s)));
      && d.Some? && WellKeyed(d.value.1, ks) && Sem(d.value.1) == WithoutChild(Sem(parent), s)
      && WellKeyed(d.value.0, ks) && Sem(d.value.0) == Child(Sem(parent), s).value
  {
    assert [s][0] == s;
    SemKind(parent);
    match s
    case Index(i) =>
      IndexTokenDecodes(i);
      ItemsWithout(parent.items, i);
      hide DecodeToken, DecodeIndex, FindMember, Without;
    case Key(k) =>
      KeyTokenDecodes(k, ks);
      MergePatch.DetachMember(parent.members, k, false, ks);
      hide DecodeToken, DecodeIndex, FindMember, Without, WellKeyed;
  }

  lemma PutBack(m: map<string, Val>, k: string, v: Val)
    ensures (m - {k})[k := v] == m[k := v]
  {
  }

  lemma InsertKey(parent: Json, k: string, x: Json, cs: bool, ks: iset<string>)
    requires WellKeyed(parent, ks) && parent.Object? && WellKeyed(x, ks) && Patchable(ks) && k in ks
    ensures Applied(InsertChild(parent, DecodeToken(Encode(k)), x, cs), VObject(Sem(parent).fields[k := Sem(x)]), ks)
  {
    KeyTokenDecodes(k, ks);
    InsertMember(parent.members, k, x, cs, ks);
  }

  lemma InsertMember(ms: seq<Member>, k: string, x: Json, cs: bool, ks: iset<string>)
    requires WellKeyed(Object(ms), ks) && WellKeyed(x, ks) && FoldInjective(ks) && k in ks
    ensures Applied(InsertChild(Object(ms), k, x, cs), VObject(Fields(ms)[k := Sem(x)]), ks)
  {
    MergePatch.DetachMember(ms, k, cs, ks);
    var f := FindMember(ms, k, cs);
    var rest := if f.Some? then Without(ms, f.value) else ms;
    WellKeyedAppend(rest, Member(k, x), ks);
    PutBack(Fields(ms), k, Sem(x));
  }

  lemma ItemsInserted(items: seq<Json>, i: nat, x: Json)
    requires i <= |items|
    ensures var e := Sem(Array(items)).elems;
      Sem(Array(items[..i] + [x] + items[i..])) == VArray(e[..i] + [Sem(x)] + e[i..])
  {
    var e := Sem(Array(items)).elems;
    assert Sem(Array(items[..i] + [x] + items[i..])).elems == e[..i] + [Sem(x)] + e[i..];
  }

  lemma InsertIndex(parent: Json, i: nat, x: Json, cs: bool, ks: iset<string>)
    requires WellKeyed(parent, ks) && parent.Array? && WellKeyed(x, ks) && i <= |parent.items| && i < ULONG_RANGE
    ensures var e := Sem(parent).elems;
      i <= |e| && Applied(InsertChild(parent, DecodeToken(Decimal(i)), x, cs), VArray(e[..i] + [Sem(x)] + e[i..]), ks)
  {
    IndexTokenDecodes(i);
    ItemsInserted(parent.items, i, x);
    WellKeyedInsert(parent.items, i, x, ks);
  }

  lemma WellKeyedInsert(items: seq<Json>, i: nat, x: Json, ks: iset<string>)
    requires WellKeyed(Array(items), ks) && WellKeyed(x, ks) && i <= |items|
    ensures WellKeyed(Array(items[..i] + [x] + items[i..]), ks)
  {
  }

  lemma InsertAtEnd(parent: Json, x: Json, cs: bool, ks: iset<string>)
    requires WellKeyed(parent, ks) && parent.Array? && WellKeyed(x, ks)
    ensures Applied(InsertChild(parent, DecodeToken(Encode("-")), x, cs), VArray(Sem(parent).elems + [Sem(x)]), ks)
  {
    hide DecodeToken, Encode, Survives, WellKeyed, Sem;
    PlainSurvives("-");
    DecodeExact("-");
    SemKind(parent);
    WellKeyedAdded(parent.items, x, ks);
    ElemsAdded(parent.items, x);
  }

  lemma ElemsAdded(items: seq<Json>, x: Json)
    ensures Sem(Array(items + [x])) == VArray(Sem(Array(items)).elems + [Sem(x)])
  {
  }

  lemma WellKeyedAdded(items: seq<Json>, x: Json, ks: iset<string>)
    requires WellKeyed(Array(items), ks) && WellKeyed(x, ks)
    ensures WellKeyed(Array(items + [x]), ks)
  {
  }

  /** The parent of a path as the code finds it. */
  function ParentOf(doc: Json, q: seq<Step>, cs: bool): Json
    requires Locate(doc, PathText(q), cs).Some?
  {
    NodeAt(doc, Locate(doc, PathText(q), cs).value)
  }

  ghost predicate Reaches(doc: Json, q: seq<Step>, ks: iset<string>) {
    WellKeyed(doc, ks) && FoldInjective(ks) && StepsFrom(q, ks) && Get(Sem(doc), q).Some?
  }

  lemma ParentFound(doc: Json, q: seq<Step>, cs: bool, ks: iset<string>)
    requires Reaches(doc, q, ks)
    ensures Locate(doc, PathText(q), cs).Some?
    ensures WellKeyed(ParentOf(doc, q, cs), ks) && Sem(ParentOf(doc, q, cs)) == Get(Sem(doc), q).value
  {
    SetParent(doc, q, Null, cs, ks);
  }

  /** A change at the parent is a change of the document there. */
  lemma DetachLifts(doc: Json, q: seq<Step>, t: string, cs: bool, ks: iset<string>)
    requires Reaches(doc, q, ks) && '/' !in t && Locate(doc, PathText(q), cs).Some?
    requires var d := DetachChild(ParentOf(doc, q, cs), DecodeToken(t)); d.Some? && WellKeyed(d.value.1, ks)
    ensures var d := DetachPath(doc, PathText(q) + "/" + t, cs);
      && d.Some? && WellKeyed(d.value.1, ks) && d.value.0 == DetachChild(ParentOf(doc, q, cs), DecodeToken(t)).value.0
      && Sem(d.value.1) == Set(Sem(doc), q, Sem(DetachChild(ParentOf(doc, q, cs), DecodeToken(t)).value.1))
  {
    hide DetachChild, DecodeToken, Locate, PathText, WellKeyed, Put, Set, Get, LastSlash, Sem, FoldInjective, NodeAt, StepsFrom;
    SplitPath(q, t);
    SetParent(doc, q, DetachChild(ParentOf(doc, q, cs), DecodeToken(t)).value.1, cs, ks);
  }

  lemma InsertLifts(doc: Json, q: seq<Step>, t: string, x: Json, v: Val, cs: bool, ks: iset<string>)
    requires Reaches(doc, q, ks) && '/' !in t && Locate(doc, PathText(q), cs).Some?
    requires Applied(InsertChild(ParentOf(doc, q, cs), DecodeToken(t), x, cs), v, ks)
    ensures Applied(AddAtPath(doc, PathText(q) + "/" + t, x, cs), Set(Sem(doc), q, v), ks)
  {
    SplitPath(q, t);
    SetParent(doc, q, InsertChild(ParentOf(doc, q, cs), DecodeToken(t), x, cs).1, cs, ks);
  }

  // ----- the three operations that are generated

  lemma ComposedMembers(op: string, path: string, suffix: Option<string>, value: Option<Json>, cs: bool)
    ensures var p := Compose(op, path, suffix, value);
      && GetItem(p, "op", cs) == Some(String(op))
      && PointerText(GetItem(p, "path", cs)) == Some(if suffix.Some? then path + "/" + Encode(suffix.value) else path)
      && GetItem(p, "value", cs) == (if value.Some? then MergePatch.Duplicate(value.value, 0) else None)
  {
    var p := Compose(op, path, suffix, value);
    var key := (s: string) => SortKey(s, cs);
    assert |key("op")| == 2 && |key("path")| == 4 && |key("value")| == 5;
    var ms := p.members;
    assert ms[0].key == "op" && ms[1].key == "path" && (|ms| == 3 ==> ms[2].key == "value");
    assert FindMember(ms, "op", cs) == Some(0);
    var f := FindMember(ms, "path", cs);
    assert SortKey(ms[0].key, cs) != SortKey("path", cs) && SortKey(ms[1].key, cs) == SortKey("path", cs);
    assert f == Some(1);
    assert SortKey(ms[0].key, cs) != SortKey("value", cs) && SortKey(ms[1].key, cs) != SortKey("value", cs);
  }

  lemma CopyMade(x: Json)
    requires MergePatch.Shallow(x)
    ensures MergePatch.Duplicate(x, 0) == Some(x)
  {
    MergePatch.DuplicateExact(x, 0);
  }

  lemma OperationIs(op: string, path: string, suffix: Option<string>, value: Option<Json>, cs: bool)
    requires op == "remove" || op == "add" || op == "replace"
    ensures DecodeOperation(Compose(op, path, suffix, value), cs) ==
      if op == "remove" then OpRemove else if op == "add" then OpAdd else OpReplace
  {
    ComposedMembers(op, path, suffix, value, cs);
  }

  lemma RemoveIs(doc: Json, path: string, suffix: string, cs: bool)
    ensures var d := DetachPath(doc, path + "/" + Encode(suffix), cs);
      ApplyPatch(doc, Compose("remove", path, Some(suffix), None), cs) ==
        if d.None? then (13, doc) else (0, d.value.1)
  {
    hide Compose, DetachPath, DecodeOperation, GetItem, PointerText, Locate;
    ComposedMembers("remove", path, Some(suffix), None, cs);
    OperationIs("remove", path, Some(suffix), None, cs);
  }

  lemma CopyIs(doc: Json, op: string, path: string, suffix: Option<string>, x: Json, full: string, cs: bool)
    requires MergePatch.Shallow(x)
    ensures AddCopy(doc, Compose(op, path, suffix, Some(x)), full, cs) ==
      if full == "" then (0, x) else AddAtPath(doc, full, x, cs)
  {
    ComposedMembers(op, path, suffix, Some(x), cs);
    CopyMade(x);
  }

  lemma AddIs(doc: Json, path: string, suffix: string, x: Json, cs: bool)
    requires MergePatch.Shallow(x)
    ensures ApplyPatch(doc, Compose("add", path, Some(suffix), Some(x)), cs) ==
      AddAtPath(doc, path + "/" + Encode(suffix), x, cs)
  {
    hide Compose, AddAtPath, ApplyCopy, DecodeOperation, GetItem, PointerText, Locate;
    ComposedMembers("add", path, Some(suffix), Some(x), cs);
    OperationIs("add", path, Some(suffix), Some(x), cs);
    CopyIs(doc, "add", path, Some(suffix), x, path + "/" + Encode(suffix), cs);
  }

  lemma ReplaceIs(doc: Json, path: string, x: Json, cs: bool)
    requires MergePatch.Shallow(x)
    ensures var d := DetachPath(doc, path, cs);
      ApplyPatch(doc, Compose("replace", path, None, Some(x)), cs) ==
        if path == "" then (0, x)
        else if d.None? then (13, doc)
        else AddAtPath(d.value.1, path, x, cs)
  {
    hide Compose, DetachPath, AddAtPath, ApplyCopy, DecodeOperation, GetItem, PointerText, Locate;
    var d, p := DetachPath(doc, path, cs), Compose("replace", path, None, Some(x));
    ComposedMembers("replace", path, None, Some(x), cs);
    OperationIs("replace", path, None, Some(x), cs);
    CopyIs(if path != "" && d.Some? then d.value.1 else doc, "replace", path, None, x, path, cs);
  }

  lemma RemoveApplies(doc: Json, q: seq<Step>, s: Step, suffix: string, cs: bool, ks: iset<string>)
    requires Reaches(doc, q, ks) && Patchable(ks) && StepsFrom([s], ks) && Child(Get(Sem(doc), q).value, s).Some?
    requires Encode(suffix) == Token(s)
    ensures Applied(ApplyPatch(doc, Compose("remove", PathText(q), Some(suffix), None), cs),
                    Set(Sem(doc), q, WithoutChild(Get(Sem(doc), q).value, s)), ks)
  {
    ParentFound(doc, q, cs, ks);
    DetachOne(ParentOf(doc, q, cs), s, ks);
    DetachLifts(doc, q, Token(s), cs, ks);
    RemoveIs(doc, PathText(q), suffix, cs);
  }

  lemma AddKeyApplies(doc: Json, q: seq<Step>, k: string, x: Json, cs: bool, ks: iset<string>)
    requires Reaches(doc, q, ks) && Patchable(ks) && k in ks && Get(Sem(doc), q).value.VObject?
    requires WellKeyed(x, ks) && MergePatch.Shallow(x)
    ensures Applied(ApplyPatch(doc, Compose("add", PathText(q), Some(k), Some(x)), cs),
                    Set(Sem(doc), q, VObject(Get(Sem(doc), q).value.fields[k := Sem(x)])), ks)
  {
    ParentFound(doc, q, cs, ks);
    InsertKey(ParentOf(doc, q, cs), k, x, cs, ks);
    InsertLifts(doc, q, Encode(k), x, VObject(Get(Sem(doc), q).value.fields[k := Sem(x)]), cs, ks);
    AddIs(doc, PathText(q), k, x, cs);
  }

  lemma AppendApplies(doc: Json, q: seq<Step>, x: Json, cs: bool, ks: iset<string>)
    requires Reaches(doc, q, ks) && Get(Sem(doc), q).value.VArray?
    requires WellKeyed(x, ks) && MergePatch.Shallow(x)
    ensures Applied(ApplyPatch(doc, Compose("add", PathText(q), Some("-"), Some(x)), cs),
                    Set(Sem(doc), q, VArray(Get(Sem(doc), q).value.elems + [Sem(x)])), ks)
  {
    ParentFound(doc, q, cs, ks);
    InsertAtEnd(ParentOf(doc, q, cs), x, cs, ks);
    InsertLifts(doc, q, Encode("-"), x, VArray(Get(Sem(doc), q).value.elems + [Sem(x)]), cs, ks);
    AddIs(doc, PathText(q), "-", x, cs);
  }

  /** Inserting where a child was just detached puts the new value in its place. */
  lemma InsertDetached(parent: Json, v: Val, s: Step, x: Json, cs: bool, ks: iset<string>)
    requires WellKeyed(parent, ks) && Patchable(ks) && StepsFrom([s], ks) && WellKeyed(x, ks)
    requires Child(v, s).Some? && Sem(parent) == WithoutChild(v, s)
    ensures Applied(InsertChild(parent, DecodeToken(Token(s)), x, cs), WithChild(v, s, Sem(x)), ks)
  {
    assert [s][0] == s;
    SemKind(parent);
    hide Sem, WellKeyed, InsertChild, DecodeToken, Patchable, Applied, Without;
    match s
    case Index(i) =>
      InsertIndex(parent, i, x, cs, ks);
      ElemPutBack(v.elems, i, Sem(x));
    case Key(k) =>
      InsertKey(parent, k, x, cs, ks);
      PutBack(v.fields, k, Sem(x));
  }

  lemma ElemPutBack(e: seq<Val>, i: nat, w: Val)
    requires i < |e|
    ensures var rest := Without(e, i); i <= |rest| && rest[..i] + [w] + rest[i..] == e[i := w]
  {
  }

  lemma ReplaceBelow(doc: Json, q: seq<Step>, s: Step, x: Json, cs: bool, ks: iset<string>)
    requires Reaches(doc, q, ks) && Patchable(ks) && StepsFrom([s], ks) && WellKeyed(x, ks)
    requires Child(Get(Sem(doc), q).value, s).Some?
    ensures var path := PathText(q) + "/" + Token(s);
      var d := DetachPath(doc, path, cs);
      d.Some? && Applied(AddAtPath(d.value.1, path, x, cs), Set(Sem(doc), q, WithChild(Get(Sem(doc), q).value, s, Sem(x))), ks)
  {
    var path, parent := PathText(q) + "/" + Token(s), Get(Sem(doc), q).value;
    ParentFound(doc, q, cs, ks);
    DetachOne(ParentOf(doc, q, cs), s, ks);
    DetachLifts(doc, q, Token(s), cs, ks);
    var rest := DetachPath(doc, path, cs).value.1;
    SetLaws(Sem(doc), q, WithoutChild(parent, s));
    ParentFound(rest, q, cs, ks);
    InsertDetached(ParentOf(rest, q, cs), parent, s, x, cs, ks);
    InsertLifts(rest, q, Token(s), x, WithChild(parent, s, Sem(x)), cs, ks);
  }

  lemma ReplaceApplies(doc: Json, steps: seq<Step>, x: Json, cs: bool, ks: iset<string>)
    requires Reaches(doc, steps, ks) && Patchable(ks)
    requires WellKeyed(x, ks) && MergePatch.Shallow(x)
    ensures Applied(ApplyPatch(doc, Compose("replace", PathText(steps), None, Some(x)), cs), Set(Sem(doc), steps, Sem(x)), ks)
  {
    if steps == [] {
      ReplaceIs(doc, "", x, cs);
    } else {
      var q, s := steps[..|steps|-1], steps[|steps|-1];
      assert steps == q + [s];
      ReplaceChildApplies(doc, q, s, x, cs, ks);
    }
  }

  lemma ReplaceChildApplies(doc: Json, q: seq<Step>, s: Step, x: Json, cs: bool, ks: iset<string>)
    requires Reaches(doc, q + [s], ks) && Patchable(ks)
    requires WellKeyed(x, ks) && MergePatch.Shallow(x)
    ensures Applied(ApplyPatch(doc, Compose("replace", PathText(q + [s]), None, Some(x)), cs),
                    Set(Sem(doc), q + [s], Sem(x)), ks)
  {
    StepsFromParts(q, s, ks);
    assert StepsFrom([s], ks);
    GetPrefix(Sem(doc), q, s);
    PathTextAppend(q, s);
    GetBelow(Sem(doc), q, s);
    ReplaceBelow(doc, q, s, x, cs, ks);
    ReplaceIs(doc, PathText(q + [s]), x, cs);
  }

  lemma {:induction false} GetPrefix(v: Val, q: seq<Step>, s: Step)
    requires Get(v, q + [s]).Some?
    ensures Get(v, q).Some? && Child(Get(v, q).value, s).Some?
    decreases q
  {
    if q == [] {
      assert [] + [s] == [s] && [s][1..] == [];
    } else {
      assert (q + [s])[1..] == q[1..] + [s];
      GetPrefix(Child(v, q[0]).value, q[1..], s);
    }
  }

  // ----- the values that patches copy

  /** All values of `to` that a patch has to hold, because `from` has nothing of their kind in their place, can be
      copied.  The order of members does not matter. */
  predicate Copyable(from: Json, to: Json)
  {
    match (from, to)
    case (Array(xs), Array(ys)) =>
      forall i | 0 <= i < |ys| :: if i < |xs| then Copyable(xs[i], ys[i]) else MergePatch.Shallow(ys[i])
    case (Object(ms), Object(ns)) =>
      forall j | 0 <= j < |ns| ::
        && (ns[j].key !in Keys(ms) ==> MergePatch.Shallow(ns[j].value))
        && forall i | 0 <= i < |ms| :: ms[i].key == ns[j].key ==> Copyable(ms[i].value, ns[j].value)
    case _ => SameScalar(from, to) || MergePatch.Shallow(to)
  }

  /** A target within the limit is always copyable. */
  lemma {:induction false} ShallowCopyable(from: Json, to: Json)
    requires MergePatch.Shallow(to)
    ensures Copyable(from, to)
  {
    if from.Array? && to.Array? {
      forall i | 0 <= i < |to.items| ensures MergePatch.Shallow(to.items[i]) && (i < |from.items| ==> Copyable(from.items[i], to.items[i])) {
        HeightOfItem(to.items, i);
        if i < |from.items| { ShallowCopyable(from.items[i], to.items[i]); }
      }
    }
    if from.Object? && to.Object? {
      forall j | 0 <= j < |to.members| ensures MergePatch.Shallow(to.members[j].value) {
        HeightOfMember(to.members, to.members[j]);
      }
      forall i, j | 0 <= i < |from.members| && 0 <= j < |to.members| ensures Copyable(from.members[i].value, to.members[j].value) {
        ShallowCopyable(from.members[i].value, to.members[j].value);
      }
    }
  }

  lemma CopyableItems(xs: seq<Json>, ys: seq<Json>)
    ensures xs != [] && ys != [] ==>
      (Copyable(Array(xs), Array(ys)) <==> Copyable(xs[0], ys[0]) && Copyable(Array(xs[1..]), Array(ys[1..])))
    ensures xs == [] && ys != [] ==>
      (Copyable(Array(xs), Array(ys)) <==> MergePatch.Shallow(ys[0]) && Copyable(Array(xs), Array(ys[1..])))
    ensures ys == [] ==> Copyable(Array(xs), Array(ys))
  {
    hide MergePatch.Shallow;
    if xs != [] && ys != [] && Copyable(xs[0], ys[0]) && Copyable(Array(xs[1..]), Array(ys[1..])) {
      forall i | 0 <= i < |ys| ensures if i < |xs| then Copyable(xs[i], ys[i]) else MergePatch.Shallow(ys[i]) {
        if i > 0 { assert ys[i] == ys[1..][i-1] && (i < |xs| ==> xs[i] == xs[1..][i-1]); }
      }
    }
    if xs == [] && ys != [] && MergePatch.Shallow(ys[0]) && Copyable(Array(xs), Array(ys[1..])) {
      forall i | 0 <= i < |ys| ensures MergePatch.Shallow(ys[i]) {
        if i > 0 { assert ys[i] == ys[1..][i-1]; }
      }
    }
  }

  lemma KeysCons(ms: seq<Member>)
    requires ms != []
    ensures Keys(ms) == {ms[0].key} + Keys(ms[1..])
  {
    forall k | k in Keys(ms) && k != ms[0].key ensures k in Keys(ms[1..]) {
      assert ms[1..][IndexOf(ms, k) - 1].key == k;
    }
    forall k | k in Keys(ms[1..]) ensures k in Keys(ms) {
      assert ms[IndexOf(ms[1..], k) + 1].key == k;
    }
  }

  /** A member that only `from` has. */
  lemma CopyableRemoved(fs: seq<Member>, ts: seq<Member>)
    requires fs != [] && fs[0].key !in Keys(ts)
    ensures Copyable(Object(fs), Object(ts)) <==> Copyable(Object(fs[1..]), Object(ts))
  {
    hide MergePatch.Shallow;
    var rest := fs[1..];
    KeysCons(fs);
    forall j | 0 <= j < |ts| ensures ts[j].key in Keys(fs) <==> ts[j].key in Keys(rest) {
      assert ts[j].key in Keys(ts);
    }
    if Copyable(Object(rest), Object(ts)) {
      forall i, j | 0 <= i < |fs| && 0 <= j < |ts| && fs[i].key == ts[j].key ensures Copyable(fs[i].value, ts[j].value) {
        assert ts[j].key in Keys(ts);
        assert fs[i] == rest[i-1];
      }
    }
  }

  /** A member that only `to` has. */
  lemma CopyableAdded(fs: seq<Member>, ts: seq<Member>)
    requires ts != [] && ts[0].key !in Keys(fs)
    ensures Copyable(Object(fs), Object(ts)) <==> MergePatch.Shallow(ts[0].value) && Copyable(Object(fs), Object(ts[1..]))
  {
    hide MergePatch.Shallow;
    CopyableFirst(fs, ts);
  }

  /** A member that both have. */
  lemma CopyableCommon(fs: seq<Member>, ts: seq<Member>)
    requires fs != [] && ts != [] && fs[0].key == ts[0].key && DistinctKeys(fs) && DistinctKeys(ts)
    ensures Copyable(Object(fs), Object(ts)) <==>
      Copyable(fs[0].value, ts[0].value) && Copyable(Object(fs[1..]), Object(ts[1..]))
  {
    CopyableFirst(fs, ts);
    CopyableRemoved(fs, ts[1..]);
    hide MergePatch.Shallow;
  }

  lemma CopyableFirst(fs: seq<Member>, ts: seq<Member>)
    requires ts != []
    ensures Copyable(Object(fs), Object(ts)) <==>
      && Copyable(Object(fs), Object(ts[1..]))
      && (ts[0].key !in Keys(fs) ==> MergePatch.Shallow(ts[0].value))
      && forall i | 0 <= i < |fs| :: fs[i].key == ts[0].key ==> Copyable(fs[i].value, ts[0].value)
  {
    hide MergePatch.Shallow, Keys;
    var rest := ts[1..];
    forall j | 1 <= j < |ts| ensures ts[j] == rest[j-1] {}
  }

  // ----- running a whole generated patch

  lemma {:induction false} ApplyAllAppend(doc: Json, a: seq<Json>, b: seq<Json>, cs: bool)
    ensures ApplyAll(doc, a + b, cs) ==
      (var r := ApplyAll(doc, a, cs); if r.0 != 0 then r else ApplyAll(r.1, b, cs))
    decreases |a|
  {
    if a == [] {
      assert a + b == b;
    } else {
      assert (a + b)[1..] == a[1..] + b;
      ApplyAllAppend(ApplyPatch(doc, a[0], cs).1, a[1..], b, cs);
    }
  }

  lemma ApplyOneThen(doc: Json, p: Json, b: seq<Json>, cs: bool)
    requires ApplyPatch(doc, p, cs).0 == 0
    ensures ApplyAll(doc, [p] + b, cs) == ApplyAll(ApplyPatch(doc, p, cs).1, b, cs)
    ensures ApplyAll(doc, [p], cs) == (0, ApplyPatch(doc, p, cs).1)
  {
    assert ([p] + b)[1..] == b;
    assert [p][1..] == [];
    hide Apply;
    assert Run(ApplyPatch(doc, p, cs).1, [], cs, Plain(cs)) == (0, ApplyPatch(doc, p, cs).1);
  }

  /** What is known of a document after its part at `steps` was set to `v`. */
  lemma AfterSet(doc: Json, steps: seq<Step>, v: Val, next: Json, ks: iset<string>)
    requires Reaches(doc, steps, ks) && WellKeyed(next, ks) && Sem(next) == Set(Sem(doc), steps, v)
    ensures Reaches(next, steps, ks) && Get(Sem(next), steps) == Some(v)
    ensures forall x :: Set(Sem(next), steps, x) == Set(Sem(doc), steps, x)
  {
    SetLaws(Sem(doc), steps, v);
  }

  function Elems(xs: seq<Json>): seq<Val> {
    Sem(Array(xs)).elems
  }

  /** The two modes: patches are generated in mode `cg` and applied in mode `ca`. */
  ghost predicate Ready(doc: Json, steps: seq<Step>, v: Val, ks: iset<string>) {
    Reaches(doc, steps, ks) && Patchable(ks) && Get(Sem(doc), steps) == Some(v)
  }

  ghost predicate Input(from: Json, to: Json, ks: iset<string>) {
    WellKeyed(from, ks) && WellKeyed(to, ks) && Addressable(from) && Copyable(from, to)
  }

  lemma {:induction false} PatchesApply(doc: Json, steps: seq<Step>, from: Json, to: Json, cg: bool, ca: bool, ks: iset<string>)
    requires Ready(doc, steps, Sem(from), ks) && Input(from, to, ks)
    ensures Applied(ApplyAll(doc, Patches(PathText(steps), from, to, cg), ca), Set(Sem(doc), steps, Sem(to)), ks)
    decreases Height(from), 1, 0
  {
    hide Get, Set, PathText, Patchable, WellKeyed, Compose, ApplyPatch, HeightOfItems, FoldInjective, StepsFrom;
    match (from, to)
    case (Array(xs), Array(ys)) =>
      assert [] + Elems(xs) == Elems(xs) && [] + Elems(ys) == Elems(ys);
      ItemsApply(doc, steps, [], xs, ys, cg, ca, ks);
    case (Object(ms), Object(ns)) =>
      ObjectsApply(doc, steps, ms, ns, cg, ca, ks);
    case _ =>
      if SameScalar(from, to) {
        SetLaws(Sem(doc), steps, Sem(to));
      } else {
        ReplaceApplies(doc, steps, to, ca, ks);
        ApplyOneThen(doc, Compose("replace", PathText(steps), None, Some(to)), [], ca);
      }
  }

  lemma ElemsCons(xs: seq<Json>)
    ensures |Elems(xs)| == |xs|
    ensures xs != [] ==> Elems(xs) == [Sem(xs[0])] + Elems(xs[1..])
  {
  }

  lemma InputTail(xs: seq<Json>, ys: seq<Json>, ks: iset<string>)
    requires Input(Array(xs), Array(ys), ks)
    ensures xs != [] ==> HeightOfItems(xs[1..]) <= HeightOfItems(xs)
    ensures xs != [] && ys != [] ==> Input(xs[0], ys[0], ks) && Input(Array(xs[1..]), Array(ys[1..]), ks)
    ensures xs != [] && ys == [] ==> Input(Array(xs[1..]), Array(ys), ks)
    ensures xs == [] && ys != [] ==> WellKeyed(ys[0], ks) && MergePatch.Shallow(ys[0]) && Input(Array(xs), Array(ys[1..]), ks)
    ensures xs != [] ==> Height(xs[0]) < HeightOfItems(xs)
  {
    CopyableItems(xs, ys);
    if xs != [] {
      CopyableItems(xs[1..], ys);
      HeightOfItem(xs, 0);
    }
    hide Copyable, MergePatch.Shallow;
  }

  /** The next document after one step of the walk. */
  ghost predicate Stepped(mid: Json, doc: Json, steps: seq<Step>, v: Val, ks: iset<string>) {
    && Ready(mid, steps, v, ks)
    && Get(Sem(doc), steps).Some?
    && forall x :: Set(Sem(mid), steps, x) == Set(Sem(doc), steps, x)
  }

  /** One step of the walk, then the others. */
  lemma StepThen(doc: Json, mid: Json, steps: seq<Step>, v: Val, target: Val, ops: seq<Json>, rest: seq<Json>,
                 ca: bool, ks: iset<string>)
    requires ApplyAll(doc, ops, ca) == (0, mid) && Stepped(mid, doc, steps, v, ks)
    requires Ready(mid, steps, v, ks) ==> Applied(ApplyAll(mid, rest, ca), Set(Sem(mid), steps, target), ks)
    ensures Applied(ApplyAll(doc, ops + rest, ca), Set(Sem(doc), steps, target), ks)
  {
    hide ApplyAll, Applied, Set, Sem, Get, Ready;
    ApplyAllAppend(doc, ops, rest, ca);
  }

  lemma {:induction false} ItemsApply(doc: Json, steps: seq<Step>, done: seq<Val>, xs: seq<Json>, ys: seq<Json>,
                                      cg: bool, ca: bool, ks: iset<string>)
    requires Ready(doc, steps, VArray(done + Elems(xs)), ks)
    requires Input(Array(xs), Array(ys), ks) && (xs != [] ==> |done| + |xs| <= ULONG_RANGE)
    ensures Applied(ApplyAll(doc, CreateForItems(PathText(steps), xs, ys, |done|, cg), ca),
                    Set(Sem(doc), steps, VArray(done + Elems(ys))), ks)
    decreases HeightOfItems(xs), 0, |xs| + |ys|
  {
    hide Sem, Elems, Get, Set, Patches, Input, Applied, ApplyAll, Compose, PathText, Decimal, HeightOfItems, Ready;
    InputTail(xs, ys, ks);
    ElemsCons(ys);
    var path, n, target := PathText(steps), |done|, VArray(done + Elems(ys));
    if ys != [] { Associative(done, [Sem(ys[0])], Elems(ys[1..])); }
    if xs != [] && ys != [] {
      var mid := ChangedItem(doc, steps, done, xs, ys, cg, ca, ks);
      var next := done + [Sem(ys[0])];
      SteppedReady(mid, doc, steps, VArray(next + Elems(xs[1..])), ks);
      ItemsApply(mid, steps, next, xs[1..], ys[1..], cg, ca, ks);
      StepThen(doc, mid, steps, VArray(next + Elems(xs[1..])), target, Patches(path + "/" + Decimal(n), xs[0], ys[0], cg),
               CreateForItems(path, xs[1..], ys[1..], n + 1, cg), ca, ks);
    } else if xs != [] {
      var mid := RemovedItem(doc, steps, done, xs, ca, ks);
      SteppedReady(mid, doc, steps, VArray(done + Elems(xs[1..])), ks);
      ItemsApply(mid, steps, done, xs[1..], ys, cg, ca, ks);
      StepThen(doc, mid, steps, VArray(done + Elems(xs[1..])), target, [Compose("remove", path, Some(Decimal(n)), None)],
               CreateForItems(path, xs[1..], ys, n, cg), ca, ks);
    } else if ys != [] {
      var mid := AppendedItem(doc, steps, done, ys[0], ca, ks);
      var next := done + [Sem(ys[0])];
      SteppedReady(mid, doc, steps, VArray(next + Elems([])), ks);
      ItemsApply(mid, steps, next, xs, ys[1..], cg, ca, ks);
      StepThen(doc, mid, steps, VArray(next + Elems([])), target, [Compose("add", path, Some("-"), Some(ys[0]))],
               CreateForItems(path, xs, ys[1..], n + 1, cg), ca, ks);
    } else {
      NothingLeft(doc, steps, VArray(done + Elems([])), ca, ks);
    }
  }

  lemma SteppedReady(mid: Json, doc: Json, steps: seq<Step>, v: Val, ks: iset<string>)
    requires Stepped(mid, doc, steps, v, ks)
    ensures Ready(mid, steps, v, ks)
  {
  }

  lemma NothingLeft(doc: Json, steps: seq<Step>, v: Val, ca: bool, ks: iset<string>)
    requires Ready(doc, steps, v, ks)
    ensures Applied(ApplyAll(doc, [], ca), Set(Sem(doc), steps, v), ks)
  {
    SetLaws(Sem(doc), steps, v);
  }

  lemma {:induction false} ChangedItem(doc: Json, steps: seq<Step>, done: seq<Val>, xs: seq<Json>, ys: seq<Json>,
                                       cg: bool, ca: bool, ks: iset<string>) returns (mid: Json)
    requires Ready(doc, steps, VArray(done + Elems(xs)), ks) && xs != [] && ys != []
    requires Input(Array(xs), Array(ys), ks) && |done| + |xs| <= ULONG_RANGE
    ensures ApplyAll(doc, Patches(PathText(steps) + "/" + Decimal(|done|), xs[0], ys[0], cg), ca) == (0, mid)
    ensures Stepped(mid, doc, steps, VArray(done + [Sem(ys[0])] + Elems(xs[1..])), ks)
    decreases Height(xs[0]), 2, 0
  {
    hide Sem, Elems, Get, Set, Patches, ApplyAll, Child, WithChild, Input, Patchable, PathText, Decimal;
    var s := Index(|done|);
    ElemsCons(xs);
    InputTail(xs, ys, ks);
    ElemChanged(done, Elems(xs), Sem(ys[0]));
    BelowReady(doc, steps, s, VArray(done + Elems(xs)), ks);
    PatchesApply(doc, steps + [s], xs[0], ys[0], cg, ca, ks);
    mid := ApplyAll(doc, Patches(PathText(steps) + "/" + Decimal(|done|), xs[0], ys[0], cg), ca).1;
    var v := VArray(done + [Sem(ys[0])] + Elems(xs[1..]));
    AfterSet(doc, steps, v, mid, ks);
  }

  lemma ElemChanged(done: seq<Val>, e: seq<Val>, w: Val)
    requires e != []
    ensures Child(VArray(done + e), Index(|done|)) == Some(e[0])
    ensures WithChild(VArray(done + e), Index(|done|), w) == VArray(done + [w] + e[1..])
  {
  }

  /** Everything needed to work on one child of the part at `steps`. */
  lemma BelowReady(doc: Json, steps: seq<Step>, s: Step, v: Val, ks: iset<string>)
    requires Ready(doc, steps, v, ks) && Child(v, s).Some?
    requires (s.Key? ==> s.key in ks) && (s.Index? ==> s.index < ULONG_RANGE)
    ensures Ready(doc, steps + [s], Child(v, s).value, ks)
    ensures PathText(steps + [s]) == PathText(steps) + "/" + Token(s)
    ensures forall w :: Set(Sem(doc), steps + [s], w) == Set(Sem(doc), steps, WithChild(v, s, w))
  {
    hide Sem, Set, Child, WithChild;
    GetBelow(Sem(doc), steps, s);
    PathTextAppend(steps, s);
  }

  lemma RemovedItem(doc: Json, steps: seq<Step>, done: seq<Val>, xs: seq<Json>, ca: bool, ks: iset<string>) returns (mid: Json)
    requires Ready(doc, steps, VArray(done + Elems(xs)), ks) && xs != [] && |done| + |xs| <= ULONG_RANGE
    ensures ApplyAll(doc, [Compose("remove", PathText(steps), Some(Decimal(|done|)), None)], ca) == (0, mid)
    ensures Stepped(mid, doc, steps, VArray(done + Elems(xs[1..])), ks)
  {
    hide Sem, Elems, Get, Set, ApplyPatch, ApplyAll, Patchable, Compose, Child, WithoutChild, WellKeyed, FoldInjective, PathText,
      Encode, Decimal;
    ElemsCons(xs);
    IndexTokenDecodes(|done|);
    ElemRemoved(done, Elems(xs));
    assert [Index(|done|)][0] == Index(|done|);
    RemoveApplies(doc, steps, Index(|done|), Decimal(|done|), ca, ks);
    mid := ApplyPatch(doc, Compose("remove", PathText(steps), Some(Decimal(|done|)), None), ca).1;
    ApplyOneThen(doc, Compose("remove", PathText(steps), Some(Decimal(|done|)), None), [], ca);
    AfterSet(doc, steps, VArray(done + Elems(xs[1..])), mid, ks);
  }

  lemma ElemRemoved(done: seq<Val>, e: seq<Val>)
    requires e != []
    ensures Child(VArray(done + e), Index(|done|)).Some?
    ensures WithoutChild(VArray(done + e), Index(|done|)) == VArray(done + e[1..])
  {
  }

  lemma AppendedItem(doc: Json, steps: seq<Step>, done: seq<Val>, y: Json, ca: bool, ks: iset<string>) returns (mid: Json)
    requires Ready(doc, steps, VArray(done + Elems([])), ks)
    requires WellKeyed(y, ks) && MergePatch.Shallow(y)
    ensures ApplyAll(doc, [Compose("add", PathText(steps), Some("-"), Some(y))], ca) == (0, mid)
    ensures Stepped(mid, doc, steps, VArray(done + [Sem(y)] + Elems([])), ks)
  {
    hide Sem, Elems, Get, Set, ApplyPatch, Patchable, ApplyAll, Compose, WellKeyed, FoldInjective, PathText, MergePatch.Shallow;
    ElemsCons([]);
    AppendApplies(doc, steps, y, ca, ks);
    mid := ApplyPatch(doc, Compose("add", PathText(steps), Some("-"), Some(y)), ca).1;
    ApplyOneThen(doc, Compose("add", PathText(steps), Some("-"), Some(y)), [], ca);
    assert done + Elems([]) + [Sem(y)] == done + [Sem(y)] + Elems([]);
    AfterSet(doc, steps, VArray(done + [Sem(y)] + Elems([])), mid, ks);
  }

  // ----- objects

  lemma CopyableSorted(ms: seq<Member>, ns: seq<Member>, cs: bool)
    ensures Copyable(Object(SortMembers(ms, cs)), Object(SortMembers(ns, cs))) <==> Copyable(Object(ms), Object(ns))
  {
    CopyableReordered(ms, ns, SortMembers(ms, cs), SortMembers(ns, cs));
    CopyableReordered(SortMembers(ms, cs), SortMembers(ns, cs), ms, ns);
  }

  lemma CopyableReordered(ms: seq<Member>, ns: seq<Member>, fs: seq<Member>, ts: seq<Member>)
    requires multiset(fs) == multiset(ms) && multiset(ts) == multiset(ns)
    ensures Copyable(Object(ms), Object(ns)) ==> Copyable(Object(fs), Object(ts))
  {
    hide MergePatch.Shallow;
    SameKeySet(fs, ms);
    forall i | 0 <= i < |fs| ensures fs[i] in ms { assert fs[i] in multiset(fs); }
    forall j | 0 <= j < |ts| ensures ts[j] in ns { assert ts[j] in multiset(ts); }
  }

  lemma SameKeySet(fs: seq<Member>, ms: seq<Member>)
    requires multiset(fs) == multiset(ms)
    ensures Keys(fs) == Keys(ms)
  {
    forall i | 0 <= i < |fs| ensures fs[i].key in Keys(ms) {
      assert fs[i] in multiset(fs);
      assert fs[i] in ms;
    }
    forall i | 0 <= i < |ms| ensures ms[i].key in Keys(fs) {
      assert ms[i] in multiset(ms);
      assert ms[i] in fs;
    }
  }

  /** What the three steps of the walk do to the bindings of the object. */
  lemma StepLaws(base: map<string, Val>, f: map<string, Val>, k: string, v: Val)
    requires k !in base
    ensures k in f ==> (base + f) - {k} == base + (f - {k})
    ensures (base + f)[k := v] == base[k := v] + (f - {k})
    ensures k !in f ==> f - {k} == f
    ensures base[k := v] + (f - {k}) == base + f[k := v]
  {
  }

  /** Two sorted member lists that the walk still has to handle; `base` holds the finished members. */
  ghost predicate Walking(base: map<string, Val>, fs: seq<Member>, ts: seq<Member>, cg: bool, ks: iset<string>) {
    && WellKeyed(Object(fs), ks) && WellKeyed(Object(ts), ks)
    && Increasing(fs, cg) && Increasing(ts, cg)
    && (forall i | 0 <= i < |fs| :: fs[i].key !in base && Addressable(fs[i].value))
    && (forall i | 0 <= i < |ts| :: ts[i].key !in base)
    && Copyable(Object(fs), Object(ts))
  }

  lemma ObjectsApply(doc: Json, steps: seq<Step>, ms: seq<Member>, ns: seq<Member>, cg: bool, ca: bool, ks: iset<string>)
    requires Ready(doc, steps, Sem(Object(ms)), ks) && Input(Object(ms), Object(ns), ks)
    ensures Applied(ApplyAll(doc, Patches(PathText(steps), Object(ms), Object(ns), cg), ca),
                    Set(Sem(doc), steps, Sem(Object(ns))), ks)
    decreases Height(Object(ms)), 0, |ms| + |ns| + 1
  {
    hide Sem, Fields, SortMembers, CreateForMembers, Applied;
    var fs, ts := SortMembers(ms, cg), SortMembers(ns, cg);
    WellKeyedSorted(ms, cg, ks);
    WellKeyedSorted(ns, cg, ks);
    HeightOfSorted(ms, cg);
    HeightOfSorted(ns, cg);
    SortedAddressable(ms, cg);
    CopyableSorted(ms, ns, cg);
    assert map[] + Fields(fs) == Fields(fs) && map[] + Fields(ts) == Fields(ts);
    SemIsFields(fs);
    SemIsFields(ts);
    SameLength(ms, cg);
    SameLength(ns, cg);
    MembersApply(doc, steps, map[], fs, ts, cg, ca, ks, Height(Object(ms)));
  }

  lemma SemIsFields(ms: seq<Member>)
    ensures Sem(Object(ms)) == VObject(Fields(ms))
  {
  }

  lemma SameLength(ms: seq<Member>, cs: bool)
    ensures |SortMembers(ms, cs)| == |ms|
  {
    assert |multiset(SortMembers(ms, cs))| == |multiset(ms)|;
  }

  lemma SortedAddressable(ms: seq<Member>, cs: bool)
    requires Addressable(Object(ms))
    ensures forall i | 0 <= i < |SortMembers(ms, cs)| :: Addressable(SortMembers(ms, cs)[i].value)
  {
    HeightOfSorted(ms, cs);
    var fs := SortMembers(ms, cs);
    forall i | 0 <= i < |fs| ensures Addressable(fs[i].value) {
      assert fs[i] in ms;
    }
  }

  lemma {:induction false} MembersApply(doc: Json, steps: seq<Step>, base: map<string, Val>, fs: seq<Member>, ts: seq<Member>,
                                        cg: bool, ca: bool, ks: iset<string>, bound: nat)
    requires Ready(doc, steps, VObject(base + Fields(fs)), ks) && Walking(base, fs, ts, cg, ks)
    requires forall m | m in fs :: Height(m.value) < bound
    ensures Applied(ApplyAll(doc, CreateForMembers(PathText(steps), fs, ts, cg, bound), ca),
                    Set(Sem(doc), steps, VObject(base + Fields(ts))), ks)
    decreases bound, 0, |fs| + |ts|
  {
    hide Sem, Fields, Get, Set, Patches, Applied, Walking, ApplyAll, ApplyPatch, Compose, SortKey, Less, Ready, FoldInjective,
      PathText, Encode, Stepped;
    WalkingHeads(base, fs, ts, cg, ks);
    var path, target := PathText(steps), VObject(base + Fields(ts));
    if fs == [] && ts == [] {
      NothingLeft(doc, steps, VObject(base + Fields([])), ca, ks);
    } else if ts == [] || (fs != [] && Less(SortKey(fs[0].key, cg), SortKey(ts[0].key, cg))) {
      var p, v := Compose("remove", path, Some(fs[0].key), None), VObject(base + Fields(fs[1..]));
      var mid := RemovedMember(doc, steps, base, fs, ts, cg, ca, ks);
      SteppedReady(mid, doc, steps, v, ks);
      MembersApply(mid, steps, base, fs[1..], ts, cg, ca, ks, bound);
      ApplyOneThen(doc, p, [], ca);
      StepThen(doc, mid, steps, v, target, [p], CreateForMembers(path, fs[1..], ts, cg, bound), ca, ks);
    } else if fs == [] || Less(SortKey(ts[0].key, cg), SortKey(fs[0].key, cg)) {
      var p := Compose("add", path, Some(ts[0].key), Some(ts[0].value));
      var base' := base[ts[0].key := Sem(ts[0].value)];
      var mid := AddedMember(doc, steps, base, fs, ts, cg, ca, ks);
      SteppedReady(mid, doc, steps, VObject(base' + Fields(fs)), ks);
      MembersApply(mid, steps, base', fs, ts[1..], cg, ca, ks, bound);
      MoveToBase(base, ts);
      ApplyOneThen(doc, p, [], ca);
      StepThen(doc, mid, steps, VObject(base' + Fields(fs)), target, [p], CreateForMembers(path, fs, ts[1..], cg, bound), ca, ks);
    } else {
      ReadyFolds(doc, steps, VObject(base + Fields(fs)), ks);
      SameKeys(fs[0].key, ts[0].key, cg, ks);
      var a := Patches(path + "/" + Encode(fs[0].key), fs[0].value, ts[0].value, cg);
      var base' := base[ts[0].key := Sem(ts[0].value)];
      var mid := ChangedMember(doc, steps, base, fs, ts, cg, ca, ks);
      SteppedReady(mid, doc, steps, VObject(base' + Fields(fs[1..])), ks);
      MembersApply(mid, steps, base', fs[1..], ts[1..], cg, ca, ks, bound);
      MoveToBase(base, ts);
      StepThen(doc, mid, steps, VObject(base' + Fields(fs[1..])), target, a,
               CreateForMembers(path, fs[1..], ts[1..], cg, bound), ca, ks);
    }
  }

  lemma ReadyFolds(doc: Json, steps: seq<Step>, v: Val, ks: iset<string>)
    requires Ready(doc, steps, v, ks)
    ensures FoldInjective(ks)
  {
  }

  lemma SameKeys(a: string, b: string, cs: bool, ks: iset<string>)
    requires a in ks && b in ks && FoldInjective(ks)
    requires !Less(SortKey(a, cs), SortKey(b, cs)) && !Less(SortKey(b, cs), SortKey(a, cs))
    ensures a == b
  {
    LessTotal(SortKey(a, cs), SortKey(b, cs));
  }

  /** A handled member of `ts` counts as finished. */
  lemma MoveToBase(base: map<string, Val>, ts: seq<Member>)
    requires DistinctKeys(ts) && ts != [] && ts[0].key !in base
    ensures base[ts[0].key := Sem(ts[0].value)] + Fields(ts[1..]) == base + Fields(ts)
  {
    hide Sem, Fields;
    FieldsTail(ts);
    StepLaws(base, Fields(ts[1..]), ts[0].key, Sem(ts[0].value));
  }

  lemma WalkingHeads(base: map<string, Val>, fs: seq<Member>, ts: seq<Member>, cg: bool, ks: iset<string>)
    requires Walking(base, fs, ts, cg, ks)
    ensures fs != [] ==> fs[0].key in ks && DistinctKeys(fs)
    ensures ts != [] ==> ts[0].key in ks && ts[0].key !in base && DistinctKeys(ts)
  {
  }

  lemma WalkingRemoved(base: map<string, Val>, fs: seq<Member>, ts: seq<Member>, cg: bool, ks: iset<string>)
    requires Walking(base, fs, ts, cg, ks) && fs != [] && fs[0].key !in Keys(ts)
    ensures Walking(base, fs[1..], ts, cg, ks)
  {
    CopyableRemoved(fs, ts);
    hide Copyable, MergePatch.Shallow;
  }

  lemma WalkingAdded(base: map<string, Val>, fs: seq<Member>, ts: seq<Member>, cg: bool, ks: iset<string>)
    requires Walking(base, fs, ts, cg, ks) && ts != [] && ts[0].key !in Keys(fs)
    ensures Walking(base, fs, ts[1..], cg, ks) && WellKeyed(ts[0].value, ks) && MergePatch.Shallow(ts[0].value)
  {
    CopyableAdded(fs, ts);
    hide Copyable, MergePatch.Shallow;
  }

  lemma WalkingCommon(base: map<string, Val>, fs: seq<Member>, ts: seq<Member>, cg: bool, ks: iset<string>)
    requires Walking(base, fs, ts, cg, ks) && fs != [] && ts != [] && fs[0].key == ts[0].key
    ensures Walking(base, fs[1..], ts[1..], cg, ks) && Input(fs[0].value, ts[0].value, ks)
  {
    CopyableCommon(fs, ts);
    hide Copyable, MergePatch.Shallow;
  }

  lemma WalkingBase(base: map<string, Val>, fs: seq<Member>, ts: seq<Member>, k: string, v: Val, cg: bool, ks: iset<string>)
    requires Walking(base, fs, ts, cg, ks) && k !in Keys(fs) && k !in Keys(ts)
    ensures Walking(base[k := v], fs, ts, cg, ks)
  {
    forall i | 0 <= i < |fs| ensures fs[i].key !in base[k := v] { assert fs[i].key in Keys(fs); }
    forall i | 0 <= i < |ts| ensures ts[i].key !in base[k := v] { assert ts[i].key in Keys(ts); }
  }

  lemma KeysAreFields(ms: seq<Member>)
    ensures Keys(ms) == Fields(ms).Keys
  {
  }

  lemma RemovedMember(doc: Json, steps: seq<Step>, base: map<string, Val>, fs: seq<Member>, ts: seq<Member>,
                      cg: bool, ca: bool, ks: iset<string>) returns (mid: Json)
    requires Ready(doc, steps, VObject(base + Fields(fs)), ks) && Walking(base, fs, ts, cg, ks) && fs != []
    requires ts == [] || Less(SortKey(fs[0].key, cg), SortKey(ts[0].key, cg))
    ensures ApplyPatch(doc, Compose("remove", PathText(steps), Some(fs[0].key), None), ca) == (0, mid)
    ensures Stepped(mid, doc, steps, VObject(base + Fields(fs[1..])), ks) && Walking(base, fs[1..], ts, cg, ks)
  {
    hide Sem, Fields, Get, Set, ApplyPatch, Patchable;
    var k := fs[0].key;
    SmallerIsAbsent(k, ts, cg);
    WalkingRemoved(base, fs, ts, cg, ks);
    FieldsTail(fs);
    assert [Key(k)][0] == Key(k);
    StepLaws(base, Fields(fs), k, VNull);
    RemoveApplies(doc, steps, Key(k), k, ca, ks);
    mid := ApplyPatch(doc, Compose("remove", PathText(steps), Some(k), None), ca).1;
    AfterSet(doc, steps, VObject(base + Fields(fs[1..])), mid, ks);
  }

  lemma AddedMember(doc: Json, steps: seq<Step>, base: map<string, Val>, fs: seq<Member>, ts: seq<Member>,
                    cg: bool, ca: bool, ks: iset<string>) returns (mid: Json)
    requires Ready(doc, steps, VObject(base + Fields(fs)), ks) && Walking(base, fs, ts, cg, ks) && ts != []
    requires fs == [] || Less(SortKey(ts[0].key, cg), SortKey(fs[0].key, cg))
    ensures ApplyPatch(doc, Compose("add", PathText(steps), Some(ts[0].key), Some(ts[0].value)), ca) == (0, mid)
    ensures var base' := base[ts[0].key := Sem(ts[0].value)];
      Stepped(mid, doc, steps, VObject(base' + Fields(fs)), ks) && Walking(base', fs, ts[1..], cg, ks)
  {
    hide Sem, Fields, Get, Set, ApplyPatch, Patchable;
    var k, x := ts[0].key, ts[0].value;
    SmallerIsAbsent(k, fs, cg);
    KeysAreFields(fs);
    StepLaws(base, Fields(fs), k, Sem(x));
    FieldsTail(ts);
    WalkingAdded(base, fs, ts, cg, ks);
    WalkingBase(base, fs, ts[1..], k, Sem(x), cg, ks);
    AddKeyApplies(doc, steps, k, x, ca, ks);
    mid := ApplyPatch(doc, Compose("add", PathText(steps), Some(k), Some(x)), ca).1;
    AfterSet(doc, steps, VObject(base[k := Sem(x)] + Fields(fs)), mid, ks);
  }

  lemma {:induction false} ChangedMember(doc: Json, steps: seq<Step>, base: map<string, Val>, fs: seq<Member>, ts: seq<Member>,
                                         cg: bool, ca: bool, ks: iset<string>) returns (mid: Json)
    requires Ready(doc, steps, VObject(base + Fields(fs)), ks) && Walking(base, fs, ts, cg, ks)
    requires fs != [] && ts != [] && fs[0].key == ts[0].key
    ensures ApplyAll(doc, Patches(PathText(steps) + "/" + Encode(fs[0].key), fs[0].value, ts[0].value, cg), ca) == (0, mid)
    ensures var base' := base[ts[0].key := Sem(ts[0].value)];
      Stepped(mid, doc, steps, VObject(base' + Fields(fs[1..])), ks) && Walking(base', fs[1..], ts[1..], cg, ks)
    decreases Height(fs[0].value), 2, 0
  {
    hide Sem, Fields, Get, Set, ApplyAll, Patches, Patchable, Copyable, Compose, WellKeyed, FoldInjective, PathText, Encode, Increasing;
    var k, x := fs[0].key, ts[0].value;
    WalkingHeads(base, fs, ts, cg, ks);
    StepLaws(base, Fields(fs), k, Sem(x));
    FieldsTail(fs);
    FieldsTail(ts);
    WalkingCommon(base, fs, ts, cg, ks);
    WalkingBase(base, fs[1..], ts[1..], k, Sem(x), cg, ks);
    BelowReady(doc, steps, Key(k), VObject(base + Fields(fs)), ks);
    PatchesApply(doc, steps + [Key(k)], fs[0].value, x, cg, ca, ks);
    mid := ApplyAll(doc, Patches(PathText(steps) + "/" + Encode(k), fs[0].value, x, cg), ca).1;
    AfterSet(doc, steps, VObject(base[k := Sem(x)] + Fields(fs[1..])), mid, ks);
  }

  /** The patches generated for `from` and `to` turn `copy` into `to` up to member order, with status 0. */
  ghost predicate Patched(copy: Json, from: Json, to: Json, cg: bool, ca: bool, ks: iset<string>) {
    var (status, result) := ApplyAll(copy, Patches("", from, to, cg), ca);
    status == 0 && WellKeyed(result, ks) && Sem(result) == Sem(to)
  }

  /** `cJSONUtils_ApplyPatches` of `cJSONUtils_GeneratePatches`: every generated patch applies with
      status 0 to any copy of `from` and gives `to` up to member order, in every mix of case modes, if and only if
      `cJSON_Duplicate` can copy the values that the patches need. */
  lemma PatchRoundTrip(from: Json, to: Json, copy: Json, cg: bool, ca: bool, ks: iset<string>)
    requires Pair(from, to, copy, ks) && Patchable(ks)
    ensures Patched(copy, from, to, cg, ca, ks) <==> Copyable(from, to)
  {
    if Copyable(from, to) {
      PatchesApply(copy, [], from, to, cg, ca, ks);
    } else {
      var p := DeepPatch("", from, to, cg, ca, ks);
      hide Copyable, Refused, Patches, Sem, WellKeyed;
      RefusedAmong(copy, Patches("", from, to, cg), p, ca);
    }
  }

  /** Two items over these keys, with array indices that fit the pointers, and a copy of the first. */
  ghost predicate Pair(from: Json, to: Json, copy: Json, ks: iset<string>) {
    && WellKeyed(from, ks) && WellKeyed(to, ks) && WellKeyed(copy, ks)
    && Addressable(from) && Sem(copy) == Sem(from)
  }

  // ----- no patch for equal values

  /** No patch is generated if and only if both items mean the same. */
  lemma {:induction false} PatchesEmpty(path: string, from: Json, to: Json, cs: bool, ks: iset<string>)
    requires WellKeyed(from, ks) && WellKeyed(to, ks) && FoldInjective(ks)
    ensures Patches(path, from, to, cs) == [] <==> Sem(from) == Sem(to)
    decreases Height(from), 1, 0
  {
    if from.Array? && to.Array? {
      ElemsAre(from.items);
      ElemsAre(to.items);
      hide Sem, Elems, WellKeyed;
      ItemKeyed(from.items, ks);
      ItemKeyed(to.items, ks);
      ItemsEmpty(path, from.items, to.items, 0, cs, ks);
    } else if from.Object? && to.Object? {
      hide Sem, WellKeyed, Increasing, SameInOrder, Separates, CreateForMembers, SortMembers;
      var fs, ts := SortMembers(from.members, cs), SortMembers(to.members, cs);
      assert Separates(cs, ks) by { BothModes(cs, ks); }
      WellKeyedSorted(from.members, cs, ks);
      WellKeyedSorted(to.members, cs, ks);
      HeightOfSorted(from.members, cs);
      MembersEmpty(path, fs, ts, cs, ks, Height(from));
      IncreasingDistinct(fs, cs);
      if Sem(from) == Sem(to) { SameObjectInOrder(fs, ts, cs); }
      if SameInOrder(fs, ts) { InOrderSameObject(fs, ts); }
    } else {
      hide Compose;
    }
  }

  lemma BothModes(cs: bool, ks: iset<string>)
    requires FoldInjective(ks)
    ensures Separates(cs, ks)
  {
  }

  lemma ElemsAre(xs: seq<Json>)
    ensures Sem(Array(xs)) == VArray(Elems(xs)) && |Elems(xs)| == |xs| && forall i | 0 <= i < |xs| :: Elems(xs)[i] == Sem(xs[i])
  {
  }

  lemma {:induction false} ItemsEmpty(path: string, xs: seq<Json>, ys: seq<Json>, index: nat, cs: bool, ks: iset<string>)
    requires (forall i | 0 <= i < |xs| :: WellKeyed(xs[i], ks)) && (forall i | 0 <= i < |ys| :: WellKeyed(ys[i], ks)) && FoldInjective(ks)
    ensures CreateForItems(path, xs, ys, index, cs) == [] <==> Elems(xs) == Elems(ys)
    decreases HeightOfItems(xs), 0, |xs| + |ys|
  {
    hide Sem, WellKeyed, Patches, Compose, Decimal, Elems;
    ElemsCons(xs);
    ElemsCons(ys);
    if xs != [] && ys != [] {
      HeightOfItem(xs, 0);
      PatchesEmpty(path + "/" + Decimal(index), xs[0], ys[0], cs, ks);
      assert forall i | 0 <= i < |xs| - 1 :: xs[1..][i] == xs[i+1];
      assert forall i | 0 <= i < |ys| - 1 :: ys[1..][i] == ys[i+1];
      ItemsEmpty(path, xs[1..], ys[1..], index + 1, cs, ks);
      ConsEqual(Sem(xs[0]), Elems(xs[1..]), Sem(ys[0]), Elems(ys[1..]));
    }
  }

  lemma ConsEqual<T>(x: T, a: seq<T>, y: T, b: seq<T>)
    ensures [x] + a == [y] + b <==> x == y && a == b
  {
    assert ([x] + a)[0] == x && ([y] + b)[0] == y && ([x] + a)[1..] == a && ([y] + b)[1..] == b;
  }

  lemma {:induction false} MembersEmpty(path: string, fs: seq<Member>, ts: seq<Member>, cs: bool, ks: iset<string>, bound: nat)
    requires WellKeyed(Object(fs), ks) && WellKeyed(Object(ts), ks) && FoldInjective(ks) && Increasing(fs, cs) && Increasing(ts, cs)
    requires forall m | m in fs :: Height(m.value) < bound
    ensures CreateForMembers(path, fs, ts, cs, bound) == [] <==> SameInOrder(fs, ts)
    decreases bound, 0, |fs| + |ts|
  {
    hide Sem, WellKeyed, Patches, Compose, Less, SortKey, Encode, FoldInjective, SameInOrder, Height;
    OrderHeads(fs, ts);
    if fs != [] && ts != [] {
      WellKeyedTail(fs, ks);
      WellKeyedTail(ts, ks);
      LessAsymmetricOrEqual(SortKey(fs[0].key, cs), SortKey(ts[0].key, cs));
      LessAsymmetricOrEqual(SortKey(ts[0].key, cs), SortKey(fs[0].key, cs));
      if !Less(SortKey(fs[0].key, cs), SortKey(ts[0].key, cs)) && !Less(SortKey(ts[0].key, cs), SortKey(fs[0].key, cs)) {
        SameKeys(fs[0].key, ts[0].key, cs, ks);
        PatchesEmpty(path + "/" + Encode(fs[0].key), fs[0].value, ts[0].value, cs, ks);
        MembersEmpty(path, fs[1..], ts[1..], cs, ks, bound);
      }
    }
  }

  lemma OrderHeads(fs: seq<Member>, ts: seq<Member>)
    ensures fs == [] && ts == [] ==> SameInOrder(fs, ts)
    ensures (fs == []) != (ts == []) ==> !SameInOrder(fs, ts)
    ensures fs != [] && ts != [] ==> (SameInOrder(fs, ts) <==>
      fs[0].key == ts[0].key && Sem(fs[0].value) == Sem(ts[0].value) && SameInOrder(fs[1..], ts[1..]))
  {
    hide Sem;
    if fs != [] && ts != [] && SameInOrder(fs[1..], ts[1..]) {
      forall i | 1 <= i < |fs| ensures fs[i].key == ts[i].key && Sem(fs[i].value) == Sem(ts[i].value) {
        assert fs[i] == fs[1..][i-1] && ts[i] == ts[1..][i-1];
      }
    }
  }

  // ----- values that cannot be copied

  /** No document accepts this patch. */
  ghost predicate Refused(p: Json, cs: bool) {
    forall doc :: ApplyPatch(doc, p, cs).0 != 0
  }

  lemma {:induction false} RefusedAmong(doc: Json, patches: seq<Json>, p: Json, cs: bool)
    requires p in patches && Refused(p, cs)
    ensures ApplyAll(doc, patches, cs).0 != 0
    decreases |patches|
  {
    hide Apply;
    var first := ApplyPatch(doc, patches[0], cs);
    if p != patches[0] { RefusedAmong(first.1, patches[1..], p, cs); }
  }

  /** The copy is missing from the patch, which is therefore refused, even when the old value is already gone. */
  lemma DeepRefused(op: string, path: string, suffix: Option<string>, x: Json, cs: bool)
    requires (op == "add" || op == "replace") && !MergePatch.Shallow(x)
    ensures Refused(Compose(op, path, suffix, Some(x)), cs)
  {
    hide Compose, DetachPath, AddAtPath, DecodeOperation, GetItem, PointerText, Locate;
    ComposedMembers(op, path, suffix, Some(x), cs);
    OperationIs(op, path, suffix, Some(x), cs);
    MergePatch.DuplicateExact(x, 0);
  }

  /** Where a value cannot be copied, one of the patches is refused. */
  lemma {:induction false} DeepPatch(path: string, from: Json, to: Json, cg: bool, ca: bool, ks: iset<string>) returns (p: Json)
    requires WellKeyed(from, ks) && WellKeyed(to, ks) && FoldInjective(ks) && !Copyable(from, to)
    ensures p in Patches(path, from, to, cg) && Refused(p, ca)
    decreases Height(from), 1, 0
  {
    hide Compose, Refused, FoldInjective, MergePatch.Shallow;
    if from.Array? && to.Array? {
      p := DeepItem(path, from.items, to.items, 0, cg, ca, ks);
    } else if from.Object? && to.Object? {
      var fs, ts := SortMembers(from.members, cg), SortMembers(to.members, cg);
      WellKeyedSorted(from.members, cg, ks);
      WellKeyedSorted(to.members, cg, ks);
      HeightOfSorted(from.members, cg);
      CopyableSorted(from.members, to.members, cg);
      p := DeepMember(path, fs, ts, cg, ca, ks, Height(from));
    } else {
      p := Compose("replace", path, None, Some(to));
      DeepRefused("replace", path, None, to, ca);
    }
  }

  lemma {:induction false} DeepItem(path: string, xs: seq<Json>, ys: seq<Json>, index: nat, cg: bool, ca: bool, ks: iset<string>)
    returns (p: Json)
    requires WellKeyed(Array(xs), ks) && WellKeyed(Array(ys), ks) && FoldInjective(ks) && !Copyable(Array(xs), Array(ys))
    ensures p in CreateForItems(path, xs, ys, index, cg) && Refused(p, ca)
    decreases HeightOfItems(xs), 0, |xs| + |ys|
  {
    hide Compose, Refused, FoldInjective, MergePatch.Shallow, Copyable, Patches, Decimal;
    CopyableItems(xs, ys);
    if xs == [] {
      if MergePatch.Shallow(ys[0]) {
        p := DeepItem(path, xs, ys[1..], index + 1, cg, ca, ks);
      } else {
        p := Compose("add", path, Some("-"), Some(ys[0]));
        DeepRefused("add", path, Some("-"), ys[0], ca);
      }
    } else {
      HeightOfItem(xs, 0);
      if Copyable(xs[0], ys[0]) {
        p := DeepItem(path, xs[1..], ys[1..], index + 1, cg, ca, ks);
      } else {
        p := DeepPatch(path + "/" + Decimal(index), xs[0], ys[0], cg, ca, ks);
      }
    }
  }

  lemma {:induction false} DeepMember(path: string, fs: seq<Member>, ts: seq<Member>, cg: bool, ca: bool, ks: iset<string>, bound: nat)
    returns (p: Json)
    requires WellKeyed(Object(fs), ks) && WellKeyed(Object(ts), ks) && FoldInjective(ks) && Increasing(fs, cg) && Increasing(ts, cg)
    requires !Copyable(Object(fs), Object(ts)) && forall m | m in fs :: Height(m.value) < bound
    ensures p in CreateForMembers(path, fs, ts, cg, bound) && Refused(p, ca)
    decreases bound, 0, |fs| + |ts|
  {
    hide Compose, Refused, FoldInjective, MergePatch.Shallow, Patches, Encode, Less, SortKey, Copyable;
    NoMembersCopyable(fs, ts);
    if fs != [] && Less(SortKey(fs[0].key, cg), SortKey(ts[0].key, cg)) {
      SmallerIsAbsent(fs[0].key, ts, cg);
      CopyableRemoved(fs, ts);
      p := DeepMember(path, fs[1..], ts, cg, ca, ks, bound);
    } else if fs == [] || Less(SortKey(ts[0].key, cg), SortKey(fs[0].key, cg)) {
      SmallerIsAbsent(ts[0].key, fs, cg);
      CopyableAdded(fs, ts);
      if MergePatch.Shallow(ts[0].value) {
        p := DeepMember(path, fs, ts[1..], cg, ca, ks, bound);
      } else {
        p := Compose("add", path, Some(ts[0].key), Some(ts[0].value));
        DeepRefused("add", path, Some(ts[0].key), ts[0].value, ca);
      }
    } else {
      SameKeys(fs[0].key, ts[0].key, cg, ks);
      CopyableCommon(fs, ts);
      if Copyable(fs[0].value, ts[0].value) {
        p := DeepMember(path, fs[1..], ts[1..], cg, ca, ks, bound);
      } else {
        p := DeepPatch(path + "/" + Encode(fs[0].key), fs[0].value, ts[0].value, cg, ca, ks);
      }
    }
  }

  lemma NoMembersCopyable(fs: seq<Member>, ts: seq<Member>)
    ensures ts == [] ==> Copyable(Object(fs), Object(ts))
  {
  }

  // ----- exactly these keys

  ghost predicate AllPatched(cg: bool, ca: bool, ks: iset<string>) {
    forall from, to, copy | Pair(from, to, copy, ks) && Copyable(from, to) :: Patched(copy, from, to, cg, ca, ks)
  }

  /** In every mix of case modes all copyable pairs over `ks` make the round trip if and only if the keys of `ks` stay distinct when
      case is folded and all of them survive the in-place decoder. */
  lemma PatchExactly(cg: bool, ca: bool, ks: iset<string>)
    ensures AllPatched(cg, ca, ks) <==> Patchable(ks)
  {
    hide Pair, Patched, Copyable, Survives, Fold;
    if Patchable(ks) {
      forall from, to, copy | Pair(from, to, copy, ks) && Copyable(from, to) ensures Patched(copy, from, to, cg, ca, ks) {
        PatchRoundTrip(from, to, copy, cg, ca, ks);
      }
    } else if k :| k in ks && !Survives(k) {
      LostKey(k, cg, ca, ks);
    } else {
      var a, b :| a in ks && b in ks && Fold(a) == Fold(b) && a != b;
      LostTwin(a, b, cg, ca, ks);
    }
  }

  lemma LostKey(k: string, cg: bool, ca: bool, ks: iset<string>)
    requires k in ks && !Survives(k)
    ensures var from, to := Object([]), Object([Member(k, Null)]);
      Pair(from, to, from, ks) && Copyable(from, to) && !Patched(from, from, to, cg, ca, ks)
  {
    SmallPair([], Member(k, Null), ks);
    hide ApplyAll, Patches, Survives, Sem, Pair, Copyable;
    AddedKeyExact(k, cg, ca);
  }

  lemma LostTwin(a: string, b: string, cg: bool, ca: bool, ks: iset<string>)
    requires a in ks && b in ks && a != b && Fold(a) == Fold(b) && Survives(a) && Survives(b)
    ensures var from, to := Object([Member(a, Null), Member(b, Null)]), Object([Member(a, Null)]);
      Pair(from, to, from, ks) && Copyable(from, to) && !Patched(from, from, to, cg, ca, ks)
  {
    SmallPair([Member(a, Null), Member(b, Null)], Member(a, Null), ks);
    hide ApplyAll, Patches, Survives, Sem, Fold, Pair, Copyable;
    CaseTwinsFail(a, b, cg, ca);
  }

  lemma SmallPair(ms: seq<Member>, m: Member, ks: iset<string>)
    requires |ms| <= 2 && DistinctKeys(ms) && (forall x | x in ms :: x.key in ks && x.value == Null) && m.key in ks && m.value == Null
    ensures Pair(Object(ms), Object([m]), Object(ms), ks) && Copyable(Object(ms), Object([m]))
  {
  }

  // ----- why the keys are restricted

  lemma LocateRoot(doc: Json, t: string, cs: bool)
    requires '/' !in t
    ensures LastSlash("/" + t) == Some(0) && ("/" + t)[..0] == "" && ("/" + t)[1..] == t
    ensures Locate(doc, "", cs) == Some([]) && NodeAt(doc, []) == doc
  {
    LastSlashAt("", t);
    assert "" + "/" + t == "/" + t;
  }

  /** Adding one member: the patch gives `to` exactly for the keys that survive the in-place decoder. */
  lemma AddedKeyExact(k: string, cg: bool, ca: bool)
    ensures var to := Object([Member(k, Null)]);
      var (status, result) := ApplyAll(Object([]), Patches("", Object([]), to, cg), ca);
      status == 0 && (Sem(result) == Sem(to) <==> Survives(k))
  {
    hide Sem, Survives, DecodeToken, ApplyPatch, Compose, Patches;
    var p, k' := Compose("add", "", Some(k), Some(Null)), DecodeToken(Encode(k));
    OneAddition(k, cg);
    AddIs(Object([]), "", k, Null, ca);
    LocateRoot(Object([]), Encode(k), ca);
    assert "" + "/" + Encode(k) == "/" + Encode(k);
    assert [] + [Member(k', Null)] == [Member(k', Null)];
    ApplyOneThen(Object([]), p, [], ca);
    assert [p] + [] == [p];
    OneMember(k, k');
    DecodeExact(k);
  }

  lemma OneAddition(k: string, cg: bool)
    ensures Patches("", Object([]), Object([Member(k, Null)]), cg) == [Compose("add", "", Some(k), Some(Null))]
  {
    var ts := [Member(k, Null)];
    assert SortMembers(ts, cg) == ts && SortMembers([], cg) == [];
    assert CreateForMembers("", [], ts, cg, 0) == [Compose("add", "", Some(k), Some(Null))] + [];
  }

  lemma OneMember(k: string, k': string)
    ensures Sem(Object([Member(k', Null)])) == Sem(Object([Member(k, Null)])) <==> k' == k
  {
    var a, b := [Member(k', Null)], [Member(k, Null)];
    assert a[0].key == k' && b[0].key == k;
    assert Fields(a).Keys == {k'} && Fields(b).Keys == {k};
  }

  /** Two keys that differ only in case: the patch removes one of them by name, and the first one goes, whichever was
      meant, in every mix of case modes. */
  lemma CaseTwinsFail(a: string, b: string, cg: bool, ca: bool)
    requires a != b && Fold(a) == Fold(b) && Survives(a) && Survives(b)
    ensures var from, to := Object([Member(a, Null), Member(b, Null)]), Object([Member(a, Null)]);
      ApplyAll(from, Patches("", from, to, cg), ca) == (0, Object([Member(b, Null)])) && Sem(Object([Member(b, Null)])) != Sem(to)
  {
    hide ApplyPatch, Compose, Patches, Survives, Fold, Sem;
    var from, k := Object([Member(a, Null), Member(b, Null)]), if cg then b else a;
    var p := Compose("remove", "", Some(k), None);
    TwinPatches(a, b, cg);
    TwinRemoved(a, b, k, ca);
    ApplyOneThen(from, p, [], ca);
    OneMember(a, b);
  }

  lemma TwinRemoved(a: string, b: string, k: string, ca: bool)
    requires Fold(a) == Fold(b) == Fold(k) && Survives(k)
    ensures ApplyPatch(Object([Member(a, Null), Member(b, Null)]), Compose("remove", "", Some(k), None), ca)
         == (0, Object([Member(b, Null)]))
  {
    hide ApplyPatch, Compose, Survives, Encode, DecodeToken, Fold, FindMember, LastSlash, Locate, DetachChild, Without;
    var ms := [Member(a, Null), Member(b, Null)];
    RemoveIs(Object(ms), "", k, ca);
    LocateRoot(Object(ms), Encode(k), ca);
    assert "" + "/" + Encode(k) == "/" + Encode(k);
    DecodeExact(k);
    FirstDetached(a, b, k);
  }

  lemma FirstDetached(a: string, b: string, k: string)
    requires Fold(a) == Fold(k)
    ensures var ma, mb := Member(a, Null), Member(b, Null);
      DetachChild(Object([ma, mb]), k) == Some((Null, Object([mb])))
  {
    var ms := [Member(a, Null), Member(b, Null)];
    assert FindMember(ms, k, false) == Some(0) && Without(ms, 0) == [Member(b, Null)];
  }

  lemma TwinPatches(a: string, b: string, cg: bool)
    requires a != b && Fold(a) == Fold(b)
    ensures Patches("", Object([Member(a, Null), Member(b, Null)]), Object([Member(a, Null)]), cg)
         == [Compose("remove", "", Some(if cg then b else a), None)]
  {
    hide CreateForMembers, Compose, SortMembers;
    var ma, mb := Member(a, Null), Member(b, Null);
    SortedPair(ma, mb, cg);
    SortedOne(ma, cg);
    LessAsymmetricOrEqual(Fold(a), Fold(b));
    HeightOfMember([ma, mb], ma);
    if cg {
      TwinWalk(a, b, Height(Object([ma, mb])));
    } else {
      TwinWalkFolded(a, b, Height(Object([ma, mb])));
    }
  }

  lemma TwinWalkFolded(a: string, b: string, bound: nat)
    requires Fold(a) == Fold(b) && bound > 0
    ensures CreateForMembers("", [Member(b, Null), Member(a, Null)], [Member(a, Null)], false, bound)
         == [Compose("remove", "", Some(a), None)]
  {
    hide Compose, Encode;
    var ma, mb, p := Member(a, Null), Member(b, Null), [Compose("remove", "", Some(a), None)];
    LessAsymmetricOrEqual(Fold(a), Fold(b));
    hide Less, Fold;
    assert Patches("" + "/" + Encode(b), Null, Null, false) == [];
    assert [mb, ma][1..] == [ma] && [ma][1..] == [];
    assert CreateForMembers("", [], [], false, bound) == [];
    assert CreateForMembers("", [ma], [], false, bound) == p + [];
    assert CreateForMembers("", [mb, ma], [ma], false, bound) == [] + p;
  }

  lemma TwinWalk(a: string, b: string, bound: nat)
    requires a != b && bound > 0
    ensures var ma, mb := Member(a, Null), Member(b, Null);
      var fs := if Less(a, b) then [ma, mb] else [mb, ma];
      CreateForMembers("", fs, [ma], true, bound) == [Compose("remove", "", Some(b), None)]
  {
    hide Compose, Encode, Less;
    var ma, mb, p := Member(a, Null), Member(b, Null), [Compose("remove", "", Some(b), None)];
    LessTotal(a, b);
    LessAsymmetricOrEqual(a, a);
    if Less(a, b) { LessAsymmetric(a, b); }
    assert Patches("" + "/" + Encode(a), Null, Null, true) == [];
    assert [ma, mb][1..] == [mb] && [mb, ma][1..] == [ma] && [ma][1..] == [] && [mb][1..] == [];
    assert CreateForMembers("", [], [], true, bound) == [];
    assert CreateForMembers("", [mb], [], true, bound) == p + [];
    assert CreateForMembers("", [ma], [ma], true, bound) == [] + [];
    if Less(a, b) {
      assert CreateForMembers("", [ma, mb], [ma], true, bound) == [] + p;
    } else {
      assert CreateForMembers("", [mb, ma], [ma], true, bound) == p + [];
    }
  }
}
