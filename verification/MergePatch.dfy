/** JSON Merge Patch: applying (`merge_patch`) and generating (`generate_merge_patch`). */
module MergePatch {
  import opened CString
  import opened JsonTree
  import opened MergeSort
  import opened Compare

  const CIRCULAR_LIMIT := 10000

  /** What `cJSON_Duplicate` copies. */
  predicate Shallow(j: Json) { Height(j) <= CIRCULAR_LIMIT }

  /** `cJSON_Duplicate_rec`: a deep copy, refused below the circular limit. */
  function Duplicate(j: Json, depth: nat): Option<Json> {
    match j
    case Array(items) =>
      (match DuplicateItems(items, depth)
       case None => None
       case Some(copy) => Some(Array(copy)))
    case Object(ms) =>
      (match DuplicateMembers(ms, depth)
       case None => None
       case Some(copy) => Some(Object(copy)))
    case _ => Some(j)
  }

  function DuplicateItems(items: seq<Json>, depth: nat): Option<seq<Json>> {
    if items == [] then Some([])
    else if depth >= CIRCULAR_LIMIT then None
    else
      match (Duplicate(items[0], depth + 1), DuplicateItems(items[1..], depth))
      case (Some(head), Some(tail)) => Some([head] + tail)
      case _ => None
  }

  function DuplicateMembers(ms: seq<Member>, depth: nat): Option<seq<Member>> {
    if ms == [] then Some([])
    else if depth >= CIRCULAR_LIMIT then None
    else
      match (Duplicate(ms[0].value, depth + 1), DuplicateMembers(ms[1..], depth))
      case (Some(head), Some(tail)) => Some([Member(ms[0].key, head)] + tail)
      case _ => None
  }

  /** A copy is identical, and exists exactly when the item is not nested too deep. */
  lemma {:induction false} DuplicateExact(j: Json, depth: nat)
    ensures Duplicate(j, depth) ==
      if Height(j) == 0 || depth + Height(j) <= CIRCULAR_LIMIT then Some(j) else None
    decreases j, 1
  {
    match j
    case Array(items) => DuplicateItemsExact(items, depth);
    case Object(ms) => DuplicateMembersExact(ms, depth);
    case _ =>
  }

  lemma {:induction false} DuplicateItemsExact(items: seq<Json>, depth: nat)
    ensures DuplicateItems(items, depth) ==
      if items == [] || depth + HeightOfItems(items) <= CIRCULAR_LIMIT then Some(items) else None
    decreases items, 0
  {
    if items != [] {
      DuplicateExact(items[0], depth + 1);
      DuplicateItemsExact(items[1..], depth);
      assert items == [items[0]] + items[1..];
    }
  }

  lemma {:induction false} DuplicateMembersExact(ms: seq<Member>, depth: nat)
    ensures DuplicateMembers(ms, depth) ==
      if ms == [] || depth + HeightOfMembers(ms) <= CIRCULAR_LIMIT then Some(ms) else None
    decreases ms, 0
  {
    if ms != [] {
      DuplicateExact(ms[0].value, depth + 1);
      DuplicateMembersExact(ms[1..], depth);
      assert ms == [ms[0]] + ms[1..];
    }
  }

  /** `merge_patch`; `None` as the target is the NULL item, as the result a failed copy. */
  function Merge(target: Option<Json>, patch: Json, cs: bool): Option<Json>
    decreases patch, 1
  {
    if !patch.Object? then Duplicate(patch, 0)
    else
      var ms := if target.Some? && target.value.Object? then target.value.members else [];
      match MergeMembers(ms, patch.members, cs)
      case None => None
      case Some(r) => Some(Object(r))
  }

  function MergeMembers(ms: seq<Member>, patch: seq<Member>, cs: bool): Option<seq<Member>>
    decreases patch, 0
  {
    if patch == [] then Some(ms)
    else
      var f := FindMember(ms, patch[0].key, cs);
      var rest := if f.Some? then Without(ms, f.value) else ms;
      if patch[0].value.Null? then MergeMembers(rest, patch[1..], cs)
      else
        var replaceMe := if f.Some? then Some(ms[f.value].value) else None;
        match Merge(replaceMe, patch[0].value, cs)
        case None => None
        case Some(replacement) => MergeMembers(rest + [Member(patch[0].key, replacement)], patch[1..], cs)
  }

  /** `merge_patch` as the source runs it: a walk over the members of the patch. */
  method MergePatch(target: Option<Json>, patch: Json, cs: bool) returns (r: Option<Json>)
    ensures r == Merge(target, patch, cs)
    decreases patch
  {
    if !patch.Object? { return Duplicate(patch, 0); }
    var ms := if target.Some? && target.value.Object? then target.value.members else [];
    ghost var start := ms;
    var i := 0;
    while i < |patch.members|
      invariant i <= |patch.members|
      invariant MergeMembers(ms, patch.members[i..], cs) == MergeMembers(start, patch.members, cs)
    {
      var child := patch.members[i];
      assert patch.members[i..][0] == child && patch.members[i..][1..] == patch.members[i+1..];
      var f := FindMember(ms, child.key, cs);
      var rest := if f.Some? then Without(ms, f.value) else ms;
      if child.value.Null? {
        ms := rest;
      } else {
        var replaceMe := if f.Some? then Some(ms[f.value].value) else None;
        var replacement := MergePatch(replaceMe, child.value, cs);
        if replacement.None? { return None; }
        ms := rest + [Member(child.key, replacement.value)];
      }
      i := i + 1;
    }
    return Some(Object(ms));
  }

  /** `generate_merge_patch`; `None` is the NULL result "no patch". */
  function Generate(from: Json, to: Json, cs: bool): Option<Json>
    decreases Height(from), 1, 0
  {
    if !from.Object? || !to.Object? then Duplicate(to, 0)
    else
      HeightOfSorted(from.members, cs);
      var ms := GenerateMembers(SortMembers(from.members, cs), SortMembers(to.members, cs), cs, Height(from));
      if ms == [] then None else Some(Object(ms))
  }

  /** The sorted walk; inner patches are always generated case-insensitively. */
  function GenerateMembers(fs: seq<Member>, ts: seq<Member>, cs: bool, ghost bound: nat): seq<Member>
    requires forall m | m in fs :: Height(m.value) < bound
    decreases bound, 0, |fs| + |ts|
  {
    if fs == [] && ts == [] then []
    else if ts == [] || (fs != [] && Less(fs[0].key, ts[0].key)) then
      [Member(fs[0].key, Null)] + GenerateMembers(fs[1..], ts, cs, bound)
    else if fs == [] || Less(ts[0].key, fs[0].key) then
      AddItem(ts[0].key, Duplicate(ts[0].value, 0)) + GenerateMembers(fs, ts[1..], cs, bound)
    else
      AddItem(ts[0].key, ChildPatch(fs[0].value, ts[0].value, cs)) + GenerateMembers(fs[1..], ts[1..], cs, bound)
  }

  /** What is added for a member of both objects: nothing if the values are the same, otherwise a patch for them as the
      comparison has sorted them. */
  function ChildPatch(f: Json, t: Json, cs: bool): Option<Json>
    decreases Height(f), 2, 0
  {
    if CompareJson(f, t, cs) then None
    else
      WalkedHeight(f, t, cs);
      Generate(Walked(f, t, cs), Walked(t, f, cs), false)
  }

  /** `generate_merge_patch` as the source runs it. */
  method GenerateMergePatch(from: Json, to: Json, cs: bool) returns (r: Option<Json>)
    ensures r == Generate(from, to, cs)
    decreases Height(from), 1
  {
    if !from.Object? || !to.Object? { return Duplicate(to, 0); }
    HeightOfSorted(from.members, cs);
    var patch := GenerateWalk(SortMembers(from.members, cs), SortMembers(to.members, cs), cs, Height(from));
    r := if patch == [] then None else Some(Object(patch));
  }

  /** The walk over both sorted child lists. */
  method GenerateWalk(from: seq<Member>, to: seq<Member>, cs: bool, ghost bound: nat) returns (patch: seq<Member>)
    requires forall m | m in from :: Height(m.value) < bound
    ensures patch == GenerateMembers(from, to, cs, bound)
    decreases bound, 0, 1
  {
    hide GenerateMembers;
    var fs, ts := from, to;
    ghost var all := GenerateMembers(from, to, cs, bound);
    patch := [];
    while fs != [] || ts != []
      invariant forall m | m in fs :: Height(m.value) < bound
      invariant all == patch + GenerateMembers(fs, ts, cs, bound)
      decreases |fs| + |ts|
    {
      var added: seq<Member>;
      added, fs, ts := WalkStep(fs, ts, cs, bound);
      assert all == patch + added + GenerateMembers(fs, ts, cs, bound);
      patch := patch + added;
    }
    NothingToGenerate(cs, bound);
  }

  lemma NothingToGenerate(cs: bool, bound: nat)
    ensures GenerateMembers([], [], cs, bound) == []
  {
  }

  /** One turn of the walk: it passes the smaller key, or a key that both lists start with. */
  method WalkStep(fs: seq<Member>, ts: seq<Member>, cs: bool, ghost bound: nat)
    returns (added: seq<Member>, fs': seq<Member>, ts': seq<Member>)
    requires fs != [] || ts != []
    requires forall m | m in fs :: Height(m.value) < bound
    ensures |fs'| + |ts'| < |fs| + |ts| && forall m | m in fs' :: m in fs
    ensures GenerateMembers(fs, ts, cs, bound) == added + GenerateMembers(fs', ts', cs, bound)
    decreases bound, 0, 0
  {
    added, fs', ts' := [], fs, ts;
    if ts == [] || (fs != [] && Less(fs[0].key, ts[0].key)) {
      added, fs' := [Member(fs[0].key, Null)], fs[1..];
    } else if fs == [] || Less(ts[0].key, fs[0].key) {
      added, ts' := AddItem(ts[0].key, Duplicate(ts[0].value, 0)), ts[1..];
    } else {
      WalkedHeight(fs[0].value, ts[0].value, cs);
      var identical, f, t := CompareJsonWalk(fs[0].value, ts[0].value, cs);
      if !identical {
        var inner := GenerateMergePatch(f, t, false);
        added := AddItem(ts[0].key, inner);
      }
      fs', ts' := fs[1..], ts[1..];
    }
  }

  /** `cJSON_AddItemToObject` adds nothing when the item is NULL. */
  function AddItem(key: string, item: Option<Json>): seq<Member> {
    if item.Some? then [Member(key, item.value)] else []
  }

  // ----- the reference: section 2 of RFC 7396 on abstract values

  function FieldsOf(v: Val): map<string, Val> {
    if v.VObject? then v.fields else map[]
  }

  function Lookup(m: map<string, Val>, k: string): Val {
    if k in m then m[k] else VInvalid
  }

  function RfcMerge(target: Val, patch: Val): Val
    decreases patch
  {
    if !patch.VObject? then patch
    else
      var base, p := FieldsOf(target), patch.fields;
      VObject(map k | k in base.Keys + p.Keys && !(k in p && p[k] == VNull) ::
                if k in p then RfcMerge(Lookup(base, k), p[k]) else base[k])
  }

  /** Every copy that merging this patch makes stays within the circular limit. */
  predicate Fits(patch: Json) {
    match patch
    case Object(ms) => forall i | 0 <= i < |ms| :: Fits(ms[i].value)
    case _ => Shallow(patch)
  }

  ghost predicate Keyed(j: Option<Json>, ks: iset<string>) {
    j.Some? ==> WellKeyed(j.value, ks)
  }

  function SemOf(j: Option<Json>): Val {
    if j.Some? then Sem(j.value) else VInvalid
  }

  /** `merge_patch` computes the merge of RFC 7396, whatever the member order. */
  lemma {:induction false} MergeIsRfc(target: Option<Json>, patch: Json, cs: bool, ks: iset<string>)
    requires Keyed(target, ks) && WellKeyed(patch, ks) && Separates(cs, ks)
    ensures Merge(target, patch, cs).Some? <==> Fits(patch)
    ensures Fits(patch) ==> Keyed(Merge(target, patch, cs), ks)
    ensures Fits(patch) ==> SemOf(Merge(target, patch, cs)) == RfcMerge(SemOf(target), Sem(patch))
    decreases patch, 1
  {
    if patch.Object? {
      var ms := if target.Some? && target.value.Object? then target.value.members else [];
      assert FieldsOf(SemOf(target)) == Fields(ms);
      MergeMembersIsRfc(ms, patch.members, cs, ks);
      RfcMergeBase(SemOf(target), Sem(Object(ms)), Sem(patch));
    } else {
      DuplicateExact(patch, 0);
    }
  }

  lemma RfcMergeBase(t: Val, u: Val, p: Val)
    requires FieldsOf(t) == FieldsOf(u)
    ensures RfcMerge(t, p) == RfcMerge(u, p)
  {
  }

  /** `r` is what merging the members `patch` into `ms` should give. */
  ghost predicate Merged(r: Option<seq<Member>>, ms: seq<Member>, patch: seq<Member>, ks: iset<string>) {
    && (r.Some? <==> Fits(Object(patch)))
    && (r.Some? ==> WellKeyed(Object(r.value), ks))
    && (r.Some? ==> Sem(Object(r.value)) == RfcMerge(Sem(Object(ms)), Sem(Object(patch))))
  }

  lemma {:induction false} MergeMembersIsRfc(ms: seq<Member>, patch: seq<Member>, cs: bool, ks: iset<string>)
    requires WellKeyed(Object(ms), ks) && WellKeyed(Object(patch), ks) && Separates(cs, ks)
    ensures Merged(MergeMembers(ms, patch, cs), ms, patch, ks)
    decreases patch, 0
  {
    if patch == [] {
      assert Fields(ms) == RfcMerge(Sem(Object(ms)), Sem(Object(patch))).fields;
    } else {
      hide Merged, Sem, Fields, RfcMerge, FindMember;
      var p := patch[0];
      WellKeyedTail(patch, ks);
      DetachMember(ms, p.key, cs, ks);
      var f := FindMember(ms, p.key, cs);
      var rest := if f.Some? then Without(ms, f.value) else ms;
      if p.value.Null? {
        assert MergeMembers(ms, patch, cs) == MergeMembers(rest, patch[1..], cs);
        hide MergeMembers, Without, WellKeyed, FindMember;
        MergeMembersIsRfc(rest, patch[1..], cs, ks);
        MergeRemove(ms, rest, patch, cs, ks);
      } else {
        var replaceMe := if f.Some? then Some(ms[f.value].value) else None;
        MergeIsRfc(replaceMe, p.value, cs, ks);
        MergeReplace(ms, rest, patch, cs, ks, Merge(replaceMe, p.value, cs));
      }
    }
  }

  /** The step that removes a member and merges the other members. */
  lemma MergeRemove(ms: seq<Member>, rest: seq<Member>, patch: seq<Member>, cs: bool, ks: iset<string>)
    requires patch != [] && patch[0].value.Null? && WellKeyed(Object(patch), ks)
    requires patch[0].key !in Fields(rest) && Fields(rest) == Fields(ms) - {patch[0].key}
    requires Merged(MergeMembers(rest, patch[1..], cs), rest, patch[1..], ks)
    ensures Merged(MergeMembers(rest, patch[1..], cs), ms, patch, ks)
  {
    hide MergeMembers, Merged, Sem, RfcMerge, Fields;
    MergedStep(MergeMembers(rest, patch[1..], cs), ms, rest, patch, ks);
  }

  /** The step that appends a replacement and merges the other members. */
  lemma {:induction false} MergeReplace(ms: seq<Member>, rest: seq<Member>, patch: seq<Member>, cs: bool,
                                        ks: iset<string>, r: Option<Json>)
    requires WellKeyed(Object(rest), ks) && WellKeyed(Object(patch), ks) && Separates(cs, ks)
    requires patch != [] && !patch[0].value.Null? && patch[0].key !in Keys(rest)
    requires Fields(rest) == Fields(ms) - {patch[0].key} && Keyed(r, ks)
    requires r.Some? <==> Fits(patch[0].value)
    requires r.Some? ==> SemOf(r) == RfcMerge(Lookup(Fields(ms), patch[0].key), Sem(patch[0].value))
    ensures var out := if r.None? then None else MergeMembers(rest + [Member(patch[0].key, r.value)], patch[1..], cs);
      Merged(out, ms, patch, ks)
    decreases patch[1..], 2
  {
    if r.Some? {
      var ms1 := rest + [Member(patch[0].key, r.value)];
      WellKeyedTail(patch, ks);
      WellKeyedAppend(rest, Member(patch[0].key, r.value), ks);
      MergeMembersIsRfc(ms1, patch[1..], cs, ks);
      assert Fields(ms1) - {patch[0].key} == Fields(ms) - {patch[0].key};
      MergedStep(MergeMembers(ms1, patch[1..], cs), ms, ms1, patch, ks);
    }
  }

  /** Detaching the member with this key, if there is one. */
  lemma DetachMember(ms: seq<Member>, k: string, cs: bool, ks: iset<string>)
    requires WellKeyed(Object(ms), ks) && k in ks && Separates(cs, ks)
    ensures var f := FindMember(ms, k, cs);
      var rest := if f.Some? then Without(ms, f.value) else ms;
      && WellKeyed(Object(rest), ks) && k !in Keys(rest) && Fields(rest) == Fields(ms) - {k}
      && (f.Some? <==> k in Fields(ms))
      && (f.Some? ==> Sem(ms[f.value].value) == Fields(ms)[k])
  {
    FindMemberExact(ms, k, cs, ks);
    FieldsKeys(ms);
    hide Sem, Fields, FindMember;
    var f := FindMember(ms, k, cs);
    if f.Some? {
      WellKeyedWithout(ms, f.value, ks);
      FieldAt(ms, f.value);
    } else {
      assert Fields(ms) == Fields(ms) - {k};
    }
  }

  lemma MergedStep(r: Option<seq<Member>>, ms: seq<Member>, ms1: seq<Member>, patch: seq<Member>, ks: iset<string>)
    requires patch != [] && DistinctKeys(patch) && Merged(r, ms1, patch[1..], ks) && Fits(patch[0].value)
    requires Fields(ms1) - {patch[0].key} == Fields(ms) - {patch[0].key}
    requires patch[0].key in Fields(ms1) <==> !patch[0].value.Null?
    requires patch[0].key in Fields(ms1) ==>
      Fields(ms1)[patch[0].key] == RfcMerge(Lookup(Fields(ms), patch[0].key), Sem(patch[0].value))
    ensures Merged(r, ms, patch, ks)
  {
    FieldsTail(patch);
    MergeStep(Fields(ms), Fields(ms1), patch[0].key, Sem(patch[0].value), Fields(patch[1..]));
    assert Fits(Object(patch)) <==> Fits(Object(patch[1..]));
  }

  /** Merging one binding first, then the others. */
  lemma MergeStep(m: map<string, Val>, m1: map<string, Val>, k: string, v: Val, p: map<string, Val>)
    requires k !in p && m1 - {k} == m - {k}
    requires k in m1 <==> v != VNull
    requires k in m1 ==> m1[k] == RfcMerge(Lookup(m, k), v)
    ensures RfcMerge(VObject(m1), VObject(p)) == RfcMerge(VObject(m), VObject(p[k := v]))
  {
    var a, b := RfcMerge(VObject(m1), VObject(p)).fields, RfcMerge(VObject(m), VObject(p[k := v])).fields;
    forall x ensures x in a <==> x in b {
      if x != k { assert x in m1 - {k} <==> x in m - {k}; }
    }
    forall x | x in a ensures a[x] == b[x] {
      if x != k && x in m {
        assert (m1 - {k})[x] == (m - {k})[x];
      } else if x != k {
        assert x !in m - {k};
        assert x !in m1;
      }
    }
    assert a == b;
  }

  // ----- generating

  /** `strcmp` and the case-insensitive comparison put these keys in the same order. */
  ghost predicate SameOrder(ks: iset<string>) {
    forall a, b | a in ks && b in ks :: Less(a, b) <==> Less(Fold(a), Fold(b))
  }

  /** Keys without upper-case letters. */
  ghost const LOWER_KEYS := iset k: string | Fold(k) == k

  lemma LowerKeysOrdered(ks: iset<string>)
    requires ks <= LOWER_KEYS
    ensures SameOrder(ks)
  {
    forall a, b | a in ks && b in ks ensures Less(a, b) <==> Less(Fold(a), Fold(b)) {
      assert Fold(a) == a && Fold(b) == b;
    }
  }

  lemma OrderSeparates(cs: bool, ks: iset<string>)
    requires SameOrder(ks)
    ensures Separates(cs, ks)
  {
    forall a, b | a in ks && b in ks && Fold(a) == Fold(b) ensures a == b {
      LessTotal(a, b);
      if Less(Fold(a), Fold(b)) { LessAsymmetric(Fold(a), Fold(b)); }
    }
  }

  /** The patch that turns `f` into `t`, as a map. */
  function Diff(f: Val, t: Val): Val
    decreases t
  {
    if !f.VObject? || !t.VObject? then t
    else
      VObject(map k | k in f.fields.Keys + t.fields.Keys && !(k in f.fields && k in t.fields && f.fields[k] == t.fields[k]) ::
                if k !in t.fields then VNull
                else if k !in f.fields then t.fields[k]
                else Diff(f.fields[k], t.fields[k]))
  }

  function DiffFields(f: map<string, Val>, t: map<string, Val>): map<string, Val> {
    Diff(VObject(f), VObject(t)).fields
  }

  lemma IncreasingBoth(ms: seq<Member>, cs: bool, ks: iset<string>)
    requires Increasing(ms, cs) && KeysFrom(ms, ks) && SameOrder(ks)
    ensures Increasing(ms, true)
  {
  }

  /** Exactly the pairs for which a merge patch has all its values: what it has to copy, because `from` has no object in
      its place, can be copied. */
  predicate Mergeable(from: Json, to: Json) {
    if !from.Object? || !to.Object? then Shallow(to)
    else forall k | k in Keys(to.members) ::
      var y := to.members[IndexOf(to.members, k)].value;
      if k !in Keys(from.members) then Shallow(y)
      else
        var x := from.members[IndexOf(from.members, k)].value;
        Sem(x) == Sem(y) || Mergeable(x, y)
  }

  /** A target within the limit always is. */
  lemma {:induction false} ShallowMergeable(from: Json, to: Json)
    requires Shallow(to)
    ensures Mergeable(from, to)
  {
    if from.Object? && to.Object? {
      var ms, ns := from.members, to.members;
      forall k | k in Keys(ns)
        ensures var y := ns[IndexOf(ns, k)].value; Shallow(y) && (k in Keys(ms) ==> Mergeable(ms[IndexOf(ms, k)].value, y))
      {
        HeightOfMember(ns, ns[IndexOf(ns, k)]);
        if k in Keys(ms) { ShallowMergeable(ms[IndexOf(ms, k)].value, ns[IndexOf(ns, k)].value); }
      }
    }
  }

  lemma {:induction false} ShallowFits(j: Json)
    requires Shallow(j)
    ensures Fits(j)
  {
    match j
    case Object(ms) =>
      forall i | 0 <= i < |ms| ensures Fits(ms[i].value) {
        HeightOfMember(ms, ms[i]);
        ShallowFits(ms[i].value);
      }
    case _ =>
  }

  // ----- what the walk puts into the patch for each key

  /** The value of the first member with this key. */
  function Entry(ms: seq<Member>, k: string): Option<Json> {
    if k in Keys(ms) then Some(ms[IndexOf(ms, k)].value) else None
  }

  function Change(f: Option<Json>, t: Option<Json>, cs: bool): Option<Json> {
    match (f, t)
    case (None, None) => None
    case (Some(_), None) => Some(Null)
    case (None, Some(y)) => Duplicate(y, 0)
    case (Some(x), Some(y)) => ChildPatch(x, y, cs)
  }

  lemma EntryCons(m: Member, ms: seq<Member>, k: string)
    ensures Entry([m] + ms, k) == if k == m.key then Some(m.value) else Entry(ms, k)
  {
    var r := [m] + ms;
    assert r[0] == m && forall i | 0 <= i < |ms| :: r[i+1] == ms[i];
    if k == m.key {
      assert r[0].key in Keys(r);
    } else if k in Keys(ms) {
      assert r[IndexOf(ms, k) + 1].key in Keys(r);
      assert IndexOf(r, k) == IndexOf(ms, k) + 1;
    }
  }

  lemma EntryTail(ms: seq<Member>, k: string)
    requires ms != []
    ensures Entry(ms, k) == if k == ms[0].key then Some(ms[0].value) else Entry(ms[1..], k)
  {
    EntryCons(ms[0], ms[1..], k);
    assert [ms[0]] + ms[1..] == ms;
  }

  lemma EntryAdded(key: string, item: Option<Json>, ms: seq<Member>, k: string)
    ensures Entry(AddItem(key, item) + ms, k) == if k == key && item.Some? then item else Entry(ms, k)
  {
    if item.Some? {
      EntryCons(Member(key, item.value), ms, k);
    } else {
      assert AddItem(key, item) + ms == ms;
    }
  }

  lemma EntryAbsent(ms: seq<Member>, k: string)
    requires Increasing(ms, true) && (ms == [] || Less(k, ms[0].key))
    ensures Entry(ms, k) == None
  {
    SmallerIsAbsent(k, ms, true);
  }

  lemma EntryPast(ms: seq<Member>)
    requires Increasing(ms, true) && ms != []
    ensures Increasing(ms[1..], true) && Entry(ms[1..], ms[0].key) == None
  {
    EntryAbsent(ms[1..], ms[0].key);
  }

  /** Walking two lists in the order of `strcmp` treats every key by itself. */
  lemma {:induction false} WalkChanges(fs: seq<Member>, ts: seq<Member>, cs: bool, bound: nat, k: string)
    requires Increasing(fs, true) && Increasing(ts, true)
    requires forall m | m in fs :: Height(m.value) < bound
    ensures Entry(GenerateMembers(fs, ts, cs, bound), k) == Change(Entry(fs, k), Entry(ts, k), cs)
    decreases |fs| + |ts|
  {
    hide ChildPatch, Duplicate, Less, Height, Increasing, Entry, AddItem;
    if fs != [] {
      EntryTail(fs, k);
      EntryPast(fs);
    }
    if ts != [] {
      EntryTail(ts, k);
      EntryPast(ts);
    }
    if fs == [] && ts == [] {
      NoEntry(k);
    } else if ts == [] || (fs != [] && Less(fs[0].key, ts[0].key)) {
      WalkChanges(fs[1..], ts, cs, bound, k);
      EntryAbsent(ts, fs[0].key);
      EntryCons(Member(fs[0].key, Null), GenerateMembers(fs[1..], ts, cs, bound), k);
    } else if fs == [] || Less(ts[0].key, fs[0].key) {
      WalkChanges(fs, ts[1..], cs, bound, k);
      EntryAbsent(fs, ts[0].key);
      EntryAdded(ts[0].key, Duplicate(ts[0].value, 0), GenerateMembers(fs, ts[1..], cs, bound), k);
    } else {
      LessTotal(fs[0].key, ts[0].key);
      WalkChanges(fs[1..], ts[1..], cs, bound, k);
      EntryAdded(ts[0].key, ChildPatch(fs[0].value, ts[0].value, cs), GenerateMembers(fs[1..], ts[1..], cs, bound), k);
    }
  }

  lemma NoEntry(k: string)
    ensures Entry([], k) == None
  {
  }

  /** A patch that merging accepts. */
  ghost predicate Sound(r: seq<Member>, fs: seq<Member>, ts: seq<Member>, ks: iset<string>) {
    WellKeyed(Object(r), ks) && Fits(Object(r)) && Keys(r) <= Keys(fs) + Keys(ts)
  }

  lemma SoundCons(m: Member, r: seq<Member>, fs: seq<Member>, ts: seq<Member>, fs': seq<Member>, ts': seq<Member>, ks: iset<string>)
    requires Sound(r, fs', ts', ks) && WellKeyed(m.value, ks) && Fits(m.value)
    requires m.key in ks && m.key !in Keys(fs') && m.key !in Keys(ts')
    requires Keys(fs') <= Keys(fs) && Keys(ts') <= Keys(ts) && m.key in Keys(fs) + Keys(ts)
    ensures Sound([m] + r, fs, ts, ks)
  {
    WellKeyedCons(m, r, ks);
    hide WellKeyed;
  }

  lemma SoundAdded(key: string, item: Option<Json>, r: seq<Member>, fs: seq<Member>, ts: seq<Member>, fs': seq<Member>, ts': seq<Member>,
                   ks: iset<string>)
    requires Sound(r, fs', ts', ks) && (item.Some? ==> WellKeyed(item.value, ks) && Fits(item.value))
    requires key in ks && key !in Keys(fs') && key !in Keys(ts')
    requires Keys(fs') <= Keys(fs) && Keys(ts') <= Keys(ts) && key in Keys(fs) + Keys(ts)
    ensures Sound(AddItem(key, item) + r, fs, ts, ks)
  {
    if item.Some? {
      SoundCons(Member(key, item.value), r, fs, ts, fs', ts', ks);
    } else {
      assert AddItem(key, item) + r == r;
    }
  }

  lemma CopyFits(j: Json, ks: iset<string>)
    requires WellKeyed(j, ks)
    ensures var c := Duplicate(j, 0); (c.Some? <==> Shallow(j)) && (c.Some? ==> c == Some(j) && WellKeyed(j, ks) && Fits(j))
  {
    DuplicateExact(j, 0);
    if Shallow(j) { ShallowFits(j); }
  }

  lemma KeysPast(ms: seq<Member>)
    requires Increasing(ms, true) && ms != []
    ensures Increasing(ms[1..], true) && ms[0].key in Keys(ms) && ms[0].key !in Keys(ms[1..]) && Keys(ms[1..]) <= Keys(ms)
  {
    IncreasingDistinct(ms, true);
    KeysOfTail(ms);
  }

  /** Sorting in either mode gives the order of `strcmp`. */
  lemma Sorted(ms: seq<Member>, cs: bool, ks: iset<string>) returns (fs: seq<Member>)
    requires WellKeyed(Object(ms), ks) && SameOrder(ks)
    ensures fs == SortMembers(ms, cs) && WellKeyed(Object(fs), ks) && Increasing(fs, true)
    ensures forall k :: Entry(fs, k) == Entry(ms, k)
  {
    fs := SortMembers(ms, cs);
    OrderSeparates(cs, ks);
    WellKeyedSorted(ms, cs, ks);
    IncreasingBoth(fs, cs, ks);
    SameEntries(ms, fs);
  }

  lemma SameEntries(ms: seq<Member>, fs: seq<Member>)
    requires multiset(ms) == multiset(fs) && DistinctKeys(ms) && DistinctKeys(fs)
    ensures forall k :: Entry(fs, k) == Entry(ms, k)
  {
    forall k ensures Entry(fs, k) == Entry(ms, k) {
      if k in Keys(fs) {
        SameEntry(fs, ms, k);
      } else if k in Keys(ms) {
        SameEntry(ms, fs, k);
      }
    }
  }

  lemma SameEntry(ms: seq<Member>, fs: seq<Member>, k: string)
    requires multiset(ms) == multiset(fs) && DistinctKeys(fs) && k in Keys(ms)
    ensures Entry(fs, k) == Entry(ms, k)
  {
    var m := ms[IndexOf(ms, k)];
    assert m in multiset(ms);
    var i :| 0 <= i < |fs| && fs[i] == m;
    DistinctIndex(fs, i);
  }

  lemma {:induction false} MembersSound(fs: seq<Member>, ts: seq<Member>, cs: bool, ks: iset<string>, bound: nat)
    requires WellKeyed(Object(fs), ks) && WellKeyed(Object(ts), ks) && SameOrder(ks)
    requires Increasing(fs, true) && Increasing(ts, true)
    requires forall m | m in fs :: Height(m.value) < bound
    ensures Sound(GenerateMembers(fs, ts, cs, bound), fs, ts, ks)
    decreases bound, 0, |fs| + |ts|
  {
    hide ChildPatch, Duplicate, Less, WellKeyed, Increasing, SameOrder, Fits, Sound, AddItem, Keys;
    if fs != [] {
      WellKeyedTail(fs, ks);
      KeysPast(fs);
    }
    if ts != [] {
      WellKeyedTail(ts, ks);
      KeysPast(ts);
    }
    if fs == [] && ts == [] {
      NothingSound(ks);
    } else if ts == [] || (fs != [] && Less(fs[0].key, ts[0].key)) {
      MembersSound(fs[1..], ts, cs, ks, bound);
      SmallerIsAbsent(fs[0].key, ts, true);
      NullFits(ks);
      SoundCons(Member(fs[0].key, Null), GenerateMembers(fs[1..], ts, cs, bound), fs, ts, fs[1..], ts, ks);
    } else if fs == [] || Less(ts[0].key, fs[0].key) {
      MembersSound(fs, ts[1..], cs, ks, bound);
      SmallerIsAbsent(ts[0].key, fs, true);
      CopyFits(ts[0].value, ks);
      SoundAdded(ts[0].key, Duplicate(ts[0].value, 0), GenerateMembers(fs, ts[1..], cs, bound), fs, ts, fs, ts[1..], ks);
    } else {
      LessTotal(fs[0].key, ts[0].key);
      MembersSound(fs[1..], ts[1..], cs, ks, bound);
      ChildSound(fs[0].value, ts[0].value, cs, ks);
      SoundAdded(ts[0].key, ChildPatch(fs[0].value, ts[0].value, cs), GenerateMembers(fs[1..], ts[1..], cs, bound), fs, ts, fs[1..], ts[1..], ks);
    }
  }

  lemma {:induction false} ChildSound(f: Json, t: Json, cs: bool, ks: iset<string>)
    requires WellKeyed(f, ks) && WellKeyed(t, ks) && SameOrder(ks)
    ensures var p := ChildPatch(f, t, cs); p.Some? ==> WellKeyed(p.value, ks) && Fits(p.value)
    decreases Height(f), 3, 0
  {
    hide CompareJson, Walked, Generate, WellKeyed, Fits, SameOrder;
    BothKept(f, t, cs, ks);
    WalkedHeight(f, t, cs);
    GenerateSound(Walked(f, t, cs), Walked(t, f, cs), false, ks);
  }

  /** Comparing keeps both values. */
  lemma BothKept(f: Json, t: Json, cs: bool, ks: iset<string>)
    requires WellKeyed(f, ks) && WellKeyed(t, ks) && SameOrder(ks)
    ensures var f', t' := Walked(f, t, cs), Walked(t, f, cs);
      && WellKeyed(f', ks) && Sem(f') == Sem(f) && WellKeyed(t', ks) && Sem(t') == Sem(t)
      && (CompareJson(f, t, cs) <==> Sem(f) == Sem(t))
  {
    OrderSeparates(cs, ks);
    WalkedKeeps(f, t, cs, ks);
    WalkedKeeps(t, f, cs, ks);
    CompareJsonDecides(f, t, cs, ks);
  }

  lemma NothingSound(ks: iset<string>)
    ensures Sound([], [], [], ks)
  {
  }

  lemma NullFits(ks: iset<string>)
    ensures WellKeyed(Null, ks) && Fits(Null)
  {
  }

  /** Merging accepts every generated patch, as only values that can be copied are in it. */
  lemma {:induction false} GenerateSound(from: Json, to: Json, cs: bool, ks: iset<string>)
    requires WellKeyed(from, ks) && WellKeyed(to, ks) && SameOrder(ks)
    ensures var p := Generate(from, to, cs); p.Some? ==> WellKeyed(p.value, ks) && Fits(p.value)
    decreases Height(from), 2
  {
    if from.Object? && to.Object? {
      var _ := GeneratedMembers(from.members, to.members, cs, ks);
    } else {
      CopyFits(to, ks);
    }
  }

  /** The patch for two objects, key by key. */
  lemma {:induction false} GeneratedMembers(ms: seq<Member>, ns: seq<Member>, cs: bool, ks: iset<string>) returns (r: seq<Member>)
    requires WellKeyed(Object(ms), ks) && WellKeyed(Object(ns), ks) && SameOrder(ks)
    ensures Generate(Object(ms), Object(ns), cs) == if r == [] then None else Some(Object(r))
    ensures WellKeyed(Object(r), ks) && Fits(Object(r))
    ensures forall k :: Entry(r, k) == Change(Entry(ms, k), Entry(ns, k), cs)
    decreases Height(Object(ms)), 1
  {
    hide WellKeyed, Increasing, SameOrder, Fits, SortMembers, GenerateMembers, Entry, Change;
    var fs := Sorted(ms, cs, ks);
    var ts := Sorted(ns, cs, ks);
    HeightOfSorted(ms, cs);
    r := GenerateMembers(fs, ts, cs, Height(Object(ms)));
    MembersSound(fs, ts, cs, ks, Height(Object(ms)));
    forall k ensures Entry(r, k) == Change(Entry(ms, k), Entry(ns, k), cs) {
      WalkChanges(fs, ts, cs, Height(Object(ms)), k);
    }
  }

  // ----- a generated patch and the difference

  /** `p` is a patch (or no patch) that says how `from` differs from `to`. */
  ghost predicate Describes(p: Option<Json>, from: Json, to: Json) {
    && (p.None? <==> from.Object? && to.Object? && Sem(from) == Sem(to))
    && (p.Some? ==> Sem(p.value) == Diff(Sem(from), Sem(to)))
  }

  /** The value of a key, if it has one. */
  function Bound(m: map<string, Val>, k: string): Option<Val> {
    if k in m then Some(m[k]) else None
  }

  function SemEntry(j: Option<Json>): Option<Val> {
    if j.Some? then Some(Sem(j.value)) else None
  }

  lemma SameBounds(m: map<string, Val>, n: map<string, Val>)
    requires forall k :: Bound(m, k) == Bound(n, k)
    ensures m == n
  {
    forall k ensures k in m <==> k in n { assert Bound(m, k) == Bound(n, k); }
    forall k | k in m ensures m[k] == n[k] { assert Bound(m, k) == Bound(n, k); }
  }

  lemma FieldEntry(ms: seq<Member>, k: string)
    requires DistinctKeys(ms)
    ensures Bound(Fields(ms), k) == SemEntry(Entry(ms, k))
  {
    FieldsKeys(ms);
    if k in Keys(ms) { FieldAt(ms, IndexOf(ms, k)); }
    hide Sem, Fields;
  }

  lemma EntryKeyed(ms: seq<Member>, k: string, ks: iset<string>)
    requires WellKeyed(Object(ms), ks)
    ensures DistinctKeys(ms) && Keyed(Entry(ms, k), ks)
    ensures Entry(ms, k).Some? ==> Height(Entry(ms, k).value) < Height(Object(ms))
  {
    if k in Keys(ms) { HeightOfMember(ms, ms[IndexOf(ms, k)]); }
  }

  /** The difference of one key. */
  function Delta(f: Option<Val>, t: Option<Val>): Option<Val> {
    match (f, t)
    case (_, None) => if f.Some? then Some(VNull) else None
    case (None, Some(w)) => Some(w)
    case (Some(v), Some(w)) => if v == w then None else Some(Diff(v, w))
  }

  lemma DiffBound(f: map<string, Val>, t: map<string, Val>, k: string)
    ensures Bound(DiffFields(f, t), k) == Delta(Bound(f, k), Bound(t, k))
  {
  }

  /** The pair of values of one key needs no copy that fails. */
  predicate EntryMergeable(f: Option<Json>, t: Option<Json>) {
    t.Some? ==> if f.None? then Shallow(t.value) else Sem(f.value) == Sem(t.value) || Mergeable(f.value, t.value)
  }

  lemma MergeableEntries(ms: seq<Member>, ns: seq<Member>)
    ensures Mergeable(Object(ms), Object(ns)) <==> forall k :: EntryMergeable(Entry(ms, k), Entry(ns, k))
  {
    hide Sem, Shallow;
    if Mergeable(Object(ms), Object(ns)) {
      forall k ensures EntryMergeable(Entry(ms, k), Entry(ns, k)) {}
    }
    if forall k :: EntryMergeable(Entry(ms, k), Entry(ns, k)) {
      forall k | k in Keys(ns) ensures k in Keys(ms) || Shallow(ns[IndexOf(ns, k)].value) {
        assert EntryMergeable(Entry(ms, k), Entry(ns, k));
      }
      forall k | k in Keys(ns) && k in Keys(ms)
        ensures var x, y := ms[IndexOf(ms, k)].value, ns[IndexOf(ns, k)].value; Sem(x) == Sem(y) || Mergeable(x, y)
      {
        assert EntryMergeable(Entry(ms, k), Entry(ns, k));
      }
    }
  }

  /** Objects of the same meaning have the same entries, up to member order in them. */
  lemma SameEntrySem(ms: seq<Member>, ns: seq<Member>, k: string, ks: iset<string>)
    requires WellKeyed(Object(ms), ks) && WellKeyed(Object(ns), ks) && Sem(Object(ms)) == Sem(Object(ns))
    ensures SemEntry(Entry(ms, k)) == SemEntry(Entry(ns, k)) && Keyed(Entry(ms, k), ks) && Keyed(Entry(ns, k), ks)
  {
    hide Height;
    EntryKeyed(ms, k, ks);
    EntryKeyed(ns, k, ks);
    FieldEntry(ms, k);
    FieldEntry(ns, k);
  }

  lemma EntryMergeableKept(x: Option<Json>, y: Option<Json>, x': Option<Json>, y': Option<Json>)
    requires SemEntry(x) == SemEntry(x') && SemEntry(y) == SemEntry(y') && EntryMergeable(x, y)
    requires y.Some? ==> Height(y'.value) <= Height(y.value) || x.Some?
    requires x.Some? && y.Some? && Mergeable(x.value, y.value) ==> Mergeable(x'.value, y'.value)
    ensures EntryMergeable(x', y')
  {
    hide Sem, Height, Mergeable;
  }

  lemma EntrySmaller(ms: seq<Member>, k: string)
    ensures Entry(ms, k).Some? ==> Entry(ms, k).value < Object(ms)
  {
  }

  /** The change of one key is its difference. */
  lemma ChangeDescribes(f: Option<Json>, t: Option<Json>, cs: bool, ks: iset<string>)
    requires Keyed(f, ks) && Keyed(t, ks) && SameOrder(ks) && EntryMergeable(f, t)
    requires f.Some? && t.Some? && Sem(f.value) != Sem(t.value) ==>
      SemEntry(ChildPatch(f.value, t.value, cs)) == Some(Diff(Sem(f.value), Sem(t.value)))
    ensures SemEntry(Change(f, t, cs)) == Delta(SemEntry(f), SemEntry(t))
  {
    if t.Some? && f.None? {
      CopyFits(t.value, ks);
    } else if t.Some? {
      BothKept(f.value, t.value, cs, ks);
    }
    hide Generate, CompareJson, Walked, Diff, WellKeyed, Mergeable, Shallow;
  }

  /** Whether the copies succeed does not depend on the order of members. */
  lemma {:induction false} MergeableKept(f: Json, t: Json, f': Json, t': Json, ks: iset<string>)
    requires WellKeyed(f, ks) && WellKeyed(t, ks) && WellKeyed(f', ks) && WellKeyed(t', ks)
    requires Sem(f') == Sem(f) && Sem(t') == Sem(t) && Mergeable(f, t)
    ensures Mergeable(f', t')
    decreases f
  {
    SemKind(f);
    SemKind(t);
    SemKind(f');
    SemKind(t');
    if f.Object? && t.Object? {
      hide Sem, Fields, WellKeyed, Mergeable, Entry, EntryMergeable, Bound;
      MergeableEntries(f.members, t.members);
      MergeableEntries(f'.members, t'.members);
      forall k ensures EntryMergeable(Entry(f'.members, k), Entry(t'.members, k)) {
        SameEntrySem(f.members, f'.members, k, ks);
        SameEntrySem(t.members, t'.members, k, ks);
        var x, y, x', y' := Entry(f.members, k), Entry(t.members, k), Entry(f'.members, k), Entry(t'.members, k);
        if y.Some? && x.None? {
          SameHeight(y'.value, y.value, ks);
        } else if y.Some? && Mergeable(x.value, y.value) {
          EntrySmaller(f.members, k);
          MergeableKept(x.value, y.value, x'.value, y'.value, ks);
        }
        EntryMergeableKept(x, y, x', y');
      }
    } else {
      SameHeight(t', t, ks);
    }
  }

  /** A generated patch describes the difference, and there is none only when there is no difference. */
  lemma {:induction false} GenerateDescribes(from: Json, to: Json, cs: bool, ks: iset<string>)
    requires WellKeyed(from, ks) && WellKeyed(to, ks) && SameOrder(ks) && Mergeable(from, to)
    ensures Describes(Generate(from, to, cs), from, to)
    decreases Height(from), 0
  {
    if from.Object? && to.Object? {
      var ms, ns := from.members, to.members;
      var r := GeneratedMembers(ms, ns, cs, ks);
      hide Generate, Change, Sem, Fields, WellKeyed, SameOrder, Mergeable, Describes, Diff, Entry, Bound, EntryMergeable, Height;
      MergeableEntries(ms, ns);
      forall k ensures Bound(Fields(r), k) == Bound(DiffFields(Fields(ms), Fields(ns)), k) {
        var f, t := Entry(ms, k), Entry(ns, k);
        EntryKeyed(ms, k, ks);
        EntryKeyed(ns, k, ks);
        EntryKeyed(r, k, ks);
        if f.Some? && t.Some? && Sem(f.value) != Sem(t.value) {
          assert Mergeable(f.value, t.value) by { assert EntryMergeable(f, t); }
          ChildDescribes(f.value, t.value, cs, ks);
        }
        ChangeDescribes(f, t, cs, ks);
        FieldEntry(r, k);
        FieldEntry(ms, k);
        FieldEntry(ns, k);
        DiffBound(Fields(ms), Fields(ns), k);
      }
      SameBounds(Fields(r), DiffFields(Fields(ms), Fields(ns)));
      MembersAreDifference(r, ms, ns);
    } else {
      DuplicateExact(to, 0);
    }
  }

  lemma {:induction false} ChildDescribes(f: Json, t: Json, cs: bool, ks: iset<string>)
    requires WellKeyed(f, ks) && WellKeyed(t, ks) && SameOrder(ks) && Mergeable(f, t) && Sem(f) != Sem(t)
    ensures SemEntry(ChildPatch(f, t, cs)) == Some(Diff(Sem(f), Sem(t)))
    decreases Height(f), 1
  {
    hide CompareJson, Walked, Generate, WellKeyed, SameOrder, Mergeable, Sem, Diff;
    var f', t' := Walked(f, t, cs), Walked(t, f, cs);
    BothKept(f, t, cs, ks);
    WalkedHeight(f, t, cs);
    MergeableKept(f, t, f', t', ks);
    GenerateDescribes(f', t', false, ks);
  }

  lemma MembersAreDifference(r: seq<Member>, ms: seq<Member>, ns: seq<Member>)
    requires Fields(r) == DiffFields(Fields(ms), Fields(ns))
    ensures Describes(if r == [] then None else Some(Object(r)), Object(ms), Object(ns))
  {
    NoKeysNoMembers(r);
    NoDifference(Fields(ms), Fields(ns));
    FieldsKeys(r);
    FieldsKeys(ms);
    FieldsKeys(ns);
    hide Sem, Fields, Keys;
  }

  lemma NoDifference(f: map<string, Val>, t: map<string, Val>)
    ensures DiffFields(f, t) == map[] <==> f == t
  {
    if f != t {
      MapsAgree(f, t);
      if !SubMap(f, t) {
        var k :| k in f && !(k in t && f[k] == t[k]);
        assert k in DiffFields(f, t);
      } else {
        var k :| k in t && !(k in f && f[k] == t[k]);
        assert k in DiffFields(f, t);
      }
    }
  }

  // ----- values that cannot be copied

  /** A key whose value merging does not bring about. */
  lemma KeyMissed(f: map<string, Val>, p: map<string, Val>, t: map<string, Val>, k: string)
    requires k in t && (k !in p && k in f ==> f[k] != t[k])
    requires k in p ==> RfcMerge(Lookup(f, k), p[k]) != t[k]
    ensures RfcMerge(VObject(f), VObject(p)) != VObject(t)
  {
    var r := RfcMerge(VObject(f), VObject(p)).fields;
    if k in r { assert r[k] != t[k]; }
  }

  /** Where a value cannot be copied, the patch is missing or merging it does not give `to`. */
  lemma {:induction false} NotMergeableLost(from: Json, to: Json, cs: bool, ks: iset<string>)
    requires WellKeyed(from, ks) && WellKeyed(to, ks) && SameOrder(ks) && !Mergeable(from, to)
    ensures from.Object? && to.Object? ==> Sem(from) != Sem(to)
    ensures var p := Generate(from, to, cs);
      p.None? || (from.Object? && to.Object? && RfcMerge(Sem(from), Sem(p.value)) != Sem(to))
    decreases Height(from), 0
  {
    if from.Object? && to.Object? {
      var ms, ns := from.members, to.members;
      var r := GeneratedMembers(ms, ns, cs, ks);
      hide Generate, Sem, Fields, WellKeyed, SameOrder, Mergeable, RfcMerge, Entry, EntryMergeable, Height, Change;
      MergeableEntries(ms, ns);
      var k :| !EntryMergeable(Entry(ms, k), Entry(ns, k));
      var f, t := Entry(ms, k), Entry(ns, k);
      EntryKeyed(ms, k, ks);
      EntryKeyed(ns, k, ks);
      EntryKeyed(r, k, ks);
      FieldEntry(r, k);
      FieldEntry(ms, k);
      FieldEntry(ns, k);
      FieldsKeys(r);
      FieldsKeys(ms);
      FieldsKeys(ns);
      if t.Some? && f.Some? && !Mergeable(f.value, t.value) { ChildLost(f.value, t.value, cs, ks); }
      ChangeMissed(f, t, cs, ks);
      KeyMissed(Fields(ms), Fields(r), Fields(ns), k);
    } else {
      DuplicateExact(to, 0);
    }
  }

  lemma ChangeMissed(f: Option<Json>, t: Option<Json>, cs: bool, ks: iset<string>)
    requires Keyed(f, ks) && Keyed(t, ks) && SameOrder(ks) && !EntryMergeable(f, t)
    requires t.Some? && f.Some? ==>
      var p := ChildPatch(f.value, t.value, cs); p.None? || RfcMerge(Sem(f.value), Sem(p.value)) != Sem(t.value)
    ensures t.Some? && (f.Some? ==> Sem(f.value) != Sem(t.value))
    ensures Change(f, t, cs).Some? ==> f.Some? && RfcMerge(Sem(f.value), Sem(Change(f, t, cs).value)) != Sem(t.value)
  {
    CopyFits(t.value, ks);
    hide ChildPatch, RfcMerge, WellKeyed, Mergeable, Shallow, Fits;
  }

  lemma {:induction false} ChildLost(f: Json, t: Json, cs: bool, ks: iset<string>)
    requires WellKeyed(f, ks) && WellKeyed(t, ks) && SameOrder(ks) && !Mergeable(f, t)
    ensures var p := ChildPatch(f, t, cs); p.None? || RfcMerge(Sem(f), Sem(p.value)) != Sem(t)
    decreases Height(f), 1
  {
    hide CompareJson, Walked, Generate, WellKeyed, SameOrder, Mergeable, Sem, RfcMerge;
    var f', t' := Walked(f, t, cs), Walked(t, f, cs);
    BothKept(f, t, cs, ks);
    WalkedHeight(f, t, cs);
    if Mergeable(f', t') { MergeableKept(f', t', f, t, ks); }
    NotMergeableLost(f', t', false, ks);
  }

  // ----- the round trip

  /** No null member outside arrays. */
  predicate NoNulls(v: Val) {
    v.VObject? ==> forall k | k in v.fields :: v.fields[k] != VNull && NoNulls(v.fields[k])
  }

  /** Exactly the pairs a merge patch can express: every null member of `t` outside arrays
      is already there, unchanged, in `f`. */
  predicate Expressible(f: Val, t: Val)
    decreases t
  {
    if !t.VObject? then true
    else if !f.VObject? then NoNulls(t)
    else forall k | k in t.fields ::
      || (k in f.fields && f.fields[k] == t.fields[k])
      || (t.fields[k] != VNull && Expressible(Lookup(f.fields, k), t.fields[k]))
  }

  lemma {:induction false} MergeIntoNothing(f: Val, t: Val)
    requires !f.VObject?
    ensures RfcMerge(f, t) == t <==> NoNulls(t)
    decreases t
  {
    if t.VObject? {
      var r := RfcMerge(f, t).fields;
      forall k | k in t.fields ensures RfcMerge(VInvalid, t.fields[k]) == t.fields[k] <==> NoNulls(t.fields[k]) {
        MergeIntoNothing(VInvalid, t.fields[k]);
      }
      if NoNulls(t) {
        assert r == t.fields;
      }
      if r == t.fields {
        forall k | k in t.fields ensures t.fields[k] != VNull && NoNulls(t.fields[k]) {
          assert k in r && r[k] == RfcMerge(VInvalid, t.fields[k]);
        }
      }
    }
  }

  /** Merging the difference back gives `t` exactly for the expressible pairs. */
  lemma {:induction false} DiffThenMerge(f: Val, t: Val)
    ensures RfcMerge(f, Diff(f, t)) == t <==> Expressible(f, t)
    decreases t
  {
    if !t.VObject? {
    } else if !f.VObject? {
      MergeIntoNothing(f, t);
    } else {
      var p := Diff(f, t).fields;
      var r := RfcMerge(f, Diff(f, t)).fields;
      forall k | k in t.fields
        ensures k in r && r[k] == t.fields[k] <==>
          (k in f.fields && f.fields[k] == t.fields[k])
          || (t.fields[k] != VNull && Expressible(Lookup(f.fields, k), t.fields[k]))
      {
        if !(k in f.fields && f.fields[k] == t.fields[k]) {
          assert k in p;
          if k in f.fields {
            DiffThenMerge(f.fields[k], t.fields[k]);
            DiffNull(f.fields[k], t.fields[k]);
          } else {
            MergeIntoNothing(VInvalid, t.fields[k]);
          }
        }
      }
      assert forall k | k in f.fields && k !in t.fields :: k in p && p[k] == VNull;
      assert r.Keys <= t.fields.Keys;
      if Expressible(f, t) { assert r == t.fields; }
    }
  }

  lemma DiffNull(f: Val, t: Val)
    ensures Diff(f, t) == VNull <==> t == VNull
  {
  }

  /** Merging the generated patch into `copy` gives `to` up to member order; without a patch there is nothing to do. */
  ghost predicate Restores(from: Json, to: Json, copy: Json, cs: bool, ks: iset<string>) {
    match Generate(from, to, cs)
    case None => from.Object? && to.Object? && Sem(copy) == Sem(to)
    case Some(p) =>
      var r := Merge(Some(copy), p, cs);
      r.Some? && WellKeyed(r.value, ks) && Sem(r.value) == Sem(to)
  }

  /** Two items over these keys and a copy of the first. */
  ghost predicate Pair(from: Json, to: Json, copy: Json, ks: iset<string>) {
    WellKeyed(from, ks) && WellKeyed(to, ks) && WellKeyed(copy, ks) && Sem(copy) == Sem(from)
  }

  /** `cJSONUtils_MergePatch` of `cJSONUtils_GenerateMergePatch`, for keys that both comparisons order alike: a patch can
      always be merged, and gives `to` exactly when it has all its values and the pair is expressible. */
  lemma MergePatchRoundTrip(from: Json, to: Json, copy: Json, cs: bool, ks: iset<string>)
    requires Pair(from, to, copy, ks) && SameOrder(ks)
    ensures Restores(from, to, copy, cs, ks) <==> Mergeable(from, to) && Expressible(Sem(from), Sem(to))
    ensures Generate(from, to, cs).Some? ==> Merge(Some(copy), Generate(from, to, cs).value, cs).Some?
  {
    hide Generate, Merge, SameOrder, Sem, WellKeyed, Diff, RfcMerge, Expressible, Mergeable;
    if Generate(from, to, cs).Some? { PatchMerges(from, to, copy, cs, ks); }
    if Mergeable(from, to) {
      GenerateDescribes(from, to, cs, ks);
      DiffThenMerge(Sem(from), Sem(to));
      if Generate(from, to, cs).None? {
        SemKindObject(to);
        SameExpressible(Sem(to));
      }
    } else {
      NotMergeableLost(from, to, cs, ks);
    }
  }

  lemma PatchMerges(from: Json, to: Json, copy: Json, cs: bool, ks: iset<string>)
    requires Pair(from, to, copy, ks) && SameOrder(ks) && Generate(from, to, cs).Some?
    ensures var p := Generate(from, to, cs).value;
      var r := Merge(Some(copy), p, cs);
      r.Some? && WellKeyed(r.value, ks) && Sem(r.value) == RfcMerge(Sem(from), Sem(p))
  {
    hide Generate, Merge, SameOrder, Sem, WellKeyed, RfcMerge, Separates, Fits;
    OrderSeparates(cs, ks);
    GenerateSound(from, to, cs, ks);
    MergeIsRfc(Some(copy), Generate(from, to, cs).value, cs, ks);
  }

  lemma SemKindObject(j: Json)
    requires j.Object?
    ensures Sem(j).VObject?
  {
  }

  lemma SameExpressible(v: Val)
    requires v.VObject?
    ensures Expressible(v, v)
  {
  }

  /** A target without null members outside arrays is always expressible. */
  lemma {:induction false} NoNullsExpressible(f: Val, t: Val)
    requires NoNulls(t)
    ensures Expressible(f, t)
    decreases t
  {
    if t.VObject? && f.VObject? {
      forall k | k in t.fields ensures Expressible(Lookup(f.fields, k), t.fields[k]) {
        NoNullsExpressible(Lookup(f.fields, k), t.fields[k]);
      }
    }
  }

  // ----- exactly these keys

  ghost predicate AllRoundTrip(cs: bool, ks: iset<string>) {
    forall from, to, copy | Pair(from, to, copy, ks) && Mergeable(from, to) && Expressible(Sem(from), Sem(to)) ::
      Restores(from, to, copy, cs, ks)
  }

  /** In either case mode all expressible pairs over `ks` that have their values make the round trip if and only if both comparisons order `ks` alike:
      every list below the root is sorted ignoring case, but walked with `strcmp`. */
  lemma RoundTripExactly(cs: bool, ks: iset<string>)
    ensures AllRoundTrip(cs, ks) <==> SameOrder(ks)
  {
    hide Pair, Restores, Mergeable, Expressible, Sem, Less, Fold;
    if SameOrder(ks) {
      forall from, to, copy | Pair(from, to, copy, ks) && Mergeable(from, to) && Expressible(Sem(from), Sem(to))
        ensures Restores(from, to, copy, cs, ks)
      {
        MergePatchRoundTrip(from, to, copy, cs, ks);
      }
    } else {
      var a, b :| a in ks && b in ks && !(Less(a, b) <==> Less(Fold(a), Fold(b)));
      if Less(a, b) {
        KeysLost(b, a, cs, ks);
      } else {
        LessTotal(a, b);
        LessAsymmetric(Fold(a), Fold(b));
        KeysLost(a, b, cs, ks);
      }
    }
  }

  lemma KeysLost(x: string, y: string, cs: bool, ks: iset<string>)
    requires x in ks && y in ks && Less(y, x) && !Less(Fold(y), Fold(x))
    ensures !AllRoundTrip(cs, ks)
  {
    hide Pair, Restores, Mergeable, Expressible, Sem, Less, Fold, Generate, Merge;
    if cs || Fold(x) != Fold(y) { OutOfOrderLost(x, y, cs, ks); } else { TwinLost(x, y, ks); }
  }

  /** An object with one member, an object. */
  function Nest(k: string, ms: seq<Member>): Json {
    Object([Member(k, Object(ms))])
  }

  /** Two keys in a different order: from {x: {y, x}} to {x: {y}} the patch adds y and then removes it again. */
  lemma OutOfOrderLost(x: string, y: string, cs: bool, ks: iset<string>)
    requires x in ks && y in ks && Less(y, x) && !Less(Fold(y), Fold(x)) && (cs || Fold(x) != Fold(y))
    ensures var from, to := Nest(x, [Member(y, True), Member(x, True)]), Nest(x, [Member(y, True)]);
      && Generate(from, to, cs) == Some(Nest(x, [Member(y, True), Member(x, Null), Member(y, Null)]))
      && Merge(Some(from), Generate(from, to, cs).value, cs) == Some(Nest(x, []))
      && Pair(from, to, from, ks) && Mergeable(from, to) && Expressible(Sem(from), Sem(to))
      && !Restores(from, to, from, cs, ks)
  {
    var mx, my := Member(x, True), Member(y, True);
    LessAsymmetric(y, x);
    TwiceSorted(x, y, cs);
    InnerGenerated(SortMembers([my, mx], cs), x, y);
    NestGenerated(x, y, cs);
    NestMerged(x, y, cs);
    assert [my][0].key in Keys([my]);
    NestDiffers(x, [], [my]);
    hide Generate, Merge, Less, Fold, Sem, Expressible, SortMembers;
    NestLost(x, y, [], cs, ks);
  }

  /** Keys that differ only in case are sorted twice, which leaves them as they were: the patch only removes x, and the
      first of both goes. */
  lemma TwinLost(x: string, y: string, ks: iset<string>)
    requires x in ks && y in ks && Less(y, x) && Fold(x) == Fold(y)
    ensures var from, to := Nest(x, [Member(y, True), Member(x, True)]), Nest(x, [Member(y, True)]);
      && Generate(from, to, false) == Some(Nest(x, [Member(x, Null)]))
      && Merge(Some(from), Generate(from, to, false).value, false) == Some(Nest(x, [Member(x, True)]))
      && Pair(from, to, from, ks) && Mergeable(from, to) && Expressible(Sem(from), Sem(to))
      && !Restores(from, to, from, false, ks)
  {
    var mx, my := Member(x, True), Member(y, True);
    LessAsymmetric(y, x);
    LessAsymmetricOrEqual(Fold(x), Fold(y));
    SortedPair(my, mx, false);
    SortedPair(mx, my, false);
    TwinGenerated(SortMembers([my, mx], false), x, y);
    NestGenerated(x, y, false);
    TwinMerged(x, y);
    assert [my][0].key in Keys([my]) && y !in Keys([mx]);
    NestDiffers(x, [mx], [my]);
    hide Generate, Merge, Less, Fold, Sem, Expressible, SortMembers;
    NestLost(x, y, [mx], false, ks);
  }

  /** A merge with another result does not restore the target. */
  lemma NestLost(x: string, y: string, ms: seq<Member>, cs: bool, ks: iset<string>)
    requires x in ks && y in ks && x != y && Sem(Nest(x, ms)) != Sem(Nest(x, [Member(y, True)]))
    requires var from, to := Nest(x, [Member(y, True), Member(x, True)]), Nest(x, [Member(y, True)]);
      Generate(from, to, cs).Some? && Merge(Some(from), Generate(from, to, cs).value, cs) == Some(Nest(x, ms))
    ensures var from, to := Nest(x, [Member(y, True), Member(x, True)]), Nest(x, [Member(y, True)]);
      Pair(from, to, from, ks) && Mergeable(from, to) && Expressible(Sem(from), Sem(to)) && !Restores(from, to, from, cs, ks)
  {
    var my := Member(y, True);
    var from, to := Nest(x, [my, Member(x, True)]), Nest(x, [my]);
    NestPair(x, y, ks);
    ShallowMergeable(from, to);
    NestExpressible(x, my, Sem(from));
    hide Generate, Merge, Pair, Mergeable, Sem, Expressible;
  }

  /** The outer patch holds the inner one, for the member as the comparison has sorted it. */
  lemma NestGenerated(x: string, y: string, cs: bool)
    requires x != y
    requires var inner := Generate(Object(SortMembers([Member(y, True), Member(x, True)], cs)), Object([Member(y, True)]), false);
      inner.Some? && inner.value.Object?
    ensures Generate(Nest(x, [Member(y, True), Member(x, True)]), Nest(x, [Member(y, True)]), cs) ==
      Some(Nest(x, Generate(Object(SortMembers([Member(y, True), Member(x, True)], cs)), Object([Member(y, True)]), false).value.members))
  {
    var mx, my := Member(x, True), Member(y, True);
    var f, t := Object([my, mx]), Object([my]);
    ShorterDiffers(f, t, cs);
    ScalarsWalked([my, mx], [my], cs);
    ScalarsWalked([my], [my, mx], cs);
    SortedOne(my, cs);
    SortedOne(Member(x, f), cs);
    SortedOne(Member(x, t), cs);
    HeightOfOne(Member(x, f));
    hide SortMembers, CompareJson, Walked, Less, Fold;
    OneReplaced(x, f, t, cs, Height(Nest(x, [my, mx])));
  }

  /** Scalars stay as they are, so only the order changes. */
  lemma ScalarsWalked(ms: seq<Member>, ns: seq<Member>, cs: bool)
    requires forall m | m in ms :: m.value == True
    ensures Walked(Object(ms), Object(ns), cs) == Object(SortMembers(ms, cs))
  {
    HeightOfSorted(ms, cs);
    ScalarMembersWalked(SortMembers(ms, cs), SortMembers(ns, cs), cs, Height(Object(ms)));
  }

  lemma {:induction false} ScalarMembersWalked(xs: seq<Member>, ys: seq<Member>, cs: bool, bound: nat)
    requires forall m | m in xs :: Height(m.value) < bound && m.value == True
    ensures WalkedMembers(xs, ys, cs, bound) == xs
    decreases |xs|
  {
    if xs != [] && ys != [] { ScalarMembersWalked(xs[1..], ys[1..], cs, bound); }
  }

  /** Whatever the comparison did, sorting ignoring case puts x first. */
  lemma TwiceSorted(x: string, y: string, cs: bool)
    requires Less(y, x) && !Less(Fold(y), Fold(x)) && (cs || Fold(x) != Fold(y))
    ensures var mx, my := Member(x, True), Member(y, True);
      SortMembers(SortMembers([my, mx], cs), false) == [mx, my] && multiset(SortMembers([my, mx], cs)) == multiset{mx, my}
  {
    var mx, my := Member(x, True), Member(y, True);
    SortedPair(my, mx, cs);
    SortedPair(my, mx, false);
    SortedPair(mx, my, false);
    LessTotal(Fold(x), Fold(y));
  }

  /** The inner patch, which is always generated ignoring case. */
  lemma InnerGenerated(ms: seq<Member>, x: string, y: string)
    requires Less(y, x) && SortMembers(ms, false) == [Member(x, True), Member(y, True)]
    requires multiset(ms) == multiset{Member(x, True), Member(y, True)}
    ensures Generate(Object(ms), Object([Member(y, True)]), false)
      == Some(Object([Member(y, True), Member(x, Null), Member(y, Null)]))
  {
    hide SortMembers, GenerateMembers, Height, Less, Fold, Generate;
    var mx, my := Member(x, True), Member(y, True);
    BothIn(ms, mx, my);
    SortedOne(my, false);
    HeightOfSorted(ms, false);
    ScalarHeight(my, ms);
    ScalarHeight(mx, ms);
    InnerWalk(mx, my, Height(Object(ms)));
    GenerateUnfolds(ms, [my], false);
  }

  lemma BothIn(ms: seq<Member>, a: Member, b: Member)
    requires multiset(ms) == multiset{a, b}
    ensures a in ms && b in ms && forall m | m in ms :: m == a || m == b
  {
    assert a in multiset(ms) && b in multiset(ms);
    forall m | m in ms ensures m == a || m == b { assert m in multiset(ms); }
  }

  lemma TwinGenerated(ms: seq<Member>, x: string, y: string)
    requires Less(y, x) && SortMembers(ms, false) == [Member(y, True), Member(x, True)]
    requires multiset(ms) == multiset{Member(x, True), Member(y, True)}
    ensures Generate(Object(ms), Object([Member(y, True)]), false) == Some(Object([Member(x, Null)]))
  {
    hide SortMembers, GenerateMembers, Height, Less, Fold, Generate;
    var mx, my := Member(x, True), Member(y, True);
    BothIn(ms, mx, my);
    SortedOne(my, false);
    HeightOfSorted(ms, false);
    ScalarHeight(my, ms);
    ScalarHeight(mx, ms);
    TwinWalk(mx, my, Height(Object(ms)));
    GenerateUnfolds(ms, [my], false);
  }

  lemma TwinWalk(x: Member, y: Member, bound: nat)
    requires Less(y.key, x.key) && x.value == True && y.value == True && bound > 0
    ensures GenerateMembers([y, x], [y], false, bound) == [Member(x.key, Null)]
  {
    var none: seq<Member> := [];
    LessAsymmetricOrEqual(y.key, y.key);
    assert [y, x][1..] == [x] && [y][1..] == none && [x][1..] == none;
    hide Less;
    assert ChildPatch(True, True, false) == None;
    assert GenerateMembers([x], none, false, bound) == [Member(x.key, Null)] + GenerateMembers(none, none, false, bound);
    assert GenerateMembers([y, x], [y], false, bound) == [] + GenerateMembers([x], none, false, bound);
  }

  lemma ScalarHeight(m: Member, ms: seq<Member>)
    requires m in ms && m.value == True
    ensures Height(m.value) < Height(Object(ms))
  {
    HeightOfMember(ms, m);
  }

  lemma GenerateUnfolds(fs: seq<Member>, ts: seq<Member>, cs: bool)
    ensures forall m | m in SortMembers(fs, cs) :: Height(m.value) < Height(Object(fs))
    ensures var ms := GenerateMembers(SortMembers(fs, cs), SortMembers(ts, cs), cs, Height(Object(fs)));
      Generate(Object(fs), Object(ts), cs) == if ms == [] then None else Some(Object(ms))
  {
    hide SortMembers, GenerateMembers;
    HeightOfSorted(fs, cs);
  }

  lemma InnerWalk(x: Member, y: Member, bound: nat)
    requires Less(y.key, x.key) && x.value == True && y.value == True && bound > 0
    ensures GenerateMembers([x, y], [y], false, bound) == [y, Member(x.key, Null), Member(y.key, Null)]
  {
    var none: seq<Member> := [];
    LessAsymmetric(y.key, x.key);
    assert [x, y][1..] == [y] && [y][1..] == none;
    DuplicateExact(True, 0);
    hide Less;
    assert GenerateMembers([y], none, false, bound) == [Member(y.key, Null)] + GenerateMembers(none, none, false, bound);
    assert GenerateMembers([x, y], none, false, bound) == [Member(x.key, Null)] + GenerateMembers([y], none, false, bound);
    assert GenerateMembers([x, y], [y], false, bound) == [y] + GenerateMembers([x, y], none, false, bound);
  }

  lemma ShorterDiffers(f: Json, t: Json, cs: bool)
    requires f.Object? && t.Object? && |f.members| != |t.members|
    ensures !CompareJson(f, t, cs)
  {
    var xs, ys := SortMembers(f.members, cs), SortMembers(t.members, cs);
    assert |multiset(xs)| == |multiset(f.members)| && |multiset(ys)| == |multiset(t.members)|;
  }

  lemma OneReplaced(k: string, f: Json, t: Json, cs: bool, bound: nat)
    requires ChildPatch(f, t, cs).Some? && Height(f) < bound
    ensures GenerateMembers([Member(k, f)], [Member(k, t)], cs, bound) == [Member(k, ChildPatch(f, t, cs).value)]
  {
    if Less(k, k) { LessAsymmetric(k, k); }
    assert [Member(k, f)][1..] == [] && [Member(k, t)][1..] == [];
    hide ChildPatch;
  }

  lemma NestMerged(x: string, y: string, cs: bool)
    requires x != y
    ensures Merge(Some(Nest(x, [Member(y, True), Member(x, True)])),
                  Nest(x, [Member(y, True), Member(x, Null), Member(y, Null)]), cs) == Some(Nest(x, []))
  {
    var inner := Object([Member(y, True), Member(x, True)]);
    var p := Object([Member(y, True), Member(x, Null), Member(y, Null)]);
    InnerMerged(x, y, cs);
    assert Merge(Some(inner), p, cs) == Some(Object([]));
    OneMerged(x, inner, p, cs);
  }

  lemma TwinMerged(x: string, y: string)
    requires Fold(x) == Fold(y)
    ensures Merge(Some(Nest(x, [Member(y, True), Member(x, True)])), Nest(x, [Member(x, Null)]), false) == Some(Nest(x, [Member(x, True)]))
  {
    var ms, p := [Member(y, True), Member(x, True)], [Member(x, Null)];
    var none: seq<Member> := [];
    assert ms[1..] == [Member(x, True)] && p[1..] == none;
    FirstRemoved(ms, p, false);
    NothingToMerge(ms[1..], false);
    assert Merge(Some(Object(ms)), Object(p), false) == Some(Object(ms[1..]));
    OneMerged(x, Object(ms), Object(p), false);
  }

  lemma OneMerged(k: string, j: Json, p: Json, cs: bool)
    requires !p.Null? && Merge(Some(j), p, cs).Some?
    ensures MergeMembers([Member(k, j)], [Member(k, p)], cs) == Some([Member(k, Merge(Some(j), p, cs).value)])
  {
    assert FindMember([Member(k, j)], k, cs) == Some(0);
    assert Without([Member(k, j)], 0) == [] && [Member(k, p)][1..] == [];
    hide Merge, FindMember, Without;
    var r := Merge(Some(j), p, cs).value;
    assert [] + [Member(k, r)] == [Member(k, r)];
    assert MergeMembers([Member(k, j)], [Member(k, p)], cs) == MergeMembers([Member(k, r)], [], cs);
  }

  /** The first member with a key is found in either mode, so the three steps leave nothing. */
  lemma InnerMerged(x: string, y: string, cs: bool)
    ensures MergeMembers([Member(y, True), Member(x, True)], [Member(y, True), Member(x, Null), Member(y, Null)], cs) == Some([])
  {
    hide MergeMembers;
    var mx, my := Member(x, True), Member(y, True);
    var p := [my, Member(x, Null), Member(y, Null)];
    var none: seq<Member> := [];
    assert p[1..] == [Member(x, Null), Member(y, Null)] && p[1..][1..] == [Member(y, Null)] && p[1..][1..][1..] == none;
    assert [my, mx][1..] == [mx] && [mx, my][1..] == [my] && [my][1..] == none && [mx] + [my] == [mx, my];
    FirstSet([my, mx], p, cs);
    FirstRemoved([mx, my], p[1..], cs);
    FirstRemoved([my], p[1..][1..], cs);
    NothingToMerge(none, cs);
  }

  lemma FirstSet(ms: seq<Member>, p: seq<Member>, cs: bool)
    requires ms != [] && p != [] && p[0].key == ms[0].key && p[0].value == True
    ensures MergeMembers(ms, p, cs) == MergeMembers(ms[1..] + [p[0]], p[1..], cs)
  {
    DuplicateExact(True, 0);
    assert FindMember(ms, p[0].key, cs) == Some(0) && Without(ms, 0) == ms[1..];
  }

  lemma FirstRemoved(ms: seq<Member>, p: seq<Member>, cs: bool)
    requires ms != [] && p != [] && SortKey(p[0].key, cs) == SortKey(ms[0].key, cs) && p[0].value == Null
    ensures MergeMembers(ms, p, cs) == MergeMembers(ms[1..], p[1..], cs)
  {
    assert FindMember(ms, p[0].key, cs) == Some(0) && Without(ms, 0) == ms[1..];
  }

  lemma NothingToMerge(ms: seq<Member>, cs: bool)
    ensures MergeMembers(ms, [], cs) == Some(ms)
  {
  }

  lemma NestPair(x: string, y: string, ks: iset<string>)
    requires x in ks && y in ks && x != y
    ensures var from, to := Nest(x, [Member(y, True), Member(x, True)]), Nest(x, [Member(y, True)]);
      Pair(from, to, from, ks) && Shallow(to)
  {
    HeightOfOne(Member(y, True));
    HeightOfOne(Member(x, Object([Member(y, True)])));
    ScalarsKeyed([Member(y, True), Member(x, True)], ks);
    ScalarsKeyed([Member(y, True)], ks);
    hide Height;
  }

  lemma HeightOfOne(m: Member)
    ensures Height(Object([m])) == 1 + Height(m.value)
  {
    assert HeightOfMembers([m]) == Max(1 + Height(m.value), HeightOfMembers([]));
  }

  lemma ScalarsKeyed(ms: seq<Member>, ks: iset<string>)
    requires DistinctKeys(ms) && forall m | m in ms :: m.key in ks && m.value == True
    ensures WellKeyed(Object(ms), ks)
  {
  }

  lemma NestDiffers(x: string, ms: seq<Member>, ns: seq<Member>)
    requires Keys(ms) != Keys(ns)
    ensures Sem(Nest(x, ms)) != Sem(Nest(x, ns))
  {
    FieldsKeys(ms);
    FieldsKeys(ns);
    FieldAt([Member(x, Object(ms))], 0);
    FieldAt([Member(x, Object(ns))], 0);
  }

  lemma NestExpressible(x: string, m: Member, f: Val)
    requires m.value == True
    ensures Expressible(f, Sem(Nest(x, [m])))
  {
    FieldAt([m], 0);
    FieldsKeys([m]);
    FieldAt([Member(x, Object([m]))], 0);
    FieldsKeys([Member(x, Object([m]))]);
    NoNullsExpressible(f, Sem(Nest(x, [m])));
  }
}
