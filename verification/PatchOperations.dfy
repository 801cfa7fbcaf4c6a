/** What each operation of a patch does to the value of a document: section 4 of RFC 6902, with the statuses of
    `apply_patch`.  Paths are the texts of steps to a container, and of a place in it. */
module PatchOperations {
  import opened CString
  import opened JsonTree
  import opened MergeSort
  import opened Compare
  import opened JsonPointer
  import opened PatchApply
  import opened PatchRoundTrip
  import MergePatch

  // ----- places

  /** Where a value can be put into a container. */
  datatype Place = AtKey(key: string) | AtIndex(index: nat) | AtEnd

  function PlaceToken(p: Place): (t: string)
    ensures '/' !in t
  {
    match p
    case AtKey(k) => Encode(k)
    case AtIndex(i) => Decimal(i)
    case AtEnd => "-"
  }

  /** The place is one of this kind of container. */
  predicate PlaceOf(v: Val, p: Place) {
    if p.AtKey? then v.VObject? else v.VArray?
  }

  ghost predicate PlaceFrom(p: Place, ks: iset<string>) {
    (p.AtKey? ==> p.key in ks) && (p.AtIndex? ==> p.index < ULONG_RANGE)
  }

  /** Section 4.1 of RFC 6902: inserted before the element at an index, appended, or set as a member; an index may not
      be greater than the number of elements. */
  function Inserted(v: Val, p: Place, w: Val): Option<Val> {
    match (v, p)
    case (VObject(f), AtKey(k)) => Some(VObject(f[k := w]))
    case (VArray(e), AtIndex(i)) => if i <= |e| then Some(VArray(e[..i] + [w] + e[i..])) else None
    case (VArray(e), AtEnd) => Some(VArray(e + [w]))
    case _ => None
  }

  lemma InsertAt(parent: Json, p: Place, x: Json, cs: bool, ks: iset<string>)
    requires WellKeyed(parent, ks) && WellKeyed(x, ks) && Patchable(ks) && PlaceFrom(p, ks) && PlaceOf(Sem(parent), p)
    ensures var v, r := Inserted(Sem(parent), p, Sem(x)), InsertChild(parent, DecodeToken(PlaceToken(p)), x, cs);
      if v.Some? then Applied(r, v.value, ks) else r.0 == 10
  {
    SemKind(parent);
    hide Sem, WellKeyed, Patchable, DecodeToken, Encode, DecodeIndex, FindMember;
    match p
    case AtKey(k) => InsertKey(parent, k, x, cs, ks);
    case AtIndex(i) =>
      IndexTokenDecodes(i);
      if i <= |parent.items| { InsertIndex(parent, i, x, cs, ks); }
    case AtEnd =>
      DashEncodes();
      InsertAtEnd(parent, x, cs, ks);
  }

  lemma DashEncodes()
    ensures Encode("-") == "-"
  {
    assert "-"[1..] == "";
  }

  /** Putting a value at a place of a container of the document. */
  lemma AddAt(doc: Json, q: seq<Step>, p: Place, x: Json, cs: bool, ks: iset<string>)
    requires Reaches(doc, q, ks) && WellKeyed(x, ks) && Patchable(ks) && PlaceFrom(p, ks) && PlaceOf(Get(Sem(doc), q).value, p)
    ensures var v := Inserted(Get(Sem(doc), q).value, p, Sem(x));
      var r := AddAtPath(doc, PathText(q) + "/" + PlaceToken(p), x, cs);
      if v.Some? then Applied(r, Set(Sem(doc), q, v.value), ks) else r == (10, doc)
  {
    assert Get(Sem(doc), q).Some?;
    hide Sem, WellKeyed, Patchable, DecodeToken, Locate, PathText, InsertChild, Applied, Inserted, Reaches, PlaceFrom, PlaceOf, Get, Set,
      LastSlash, PlaceToken, NodeAt, Put;
    ParentFound(doc, q, cs, ks);
    InsertAt(ParentOf(doc, q, cs), p, x, cs, ks);
    var v := Inserted(Get(Sem(doc), q).value, p, Sem(x));
    if v.Some? {
      InsertLifts(doc, q, PlaceToken(p), x, v.value, cs, ks);
    } else {
      RefusalLifts(doc, q, PlaceToken(p), x, cs);
    }
  }

  lemma RefusalLifts(doc: Json, q: seq<Step>, t: string, x: Json, cs: bool)
    requires '/' !in t && Locate(doc, PathText(q), cs).Some?
    requires InsertChild(ParentOf(doc, q, cs), DecodeToken(t), x, cs).0 == 10
    ensures AddAtPath(doc, PathText(q) + "/" + t, x, cs) == (10, doc)
  {
    hide DecodeToken, Locate, PathText, InsertChild, NodeAt, Put, LastSlash;
    SplitPath(q, t);
  }

  /** Taking a child out of a container of the document. */
  lemma DetachAt(doc: Json, q: seq<Step>, s: Step, cs: bool, ks: iset<string>)
    requires Reaches(doc, q, ks) && Patchable(ks) && StepsFrom([s], ks)
    requires var v := Get(Sem(doc), q).value; if s.Key? then v.VObject? else v.VArray?
    ensures var d, c := DetachPath(doc, PathText(q) + "/" + Token(s), cs), Child(Get(Sem(doc), q).value, s);
      && (d.Some? <==> c.Some?)
      && (d.Some? ==> WellKeyed(d.value.0, ks) && Sem(d.value.0) == c.value)
      && (d.Some? ==> WellKeyed(d.value.1, ks) && Sem(d.value.1) == Set(Sem(doc), q, WithoutChild(Get(Sem(doc), q).value, s)))
  {
    assert Get(Sem(doc), q).Some?;
    hide WellKeyed, Locate, PathText, DecodeToken, DetachChild, Patchable, Reaches, Sem, Set, Get, Token, StepsFrom, NodeAt, Put,
      WithoutChild, Child, LastSlash;
    ParentFound(doc, q, cs, ks);
    var parent := ParentOf(doc, q, cs);
    if Child(Get(Sem(doc), q).value, s).Some? {
      DetachOne(parent, s, ks);
      DetachLifts(doc, q, Token(s), cs, ks);
    } else {
      NoChild(parent, s, ks);
      SplitPath(q, Token(s));
    }
  }

  lemma NoChild(parent: Json, s: Step, ks: iset<string>)
    requires WellKeyed(parent, ks) && Patchable(ks) && StepsFrom([s], ks) && Child(Sem(parent), s).None?
    requires if s.Key? then Sem(parent).VObject? else Sem(parent).VArray?
    ensures DetachChild(parent, DecodeToken(Token(s))).None?
  {
    assert [s][0] == s;
    SemKind(parent);
    match s
    case Index(i) =>
      IndexTokenDecodes(i);
    case Key(k) =>
      KeyTokenDecodes(k, ks);
      FieldsKeys(parent.members);
      hide Sem, DecodeToken;
      FindMemberExact(parent.members, k, false, ks);
  }

  // ----- operations

  /** What the patch says, whatever the order and other members of its object. */
  predicate Says(patch: Json, op: string, path: string, cs: bool) {
    GetItem(patch, "op", cs) == Some(String(op)) && GetItem(patch, "path", cs) == Some(String(path))
  }

  /** The six words. */
  lemma SaysDecodes(patch: Json, op: string, path: string, cs: bool)
    requires Says(patch, op, path, cs)
    ensures PointerText(GetItem(patch, "path", cs)) == Some(path)
    ensures DecodeOperation(patch, cs) ==
      if op == "add" then OpAdd else if op == "remove" then OpRemove else if op == "replace" then OpReplace
      else if op == "move" then OpMove else if op == "copy" then OpCopy else if op == "test" then OpTest else OpInvalid
  {
    hide GetItem;
  }

  /** What the members of a patch are, in any order and in either case mode: keys that stay distinct when case is
      folded are told apart, other members do not matter. */
  lemma GetItemExact(patch: Json, k: string, cs: bool, ks: iset<string>)
    requires patch.Object? && DistinctKeys(patch.members) && KeysFrom(patch.members, ks) && k in ks && FoldInjective(ks)
    ensures forall m | m in patch.members && m.key == k :: GetItem(patch, k, cs) == Some(m.value)
    ensures k !in Keys(patch.members) ==> GetItem(patch, k, cs) == None
  {
    FindMemberExact(patch.members, k, cs, ks);
    forall m | m in patch.members && m.key == k ensures GetItem(patch, k, cs) == Some(m.value) {
      var i :| 0 <= i < |patch.members| && patch.members[i] == m;
      DistinctIndex(patch.members, i);
    }
  }

  lemma AddCopyIs(doc: Json, patch: Json, path: string, x: Json, cs: bool)
    requires GetItem(patch, "value", cs) == Some(x) && path != ""
    ensures AddCopy(doc, patch, path, cs) == if !MergePatch.Shallow(x) then (8, doc) else AddAtPath(doc, path, x, cs)
  {
    hide GetItem, AddAtPath;
    MergePatch.DuplicateExact(x, 0);
  }

  /** A detached value and the rest of the document, or a refusal. */
  function WithoutPath(doc: Json, path: string, cs: bool): (nat, Json) {
    match DetachPath(doc, path, cs)
    case None => (13, doc)
    case Some((_, rest)) => (0, rest)
  }

  /** Each word chooses its branch of `apply_patch`. */
  lemma BranchOf(doc: Json, patch: Json, op: string, path: string, cs: bool)
    requires Says(patch, op, path, cs)
    ensures ApplyPatch(doc, patch, cs) ==
      if op == "add" then AddCopy(doc, patch, path, cs)
      else if op == "remove" then ApplyRemove(doc, path, Plain(cs))
      else if op == "replace" then ApplyReplace(doc, patch, path, cs, Plain(cs))
      else if op == "move" then ApplyMove(doc, patch, path, cs, Plain(cs))
      else if op == "copy" then ApplyFrom(doc, patch, path, cs, Plain(cs))
      else if op == "test" then ApplyTest(doc, patch, path, cs, Plain(cs))
      else (3, doc)
  {
    hide Says, DecodeOperation, PointerText, GetItem, Plain, ApplyCopy, ApplyRemove, ApplyReplace, ApplyMove, ApplyFrom, ApplyTest;
    SaysDecodes(patch, op, path, cs);
  }

  lemma RemoveBranch(doc: Json, patch: Json, path: string, cs: bool)
    requires Says(patch, "remove", path, cs) && path != ""
    ensures ApplyPatch(doc, patch, cs) == WithoutPath(doc, path, cs)
  {
    hide Says, ApplyPatch, DetachPath;
    BranchOf(doc, patch, "remove", path, cs);
  }

  lemma ReplaceBranch(doc: Json, patch: Json, path: string, cs: bool)
    requires Says(patch, "replace", path, cs) && path != ""
    ensures var (status, rest) := WithoutPath(doc, path, cs);
      ApplyPatch(doc, patch, cs) == if status == 0 then AddCopy(rest, patch, path, cs) else (status, doc)
  {
    hide Says, ApplyPatch, ApplyCopy, DetachPath;
    BranchOf(doc, patch, "replace", path, cs);
  }

  lemma TestBranch(doc: Json, patch: Json, path: string, x: Json, cs: bool)
    requires Says(patch, "test", path, cs) && GetItem(patch, "value", cs) == Some(x)
    ensures var (same, next) := ComparePath(doc, path, x, cs);
      ApplyPatch(doc, patch, cs) == (if same then 0 else 1, next)
  {
    hide Says, ApplyPatch, GetItem, ComparePath;
    BranchOf(doc, patch, "test", path, cs);
  }

  lemma MoveBranch(doc: Json, patch: Json, from: string, path: string, cs: bool)
    requires Says(patch, "move", path, cs) && GetItem(patch, "from", cs) == Some(String(from))
    ensures var d := DetachPath(doc, from, cs);
      ApplyPatch(doc, patch, cs) == if d.None? then (5, doc) else AddAtPath(d.value.1, path, d.value.0, cs)
  {
    hide Says, ApplyPatch, GetItem, DetachPath, AddAtPath;
    BranchOf(doc, patch, "move", path, cs);
  }

  lemma CopyBranch(doc: Json, patch: Json, from: string, path: string, cs: bool)
    requires Says(patch, "copy", path, cs) && GetItem(patch, "from", cs) == Some(String(from)) && Locate(doc, from, cs).Some?
    ensures var x := NodeAt(doc, Locate(doc, from, cs).value);
      ApplyPatch(doc, patch, cs) == if !MergePatch.Shallow(x) then (6, doc) else AddAtPath(doc, path, x, cs)
  {
    hide Says, ApplyPatch, GetItem, Locate, AddAtPath, NodeAt, MergePatch.Duplicate;
    BranchOf(doc, patch, "copy", path, cs);
    MergePatch.DuplicateExact(NodeAt(doc, Locate(doc, from, cs).value), 0);
  }

  /** Section 4.1: add. */
  lemma AddExact(doc: Json, patch: Json, q: seq<Step>, p: Place, x: Json, cs: bool, ks: iset<string>)
    requires Says(patch, "add", PathText(q) + "/" + PlaceToken(p), cs) && GetItem(patch, "value", cs) == Some(x)
    requires Reaches(doc, q, ks) && WellKeyed(x, ks) && Patchable(ks) && PlaceFrom(p, ks) && PlaceOf(Get(Sem(doc), q).value, p)
    ensures var v, r := Inserted(Get(Sem(doc), q).value, p, Sem(x)), ApplyPatch(doc, patch, cs);
      if !MergePatch.Shallow(x) then r == (8, doc)
      else if v.Some? then Applied(r, Set(Sem(doc), q, v.value), ks)
      else r == (10, doc)
  {
    hide ApplyPatch, GetItem, Says, Reaches, Sem, WellKeyed, Patchable, PathText, AddCopy, AddAtPath, Inserted, Applied, PlaceOf, PlaceFrom, MergePatch.Shallow, Get, Set;
    var path := PathText(q) + "/" + PlaceToken(p);
    AddAt(doc, q, p, x, cs, ks);
    AddCopyIs(doc, patch, path, x, cs);
    BranchOf(doc, patch, "add", path, cs);
  }

  /** Section 4.2: remove. */
  lemma RemoveExact(doc: Json, patch: Json, q: seq<Step>, s: Step, cs: bool, ks: iset<string>)
    requires Says(patch, "remove", PathText(q) + "/" + Token(s), cs)
    requires Reaches(doc, q, ks) && Patchable(ks) && StepsFrom([s], ks)
    requires var v := Get(Sem(doc), q).value; if s.Key? then v.VObject? else v.VArray?
    ensures var v, r := Get(Sem(doc), q).value, ApplyPatch(doc, patch, cs);
      if Child(v, s).Some? then Applied(r, Set(Sem(doc), q, WithoutChild(v, s)), ks) else r == (13, doc)
  {
    assert Get(Sem(doc), q).Some?;
    hide ApplyPatch, GetItem, Says, Reaches, Sem, WellKeyed, Patchable, PathText, DetachPath, Child, WithoutChild, Get, Set, Token, StepsFrom;
    DetachAt(doc, q, s, cs, ks);
    RemoveBranch(doc, patch, PathText(q) + "/" + Token(s), cs);
  }

  /** Section 4.3: replace; a value that cannot be copied is lost together with the one it should replace. */
  lemma ReplaceExact(doc: Json, patch: Json, q: seq<Step>, s: Step, x: Json, cs: bool, ks: iset<string>)
    requires Says(patch, "replace", PathText(q) + "/" + Token(s), cs) && GetItem(patch, "value", cs) == Some(x)
    requires Reaches(doc, q, ks) && Patchable(ks) && StepsFrom([s], ks) && WellKeyed(x, ks)
    requires var v := Get(Sem(doc), q).value; if s.Key? then v.VObject? else v.VArray?
    ensures var v, r := Get(Sem(doc), q).value, ApplyPatch(doc, patch, cs);
      if Child(v, s).None? then r == (13, doc)
      else if !MergePatch.Shallow(x) then r.0 == 8 && Sem(r.1) == Set(Sem(doc), q, WithoutChild(v, s))
      else Applied(r, Set(Sem(doc), q, WithChild(v, s, Sem(x))), ks)
  {
    assert Get(Sem(doc), q).Some?;
    hide ApplyPatch, GetItem, Says, Reaches, Sem, WellKeyed, Patchable, PathText, DetachPath, AddCopy, AddAtPath, Child, WithoutChild, WithChild, Get, Set, Token, StepsFrom, MergePatch.Shallow;
    var path := PathText(q) + "/" + Token(s);
    DetachAt(doc, q, s, cs, ks);
    ReplaceBranch(doc, patch, path, cs);
    if Child(Get(Sem(doc), q).value, s).Some? {
      AddCopyIs(DetachPath(doc, path, cs).value.1, patch, path, x, cs);
      ReplaceBelow(doc, q, s, x, cs, ks);
    }
  }

  /** Section 4.4: move, as a removal followed by an addition to what is left. */
  lemma MoveExact(doc: Json, patch: Json, q: seq<Step>, s: Step, q': seq<Step>, p: Place, cs: bool, ks: iset<string>)
    requires Says(patch, "move", PathText(q') + "/" + PlaceToken(p), cs)
    requires GetItem(patch, "from", cs) == Some(String(PathText(q) + "/" + Token(s)))
    requires Reaches(doc, q, ks) && Patchable(ks) && StepsFrom([s], ks) && StepsFrom(q', ks) && PlaceFrom(p, ks)
    requires var v := Get(Sem(doc), q).value; if s.Key? then v.VObject? else v.VArray?
    ensures var v, r := Get(Sem(doc), q).value, ApplyPatch(doc, patch, cs);
      if Child(v, s).None? then r == (5, doc)
      else
        var left := Set(Sem(doc), q, WithoutChild(v, s));
        Get(left, q').Some? && PlaceOf(Get(left, q').value, p) ==> PutInto(r, left, q', p, Child(v, s).value, ks)
  {
    assert Get(Sem(doc), q).Some?;
    var from, path := PathText(q) + "/" + Token(s), PathText(q') + "/" + PlaceToken(p);
    hide ApplyPatch, GetItem, Says, DetachPath, AddAtPath, Child, WithoutChild, PathText, Token, Inserted, PlaceOf, PlaceFrom,
      Applied, Patchable, Set, Get, Sem, WellKeyed;
    DetachAt(doc, q, s, cs, ks);
    MoveBranch(doc, patch, from, path, cs);
    var d := DetachPath(doc, from, cs);
    if d.Some? && Get(Sem(d.value.1), q').Some? && PlaceOf(Get(Sem(d.value.1), q').value, p) {
      AddAt(d.value.1, q', p, d.value.0, cs, ks);
    }
  }

  /** The document `v` with `w` put at a place, or status 10 when there is no such place. */
  ghost predicate PutInto(r: (nat, Json), v: Val, q: seq<Step>, p: Place, w: Val, ks: iset<string>)
    requires Get(v, q).Some?
  {
    var inserted := Inserted(Get(v, q).value, p, w);
    if inserted.Some? then Applied(r, Set(v, q, inserted.value), ks) else r.0 == 10 && Sem(r.1) == v
  }

  /** Section 4.5: copy. */
  lemma CopyExact(doc: Json, patch: Json, from: seq<Step>, q: seq<Step>, p: Place, cs: bool, ks: iset<string>)
    requires Says(patch, "copy", PathText(q) + "/" + PlaceToken(p), cs)
    requires GetItem(patch, "from", cs) == Some(String(PathText(from)))
    requires Reaches(doc, from, ks) && Reaches(doc, q, ks) && Patchable(ks) && PlaceFrom(p, ks)
    requires PlaceOf(Get(Sem(doc), q).value, p)
    ensures Locate(doc, PathText(from), cs).Some?
    ensures var r := ApplyPatch(doc, patch, cs);
      if !MergePatch.Shallow(ParentOf(doc, from, cs)) then r == (6, doc)
      else PutInto(r, Sem(doc), q, p, Get(Sem(doc), from).value, ks)
  {
    assert Get(Sem(doc), from).Some? && Get(Sem(doc), q).Some?;
    hide ApplyPatch, GetItem, Says, Reaches, Sem, WellKeyed, Patchable, PathText, AddAtPath, Inserted, PlaceOf, PlaceFrom, Applied, Set, Get, Locate, NodeAt, MergePatch.Shallow;
    ParentFound(doc, from, cs, ks);
    CopyBranch(doc, patch, PathText(from), PathText(q) + "/" + PlaceToken(p), cs);
    AddAt(doc, q, p, ParentOf(doc, from, cs), cs, ks);
  }

  /** As far as the steps lead, an array meets an index and an object a key. */
  predicate Fitting(v: Val, steps: seq<Step>)
    decreases steps
  {
    steps == [] || (
      && (v.VArray? ==> steps[0].Index?) && (v.VObject? ==> steps[0].Key?)
      && (Child(v, steps[0]).Some? ==> Fitting(Child(v, steps[0]).value, steps[1..]))
    )
  }

  lemma {:induction false} FittingAligned(j: Json, steps: seq<Step>, ks: iset<string>)
    requires WellKeyed(j, ks) && Fitting(Sem(j), steps)
    ensures Aligned(j, steps)
    decreases steps
  {
    if steps != [] {
      SemKind(j);
      SemChild(j, steps[0], ks);
      hide Sem, WellKeyed;
      var i := StepChild(j, steps[0]);
      if i.Some? { FittingAligned(Children(j)[i.value], steps[1..], ks); }
    }
  }

  /** Comparing the value at a path decides whether they are equal, and keeps the meaning of the document. */
  lemma ComparedAt(doc: Json, steps: seq<Step>, x: Json, cs: bool, ks: iset<string>)
    requires WellKeyed(doc, ks) && FoldInjective(ks) && StepsFrom(steps, ks) && Fitting(Sem(doc), steps) && WellKeyed(x, ks)
    ensures var (same, next) := ComparePath(doc, PathText(steps), x, cs);
      (same <==> Get(Sem(doc), steps) == Some(Sem(x))) && WellKeyed(next, ks) && Sem(next) == Sem(doc)
  {
    hide Sem, WellKeyed, PathText, Locate, CompareJson, Walked, Get, Set, FoldInjective, StepsFrom, NodeAt, Put, Resolve, Fitting, Aligned;
    FittingAligned(doc, steps, ks);
    SemResolve(doc, steps, ks);
    LocatePath(doc, steps, cs, ks);
    if Resolve(doc, steps).Some? {
      var node := NodeAt(doc, Resolve(doc, steps).value);
      CompareJsonDecides(node, x, cs, ks);
      WalkedKeeps(node, x, cs, ks);
      SemPut(doc, steps, Walked(node, x, cs), ks);
      SetLaws(Sem(doc), steps, Sem(node));
    }
  }

  /** Section 4.6: test, which sorts what it compares. */
  lemma TestExact(doc: Json, patch: Json, steps: seq<Step>, x: Json, cs: bool, ks: iset<string>)
    requires Says(patch, "test", PathText(steps), cs) && GetItem(patch, "value", cs) == Some(x)
    requires WellKeyed(doc, ks) && FoldInjective(ks) && StepsFrom(steps, ks) && Fitting(Sem(doc), steps) && WellKeyed(x, ks)
    ensures var (status, next) := ApplyPatch(doc, patch, cs);
      && status == (if Get(Sem(doc), steps) == Some(Sem(x)) then 0 else 1)
      && WellKeyed(next, ks) && Sem(next) == Sem(doc)
  {
    hide ApplyPatch, GetItem, Says, Sem, WellKeyed, PathText, ComparePath, Get, FoldInjective, StepsFrom, Fitting;
    ComparedAt(doc, steps, x, cs, ks);
    TestBranch(doc, patch, PathText(steps), x, cs);
  }

  /** Add, replace and remove at the root. */
  lemma RootExact(doc: Json, patch: Json, op: string, x: Json, cs: bool, ks: iset<string>)
    requires Says(patch, op, "", cs) && (op == "add" || op == "replace" || op == "remove")
    requires op != "remove" ==> GetItem(patch, "value", cs) == Some(x) && WellKeyed(x, ks)
    ensures var r := ApplyPatch(doc, patch, cs);
      if op == "remove" then Applied(r, VInvalid, ks)
      else if MergePatch.Shallow(x) then Applied(r, Sem(x), ks)
      else r == (8, doc)
  {
    SaysDecodes(patch, op, "", cs);
    hide Says, DecodeOperation, PointerText, GetItem, MergePatch.Duplicate, WellKeyed, Sem;
    MergePatch.DuplicateExact(x, 0);
    assert WellKeyed(Invalid, ks) && Sem(Invalid) == VInvalid by { InvalidMeans(ks); }
  }

  lemma InvalidMeans(ks: iset<string>)
    ensures WellKeyed(Invalid, ks) && Sem(Invalid) == VInvalid
  {
  }

  /** Nothing can be taken from, or put into, what is no container. */
  predicate NoContainer(v: Option<Val>) {
    v.None? || (!v.value.VArray? && !v.value.VObject?)
  }

  /** A path whose container is missing: status 13 for remove and replace, 9 for add, and no change. */
  lemma MissingExact(doc: Json, patch: Json, op: string, q: seq<Step>, t: string, x: Json, cs: bool, ks: iset<string>)
    requires Says(patch, op, PathText(q) + "/" + t, cs) && '/' !in t && (op == "add" ==> GetItem(patch, "value", cs) == Some(x))
    requires WellKeyed(doc, ks) && FoldInjective(ks) && StepsFrom(q, ks) && Fitting(Sem(doc), q) && NoContainer(Get(Sem(doc), q))
    ensures op == "remove" || op == "replace" ==> ApplyPatch(doc, patch, cs) == (13, doc)
    ensures op == "add" ==> ApplyPatch(doc, patch, cs) == (if MergePatch.Shallow(x) then 9 else 8, doc)
  {
    hide ApplyPatch, GetItem, Says, Sem, WellKeyed, PathText, Get, FoldInjective, StepsFrom, Fitting, DetachPath, AddAtPath, AddCopy;
    var path := PathText(q) + "/" + t;
    NothingThere(doc, q, t, x, cs, ks);
    match op
    case "add" =>
      BranchOf(doc, patch, op, path, cs);
      AddCopyIs(doc, patch, path, x, cs);
    case "remove" => RemoveBranch(doc, patch, path, cs);
    case "replace" => ReplaceBranch(doc, patch, path, cs);
    case _ =>
  }

  lemma NothingThere(doc: Json, q: seq<Step>, t: string, x: Json, cs: bool, ks: iset<string>)
    requires WellKeyed(doc, ks) && FoldInjective(ks) && StepsFrom(q, ks) && Fitting(Sem(doc), q) && NoContainer(Get(Sem(doc), q)) && '/' !in t
    ensures DetachPath(doc, PathText(q) + "/" + t, cs) == None && AddAtPath(doc, PathText(q) + "/" + t, x, cs) == (9, doc)
  {
    hide Sem, WellKeyed, PathText, Get, FoldInjective, StepsFrom, Fitting, Locate, Resolve, DecodeToken, LastSlash, NodeAt, Put, Aligned,
      DetachChild, InsertChild;
    FittingAligned(doc, q, ks);
    SemResolve(doc, q, ks);
    LocatePath(doc, q, cs, ks);
    SplitPath(q, t);
    var loc := Locate(doc, PathText(q), cs);
    if loc.Some? {
      SemKind(NodeAt(doc, loc.value));
      ScalarRefuses(NodeAt(doc, loc.value), DecodeToken(t), x, cs);
    }
  }

  lemma ScalarRefuses(parent: Json, child: string, x: Json, cs: bool)
    requires !parent.Array? && !parent.Object?
    ensures DetachChild(parent, child) == None && InsertChild(parent, child, x, cs) == (9, parent)
  {
  }

  // ----- patches that are refused

  /** A patch without a path, or with a path that is no string, gives status 2; any other word than the six gives status 3;
      neither changes the document. */
  lemma MalformedRefused(doc: Json, patch: Json, cs: bool)
    ensures var path, op := GetItem(patch, "path", cs), GetItem(patch, "op", cs);
      && (path.None? || !path.value.String? ==> ApplyPatch(doc, patch, cs) == (2, doc))
      && (path.Some? && path.value.String?
          && (op.None? || !op.value.String? || op.value.valuestring !in {"add", "remove", "replace", "move", "copy", "test"}) ==>
          ApplyPatch(doc, patch, cs) == (3, doc))
  {
    hide GetItem;
  }

  /** A missing "from" gives status 4, one that is no string 5; the document stays as it was. */
  lemma FromRefused(doc: Json, patch: Json, op: string, path: string, cs: bool)
    requires Says(patch, op, path, cs) && (op == "move" || op == "copy")
    ensures GetItem(patch, "from", cs).None? ==> ApplyPatch(doc, patch, cs) == (4, doc)
    ensures GetItem(patch, "from", cs).Some? && !GetItem(patch, "from", cs).value.String? ==> ApplyPatch(doc, patch, cs) == (5, doc)
  {
    hide Says, ApplyPatch, GetItem, Plain;
    BranchOf(doc, patch, op, path, cs);
  }

  /** A missing "value" gives status 7 for add and replace, 1 for test.  The document stays as it was, but for replace, which
      has removed the old value by then. */
  lemma ValueMissing(doc: Json, patch: Json, op: string, path: string, cs: bool)
    requires Says(patch, op, path, cs) && GetItem(patch, "value", cs).None?
    ensures op == "test" ==> ApplyPatch(doc, patch, cs) == (1, doc)
    ensures op == "add" || (op == "replace" && path == "") ==> ApplyPatch(doc, patch, cs) == (7, doc)
    ensures op == "replace" && path != "" ==> var (status, rest) := WithoutPath(doc, path, cs);
      ApplyPatch(doc, patch, cs) == (if status == 0 then 7 else 13, rest)
  {
    hide Says, ApplyPatch, GetItem, DetachPath;
    match op
    case "replace" => BranchOf(doc, patch, "replace", path, cs);
    case "add" => BranchOf(doc, patch, "add", path, cs);
    case "test" => BranchOf(doc, patch, "test", path, cs);
    case _ =>
  }

  /** The last token of a path is no index of an array: another word than "-" with something else than digits, or with a
      zero before other digits. */
  predicate NoIndex(t: string) {
    t != "-" && !(AllDigits(t) && (|t| <= 1 || t[0] != '0'))
  }

  /** A word that is no index gives status 11 when adding to an array, 13 when removing from it; nothing changes. */
  lemma NoIndexRefused(doc: Json, patch: Json, op: string, parent: string, t: string, x: Json, cs: bool)
    requires Says(patch, op, parent + "/" + t, cs) && '/' !in t && '~' !in t && NoIndex(t)
    requires Locate(doc, parent, cs).Some? && NodeAt(doc, Locate(doc, parent, cs).value).Array?
    requires op == "add" ==> GetItem(patch, "value", cs) == Some(x)
    ensures op == "remove" || op == "replace" ==> ApplyPatch(doc, patch, cs) == (13, doc)
    ensures op == "add" ==> ApplyPatch(doc, patch, cs) == (if MergePatch.Shallow(x) then 11 else 8, doc)
  {
    hide ApplyPatch, GetItem, Says, DetachPath, AddAtPath, AddCopy, Locate, NodeAt, MergePatch.Shallow;
    var path := parent + "/" + t;
    NoIndexThere(doc, parent, t, x, cs);
    match op
    case "add" =>
      BranchOf(doc, patch, op, path, cs);
      AddCopyIs(doc, patch, path, x, cs);
    case "remove" => RemoveBranch(doc, patch, path, cs);
    case "replace" => ReplaceBranch(doc, patch, path, cs);
    case _ =>
  }

  lemma NoIndexThere(doc: Json, parent: string, t: string, x: Json, cs: bool)
    requires '/' !in t && '~' !in t && NoIndex(t)
    requires Locate(doc, parent, cs).Some? && NodeAt(doc, Locate(doc, parent, cs).value).Array?
    ensures DetachPath(doc, parent + "/" + t, cs) == None && AddAtPath(doc, parent + "/" + t, x, cs) == (11, doc)
  {
    hide Locate, NodeAt, DecodeToken, LastSlash, Put, DecodeIndex;
    LastSlashAt(parent, t);
    PlainTokenKept(t);
    IndexDenoted(t, "");
    assert t + "" == t;
  }

  lemma LastSlashAt(parent: string, t: string)
    requires '/' !in t
    ensures var path := parent + "/" + t;
      LastSlash(path) == Some(|parent|) && path[..|parent|] == parent && path[|parent|+1..] == t
  {
    var path := parent + "/" + t;
    assert path[|parent|] == '/' && path[|parent|+1..] == t && path[..|parent|] == parent;
  }

  /** Without a slash in its path a patch finds no container: status 13 for remove and replace, 9 for add, and no change. */
  lemma SlashFreeRefused(doc: Json, patch: Json, op: string, path: string, x: Json, cs: bool)
    requires Says(patch, op, path, cs) && '/' !in path && path != "" && (op == "add" ==> GetItem(patch, "value", cs) == Some(x))
    ensures op == "remove" || op == "replace" ==> ApplyPatch(doc, patch, cs) == (13, doc)
    ensures op == "add" ==> ApplyPatch(doc, patch, cs) == (if MergePatch.Shallow(x) then 9 else 8, doc)
  {
    hide ApplyPatch, GetItem, Says, AddCopy, MergePatch.Shallow;
    match op
    case "add" =>
      BranchOf(doc, patch, op, path, cs);
      AddCopyIs(doc, patch, path, x, cs);
    case "remove" => RemoveBranch(doc, patch, path, cs);
    case "replace" => ReplaceBranch(doc, patch, path, cs);
    case _ =>
  }

  /** Without a slash in its path a test compares the whole document. */
  lemma SlashFreeTest(doc: Json, patch: Json, path: string, x: Json, cs: bool, ks: iset<string>)
    requires Says(patch, "test", path, cs) && GetItem(patch, "value", cs) == Some(x) && '/' !in path
    requires WellKeyed(doc, ks) && WellKeyed(x, ks) && FoldInjective(ks)
    ensures ApplyPatch(doc, patch, cs).0 == 0 <==> Sem(doc) == Sem(x)
  {
    hide ApplyPatch, GetItem, Says, CompareJson, Walked, Sem, WellKeyed, FoldInjective;
    TestBranch(doc, patch, path, x, cs);
    CompareJsonDecides(doc, x, cs, ks);
  }

  /** A move whose target has no container: status 9, after the value has been taken away and lost. */
  lemma MoveLost(doc: Json, patch: Json, q: seq<Step>, s: Step, q': seq<Step>, t: string, cs: bool, ks: iset<string>)
    requires Says(patch, "move", PathText(q') + "/" + t, cs) && '/' !in t
    requires GetItem(patch, "from", cs) == Some(String(PathText(q) + "/" + Token(s)))
    requires Reaches(doc, q, ks) && Patchable(ks) && StepsFrom([s], ks) && StepsFrom(q', ks)
    requires var v := Get(Sem(doc), q).value; (if s.Key? then v.VObject? else v.VArray?) && Child(v, s).Some?
    requires var left := Set(Sem(doc), q, WithoutChild(Get(Sem(doc), q).value, s)); Fitting(left, q') && NoContainer(Get(left, q'))
    ensures var (status, next) := ApplyPatch(doc, patch, cs);
      status == 9 && Sem(next) == Set(Sem(doc), q, WithoutChild(Get(Sem(doc), q).value, s))
  {
    assert Get(Sem(doc), q).Some? && FoldInjective(ks);
    var from, path := PathText(q) + "/" + Token(s), PathText(q') + "/" + t;
    hide ApplyPatch, GetItem, Says, DetachPath, AddAtPath, Child, WithoutChild, PathText, Token, Patchable, Set, Get, Sem, WellKeyed,
      Fitting, NoContainer, FoldInjective;
    DetachAt(doc, q, s, cs, ks);
    MoveBranch(doc, patch, from, path, cs);
    var d := DetachPath(doc, from, cs);
    NothingThere(d.value.1, q', t, d.value.0, cs, ks);
  }

  /** A copy whose target has no container: status 9, and no change. */
  lemma CopyMissing(doc: Json, patch: Json, from: seq<Step>, q: seq<Step>, t: string, cs: bool, ks: iset<string>)
    requires Says(patch, "copy", PathText(q) + "/" + t, cs) && '/' !in t
    requires GetItem(patch, "from", cs) == Some(String(PathText(from)))
    requires Reaches(doc, from, ks) && StepsFrom(q, ks) && Patchable(ks)
    requires Fitting(Sem(doc), q) && NoContainer(Get(Sem(doc), q))
    ensures Locate(doc, PathText(from), cs).Some?
    ensures ApplyPatch(doc, patch, cs) == (if MergePatch.Shallow(ParentOf(doc, from, cs)) then 9 else 6, doc)
  {
    assert FoldInjective(ks) && WellKeyed(doc, ks);
    hide ApplyPatch, GetItem, Says, Reaches, Sem, WellKeyed, Patchable, PathText, AddAtPath, Get, Locate, NodeAt, MergePatch.Shallow,
      Fitting, NoContainer, FoldInjective;
    ParentFound(doc, from, cs, ks);
    CopyBranch(doc, patch, PathText(from), PathText(q) + "/" + t, cs);
    NothingThere(doc, q, t, ParentOf(doc, from, cs), cs, ks);
  }
}
