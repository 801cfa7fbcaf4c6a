/** Patches on documents as they are in memory: a test sorts member lists in place, which can leave a list without its
    tail, and what is then appended is lost. */
module PatchDocument {
  import opened CString
  import opened JsonTree
  import opened MergeSort
  import opened Compare
  import opened JsonPointer
  import opened ListTail
  import opened LinkedTree
  import opened PatchApply
  import opened PatchGenerate
  import opened PatchRoundTrip
  import PatchOperations
  import MergePatch

  // ----- locations

  function Nodes(t: Tree): (r: seq<Tree>)
    ensures |r| == |Children(Erase(t))| && forall i | 0 <= i < |r| :: Erase(r[i]) == Children(Erase(t))[i]
  {
    match t
    case Scalar(_) => []
    case List(ts) => ts
    case Table(fs, _) => seq(|fs|, i requires 0 <= i < |fs| => fs[i].value)
  }

  function At(t: Tree, loc: Loc): (r: Tree)
    requires ValidLoc(Erase(t), loc)
    ensures Erase(r) == NodeAt(Erase(t), loc)
    decreases loc
  {
    if loc == [] then t else At(Nodes(t)[loc[0]], loc[1..])
  }

  function PutAt(t: Tree, loc: Loc, x: Tree): Tree
    requires ValidLoc(Erase(t), loc)
    decreases loc
  {
    if loc == [] then x
    else
      var i := loc[0];
      var child := PutAt(Nodes(t)[i], loc[1..], x);
      match t
      case List(ts) => List(ts[i := child])
      case Table(fs, tail) => Table(fs[i := Field(fs[i].key, child)], tail)
  }

  lemma {:induction false} PutErases(t: Tree, loc: Loc, x: Tree)
    requires ValidLoc(Erase(t), loc)
    ensures Erase(PutAt(t, loc, x)) == Put(Erase(t), loc, Erase(x))
    decreases loc
  {
    if loc != [] {
      var i := loc[0];
      PutErases(Nodes(t)[i], loc[1..], x);
      var child := PutAt(Nodes(t)[i], loc[1..], x);
      if t.List? {
        assert LinkedTree.Values(t.items[i := child]) == LinkedTree.Values(t.items)[i := Erase(child)];
      } else {
        assert Members(t.fields[i := Field(t.fields[i].key, child)]) == Members(t.fields)[i := Member(t.fields[i].key, Erase(child))];
      }
    }
  }

  // ----- the steps of a patch

  function DetachTree(parent: Tree, child: string): Option<(Tree, Tree)> {
    match parent
    case List(ts) =>
      (match DecodeIndex(child)
       case Some(i) => if i < |ts| then Some((ts[i], List(Without(ts, i)))) else None
       case None => None)
    case Table(fs, tail) =>
      (match FindMember(Members(fs), child, false)
       case Some(i) => Some((fs[i].value, Table(Without(fs, i), DetachTail(|fs|, tail, i))))
       case None => None)
    case Scalar(_) => None
  }

  /** `detach_path`. */
  function DetachAt(d: Tree, path: string, cs: bool): Option<(Tree, Tree)> {
    var slash := LastSlash(path);
    if slash.None? then None
    else match Locate(Erase(d), path[..slash.value], cs)
      case None => None
      case Some(loc) =>
        match DetachTree(At(d, loc), DecodeToken(path[slash.value+1..]))
        case None => None
        case Some((item, rest)) => Some((item, PutAt(d, loc, rest)))
  }

  /** No status of the program: to append, it would have to follow a link to an item that is gone, which has no defined
      meaning. */
  const UNDEFINED := 14

  /** The members among which a value is put under a key, and their tail: an old member with that key goes first. */
  function Cleared(fs: seq<Field>, tail: Tail, child: string, cs: bool): (seq<Field>, Tail) {
    match FindMember(Members(fs), child, cs)
    case Some(i) => (Without(fs, i), DetachTail(|fs|, tail, i))
    case None => (fs, tail)
  }

  function InsertTree(parent: Tree, child: string, x: Tree, cs: bool): (nat, Tree) {
    match parent
    case List(ts) =>
      if child == "-" then (0, List(ts + [x]))
      else (match DecodeIndex(child)
        case None => (11, parent)
        case Some(i) =>
          if i > |ts| then (10, parent) else (0, List(ts[..i] + [x] + ts[i..])))
    case Table(fs, tail) =>
      var (rest, tail') := Cleared(fs, tail, child, cs);
      if !Defined(rest, tail') then (UNDEFINED, parent)
      else
        var (r, t) := Appended(rest, tail', Field(child, x));
        (0, Table(r, t))
    case Scalar(_) => (9, parent)
  }

  /** The last part of `apply_patch`: put a value at a path. */
  function AddAt(d: Tree, path: string, x: Tree, cs: bool): (nat, Tree) {
    var slash := LastSlash(path);
    if slash.None? then (9, d)
    else match Locate(Erase(d), path[..slash.value], cs)
      case None => (9, d)
      case Some(loc) =>
        var (status, parent) := InsertTree(At(d, loc), DecodeToken(path[slash.value+1..]), x, cs);
        (status, if status == 0 then PutAt(d, loc, parent) else d)
  }

  function CompareAt(d: Tree, path: string, v: Json, cs: bool): (bool, Tree) {
    match Locate(Erase(d), path, cs)
    case None => (false, d)
    case Some(loc) => (CompareJson(Erase(At(d, loc)), v, cs), PutAt(d, loc, Compared(At(d, loc), v, cs)))
  }

  function Linked(cs: bool): Form<Tree> {
    Form((t: Tree) => Erase(t), (j: Json) => Fresh(j),
         (d: Tree, path: string) => DetachAt(d, path, cs),
         (d: Tree, path: string, x: Tree) => AddAt(d, path, x, cs),
         (d: Tree, path: string, v: Json) => CompareAt(d, path, v, cs))
  }

  /** A document that patches change in place. */
  class Document {
    var root: Tree

    constructor (j: Json)
      ensures root == Fresh(j)
    {
      root := Fresh(j);
    }

    /** `cJSONUtils_ApplyPatches` and its case-sensitive twin. */
    method ApplyPatches(patches: Json, cs: bool) returns (status: nat)
      requires patches.Array? ==> Run(root, patches.items, cs, Linked(cs)).0 != UNDEFINED
      modifies this
      ensures !patches.Array? ==> status == 1 && root == old(root)
      ensures patches.Array? ==> (status, root) == Run(old(root), patches.items, cs, Linked(cs))
    {
      if !patches.Array? { return 1; }
      var i := 0;
      while i < |patches.items|
        invariant i <= |patches.items|
        invariant Run(root, patches.items[i..], cs, Linked(cs)) == Run(old(root), patches.items, cs, Linked(cs))
      {
        var (s, next) := Apply(root, patches.items[i], cs, Linked(cs));
        assert patches.items[i..][1..] == patches.items[i+1..];
        root := next;
        if s != 0 { return s; }
        i := i + 1;
      }
      return 0;
    }
  }

  // ----- apart from the tails

  lemma DetachErases(parent: Tree, child: string)
    ensures var r, e := DetachTree(parent, child), DetachChild(Erase(parent), child);
      && (r.Some? <==> e.Some?)
      && (r.Some? ==> Erase(r.value.0) == e.value.0 && Erase(r.value.1) == e.value.1)
  {
    hide DecodeIndex, FindMember, Without;
    if parent.List? {
      ValuesWithout(parent.items);
    } else if parent.Table? {
      MembersWithout(parent.fields);
    }
  }

  lemma ValuesWithout(ts: seq<Tree>)
    ensures forall i: nat | i < |ts| :: LinkedTree.Values(Without(ts, i)) == Without(LinkedTree.Values(ts), i)
  {
    hide Erase;
  }

  lemma MembersWithout(fs: seq<Field>)
    ensures forall i: nat | i < |fs| :: Members(Without(fs, i)) == Without(Members(fs), i)
  {
    hide Erase;
  }

  lemma DetachAtErases(d: Tree, path: string, cs: bool)
    ensures var r, e := DetachAt(d, path, cs), DetachPath(Erase(d), path, cs);
      && (r.Some? <==> e.Some?)
      && (r.Some? ==> Erase(r.value.0) == e.value.0 && Erase(r.value.1) == e.value.1)
  {
    hide LastSlash, Locate, DetachTree, DetachChild, DecodeToken, PutAt, Put, NodeAt, At;
    var slash := LastSlash(path);
    if slash.Some? && Locate(Erase(d), path[..slash.value], cs).Some? {
      var loc, child := Locate(Erase(d), path[..slash.value], cs).value, DecodeToken(path[slash.value+1..]);
      DetachErases(At(d, loc), child);
      var r := DetachTree(At(d, loc), child);
      if r.Some? { PutErases(d, loc, r.value.1); }
    }
  }

  lemma CompareErases(d: Tree, path: string, v: Json, cs: bool)
    ensures var (same, next) := CompareAt(d, path, v, cs); ComparePath(Erase(d), path, v, cs) == (same, Erase(next))
  {
    hide Locate, Compared, Walked, CompareJson, PutAt, Put, NodeAt, At;
    if Locate(Erase(d), path, cs).Some? {
      var loc := Locate(Erase(d), path, cs).value;
      ComparedErases(At(d, loc), v, cs);
      PutErases(d, loc, Compared(At(d, loc), v, cs));
    }
  }

  /** Appending finds the end of the list. */
  predicate Appendable(parent: Tree, child: string, cs: bool) {
    parent.Table? ==> var (rest, tail) := Cleared(parent.fields, parent.tail, child, cs); AtEnd(rest, tail)
  }

  /** A value is put into a parent as if there were no tails exactly when the list ends at its tail. */
  lemma InsertErases(parent: Tree, child: string, x: Tree, cs: bool)
    ensures var (status, r) := InsertTree(parent, child, x, cs);
      (status, Erase(r)) == InsertChild(Erase(parent), child, Erase(x), cs) <==> Appendable(parent, child, cs)
    ensures InsertChild(Erase(parent), child, Erase(x), cs).0 != 0 ==> Appendable(parent, child, cs)
  {
    match parent
    case List(ts) => InsertListErases(ts, child, x, cs);
    case Table(fs, tail) =>
      hide DecodeIndex, FindMember, DetachTail, Appended, Erase;
      ClearedErases(fs, tail, child, cs);
      var (rest, tail') := Cleared(fs, tail, child, cs);
      AppendErases(rest, tail', Field(child, x));
    case Scalar(_) =>
  }

  lemma InsertListErases(ts: seq<Tree>, child: string, x: Tree, cs: bool)
    ensures var (status, r) := InsertTree(List(ts), child, x, cs);
      (status, Erase(r)) == InsertChild(Array(LinkedTree.Values(ts)), child, Erase(x), cs)
  {
    hide DecodeIndex, Erase, LinkedTree.Values;
    ListValue(ts);
    ListValue(ts + [x]);
    ValuesAppended(ts, x);
    var i := DecodeIndex(child);
    if child != "-" && i.Some? && i.value <= |ts| {
      ValuesInserted(ts, i.value, x);
      ListValue(ts[..i.value] + [x] + ts[i.value..]);
    }
  }

  lemma ValuesAppended(ts: seq<Tree>, x: Tree)
    ensures |LinkedTree.Values(ts)| == |ts| && LinkedTree.Values(ts + [x]) == LinkedTree.Values(ts) + [Erase(x)]
  {
    hide Erase;
  }

  lemma ListValue(ts: seq<Tree>)
    ensures Erase(List(ts)) == Array(LinkedTree.Values(ts))
  {
  }

  lemma ValuesInserted(ts: seq<Tree>, i: nat, x: Tree)
    requires i <= |ts|
    ensures LinkedTree.Values(ts[..i] + [x] + ts[i..]) == LinkedTree.Values(ts)[..i] + [Erase(x)] + LinkedTree.Values(ts)[i..]
  {
    hide Erase;
  }

  lemma ClearedErases(fs: seq<Field>, tail: Tail, child: string, cs: bool)
    ensures Members(Cleared(fs, tail, child, cs).0) ==
      match FindMember(Members(fs), child, cs)
      case Some(i) => Without(Members(fs), i)
      case None => Members(fs)
  {
    hide FindMember;
    var f := FindMember(Members(fs), child, cs);
    if f.Some? { assert Members(Without(fs, f.value)) == Without(Members(fs), f.value); }
  }

  lemma AppendErases(fs: seq<Field>, tail: Tail, f: Field)
    ensures AtEnd(fs, tail) ==> Defined(fs, tail)
    ensures Defined(fs, tail) ==>
      (Members(Appended(fs, tail, f).0) == Members(fs) + [Member(f.key, Erase(f.value))] <==> AtEnd(fs, tail))
  {
    hide Erase;
    if AtEnd(fs, tail) { assert Members(fs + [f]) == Members(fs) + [Member(f.key, Erase(f.value))]; }
  }

  lemma AddErases(d: Tree, path: string, x: Tree, cs: bool)
    ensures var (status, r) := AddAt(d, path, x, cs);
      (status, Erase(r)) == AddAtPath(Erase(d), path, Erase(x), cs) <==> AppendableAt(d, path, cs)
  {
    hide LastSlash, Locate, InsertTree, InsertChild, DecodeToken, PutAt, Put, NodeAt, At, Appendable;
    var slash := LastSlash(path);
    if slash.Some? && Locate(Erase(d), path[..slash.value], cs).Some? {
      var loc, child := Locate(Erase(d), path[..slash.value], cs).value, DecodeToken(path[slash.value+1..]);
      InsertErases(At(d, loc), child, x, cs);
      var (status, r) := InsertTree(At(d, loc), child, x, cs);
      var e := InsertChild(Erase(At(d, loc)), child, Erase(x), cs);
      PutErases(d, loc, r);
      if status == 0 == e.0 { PutSame(Erase(d), loc, Erase(r), e.1); }
    }
  }

  /** Appending at this path finds the end of the list, if there is one. */
  predicate AppendableAt(d: Tree, path: string, cs: bool) {
    var slash := LastSlash(path);
    slash.Some? && Locate(Erase(d), path[..slash.value], cs).Some? ==>
      Appendable(At(d, Locate(Erase(d), path[..slash.value], cs).value), DecodeToken(path[slash.value+1..]), cs)
  }

  lemma {:induction false} PutSame(j: Json, loc: Loc, x: Json, y: Json)
    requires ValidLoc(j, loc)
    ensures Put(j, loc, x) == Put(j, loc, y) <==> x == y
    decreases loc
  {
    if loc != [] {
      var i := loc[0];
      PutSame(Children(j)[i], loc[1..], x, y);
      var a, b := Put(Children(j)[i], loc[1..], x), Put(Children(j)[i], loc[1..], y);
      if j.Array? && x != y {
        assert j.items[i := a][i] != j.items[i := b][i];
      } else if j.Object? && x != y {
        assert j.members[i := Member(j.members[i].key, a)][i] != j.members[i := Member(j.members[i].key, b)][i];
      }
    }
  }

  // ----- documents whose lists all end at their tails

  lemma {:induction false} WholeAt(t: Tree, loc: Loc)
    requires ValidLoc(Erase(t), loc) && Whole(t)
    ensures Whole(At(t, loc))
    decreases loc
  {
    if loc != [] { WholeAt(Nodes(t)[loc[0]], loc[1..]); }
  }

  lemma {:induction false} WholePut(t: Tree, loc: Loc, x: Tree)
    requires ValidLoc(Erase(t), loc) && Whole(t) && Whole(x)
    ensures Whole(PutAt(t, loc, x))
    decreases loc
  {
    if loc != [] { WholePut(Nodes(t)[loc[0]], loc[1..], x); }
  }

  lemma WholeDetached(parent: Tree, child: string)
    requires Whole(parent)
    ensures var r := DetachTree(parent, child); r.Some? ==> Whole(r.value.0) && Whole(r.value.1)
  {
    hide DecodeIndex, FindMember;
  }

  lemma WholeDetachAt(d: Tree, path: string, cs: bool)
    requires Whole(d)
    ensures var r := DetachAt(d, path, cs); r.Some? ==> Whole(r.value.0) && Whole(r.value.1)
  {
    hide LastSlash, Locate, DetachTree, DetachChild, DecodeToken, PutAt, Put, NodeAt, At, Whole;
    var slash := LastSlash(path);
    if slash.Some? && Locate(Erase(d), path[..slash.value], cs).Some? {
      var loc, child := Locate(Erase(d), path[..slash.value], cs).value, DecodeToken(path[slash.value+1..]);
      WholeAt(d, loc);
      WholeDetached(At(d, loc), child);
      var r := DetachTree(At(d, loc), child);
      if r.Some? {
        DetachErases(At(d, loc), child);
        WholePut(d, loc, r.value.1);
      }
    }
  }

  lemma WholeInserted(parent: Tree, child: string, x: Tree, cs: bool)
    requires Whole(parent) && Whole(x)
    ensures Appendable(parent, child, cs) && Whole(InsertTree(parent, child, x, cs).1)
  {
    hide DecodeIndex, FindMember, Whole, AtEnd, Appended, Cleared;
    if parent.Table? {
      WholeCleared(parent.fields, parent.tail, child, cs);
      var (rest, tail) := Cleared(parent.fields, parent.tail, child, cs);
      WholeAppended(rest, tail, Field(child, x));
    } else if parent.List? {
      WholeListed(parent.items, x);
    }
  }

  lemma WholeListed(ts: seq<Tree>, x: Tree)
    requires Whole(List(ts)) && Whole(x)
    ensures Whole(List(ts + [x])) && forall i: nat | i <= |ts| :: Whole(List(ts[..i] + [x] + ts[i..]))
  {
  }

  lemma WholeAppended(fs: seq<Field>, tail: Tail, f: Field)
    requires Whole(Table(fs, tail)) && Whole(f.value)
    ensures AtEnd(fs, tail) && Defined(fs, tail)
    ensures var (r, t) := Appended(fs, tail, f); Whole(Table(r, t))
  {
    assert Appended(fs, tail, f).0 == fs + [f];
  }

  lemma WholeCleared(fs: seq<Field>, tail: Tail, child: string, cs: bool)
    requires Whole(Table(fs, tail))
    ensures var (rest, tail') := Cleared(fs, tail, child, cs); Whole(Table(rest, tail'))
  {
    hide FindMember;
  }

  lemma WholeAdd(d: Tree, path: string, x: Tree, cs: bool)
    requires Whole(d) && Whole(x)
    ensures AppendableAt(d, path, cs) && Whole(AddAt(d, path, x, cs).1)
  {
    hide LastSlash, Locate, InsertTree, DecodeToken, PutAt, Put, NodeAt, At, Whole, Appendable;
    var slash := LastSlash(path);
    if slash.Some? && Locate(Erase(d), path[..slash.value], cs).Some? {
      var loc, child := Locate(Erase(d), path[..slash.value], cs).value, DecodeToken(path[slash.value+1..]);
      WholeAt(d, loc);
      WholeInserted(At(d, loc), child, x, cs);
      WholePut(d, loc, InsertTree(At(d, loc), child, x, cs).1);
    }
  }

  /** The same status and, apart from the tails, the same document. */
  ghost predicate Agree(r: (nat, Tree), e: (nat, Json)) {
    r.0 == e.0 && Erase(r.1) == e.1
  }

  /** What one patch does to a whole document is what it does to its value; only a test may leave it no longer whole. */
  lemma StepOnWhole(d: Tree, patch: Json, cs: bool)
    requires Whole(d)
    ensures Agree(Apply(d, patch, cs, Linked(cs)), ApplyPatch(Erase(d), patch, cs))
    ensures !HasOperation(patch, "test", cs) ==> Whole(Apply(d, patch, cs, Linked(cs)).1)
  {
    TestWord(patch, cs);
    hide GetItem, DecodeOperation, HasOperation, PointerText, Erase, Whole, ApplyCopy, ApplyRemove, ApplyReplace, ApplyMove, ApplyFrom, ApplyTest, Linked, Plain;
    var path := PointerText(GetItem(patch, "path", cs));
    if path.Some? {
      match DecodeOperation(patch, cs)
      case OpInvalid =>
      case OpTest => TestStep(d, patch, path.value, cs);
      case OpAdd => AddStep(d, patch, path.value, cs);
      case OpRemove => RemoveStep(d, path.value, cs);
      case OpReplace => ReplaceStep(d, patch, path.value, cs);
      case OpMove => MoveStep(d, patch, path.value, cs);
      case OpCopy => CopyStep(d, patch, path.value, cs);
    }
  }

  lemma TestWord(patch: Json, cs: bool)
    ensures DecodeOperation(patch, cs) == OpTest <==> HasOperation(patch, "test", cs)
  {
    hide GetItem;
  }

  lemma TestStep(d: Tree, patch: Json, path: string, cs: bool)
    ensures Agree(ApplyTest(d, patch, path, cs, Linked(cs)), ApplyTest(Erase(d), patch, path, cs, Plain(cs)))
  {
    hide GetItem, CompareAt, ComparePath, Erase;
    var v := GetItem(patch, "value", cs);
    if v.Some? { CompareErases(d, path, v.value, cs); }
  }

  lemma AddStep(d: Tree, patch: Json, path: string, cs: bool)
    requires Whole(d)
    ensures var r := ApplyCopy(d, patch, path, cs, Linked(cs));
      Agree(r, ApplyCopy(Erase(d), patch, path, cs, Plain(cs))) && Whole(r.1)
  {
    hide GetItem, AddAt, AddAtPath, MergePatch.Duplicate, Whole, Erase, Fresh;
    var v := GetItem(patch, "value", cs);
    if v.Some? {
      MergePatch.DuplicateExact(v.value, 0);
      FreshIsWhole(v.value);
      AddOnWhole(d, path, Fresh(v.value), cs);
    }
  }

  lemma RemoveStep(d: Tree, path: string, cs: bool)
    requires Whole(d)
    ensures var r := ApplyRemove(d, path, Linked(cs)); Agree(r, ApplyRemove(Erase(d), path, Plain(cs))) && Whole(r.1)
  {
    hide DetachAt, DetachPath, Erase, Whole, Fresh;
    FreshIsWhole(Invalid);
    DetachOnWhole(d, path, cs);
  }

  lemma ReplaceStep(d: Tree, patch: Json, path: string, cs: bool)
    requires Whole(d)
    ensures var r := ApplyReplace(d, patch, path, cs, Linked(cs));
      Agree(r, ApplyReplace(Erase(d), patch, path, cs, Plain(cs))) && Whole(r.1)
  {
    hide DetachAt, DetachPath, ApplyCopy, Erase, Whole;
    AddStep(d, patch, path, cs);
    DetachOnWhole(d, path, cs);
    var r := DetachAt(d, path, cs);
    if r.Some? { AddStep(r.value.1, patch, path, cs); }
  }

  lemma MoveStep(d: Tree, patch: Json, path: string, cs: bool)
    requires Whole(d)
    ensures var r := ApplyMove(d, patch, path, cs, Linked(cs));
      Agree(r, ApplyMove(Erase(d), patch, path, cs, Plain(cs))) && Whole(r.1)
  {
    hide GetItem, DetachAt, DetachPath, AddAt, AddAtPath, Erase, Whole;
    var from := GetItem(patch, "from", cs);
    if from.Some? && from.value.String? {
      DetachOnWhole(d, from.value.valuestring, cs);
      var r := DetachAt(d, from.value.valuestring, cs);
      if r.Some? { AddOnWhole(r.value.1, path, r.value.0, cs); }
    }
  }

  lemma CopyStep(d: Tree, patch: Json, path: string, cs: bool)
    requires Whole(d)
    ensures var r := ApplyFrom(d, patch, path, cs, Linked(cs));
      Agree(r, ApplyFrom(Erase(d), patch, path, cs, Plain(cs))) && Whole(r.1)
  {
    hide GetItem, Locate, NodeAt, AddAt, AddAtPath, MergePatch.Duplicate, Erase, Whole, Fresh;
    var from := GetItem(patch, "from", cs);
    if from.Some? && from.value.String? && Locate(Erase(d), from.value.valuestring, cs).Some? {
      var x := NodeAt(Erase(d), Locate(Erase(d), from.value.valuestring, cs).value);
      MergePatch.DuplicateExact(x, 0);
      FreshIsWhole(x);
      AddOnWhole(d, path, Fresh(x), cs);
    }
  }

  lemma DetachOnWhole(d: Tree, path: string, cs: bool)
    requires Whole(d)
    ensures var r, e := DetachAt(d, path, cs), DetachPath(Erase(d), path, cs);
      && (r.Some? <==> e.Some?)
      && (r.Some? ==> (Erase(r.value.0), Erase(r.value.1)) == e.value && Whole(r.value.0) && Whole(r.value.1))
  {
    DetachAtErases(d, path, cs);
    WholeDetachAt(d, path, cs);
  }

  lemma AddOnWhole(d: Tree, path: string, x: Tree, cs: bool)
    requires Whole(d) && Whole(x)
    ensures var (status, next) := AddAt(d, path, x, cs);
      (status, Erase(next)) == AddAtPath(Erase(d), path, Erase(x), cs) && Whole(next)
  {
    AddErases(d, path, x, cs);
    WholeAdd(d, path, x, cs);
  }

  /** The document is whole before every patch that is applied. */
  ghost predicate StaysWhole(d: Tree, patches: seq<Json>, cs: bool)
    decreases |patches|
  {
    patches == [] || (
      var (status, next) := Apply(d, patches[0], cs, Linked(cs));
      Whole(d) && (status == 0 ==> StaysWhole(next, patches[1..], cs))
    )
  }

  /** A run over a document that stays whole does what it does to its value. */
  lemma {:induction false} RunOnWhole(d: Tree, patches: seq<Json>, cs: bool)
    requires StaysWhole(d, patches, cs)
    ensures Agree(Run(d, patches, cs, Linked(cs)), ApplyAll(Erase(d), patches, cs))
    decreases |patches|
  {
    if patches != [] {
      hide Apply, Whole, Erase;
      StepOnWhole(d, patches[0], cs);
      var (status, next) := Apply(d, patches[0], cs, Linked(cs));
      assert Apply(Erase(d), patches[0], cs, Plain(cs)) == ApplyPatch(Erase(d), patches[0], cs) == (status, Erase(next));
      if status == 0 { RunOnWhole(next, patches[1..], cs); }
    }
  }

  /** Without tests every whole document stays whole. */
  lemma {:induction false} NoTests(d: Tree, patches: seq<Json>, cs: bool)
    requires Whole(d) && forall i | 0 <= i < |patches| :: !HasOperation(patches[i], "test", cs)
    ensures StaysWhole(d, patches, cs)
    decreases |patches|
  {
    if patches != [] {
      hide Apply, Whole, Erase, HasOperation;
      StepOnWhole(d, patches[0], cs);
      var (status, next) := Apply(d, patches[0], cs, Linked(cs));
      NoTests(next, patches[1..], cs);
    }
  }

  // ----- generated patches hold no test

  lemma {:induction false} GeneratedNoTest(path: string, from: Json, to: Json, cg: bool, ca: bool)
    ensures forall p | p in Patches(path, from, to, cg) :: !HasOperation(p, "test", ca)
    decreases Height(from), 1, 0
  {
    hide Compose, HasOperation;
    if from.Array? && to.Array? {
      ItemsNoTest(path, from.items, to.items, 0, cg, ca);
    } else if from.Object? && to.Object? {
      HeightOfSorted(from.members, cg);
      MembersNoTest(path, SortMembers(from.members, cg), SortMembers(to.members, cg), cg, ca, Height(from));
    } else {
      ComposedNoTest("replace", path, None, Some(to), ca);
    }
  }

  lemma ComposedNoTest(op: string, path: string, suffix: Option<string>, value: Option<Json>, cs: bool)
    requires op != "test"
    ensures !HasOperation(Compose(op, path, suffix, value), "test", cs)
  {
    ComposedMembers(op, path, suffix, value, cs);
  }

  lemma {:induction false} ItemsNoTest(path: string, xs: seq<Json>, ys: seq<Json>, index: nat, cg: bool, ca: bool)
    ensures forall p | p in CreateForItems(path, xs, ys, index, cg) :: !HasOperation(p, "test", ca)
    decreases HeightOfItems(xs), 0, |xs| + |ys|
  {
    hide Compose, HasOperation, Patches, Decimal;
    if xs != [] && ys != [] {
      HeightOfItem(xs, 0);
      GeneratedNoTest(path + "/" + Decimal(index), xs[0], ys[0], cg, ca);
      ItemsNoTest(path, xs[1..], ys[1..], index + 1, cg, ca);
    } else if xs != [] {
      ComposedNoTest("remove", path, Some(Decimal(index)), None, ca);
      ItemsNoTest(path, xs[1..], ys, index, cg, ca);
    } else if ys != [] {
      ComposedNoTest("add", path, Some("-"), Some(ys[0]), ca);
      ItemsNoTest(path, xs, ys[1..], index + 1, cg, ca);
    }
  }

  lemma {:induction false} MembersNoTest(path: string, fs: seq<Member>, ts: seq<Member>, cg: bool, ca: bool, bound: nat)
    requires forall m | m in fs :: Height(m.value) < bound
    ensures forall p | p in CreateForMembers(path, fs, ts, cg, bound) :: !HasOperation(p, "test", ca)
    decreases bound, 0, |fs| + |ts|
  {
    hide Compose, HasOperation, Patches, Less, SortKey, Encode, Height;
    if fs == [] && ts == [] {
    } else if ts == [] || (fs != [] && Less(SortKey(fs[0].key, cg), SortKey(ts[0].key, cg))) {
      ComposedNoTest("remove", path, Some(fs[0].key), None, ca);
      MembersNoTest(path, fs[1..], ts, cg, ca, bound);
    } else if fs == [] || Less(SortKey(ts[0].key, cg), SortKey(fs[0].key, cg)) {
      ComposedNoTest("add", path, Some(ts[0].key), Some(ts[0].value), ca);
      MembersNoTest(path, fs, ts[1..], cg, ca, bound);
    } else {
      GeneratedNoTest(path + "/" + Encode(fs[0].key), fs[0].value, ts[0].value, cg, ca);
      MembersNoTest(path, fs[1..], ts[1..], cg, ca, bound);
    }
  }

  /** The round trip of generated patches on a document in memory. */
  lemma RoundTrip(from: Json, to: Json, copy: Json, cg: bool, ca: bool, ks: iset<string>)
    requires Pair(from, to, copy, ks) && Patchable(ks)
    ensures var (status, next) := Run(Fresh(copy), Patches("", from, to, cg), ca, Linked(ca));
      status == 0 && WellKeyed(Erase(next), ks) && Sem(Erase(next)) == Sem(to) <==> Copyable(from, to)
  {
    hide Pair, Patchable, Patches, Apply, Run, Copyable, Sem, WellKeyed, Whole, Erase, Fresh, Linked, Plain, HasOperation;
    PatchRoundTrip.PatchRoundTrip(from, to, copy, cg, ca, ks);
    FreshIsWhole(copy);
    GeneratedNoTest("", from, to, cg, ca);
    NoTests(Fresh(copy), Patches("", from, to, cg), ca);
    RunOnWhole(Fresh(copy), Patches("", from, to, cg), ca);
  }

  /** A test of a document whose objects list their members in strictly ascending order changes nothing. */
  lemma TestOfTidy(d: Tree, patch: Json, cs: bool)
    requires HasOperation(patch, "test", cs) && Tidy(d, cs)
    ensures Apply(d, patch, cs, Linked(cs)).1 == d
  {
    TestWord(patch, cs);
    hide HasOperation, GetItem, DecodeOperation, PointerText, Locate, Tidy, CompareJson, Compared, At, PutAt, Erase;
    var path, v := PointerText(GetItem(patch, "path", cs)), GetItem(patch, "value", cs);
    if path.Some? && v.Some? && Locate(Erase(d), path.value, cs).Some? {
      var loc := Locate(Erase(d), path.value, cs).value;
      TidyAt(d, loc, cs);
      ComparedTidy(At(d, loc), v.value, cs);
      PutBack(d, loc);
    }
  }

  lemma {:induction false} TidyAt(t: Tree, loc: Loc, cs: bool)
    requires ValidLoc(Erase(t), loc) && Tidy(t, cs)
    ensures Tidy(At(t, loc), cs)
    decreases loc
  {
    if loc != [] { TidyAt(Nodes(t)[loc[0]], loc[1..], cs); }
  }

  // ----- adding to an object that a test has compared

  /** This is the greatest of the keys. */
  predicate Greatest(keys: set<string>, k: string, cs: bool) {
    k in keys && forall x | x in keys :: x == k || Less(SortKey(x, cs), SortKey(k, cs))
  }

  /** A value can be put under `k` after a comparison has sorted the members `ms`, with all of them kept: the first and
      the last member are in their places already, or the last one in order is the one that is replaced. */
  predicate Keeps(ms: seq<Member>, k: string, cs: bool) {
    (FirstLeast(ms, cs) && LastGreatest(ms, cs)) || Greatest(Keys(ms), k, cs)
  }

  lemma {:induction false} ComparedKeys(fs: seq<Field>, ns: seq<Member>, cs: bool, bound: nat)
    requires forall m | m in ns :: Height(m.value) < bound
    ensures var r := ComparedFields(fs, ns, cs, bound); |r| == |fs| && forall i | 0 <= i < |r| :: r[i].key == fs[i].key
    decreases |fs|
  {
    hide CompareJson, Compared, SortKey, Height;
    if fs != [] && ns != [] && SortKey(fs[0].key, cs) == SortKey(ns[0].key, cs) {
      ComparedKeys(fs[1..], ns[1..], cs, bound);
    }
  }

  /** The members after a comparison, in ascending order and with the same keys as before. */
  lemma ComparedTable(fs: seq<Field>, tail: Tail, v: Json, cs: bool, ks: iset<string>) returns (gs: seq<Field>)
    requires WellKeyed(Object(Members(fs)), ks) && Separates(cs, ks) && v.Object?
    ensures Compared(Table(fs, tail), v, cs) == Table(gs, TailAfterSort(fs, tail, cs)) && |gs| == |fs|
    ensures WellKeyed(Object(Members(gs)), ks) && Sem(Object(Members(gs))) == Sem(Object(Members(fs)))
    ensures Increasing(Members(gs), cs) && Keys(Members(gs)) == Keys(Members(fs)) && Distinguished(fs, cs)
  {
    var t, ns := Table(fs, tail), SortMembers(v.members, cs);
    HeightOfSorted(v.members, cs);
    gs := Compared(t, v, cs).fields;
    ComparedKeys(SortedFields(fs, cs), ns, cs, Height(v));
    ComparedErases(t, v, cs);
    WalkedKeeps(Erase(t), v, cs, ks);
    FieldsKeys(Members(gs));
    FieldsKeys(Members(fs));
    assert Distinguished(fs, cs) by { KeysDistinguished(fs, cs, ks); }
    hide Compared, Walked, WellKeyed, Sem, Erase, SortedFields, Distinguished;
    forall i, j | 0 <= i < j < |gs| ensures Less(SortKey(gs[i].key, cs), SortKey(gs[j].key, cs)) {
      SortedAscends(fs, cs, i, j);
    }
  }

  lemma SortedAscends(fs: seq<Field>, cs: bool, i: nat, j: nat)
    requires Distinguished(fs, cs) && i < j < |fs|
    ensures var r := SortedFields(fs, cs); |r| == |fs| && Less(SortKey(r[i].key, cs), SortKey(r[j].key, cs))
  {
    OrderAscends(fs, cs, i, j);
    hide Order;
  }

  lemma KeysDistinguished(fs: seq<Field>, cs: bool, ks: iset<string>)
    requires WellKeyed(Object(Members(fs)), ks) && Separates(cs, ks)
    ensures Distinguished(fs, cs)
  {
    var ms := Members(fs);
    forall i, j | 0 <= i < j < |fs| ensures SortKey(fs[i].key, cs) != SortKey(fs[j].key, cs) {
      assert ms[i].key != ms[j].key && ms[i].key in ks && ms[j].key in ks;
    }
  }

  /** Detaching the member at `i` of a sorted list. */
  lemma GreatestIsLast(ms: seq<Member>, i: nat, cs: bool)
    requires Increasing(ms, cs) && i < |ms|
    ensures Greatest(Keys(ms), ms[i].key, cs) <==> i == |ms| - 1
  {
    var last := ms[|ms|-1].key;
    assert last in Keys(ms) && ms[i].key in Keys(ms);
    if i < |ms| - 1 {
      LessAsymmetric(SortKey(ms[i].key, cs), SortKey(last, cs));
    }
  }

  lemma AppendableCompared(fs: seq<Field>, tail: Tail, v: Json, k: string, cs: bool, ks: iset<string>)
    requires WellKeyed(Object(Members(fs)), ks) && Separates(cs, ks) && k in ks && AtEnd(fs, tail) && v.Object?
    ensures Appendable(Compared(Table(fs, tail), v, cs), k, cs) <==> Keeps(Members(fs), k, cs)
    ensures var gs, tail' := Compared(Table(fs, tail), v, cs).fields, TailAfterSort(fs, tail, cs);
      !FirstLeast(Members(fs), cs) && k !in Keys(Members(fs)) ==>
        gs != [] && tail' == NoChild && Cleared(gs, tail', k, cs) == (gs, NoChild)
  {
    hide WellKeyed, Separates, Compared, SortKey, FindMember, TailAfterSort, FirstLeast, LastGreatest, Greatest, DetachTail, Members, Sem;
    var gs := ComparedTable(fs, tail, v, cs, ks);
    var tail' := TailAfterSort(fs, tail, cs);
    var ms := Members(gs);
    WellKeyedKeys(ms, ks);
    FindMemberExact(ms, k, cs, ks);
    var f := FindMember(ms, k, cs);
    if fs == [] {
      EmptyKeeps(Members(fs), cs);
    } else {
      WholeSorted(fs, cs);
      if f.Some? {
        EndAfterDetach(|gs|, tail', f.value);
        GreatestIsLast(ms, f.value, cs);
      } else {
        NotGreatest(ms, k, cs);
      }
    }
  }

  lemma WellKeyedKeys(ms: seq<Member>, ks: iset<string>)
    requires WellKeyed(Object(ms), ks)
    ensures KeysFrom(ms, ks)
  {
  }

  lemma EmptyKeeps(ms: seq<Member>, cs: bool)
    ensures |ms| <= 1 ==> FirstLeast(ms, cs) && LastGreatest(ms, cs)
  {
  }

  lemma NotGreatest(ms: seq<Member>, k: string, cs: bool)
    ensures k !in Keys(ms) ==> !Greatest(Keys(ms), k, cs)
  {
  }

  lemma {:induction false} AtPut(t: Tree, loc: Loc, x: Tree)
    requires ValidLoc(Erase(t), loc)
    ensures ValidLoc(Erase(PutAt(t, loc, x)), loc) && At(PutAt(t, loc, x), loc) == x
    decreases loc
  {
    if loc != [] {
      AtPut(Nodes(t)[loc[0]], loc[1..], x);
      assert Nodes(PutAt(t, loc, x))[loc[0]] == PutAt(Nodes(t)[loc[0]], loc[1..], x);
    }
  }

  lemma {:induction false} PutBack(t: Tree, loc: Loc)
    requires ValidLoc(Erase(t), loc)
    ensures PutAt(t, loc, At(t, loc)) == t
    decreases loc
  {
    if loc != [] {
      PutBack(Nodes(t)[loc[0]], loc[1..]);
      if t.Table? { assert t.fields[loc[0] := Field(t.fields[loc[0]].key, Nodes(t)[loc[0]])] == t.fields; }
    }
  }

  /** Exchanging what is at a path does not change where the path leads. */
  lemma {:induction false} ResolvePut(j: Json, steps: seq<Step>, x: Json)
    requires Resolve(j, steps).Some?
    ensures Resolve(Put(j, Resolve(j, steps).value, x), steps) == Resolve(j, steps)
    decreases steps
  {
    if steps != [] {
      var i := StepChild(j, steps[0]).value;
      var below := Resolve(Children(j)[i], steps[1..]).value;
      assert ([i] + below)[1..] == below;
      ResolvePut(Children(j)[i], steps[1..], x);
      ChildPut(j, steps[0], below, x);
    }
  }

  lemma ChildPut(j: Json, s: Step, below: Loc, x: Json)
    requires StepChild(j, s).Some? && ValidLoc(Children(j)[StepChild(j, s).value], below)
    ensures var i := StepChild(j, s).value;
      var r := Put(j, [i] + below, x);
      StepChild(r, s) == Some(i) && Children(r)[i] == Put(Children(j)[i], below, x)
  {
    var i := StepChild(j, s).value;
    assert ([i] + below)[1..] == below;
    var child := Put(Children(j)[i], below, x);
    if j.Object? {
      var r := j.members[i := Member(j.members[i].key, child)];
      assert r[i].key == s.key;
      assert s.key in Keys(r);
      assert forall n | 0 <= n < |r| :: r[n].key == j.members[n].key;
    }
  }

  /** A document in which the object at `q` was compared with an object. */
  lemma Tested(doc: Json, q: seq<Step>, v: Json, cs: bool, ks: iset<string>) returns (fs: seq<Field>, tail: Tail)
    requires Reaches(doc, q, ks) && Get(Sem(doc), q).value.VObject? && WellKeyed(v, ks) && v.Object?
    ensures Locate(doc, PathText(q), cs).Some? && ParentOf(doc, q, cs) == Object(Members(fs)) && AtEnd(fs, tail)
    ensures WellKeyed(Object(Members(fs)), ks) && Sem(Object(Members(fs))) == Get(Sem(doc), q).value
    ensures var d, loc := CompareAt(Fresh(doc), PathText(q), v, cs).1, Locate(doc, PathText(q), cs).value;
      && WellKeyed(Erase(d), ks) && Sem(Erase(d)) == Sem(doc)
      && Locate(Erase(d), PathText(q), cs) == Some(loc) && At(d, loc) == Compared(Table(fs, tail), v, cs)
  {
    hide Sem, WellKeyed, PathText, Locate, CompareJson, Walked, Compared, Get, FoldInjective, StepsFrom, NodeAt, Put, Resolve, Aligned,
      At, PutAt, Fresh, Erase, PatchOperations.Fitting, Whole, Reaches;
    var t := Fresh(doc);
    FreshIsWhole(doc);
    ReachesParts(doc, q, ks);
    SemResolve(doc, q, ks);
    ResolvedAligned(doc, q);
    LocatePath(doc, q, cs, ks);
    ParentFound(doc, q, cs, ks);
    var loc := Locate(doc, PathText(q), cs).value;
    SemKind(NodeAt(doc, loc));
    WholeAt(t, loc);
    TableNode(At(t, loc));
    fs, tail := At(t, loc).fields, At(t, loc).tail;
    CompareErases(t, PathText(q), v, cs);
    PatchOperations.ComparedAt(doc, q, v, cs, ks);
    var x := Compared(At(t, loc), v, cs);
    AtPut(t, loc, x);
    PutErases(t, loc, x);
    ResolvePut(doc, q, Erase(x));
    var next := Erase(PutAt(t, loc, x));
    ResolvedAligned(next, q);
    LocatePath(next, q, cs, ks);
  }

  lemma ReachesParts(doc: Json, q: seq<Step>, ks: iset<string>)
    requires Reaches(doc, q, ks)
    ensures WellKeyed(doc, ks) && FoldInjective(ks) && StepsFrom(q, ks) && Get(Sem(doc), q).Some? && PatchOperations.Fitting(Sem(doc), q)
  {
    GetFits(Sem(doc), q);
  }

  lemma {:induction false} GetFits(v: Val, steps: seq<Step>)
    requires Get(v, steps).Some?
    ensures PatchOperations.Fitting(v, steps)
    decreases steps
  {
    if steps != [] { GetFits(Child(v, steps[0]).value, steps[1..]); }
  }

  lemma TableNode(t: Tree)
    requires Erase(t).Object? && Whole(t)
    ensures t.Table? && Erase(t) == Object(Members(t.fields)) && AtEnd(t.fields, t.tail)
  {
  }

  /** Appending to a list that does not end at its tail leaves out a key. */
  lemma AppendMisses(fs: seq<Field>, tail: Tail, f: Field, ks: iset<string>)
    requires WellKeyed(Object(Members(fs)), ks) && WellKeyed(Erase(f.value), ks) && f.key in ks && f.key !in Keys(Members(fs))
    requires Defined(fs, tail) && !AtEnd(fs, tail)
    ensures var r := Members(Appended(fs, tail, f).0);
      WellKeyed(Object(r), ks) && exists k | k in Keys(Members(fs)) + {f.key} :: k !in Keys(r)
  {
    hide WellKeyed, Erase;
    var r := Members(Appended(fs, tail, f).0);
    if tail == NoChild {
      assert f.key !in Keys(r);
    } else {
      var ms, m := Members(fs), Member(f.key, Erase(f.value));
      assert r == ms[..tail.index+1] + [m];
      FirstMembers(ms, tail.index + 1, ks);
      WellKeyedAppend(ms[..tail.index+1], m, ks);
      var last := ms[|ms|-1].key;
      assert last in Keys(ms);
      forall j | 0 <= j < |r| ensures r[j].key != last {
        if j <= tail.index { assert r[j].key == ms[..tail.index+1][j].key && r[j].key in Keys(ms[..tail.index+1]); }
      }
      assert last !in Keys(r);
    }
  }

  lemma FirstMembers(ms: seq<Member>, n: nat, ks: iset<string>)
    requires WellKeyed(Object(ms), ks) && n < |ms|
    ensures WellKeyed(Object(ms[..n]), ks) && Keys(ms[..n]) <= Keys(ms) && ms[|ms|-1].key !in Keys(ms[..n])
  {
  }

  /** The result of putting a value under a key of the object at `q` lacks one of its keys. */
  lemma InsertMisses(d: Tree, q: seq<Step>, k: string, x: Json, f: map<string, Val>, cs: bool, ks: iset<string>)
    requires Get(Sem(Erase(d)), q) == Some(VObject(f)) && Reaches(Erase(d), q, ks) && Patchable(ks) && k in ks && WellKeyed(x, ks)
    requires Locate(Erase(d), PathText(q), cs).Some?
    requires var t := At(d, Locate(Erase(d), PathText(q), cs).value); t.Table? && !Appendable(t, k, cs)
    ensures var (status, next) := AddAt(d, PathText(q) + "/" + Encode(k), Fresh(x), cs);
      status == 0 ==> Sem(Erase(next)) != Set(Sem(Erase(d)), q, VObject(f[k := Sem(x)]))
  {
    hide Sem, WellKeyed, PathText, Locate, Get, Set, StepsFrom, NodeAt, Put, At, PutAt, Erase, Fresh, Reaches, Encode,
      Appended, Cleared, Patchable, AtEnd, Defined, FoldInjective, AddAt, Members;
    FreshIsWhole(x);
    ParentFound(Erase(d), q, cs, ks);
    PatchableParts(ks);
    var loc := Locate(Erase(d), PathText(q), cs).value;
    var t := At(d, loc);
    var (rest, tail) := Cleared(t.fields, t.tail, k, cs);
    AddedAt(d, q, k, Fresh(x), cs, ks);
    TableValue(t);
    ClearedMembers(t.fields, t.tail, k, cs, ks);
    if Defined(rest, tail) {
      var m := Field(k, Fresh(x));
      DefinedTail(rest, tail);
      AppendMisses(rest, tail, m, ks);
      var r := Table(Appended(rest, tail, m).0, Appended(rest, tail, m).1);
      TableValue(r);
      PutErases(d, loc, r);
      LacksKey(Members(t.fields), Members(rest), Members(r.fields), k, Sem(x));
      PutDiffers(Erase(d), q, Erase(r), VObject(f[k := Sem(x)]), cs, ks);
    }
  }

  lemma PutDiffers(doc: Json, q: seq<Step>, x: Json, v: Val, cs: bool, ks: iset<string>)
    requires Reaches(doc, q, ks) && WellKeyed(x, ks) && Sem(x) != v && Locate(doc, PathText(q), cs).Some?
    ensures Sem(Put(doc, Locate(doc, PathText(q), cs).value, x)) != Set(Sem(doc), q, v)
  {
    hide Sem, WellKeyed, PathText, Locate, NodeAt, Put, Get, Set, StepsFrom, FoldInjective;
    SetParent(doc, q, x, cs, ks);
    SetLaws(Sem(doc), q, Sem(x));
    SetLaws(Sem(doc), q, v);
  }

  lemma DefinedTail<T>(s: seq<T>, tail: Tail)
    requires Defined(s, tail)
    ensures s != [] && tail.AtChild? ==> tail.index < |s|
  {
  }

  /** Putting a value under a key of the object at `q`. */
  lemma AddedAt(d: Tree, q: seq<Step>, k: string, x: Tree, cs: bool, ks: iset<string>)
    requires Patchable(ks) && k in ks && Locate(Erase(d), PathText(q), cs).Some?
    ensures var loc := Locate(Erase(d), PathText(q), cs).value;
      var (status, r) := InsertTree(At(d, loc), k, x, cs);
      AddAt(d, PathText(q) + "/" + Encode(k), x, cs) == (status, if status == 0 then PutAt(d, loc, r) else d)
  {
    hide Locate, PathText, Erase, At, Encode, DecodeToken, Patchable, LastSlash, InsertTree, PutAt;
    KeyTokenDecodes(k, ks);
    SplitPath(q, Encode(k));
  }

  lemma TableValue(t: Tree)
    requires t.Table?
    ensures Erase(t) == Object(Members(t.fields))
  {
  }

  lemma LacksKey(ms: seq<Member>, rest: seq<Member>, r: seq<Member>, k: string, v: Val)
    requires Keys(rest) <= Keys(ms) && exists w | w in Keys(rest) + {k} :: w !in Keys(r)
    ensures Sem(Object(ms)).VObject? && Sem(Object(r)) != VObject(Sem(Object(ms)).fields[k := v])
  {
    FieldsKeys(ms);
    FieldsKeys(r);
  }

  lemma ClearedMembers(fs: seq<Field>, tail: Tail, k: string, cs: bool, ks: iset<string>)
    requires WellKeyed(Object(Members(fs)), ks) && FoldInjective(ks) && k in ks
    ensures var ms := Members(Cleared(fs, tail, k, cs).0);
      WellKeyed(Object(ms), ks) && Keys(ms) <= Keys(Members(fs)) && k !in Keys(ms)
  {
    ClearedErases(fs, tail, k, cs);
    MergePatch.DetachMember(Members(fs), k, cs, ks);
    hide WellKeyed, Sem, Fields, Cleared, FindMember;
    var f := FindMember(Members(fs), k, cs);
    if f.Some? { KeysShrink(Members(fs), f.value); }
  }

  lemma KeysShrink(ms: seq<Member>, i: nat)
    requires i < |ms|
    ensures Keys(Without(ms, i)) <= Keys(ms)
  {
    forall n | 0 <= n < |Without(ms, i)| ensures Without(ms, i)[n].key in Keys(ms) {
      assert Without(ms, i)[n] == ms[if n < i then n else n + 1];
    }
  }

  lemma LinkedTest(d: Tree, patch: Json, path: string, v: Json, cs: bool)
    requires PatchOperations.Says(patch, "test", path, cs) && GetItem(patch, "value", cs) == Some(v)
    ensures Apply(d, patch, cs, Linked(cs)).1 == CompareAt(d, path, v, cs).1
  {
    PatchOperations.SaysDecodes(patch, "test", path, cs);
    hide PatchOperations.Says, GetItem, DecodeOperation, PointerText, CompareAt;
  }

  lemma LinkedAdd(d: Tree, patch: Json, path: string, x: Json, cs: bool)
    requires PatchOperations.Says(patch, "add", path, cs) && GetItem(patch, "value", cs) == Some(x) && path != "" && MergePatch.Shallow(x)
    ensures Apply(d, patch, cs, Linked(cs)) == AddAt(d, path, Fresh(x), cs)
  {
    PatchOperations.SaysDecodes(patch, "add", path, cs);
    hide PatchOperations.Says, GetItem, DecodeOperation, PointerText, AddAt, Fresh, MergePatch.Duplicate;
    MergePatch.DuplicateExact(x, 0);
  }

  lemma PathNotEmpty(q: seq<Step>, t: string)
    ensures PathText(q) + "/" + t != ""
  {
  }

  lemma PatchableParts(ks: iset<string>)
    requires Patchable(ks)
    ensures FoldInjective(ks)
  {
  }

  lemma ReachesSame(doc: Json, next: Json, q: seq<Step>, ks: iset<string>)
    requires Reaches(doc, q, ks) && WellKeyed(next, ks) && Sem(next) == Sem(doc)
    ensures Reaches(next, q, ks)
  {
  }

  lemma ComparedIsTable(fs: seq<Field>, tail: Tail, v: Json, cs: bool)
    ensures Compared(Table(fs, tail), v, cs).Table?
  {
    hide ComparedFields, SortMembers, SortedFields, TailAfterSort, Height;
  }

  lemma AppendableFound(d: Tree, q: seq<Step>, k: string, cs: bool, ks: iset<string>)
    requires Patchable(ks) && k in ks && Locate(Erase(d), PathText(q), cs).Some?
    ensures AppendableAt(d, PathText(q) + "/" + Encode(k), cs) <==> Appendable(At(d, Locate(Erase(d), PathText(q), cs).value), k, cs)
  {
    hide Locate, PathText, Erase, At, Appendable, Encode, DecodeToken, Patchable, LastSlash;
    KeyTokenDecodes(k, ks);
    SplitPath(q, Encode(k));
  }

  lemma ObjectAdded(doc: Json, q: seq<Step>, k: string, x: Json, cs: bool, ks: iset<string>)
    requires Reaches(doc, q, ks) && Get(Sem(doc), q).value.VObject? && WellKeyed(x, ks) && Patchable(ks) && k in ks
    ensures Applied(AddAtPath(doc, PathText(q) + "/" + Encode(k), x, cs),
                    Set(Sem(doc), q, VObject(Get(Sem(doc), q).value.fields[k := Sem(x)])), ks)
  {
    hide Sem, WellKeyed, PathText, Get, Set, Patchable, Encode, AddAtPath, Applied;
    PatchOperations.AddAt(doc, q, PatchOperations.AtKey(k), x, cs, ks);
  }

  /** A test of the object at `q`, then an addition under the key `k`: all members are kept if and only if the first and
      the last member were the least and the greatest already, or `k` is the greatest key already there. */
  lemma TestThenAdd(doc: Json, test: Json, add: Json, q: seq<Step>, k: string, v: Json, x: Json, cs: bool, ks: iset<string>)
    requires PatchOperations.Says(test, "test", PathText(q), cs) && GetItem(test, "value", cs) == Some(v)
    requires PatchOperations.Says(add, "add", PathText(q) + "/" + Encode(k), cs) && GetItem(add, "value", cs) == Some(x)
    requires Reaches(doc, q, ks) && Get(Sem(doc), q).value.VObject? && Patchable(ks) && k in ks
    requires WellKeyed(v, ks) && v.Object? && WellKeyed(x, ks) && MergePatch.Shallow(x)
    ensures Locate(doc, PathText(q), cs).Some? && ParentOf(doc, q, cs).Object?
    ensures var (status, next) := Apply(Apply(Fresh(doc), test, cs, Linked(cs)).1, add, cs, Linked(cs));
      status == 0 && Sem(Erase(next)) == Set(Sem(doc), q, VObject(Get(Sem(doc), q).value.fields[k := Sem(x)]))
      <==> Keeps(ParentOf(doc, q, cs).members, k, cs)
  {
    hide Sem, WellKeyed, PathText, Locate, Get, Set, Erase, Fresh, Reaches, Patchable, Encode, Appendable, Apply, PatchOperations.Says,
      GetItem, AddAt, CompareAt, At, Compared, Members, MergePatch.Shallow, Keeps, AddAtPath, AppendableAt, FoldInjective, NodeAt;
    var fs, tail := Tested(doc, q, v, cs, ks);
    var d, path := CompareAt(Fresh(doc), PathText(q), v, cs).1, PathText(q) + "/" + Encode(k);
    LinkedTest(Fresh(doc), test, PathText(q), v, cs);
    PathNotEmpty(q, Encode(k));
    LinkedAdd(d, add, path, x, cs);
    assert FoldInjective(ks) by { PatchableParts(ks); }
    AppendableCompared(fs, tail, v, k, cs, ks);
    ReachesSame(doc, Erase(d), q, ks);
    ComparedIsTable(fs, tail, v, cs);
    if Keeps(Members(fs), k, cs) {
      AppendableFound(d, q, k, cs, ks);
      AddErases(d, path, Fresh(x), cs);
      FreshIsWhole(x);
      ObjectAdded(Erase(d), q, k, x, cs, ks);
    } else {
      InsertMisses(d, q, k, x, Get(Sem(doc), q).value.fields, cs, ks);
    }
  }

  /** An object whose first member has not the least key has no tail after a test of it: an addition under a new key
      reports success and adds nothing. */
  lemma AddLost(doc: Json, test: Json, add: Json, q: seq<Step>, k: string, v: Json, x: Json, cs: bool, ks: iset<string>)
    requires PatchOperations.Says(test, "test", PathText(q), cs) && GetItem(test, "value", cs) == Some(v)
    requires PatchOperations.Says(add, "add", PathText(q) + "/" + Encode(k), cs) && GetItem(add, "value", cs) == Some(x)
    requires Reaches(doc, q, ks) && Get(Sem(doc), q).value.VObject? && Patchable(ks) && k in ks
    requires WellKeyed(v, ks) && v.Object? && WellKeyed(x, ks) && MergePatch.Shallow(x)
    ensures Locate(doc, PathText(q), cs).Some? && ParentOf(doc, q, cs).Object?
    ensures var ms, d := ParentOf(doc, q, cs).members, Apply(Fresh(doc), test, cs, Linked(cs)).1;
      !FirstLeast(ms, cs) && k !in Keys(ms) ==> Apply(d, add, cs, Linked(cs)) == (0, d) && Sem(Erase(d)) == Sem(doc)
  {
    hide Sem, WellKeyed, PathText, Locate, Get, Set, Erase, Fresh, Reaches, Patchable, Encode, Apply, PatchOperations.Says,
      GetItem, AddAt, CompareAt, At, Compared, Members, MergePatch.Shallow, FirstLeast, Cleared, FoldInjective, NodeAt;
    var fs, tail := Tested(doc, q, v, cs, ks);
    var d, path := CompareAt(Fresh(doc), PathText(q), v, cs).1, PathText(q) + "/" + Encode(k);
    LinkedTest(Fresh(doc), test, PathText(q), v, cs);
    PathNotEmpty(q, Encode(k));
    LinkedAdd(d, add, path, x, cs);
    assert FoldInjective(ks) by { PatchableParts(ks); }
    AppendableCompared(fs, tail, v, k, cs, ks);
    if !FirstLeast(Members(fs), cs) && k !in Keys(Members(fs)) {
      ComparedHas(fs, tail, v, cs);
      NothingAppended(d, q, k, Fresh(x), cs, ks);
    }
  }

  lemma ComparedHas(fs: seq<Field>, tail: Tail, v: Json, cs: bool)
    requires v.Object?
    ensures var t := Compared(Table(fs, tail), v, cs); t.Table? && t.tail == TailAfterSort(fs, tail, cs)
  {
    hide ComparedFields, SortMembers, SortedFields, TailAfterSort, Height;
  }

  lemma NothingAppended(d: Tree, q: seq<Step>, k: string, x: Tree, cs: bool, ks: iset<string>)
    requires Patchable(ks) && k in ks && Locate(Erase(d), PathText(q), cs).Some?
    requires var t := At(d, Locate(Erase(d), PathText(q), cs).value);
      t.Table? && t.fields != [] && t.tail == NoChild && Cleared(t.fields, t.tail, k, cs) == (t.fields, NoChild)
    ensures AddAt(d, PathText(q) + "/" + Encode(k), x, cs) == (0, d)
  {
    hide Locate, PathText, Erase, At, Encode, Patchable, Cleared, PutAt, AddAt;
    AddedAt(d, q, k, x, cs, ks);
    PutBack(d, Locate(Erase(d), PathText(q), cs).value);
  }

  /** The smallest such run: {"b":1,"a":2} is tested and found equal to {"a":2,"b":1}, then "c" is added. */
  lemma AddLostExample(test: Json, add: Json, cs: bool)
    requires PatchOperations.Says(test, "test", "", cs)
    requires GetItem(test, "value", cs) == Some(Object([Member("a", Number(2)), Member("b", Number(1))]))
    requires PatchOperations.Says(add, "add", "/c", cs) && GetItem(add, "value", cs) == Some(Number(3))
    ensures var doc := Object([Member("b", Number(1)), Member("a", Number(2))]);
      var (status, next) := Run(Fresh(doc), [test, add], cs, Linked(cs)); status == 0 && Sem(Erase(next)) == Sem(doc)
  {
    hide PatchOperations.Says, GetItem, Apply, Fresh, Erase, Linked, Sem, Encode, Survives, Patchable, WellKeyed, FirstLeast, Less, Fold;
    var doc, v := Object([Member("b", Number(1)), Member("a", Number(2))]), Object([Member("a", Number(2)), Member("b", Number(1))]);
    var ks := iset{"a", "b", "c"};
    ExampleKeys(ks);
    ExampleValues(doc, v, ks, cs);
    assert PathText([]) == "" && "" + "/" + "c" == "/c";
    AddLost(doc, test, add, [], "c", v, Number(3), cs, ks);
    PatchOperations.TestExact(doc, test, [], v, cs, ks);
    FreshIsWhole(doc);
    StepOnWhole(Fresh(doc), test, cs);
    RunTwo(Fresh(doc), test, add, cs);
  }

  lemma RunTwo(d: Tree, a: Json, b: Json, cs: bool)
    ensures var (status, next) := Apply(d, a, cs, Linked(cs));
      Run(d, [a, b], cs, Linked(cs)) == if status != 0 then (status, next) else Apply(next, b, cs, Linked(cs))
  {
    hide Apply, Linked;
    var next := Apply(d, a, cs, Linked(cs)).1;
    assert [a, b][1..] == [b] && [b][1..] == [];
    assert Run(Apply(next, b, cs, Linked(cs)).1, [], cs, Linked(cs)) == (0, Apply(next, b, cs, Linked(cs)).1);
    assert Run(next, [b], cs, Linked(cs)) == Apply(next, b, cs, Linked(cs));
  }

  lemma ExampleKeys(ks: iset<string>)
    requires ks == iset{"a", "b", "c"}
    ensures Patchable(ks) && FoldInjective(ks) && Encode("c") == "c"
  {
    PlainSurvives("a");
    PlainSurvives("b");
    PlainSurvives("c");
    assert Fold("a") == "a" && Fold("b") == "b" && Fold("c") == "c";
    hide Survives, Fold, Encode;
  }

  lemma ExampleValues(doc: Json, v: Json, ks: iset<string>, cs: bool)
    requires doc == Object([Member("b", Number(1)), Member("a", Number(2))]) && v == Object([Member("a", Number(2)), Member("b", Number(1))])
    requires "a" in ks && "b" in ks && FoldInjective(ks)
    ensures Reaches(doc, [], ks) && WellKeyed(v, ks) && Sem(v) == Sem(doc) && Sem(doc).VObject? && MergePatch.Shallow(Number(3))
    ensures !FirstLeast(doc.members, cs) && "c" !in Keys(doc.members) && WellKeyed(Number(3), ks)
  {
    hide FoldInjective, FirstLeast, Sem, WellKeyed;
    var a, b := Member("a", Number(2)), Member("b", Number(1));
    ExampleOrder(doc.members, cs);
    SemKind(doc);
    TwoNumbers(a, b, ks);
    TwoNumbers(b, a, ks);
    assert "c" !in Keys([b, a]);
  }

  lemma TwoNumbers(a: Member, b: Member, ks: iset<string>)
    requires a.key in ks && b.key in ks && a.key != b.key && a.value.Number? && b.value.Number?
    ensures WellKeyed(Object([a, b]), ks) && WellKeyed(a.value, ks) && WellKeyed(Number(3), ks)
    ensures Sem(Object([a, b])) == Sem(Object([b, a]))
  {
    assert multiset([a, b]) == multiset([b, a]);
    PermutedMembers([a, b], [b, a]);
    hide Sem;
  }

  lemma ExampleOrder(ms: seq<Member>, cs: bool)
    requires |ms| == 2 && ms[0].key == "b" && ms[1].key == "a"
    ensures !FirstLeast(ms, cs)
  {
    assert Fold("a") == "a" && Fold("b") == "b";
  }
}
