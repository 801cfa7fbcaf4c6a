/** Generating a JSON Patch (`create_patches`). */
module PatchGenerate {
  import opened CString
  import opened JsonTree
  import opened MergeSort
  import opened Compare
  import opened JsonPointer
  import MergePatch

  /** `compose_patch`: one operation object; the suffix is encoded as a pointer token. */
  function Compose(op: string, path: string, suffix: Option<string>, value: Option<Json>): Json {
    var full := if suffix.Some? then path + "/" + Encode(suffix.value) else path;
    var copy := if value.Some? then MergePatch.Duplicate(value.value, 0) else None;
    Object([Member("op", String(op)), Member("path", String(full))] + MergePatch.AddItem("value", copy))
  }

  /** What `create_patches` appends to the patch array. */
  function Patches(path: string, from: Json, to: Json, cs: bool): seq<Json>
    decreases Height(from), 1, 0
  {
    match (from, to)
    case (Array(xs), Array(ys)) => CreateForItems(path, xs, ys, 0, cs)
    case (Object(ms), Object(ns)) =>
      HeightOfSorted(ms, cs);
      CreateForMembers(path, SortMembers(ms, cs), SortMembers(ns, cs), cs, Height(from))
    case _ => if SameScalar(from, to) then [] else [Compose("replace", path, None, Some(to))]
  }

  /** Array elements: patch the common ones, then remove or append the rest. */
  function CreateForItems(path: string, xs: seq<Json>, ys: seq<Json>, index: nat, cs: bool): seq<Json>
    decreases HeightOfItems(xs), 0, |xs| + |ys|
  {
    if xs != [] && ys != [] then
      Patches(path + "/" + Decimal(index), xs[0], ys[0], cs) + CreateForItems(path, xs[1..], ys[1..], index + 1, cs)
    else if xs != [] then
      [Compose("remove", path, Some(Decimal(index)), None)] + CreateForItems(path, xs[1..], ys, index, cs)
    else if ys != [] then
      [Compose("add", path, Some("-"), Some(ys[0]))] + CreateForItems(path, xs, ys[1..], index + 1, cs)
    else []
  }

  /** The walk over both sorted member lists. */
  function CreateForMembers(path: string, fs: seq<Member>, ts: seq<Member>, cs: bool, ghost bound: nat): seq<Json>
    requires forall m | m in fs :: Height(m.value) < bound
    decreases bound, 0, |fs| + |ts|
  {
    if fs == [] && ts == [] then []
    else if ts == [] || (fs != [] && Less(SortKey(fs[0].key, cs), SortKey(ts[0].key, cs))) then
      [Compose("remove", path, Some(fs[0].key), None)] + CreateForMembers(path, fs[1..], ts, cs, bound)
    else if fs == [] || Less(SortKey(ts[0].key, cs), SortKey(fs[0].key, cs)) then
      [Compose("add", path, Some(ts[0].key), Some(ts[0].value))] + CreateForMembers(path, fs, ts[1..], cs, bound)
    else
      Patches(path + "/" + Encode(fs[0].key), fs[0].value, ts[0].value, cs) +
      CreateForMembers(path, fs[1..], ts[1..], cs, bound)
  }

  /** The patch array that `create_patches` fills in place. */
  class PatchArray {
    var items: seq<Json>

    constructor ()
      ensures items == []
    {
      items := [];
    }

    method CreatePatches(path: string, from: Json, to: Json, cs: bool)
      modifies this
      ensures items == old(items) + Patches(path, from, to, cs)
      decreases Height(from), 1, 0
    {
      match (from, to) {
        case (Array(xs), Array(ys)) => PatchItems(path, xs, ys, cs);
        case (Object(ms), Object(ns)) =>
          HeightOfSorted(ms, cs);
          PatchMembers(path, SortMembers(ms, cs), SortMembers(ns, cs), cs, Height(from));
        case _ =>
          if !SameScalar(from, to) { items := items + [Compose("replace", path, None, Some(to))]; }
      }
    }

    method PatchItems(path: string, xs: seq<Json>, ys: seq<Json>, cs: bool)
      modifies this
      ensures items == old(items) + CreateForItems(path, xs, ys, 0, cs)
      decreases HeightOfItems(xs), 0, 1
    {
      ghost var was, all := items, CreateForItems(path, xs, ys, 0, cs);
      var index := 0;
      assert xs[0..] == xs && ys[0..] == ys;
      while index < |xs| && index < |ys|
        invariant index <= |xs| && index <= |ys|
        invariant items + CreateForItems(path, xs[index..], ys[index..], index, cs) == was + all
      {
        PatchItem(path, xs, ys, index, cs);
        index := index + 1;
      }
      RemoveItems(path, xs, ys, index, cs);
      AppendItems(path, ys, index, cs);
    }

    method PatchItem(path: string, xs: seq<Json>, ys: seq<Json>, index: nat, cs: bool)
      requires index < |xs| && index < |ys|
      modifies this
      ensures items + CreateForItems(path, xs[index+1..], ys[index+1..], index + 1, cs)
           == old(items) + CreateForItems(path, xs[index..], ys[index..], index, cs)
      decreases HeightOfItems(xs), 0, 0
    {
      HeightOfItem(xs, index);
      CreatePatches(path + "/" + Decimal(index), xs[index], ys[index], cs);
      assert xs[index..][1..] == xs[index+1..] && ys[index..][1..] == ys[index+1..];
      Associative(old(items), Patches(path + "/" + Decimal(index), xs[index], ys[index], cs),
                  CreateForItems(path, xs[index+1..], ys[index+1..], index + 1, cs));
    }

    /** Leftover elements of `from` are all removed at the same index. */
    method RemoveItems(path: string, xs: seq<Json>, ys: seq<Json>, index: nat, cs: bool)
      requires index <= |xs| && index <= |ys| && (index == |xs| || index == |ys|)
      modifies this
      ensures items + CreateForItems(path, [], ys[index..], index, cs)
           == old(items) + CreateForItems(path, xs[index..], ys[index..], index, cs)
    {
      hide CreateForItems, Compose, Decimal;
      ghost var all := old(items) + CreateForItems(path, xs[index..], ys[index..], index, cs);
      var i := index;
      while i < |xs|
        invariant index <= i <= |xs| && (i < |xs| ==> index == |ys|)
        invariant items + CreateForItems(path, xs[i..], ys[index..], index, cs) == all
      {
        var op := [Compose("remove", path, Some(Decimal(index)), None)];
        RemovesNext(path, xs, i, index, cs);
        assert ys[index..] == [];
        Associative(items, op, CreateForItems(path, xs[i+1..], ys[index..], index, cs));
        items := items + op;
        i := i + 1;
      }
      assert xs[i..] == [];
    }

    method AppendItems(path: string, ys: seq<Json>, start: nat, cs: bool)
      requires start <= |ys|
      modifies this
      ensures items == old(items) + CreateForItems(path, [], ys[start..], start, cs)
    {
      hide CreateForItems, Compose;
      ghost var all := old(items) + CreateForItems(path, [], ys[start..], start, cs);
      NothingToAdd(path, |ys|, cs);
      var index := start;
      while index < |ys|
        invariant start <= index <= |ys|
        invariant items + CreateForItems(path, [], ys[index..], index, cs) == all
      {
        var op := [Compose("add", path, Some("-"), Some(ys[index]))];
        AddsNext(path, ys, index, cs);
        Associative(items, op, CreateForItems(path, [], ys[index+1..], index + 1, cs));
        items := items + op;
        index := index + 1;
      }
      assert ys[index..] == [];
    }

    method PatchMembers(path: string, from: seq<Member>, to: seq<Member>, cs: bool, ghost bound: nat)
      requires forall m | m in from :: Height(m.value) < bound
      modifies this
      ensures items == old(items) + CreateForMembers(path, from, to, cs, bound)
      decreases bound, 0, 1
    {
      var fs, ts := from, to;
      ghost var all := items + CreateForMembers(path, from, to, cs, bound);
      while fs != [] || ts != []
        invariant forall m | m in fs :: Height(m.value) < bound
        invariant items + CreateForMembers(path, fs, ts, cs, bound) == all
        decreases |fs| + |ts|
      {
        fs, ts := PatchMember(path, fs, ts, cs, bound);
      }
    }

    /** One turn of the walk: it passes the smaller key, or a key that both lists start with. */
    method PatchMember(path: string, fs: seq<Member>, ts: seq<Member>, cs: bool, ghost bound: nat)
      returns (fs': seq<Member>, ts': seq<Member>)
      requires fs != [] || ts != []
      requires forall m | m in fs :: Height(m.value) < bound
      modifies this
      ensures |fs'| + |ts'| < |fs| + |ts| && forall m | m in fs' :: m in fs
      ensures items + CreateForMembers(path, fs', ts', cs, bound) == old(items) + CreateForMembers(path, fs, ts, cs, bound)
      decreases bound, 0, 0
    {
      hide Compose, Patches, SortKey, Less, Encode, Height;
      fs', ts' := fs, ts;
      if ts == [] || (fs != [] && Less(SortKey(fs[0].key, cs), SortKey(ts[0].key, cs))) {
        items, fs' := items + [Compose("remove", path, Some(fs[0].key), None)], fs[1..];
      } else if fs == [] || Less(SortKey(ts[0].key, cs), SortKey(fs[0].key, cs)) {
        items, ts' := items + [Compose("add", path, Some(ts[0].key), Some(ts[0].value))], ts[1..];
      } else {
        CreatePatches(path + "/" + Encode(fs[0].key), fs[0].value, ts[0].value, cs);
        fs', ts' := fs[1..], ts[1..];
        Associative(old(items), Patches(path + "/" + Encode(fs[0].key), fs[0].value, ts[0].value, cs),
                    CreateForMembers(path, fs', ts', cs, bound));
      }
    }
  }

  lemma RemovesNext(path: string, xs: seq<Json>, i: nat, index: nat, cs: bool)
    requires i < |xs|
    ensures CreateForItems(path, xs[i..], [], index, cs)
         == [Compose("remove", path, Some(Decimal(index)), None)] + CreateForItems(path, xs[i+1..], [], index, cs)
  {
    assert xs[i..][1..] == xs[i+1..];
  }

  lemma AddsNext(path: string, ys: seq<Json>, i: nat, cs: bool)
    requires i < |ys|
    ensures CreateForItems(path, [], ys[i..], i, cs)
         == [Compose("add", path, Some("-"), Some(ys[i]))] + CreateForItems(path, [], ys[i+1..], i + 1, cs)
  {
    assert ys[i..][1..] == ys[i+1..];
  }

  lemma NothingToAdd(path: string, index: nat, cs: bool)
    ensures CreateForItems(path, [], [], index, cs) == []
  {
  }

  lemma Associative<T>(a: seq<T>, b: seq<T>, c: seq<T>)
    ensures (a + b) + c == a + (b + c)
  {
  }
}
