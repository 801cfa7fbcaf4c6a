/** Applying one JSON Patch operation: `apply_patch`, `detach_path`, `insert_item_in_array`. */
module PatchApply {
  import opened CString
  import opened JsonTree
  import opened Compare
  import opened JsonPointer
  import MergePatch

  // ----- the last token of a path

  /** `strrchr(s, '/')`. */
  function LastSlash(s: string): (r: Option<nat>)
    ensures r.Some? ==> r.value < |s| && s[r.value] == '/' && '/' !in s[r.value+1..]
    ensures r.None? ==> '/' !in s
  {
    if s == "" then None
    else if s[|s|-1] == '/' then Some(|s| - 1)
    else
      assert s == s[..|s|-1] + [s[|s|-1]];
      LastSlash(s[..|s|-1])
  }

  /** `decode_pointer_inplace` with its two cursors: `i` reads, `d` writes.  A plain character
      is not copied, and the slash of `~1` goes one place behind the write cursor. */
  function DecodeFrom(buf: string, i: nat, d: nat): string
    requires d <= i && d <= |buf|
    decreases |buf| - i
  {
    if i >= |buf| then buf[..d]
    else if buf[i] != '~' then DecodeFrom(buf, i + 1, d + 1)
    else if At(buf, i + 1) == '0' && i + 1 < |buf| then DecodeFrom(buf[d := '~'], i + 2, d + 1)
    else if At(buf, i + 1) == '1' && i + 1 < |buf| then DecodeFrom(buf[d + 1 := '/'], i + 2, d + 1)
    else buf
  }

  function DecodeToken(s: string): string {
    DecodeFrom(s, 0, 0)
  }

  /** `decode_pointer_inplace` on the characters of the token; the result is the new length. */
  method DecodePointerInPlace(buf: array<char>) returns (length: nat)
    modifies buf
    ensures length <= buf.Length && buf[..length] == DecodeToken(old(buf[..]))
  {
    var i, d := 0, 0;
    while i < buf.Length
      invariant d <= i && d <= buf.Length
      invariant DecodeFrom(buf[..], i, d) == DecodeToken(old(buf[..]))
    {
      if buf[i] == '~' {
        if i + 1 < buf.Length && buf[i+1] == '0' {
          ghost var before := buf[..];
          buf[d] := '~';
          assert buf[..] == before[d := '~'];
        } else if i + 1 < buf.Length && buf[i+1] == '1' {
          ghost var before := buf[..];
          buf[d+1] := '/';
          assert buf[..] == before[d + 1 := '/'];
        } else {
          return buf.Length;
        }
        i := i + 1;
      }
      i, d := i + 1, d + 1;
    }
    return d;
  }

  /** The keys whose encoded form the in-place decoder turns back into the key. */
  predicate Survives(k: string) {
    '/' !in k && forall t | 0 <= t < |k| && k[t] != '~' :: Encode(k)[t] == k[t]
  }

  lemma {:induction false} EncodeAppend(a: string, b: string)
    ensures Encode(a + b) == Encode(a) + Encode(b)
  {
    if a == "" {
      assert a + b == b;
    } else {
      hide Encode;
      assert a == [a[0]] + a[1..] && a + b == [a[0]] + (a[1..] + b);
      EncodeCons(a[0], a[1..]);
      EncodeCons(a[0], a[1..] + b);
      EncodeAppend(a[1..], b);
    }
  }

  lemma EncodeCons(c: char, s: string)
    ensures Encode([c] + s) == Encode([c]) + Encode(s)
  {
    assert ([c] + s)[1..] == s && [c][1..] == "";
  }

  /** What the decoder has made of key position `t` when no slash comes before it. */
  ghost predicate Decoded(buf: string, k: string, t: nat)
    requires t < |k| <= |buf| && |Encode(k)| >= |k|
  {
    '/' !in k[..t] ==> buf[t] == if k[t] == '~' then '~' else Encode(k)[t]
  }

  /** The decoder between two characters: `j` key characters are done. */
  ghost predicate Decoding(buf: string, k: string, j: nat) {
    && j <= |k| && |buf| == |Encode(k)| >= |k|
    && (forall t | 0 <= t < j :: Decoded(buf, k, t))
    && (forall t | j < t < |buf| :: buf[t] == Encode(k)[t])
    && (j < |buf| && (j == 0 || k[j-1] != '/') ==> buf[j] == Encode(k)[j])
  }

  lemma EncodeSplit(k: string, j: nat)
    requires j <= |k|
    ensures Encode(k) == Encode(k[..j]) + Encode(k[j..]) && |Encode(k[..j])| >= j
    ensures j < |k| ==> Encode(k[..j+1]) == Encode(k[..j]) + Encode([k[j]])
  {
    assert k == k[..j] + k[j..];
    EncodeAppend(k[..j], k[j..]);
    if j < |k| {
      assert k[..j+1] == k[..j] + [k[j]];
      EncodeAppend(k[..j], [k[j]]);
    }
  }

  /** What the decoder makes of the whole key. */
  ghost predicate DecodedAll(r: string, k: string) {
    |r| == |k| <= |Encode(k)| && forall t | 0 <= t < |k| :: Decoded(r, k, t)
  }

  lemma {:induction false} DecodesTo(buf: string, k: string, j: nat)
    requires Decoding(buf, k, j)
    ensures |Encode(k[..j])| >= j
    ensures DecodedAll(DecodeFrom(buf, |Encode(k[..j])|, j), k)
    decreases |k| - j
  {
    EncodeSplit(k, j);
    if j == |k| {
      DecodedEnd(buf, k);
      assert k[..j] == k;
      hide Decoding, Decoded, DecodedAll;
    } else {
      ReadsNext(buf, k, j);
      WritesNext(buf, k, j);
      DecodeTurn(buf, k, j);
      hide Decoding, Decoded, DecodedAll, DecodeFrom, Written;
      DecodesTo(Written(buf, k, j), k, j + 1);
    }
  }

  lemma DecodedEnd(buf: string, k: string)
    requires Decoding(buf, k, |k|)
    ensures |buf| == |Encode(k)| >= |k| && DecodedAll(buf[..|k|], k)
  {
    forall t | 0 <= t < |k| ensures Decoded(buf[..|k|], k, t) { assert Decoded(buf, k, t); }
  }

  /** One turn of the decoder. */
  lemma DecodeTurn(buf: string, k: string, j: nat)
    requires Decoding(buf, k, j) && j < |k| <= |buf|
    ensures |Encode(k[..j])| >= j && |Encode(k[..j+1])| >= j + 1 && (k[j] == '/' ==> j + 1 < |buf|)
    ensures DecodeFrom(buf, |Encode(k[..j])|, j) == DecodeFrom(Written(buf, k, j), |Encode(k[..j+1])|, j + 1)
  {
    hide Encode, Decoding, Decoded, At, DecodeFrom;
    EncodeSplit(k, j);
    EncodeSplit(k, j + 1);
    ReadsNext(buf, k, j);
    EncodeOne(k[j]);
    DecodeOne(buf, |Encode(k[..j])|, j, k[j]);
  }

  lemma EncodeOne(c: char)
    ensures Encode([c]) == if c == '/' then "~1" else if c == '~' then "~0" else [c]
  {
  }

  lemma DecodeOne(buf: string, i: nat, j: nat, c: char)
    requires j <= i < |buf| && (c == '/' || c == '~' ==> i + 1 < |buf| && buf[i] == '~')
    requires (c == '/' ==> buf[i+1] == '1') && (c == '~' ==> buf[i+1] == '0') && (c != '/' && c != '~' ==> buf[i] == c)
    ensures DecodeFrom(buf, i, j) ==
      if c == '/' then DecodeFrom(buf[j+1 := '/'], i + 2, j + 1)
      else if c == '~' then DecodeFrom(buf[j := '~'], i + 2, j + 1)
      else DecodeFrom(buf, i + 1, j + 1)
  {
  }

  /** The buffer after the decoder has handled key character `j`. */
  function Written(buf: string, k: string, j: nat): string
    requires j < |k| <= |buf| && (k[j] == '/' ==> j + 1 < |buf|)
  {
    if k[j] == '/' then buf[j+1 := '/'] else if k[j] == '~' then buf[j := '~'] else buf
  }

  /** The read cursor sees the encoding of the next character. */
  lemma ReadsNext(buf: string, k: string, j: nat)
    requires Decoding(buf, k, j) && j < |k|
    ensures var i, c := |Encode(k[..j])|, Encode([k[j]]);
      j <= i && i + |c| <= |buf| && |Encode(k[..j+1])| == i + |c| && buf[i] == c[0] && (|c| == 2 ==> buf[i+1] == c[1])
  {
    var i, c := |Encode(k[..j])|, Encode([k[j]]);
    EncodeSplit(k, j);
    EncodeSplit(k, j + 1);
    var e, rest := Encode(k), Encode(k[j+1..]);
    assert e == Encode(k[..j]) + c + rest;
    assert e[i] == c[0] && (|c| == 2 ==> e[i+1] == c[1]);
    if i == j { PlainPrefix(k, j); }
  }

  lemma WritesNext(buf: string, k: string, j: nat)
    requires Decoding(buf, k, j) && j < |k| && (k[j] == '/' ==> j + 1 < |buf|)
    ensures Decoding(Written(buf, k, j), k, j + 1)
  {
    var next := Written(buf, k, j);
    assert Decoded(next, k, j) by {
      if j > 0 { assert k[..j][j-1] == k[j-1]; }
    }
    forall t | 0 <= t < j ensures Decoded(next, k, t) { assert Decoded(buf, k, t); }
  }

  /** As long as nothing was escaped, the read cursor has not run ahead. */
  lemma {:induction false} PlainPrefix(k: string, j: nat)
    requires j <= |k| && |Encode(k[..j])| == j
    ensures j > 0 ==> k[j-1] != '/'
  {
    if j > 0 {
      EncodeSplit(k, j - 1);
      assert k[..j] == k[..j-1] + [k[j-1]];
    }
  }

  /** The in-place decoder undoes the encoding of exactly the surviving keys. */
  lemma DecodeExact(k: string)
    ensures DecodeToken(Encode(k)) == k <==> Survives(k)
  {
    assert k[..0] == "";
    DecodesTo(Encode(k), k, 0);
    var r := DecodeToken(Encode(k));
    if '/' in k {
      var f := FirstSlash(k);
      assert Decoded(r, k, f);
      assert r[f] == Encode(k)[f];
      assert Encode(k)[f] in Encode(k);
      assert r != k;
    } else {
      forall t | 0 <= t < |k| ensures r[t] == if k[t] == '~' then '~' else Encode(k)[t] {
        assert Decoded(r, k, t) && '/' !in k[..t];
      }
      if r == k {
        assert forall t | 0 <= t < |k| && k[t] != '~' :: r[t] == k[t];
      }
    }
  }

  lemma {:induction false} FirstSlash(k: string) returns (f: nat)
    requires '/' in k
    ensures f < |k| && k[f] == '/' && '/' !in k[..f]
  {
    if k[0] == '/' { return 0; }
    f := FirstSlash(k[1..]);
    f := f + 1;
    assert k[..f] == [k[0]] + k[1..][..f-1];
  }

  lemma {:induction false} PlainSurvives(k: string)
    requires '~' !in k && '/' !in k
    ensures Survives(k) && Encode(k) == k
  {
    if k != "" { PlainSurvives(k[1..]); }
  }

  // ----- one operation

  /** The decoder gives up at any other escape: the token keeps its length, and its end from there on. */
  lemma StopsAtBadEscape(k: string, bad: string)
    requires bad != "" && bad[0] == '~' && At(bad, 1) != '0' && At(bad, 1) != '1'
    ensures var r := DecodeToken(Encode(k) + bad); |r| == |Encode(k)| + |bad| && r[|Encode(k)|..] == bad
  {
    StopsFrom(Encode(k) + bad, k, bad, 0, 0);
  }

  lemma {:induction false} StopsFrom(buf: string, k: string, bad: string, i: nat, d: nat)
    requires d <= i <= |buf| && buf[i..] == Encode(k) + bad
    requires bad != "" && bad[0] == '~' && At(bad, 1) != '0' && At(bad, 1) != '1'
    ensures var r := DecodeFrom(buf, i, d); |r| == |buf| && r[|buf|-|bad|..] == bad
    decreases |k|
  {
    hide DecodeFrom, Encode;
    if k == "" {
      StopsHere(buf, bad, i, d);
    } else {
      var rest := Encode(k[1..]) + bad;
      EncodeHead(k, bad);
      if k[0] != '/' && k[0] != '~' {
        PastPlain(buf, i, d, k[0], rest);
        StopsFrom(buf, k[1..], bad, i + 1, d + 1);
      } else {
        var next := PastEscape(buf, i, d, if k[0] == '/' then '1' else '0', rest);
        StopsFrom(next, k[1..], bad, i + 2, d + 1);
      }
    }
  }

  lemma StopsHere(buf: string, bad: string, i: nat, d: nat)
    requires d <= i <= |buf| && buf[i..] == Encode("") + bad
    requires bad != "" && bad[0] == '~' && At(bad, 1) != '0' && At(bad, 1) != '1'
    ensures DecodeFrom(buf, i, d) == buf && buf[|buf|-|bad|..] == bad
  {
    assert buf[i..] == bad && buf[i] == bad[0];
    if i + 1 < |buf| { assert buf[i+1] == bad[1]; }
  }

  lemma PastPlain(buf: string, i: nat, d: nat, c: char, rest: string)
    requires d <= i <= |buf| && buf[i..] == [c] + rest && c != '~'
    ensures i < |buf| && buf[i+1..] == rest && DecodeFrom(buf, i, d) == DecodeFrom(buf, i + 1, d + 1)
  {
    assert buf[i..][0] == c && buf[i+1..] == buf[i..][1..];
  }

  lemma PastEscape(buf: string, i: nat, d: nat, c: char, rest: string) returns (next: string)
    requires d <= i <= |buf| && buf[i..] == ['~', c] + rest && (c == '0' || c == '1')
    ensures i + 2 <= |buf| && |next| == |buf| && next[i+2..] == rest && DecodeFrom(buf, i, d) == DecodeFrom(next, i + 2, d + 1)
  {
    assert buf[i..][0] == '~' && buf[i..][1] == c && buf[i+2..] == buf[i..][2..];
    next := if c == '1' then buf[d + 1 := '/'] else buf[d := '~'];
    assert next[i+2..] == buf[i+2..];
  }

  /** A token without escapes is left as it is. */
  lemma PlainTokenKept(t: string)
    requires '~' !in t
    ensures DecodeToken(t) == t
  {
    PlainFrom(t, 0);
  }

  lemma {:induction false} PlainFrom(t: string, i: nat)
    requires '~' !in t && i <= |t|
    ensures DecodeFrom(t, i, i) == t
    decreases |t| - i
  {
    if i < |t| {
      PlainFrom(t, i + 1);
    } else {
      assert t[..i] == t;
    }
  }

  /** `get_object_item`: an item without named children has none. */
  function GetItem(j: Json, name: string, cs: bool): Option<Json> {
    if !j.Object? then None
    else match FindMember(j.members, name, cs)
      case None => None
      case Some(i) => Some(j.members[i].value)
  }

  /** The tree with the subtree at `loc` exchanged. */
  function Put(j: Json, loc: Loc, x: Json): Json
    requires ValidLoc(j, loc)
    decreases loc
  {
    if loc == [] then x
    else
      var i := loc[0];
      var child := Put(Children(j)[i], loc[1..], x);
      match j
      case Array(items) => Array(items[i := child])
      case Object(ms) => Object(ms[i := Member(ms[i].key, child)])
  }

  /** Detach the child that a decoded token names: the item, and what remains of the parent.
      The member lookup ignores case in both modes. */
  function DetachChild(parent: Json, child: string): Option<(Json, Json)> {
    match parent
    case Array(items) =>
      (match DecodeIndex(child)
       case Some(i) => if i < |items| then Some((items[i], Array(Without(items, i)))) else None
       case None => None)
    case Object(ms) =>
      (match FindMember(ms, child, false)
       case Some(i) => Some((ms[i].value, Object(Without(ms, i))))
       case None => None)
    case _ => None
  }

  /** `detach_path`: the detached item and the remaining tree. */
  function DetachPath(doc: Json, path: string, cs: bool): Option<(Json, Json)> {
    var slash := LastSlash(path);
    if slash.None? then None
    else match Locate(doc, path[..slash.value], cs)
      case None => None
      case Some(loc) =>
        match DetachChild(NodeAt(doc, loc), DecodeToken(path[slash.value+1..]))
        case None => None
        case Some((item, rest)) => Some((item, Put(doc, loc, rest)))
  }

  /** Put a value under a decoded token of a parent: the status and the new parent. */
  function InsertChild(parent: Json, child: string, value: Json, cs: bool): (nat, Json) {
    match parent
    case Array(items) =>
      if child == "-" then (0, Array(items + [value]))
      else (match DecodeIndex(child)
        case None => (11, parent)
        case Some(i) =>
          if i > |items| then (10, parent) else (0, Array(items[..i] + [value] + items[i..])))
    case Object(ms) =>
      var rest := (match FindMember(ms, child, cs)
                   case Some(i) => Without(ms, i)
                   case None => ms);
      (0, Object(rest + [Member(child, value)]))
    case _ => (9, parent)
  }

  /** The last part of `apply_patch`: put a value at a path. */
  function AddAtPath(doc: Json, path: string, value: Json, cs: bool): (nat, Json) {
    var slash := LastSlash(path);
    if slash.None? then (9, doc)
    else match Locate(doc, path[..slash.value], cs)
      case None => (9, doc)
      case Some(loc) =>
        var (status, parent) := InsertChild(NodeAt(doc, loc), DecodeToken(path[slash.value+1..]), value, cs);
        (status, if status == 0 then Put(doc, loc, parent) else doc)
  }

  datatype Operation = OpInvalid | OpAdd | OpRemove | OpReplace | OpMove | OpCopy | OpTest

  /** The patch names this operation. */
  predicate HasOperation(patch: Json, op: string, cs: bool) {
    GetItem(patch, "op", cs) == Some(String(op))
  }

  function DecodeOperation(patch: Json, cs: bool): Operation {
    match GetItem(patch, "op", cs)
    case Some(String(s)) =>
      if s == "add" then OpAdd
      else if s == "remove" then OpRemove
      else if s == "replace" then OpReplace
      else if s == "move" then OpMove
      else if s == "copy" then OpCopy
      else if s == "test" then OpTest
      else OpInvalid
    case _ => OpInvalid
  }

  /** A pointer given as a patch member; `None` unless it is a string. */
  function PointerText(j: Option<Json>): Option<string> {
    if j.Some? && j.value.String? then Some(j.value.valuestring) else None
  }

  /** The comparison of a test, which sorts what it visits; there may be nothing at the path. */
  function ComparePath(doc: Json, path: string, v: Json, cs: bool): (bool, Json) {
    match Locate(doc, path, cs)
    case None => (false, doc)
    case Some(loc) => (CompareJson(NodeAt(doc, loc), v, cs), Put(doc, loc, Walked(NodeAt(doc, loc), v, cs)))
  }

  /** A form of documents: its value, the form of a new item, and what can be done to it. */
  datatype Form<!T> = Form(
    value: T -> Json,
    make: Json -> T,
    detach: (T, string) -> Option<(T, T)>,
    add: (T, string, T) -> (nat, T),
    compare: (T, string, Json) -> (bool, T))

  /** Add a copy of the patch's "value". */
  function ApplyCopy<T>(d: T, patch: Json, path: string, cs: bool, form: Form<T>): (nat, T) {
    match GetItem(patch, "value", cs)
    case None => (7, d)
    case Some(v) =>
      match MergePatch.Duplicate(v, 0)
      case None => (8, d)
      case Some(copy) => if path == "" then (0, form.make(copy)) else form.add(d, path, form.make(copy))
  }

  function ApplyRemove<T>(d: T, path: string, form: Form<T>): (nat, T) {
    if path == "" then (0, form.make(Invalid))
    else match form.detach(d, path)
      case None => (13, d)
      case Some((_, rest)) => (0, rest)
  }

  function ApplyReplace<T>(d: T, patch: Json, path: string, cs: bool, form: Form<T>): (nat, T) {
    if path == "" then ApplyCopy(d, patch, path, cs, form)
    else match form.detach(d, path)
      case None => (13, d)
      case Some((_, rest)) => ApplyCopy(rest, patch, path, cs, form)
  }

  function ApplyMove<T>(d: T, patch: Json, path: string, cs: bool, form: Form<T>): (nat, T) {
    match GetItem(patch, "from", cs)
    case None => (4, d)
    case Some(from) =>
      if !from.String? then (5, d)
      else match form.detach(d, from.valuestring)
        case None => (5, d)
        case Some((item, rest)) => form.add(rest, path, item)
  }

  /** Add a copy of the value at the patch's "from". */
  function ApplyFrom<T>(d: T, patch: Json, path: string, cs: bool, form: Form<T>): (nat, T) {
    match GetItem(patch, "from", cs)
    case None => (4, d)
    case Some(from) =>
      if !from.String? then (5, d)
      else match Locate(form.value(d), from.valuestring, cs)
        case None => (5, d)
        case Some(loc) =>
          match MergePatch.Duplicate(NodeAt(form.value(d), loc), 0)
          case None => (6, d)
          case Some(copy) => form.add(d, path, form.make(copy))
  }

  function ApplyTest<T>(d: T, patch: Json, path: string, cs: bool, form: Form<T>): (nat, T) {
    match GetItem(patch, "value", cs)
    case None => (1, d)
    case Some(v) =>
      var (same, next) := form.compare(d, path, v);
      (if same then 0 else 1, next)
  }

  /** `apply_patch`: the status and the document it leaves behind, also when it fails halfway. */
  function Apply<T>(d: T, patch: Json, cs: bool, form: Form<T>): (nat, T) {
    match PointerText(GetItem(patch, "path", cs))
    case None => (2, d)
    case Some(path) =>
      match DecodeOperation(patch, cs)
      case OpInvalid => (3, d)
      case OpTest => ApplyTest(d, patch, path, cs, form)
      case OpAdd => ApplyCopy(d, patch, path, cs, form)
      case OpRemove => ApplyRemove(d, path, form)
      case OpReplace => ApplyReplace(d, patch, path, cs, form)
      case OpMove => ApplyMove(d, patch, path, cs, form)
      case OpCopy => ApplyFrom(d, patch, path, cs, form)
  }

  // ----- documents as values, as long as all lists end at their tails

  function Plain(cs: bool): Form<Json> {
    Form((j: Json) => j, (j: Json) => j,
         (doc: Json, path: string) => DetachPath(doc, path, cs),
         (doc: Json, path: string, x: Json) => AddAtPath(doc, path, x, cs),
         (doc: Json, path: string, v: Json) => ComparePath(doc, path, v, cs))
  }

  function AddCopy(doc: Json, patch: Json, path: string, cs: bool): (nat, Json) {
    ApplyCopy(doc, patch, path, cs, Plain(cs))
  }

  function ApplyPatch(doc: Json, patch: Json, cs: bool): (nat, Json) {
    Apply(doc, patch, cs, Plain(cs))
  }

  /** `cJSONUtils_ApplyPatches` over the elements of the patch array: stop at the first failure. */
  function Run<T>(d: T, patches: seq<Json>, cs: bool, form: Form<T>): (nat, T)
    decreases |patches|
  {
    if patches == [] then (0, d)
    else
      var (status, next) := Apply(d, patches[0], cs, form);
      if status != 0 then (status, next) else Run(next, patches[1..], cs, form)
  }

  function ApplyAll(doc: Json, patches: seq<Json>, cs: bool): (nat, Json) {
    Run(doc, patches, cs, Plain(cs))
  }
}
