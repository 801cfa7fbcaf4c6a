/** JSON Pointer: building (`cJSONUtils_FindPointerFromObjectTo`) and following (`get_item_from_pointer`). */
module JsonPointer {
  import opened CString
  import opened JsonTree
  import opened MergeSort
  import opened Compare

  /** A node of a tree, as the child indices that lead to it. */
  type Loc = seq<nat>

  const ULONG_RANGE: nat := 0x1_0000_0000_0000_0000

  function Children(j: Json): seq<Json> {
    match j
    case Array(items) => items
    case Object(ms) => seq(|ms|, i requires 0 <= i < |ms| => ms[i].value)
    case _ => []
  }

  predicate ValidLoc(j: Json, loc: Loc)
    decreases loc
  {
    loc == [] || (loc[0] < |Children(j)| && ValidLoc(Children(j)[loc[0]], loc[1..]))
  }

  function NodeAt(j: Json, loc: Loc): Json
    requires ValidLoc(j, loc)
    decreases loc
  {
    if loc == [] then j else NodeAt(Children(j)[loc[0]], loc[1..])
  }

  // ----- tokens

  /** `encode_string_as_pointer`: `~` and `/` become `~0` and `~1`. */
  function Encode(s: string): (e: string)
    ensures |e| >= |s|
    ensures '/' !in e
  {
    if s == "" then ""
    else if s[0] == '/' then "~1" + Encode(s[1..])
    else if s[0] == '~' then "~0" + Encode(s[1..])
    else [s[0]] + Encode(s[1..])
  }

  /** Where a path token stops: at the end of the pointer or before the next slash. */
  predicate TokenEnd(p: string) {
    p == "" || p[0] == '/'
  }

  function SkipToken(p: string): string {
    if TokenEnd(p) then p else SkipToken(p[1..])
  }

  /** What `compare_pointers` returns. */
  predicate TokenMatches(name: string, p: string, cs: bool) {
    if name == "" || TokenEnd(p) then TokenEnd(p) == (name == "")
    else if p[0] == '~' then
      if (At(p, 1) != '0' || name[0] != '~') && (At(p, 1) != '1' || name[0] != '/') then false
      else if |p| < 2 then false
      else TokenMatches(name[1..], p[2..], cs)
    else ModeChar(name[0], cs) == ModeChar(p[0], cs) && TokenMatches(name[1..], p[1..], cs)
  }

  /** `compare_pointers`: walk the name and the token side by side. */
  method ComparePointers(name: string, pointer: string, cs: bool) returns (same: bool)
    requires NulFree(name) && NulFree(pointer)
    ensures same == TokenMatches(name, pointer, cs)
  {
    var n, p := 0, 0;
    while At(name, n) != '\0' && At(pointer, p) != '\0' && At(pointer, p) != '/'
      invariant n <= |name| && p <= |pointer|
      invariant TokenMatches(name[n..], pointer[p..], cs) == TokenMatches(name, pointer, cs)
      decreases |name| - n
    {
      assert name[n..][1..] == name[n+1..] && pointer[p..][1..] == pointer[p+1..];
      if pointer[p] == '~' {
        if (At(pointer, p + 1) != '0' || name[n] != '~') && (At(pointer, p + 1) != '1' || name[n] != '/') {
          return false;
        }
        assert pointer[p..][2..] == pointer[p+2..];
        p := p + 1;
      } else if ModeChar(name[n], cs) != ModeChar(pointer[p], cs) {
        return false;
      }
      n, p := n + 1, p + 1;
    }
    return (At(pointer, p) != '\0' && At(pointer, p) != '/') == (At(name, n) != '\0');
  }

  lemma SameKeyCons(a: string, b: string, cs: bool)
    requires a != "" && b != ""
    ensures SortKey(a, cs) == SortKey(b, cs) <==>
      ModeChar(a[0], cs) == ModeChar(b[0], cs) && SortKey(a[1..], cs) == SortKey(b[1..], cs)
  {
    assert SortKey(a, cs) == [ModeChar(a[0], cs)] + SortKey(a[1..], cs);
    assert SortKey(b, cs) == [ModeChar(b[0], cs)] + SortKey(b[1..], cs);
    assert SortKey(a, cs)[1..] == SortKey(a[1..], cs) && SortKey(b, cs)[1..] == SortKey(b[1..], cs);
  }

  /** The comparison of one encoded character. */
  lemma EncodedHead(name: string, key: string, rest: string, cs: bool)
    requires name != "" && key != "" && TokenEnd(rest)
    ensures TokenMatches(name, Encode(key) + rest, cs) <==>
      ModeChar(name[0], cs) == ModeChar(key[0], cs) && TokenMatches(name[1..], Encode(key[1..]) + rest, cs)
  {
    var tail := Encode(key[1..]) + rest;
    EncodeHead(key, rest);
    hide Encode, TokenMatches, ModeChar, TokenEnd;
    UnchangedByCase(name[0], key[0], cs);
    if key[0] == '/' {
      EscapedHead(name, '1', tail, cs);
    } else if key[0] == '~' {
      EscapedHead(name, '0', tail, cs);
    } else {
      PlainHead(name, key[0], tail, cs);
    }
  }

  lemma EncodeHead(key: string, rest: string)
    requires key != ""
    ensures var tail := Encode(key[1..]) + rest;
      Encode(key) + rest ==
      if key[0] == '/' then ['~', '1'] + tail else if key[0] == '~' then ['~', '0'] + tail else [key[0]] + tail
  {
  }

  lemma EscapedHead(name: string, d: char, rest: string, cs: bool)
    requires name != "" && (d == '0' || d == '1')
    ensures TokenMatches(name, ['~', d] + rest, cs) <==>
      name[0] == (if d == '0' then '~' else '/') && TokenMatches(name[1..], rest, cs)
  {
    assert (['~', d] + rest)[2..] == rest;
  }

  lemma PlainHead(name: string, c: char, rest: string, cs: bool)
    requires name != "" && c != '~' && c != '/'
    ensures TokenMatches(name, [c] + rest, cs) <==> ModeChar(name[0], cs) == ModeChar(c, cs) && TokenMatches(name[1..], rest, cs)
  {
    assert ([c] + rest)[1..] == rest;
  }

  lemma UnchangedByCase(a: char, c: char, cs: bool)
    ensures c == '~' || c == '/' ==> (ModeChar(a, cs) == ModeChar(c, cs) <==> a == c)
  {
  }

  /** An encoded token matches a name exactly when the two keys are equal in the case mode. */
  lemma {:induction false} EncodedMatches(name: string, key: string, rest: string, cs: bool)
    requires TokenEnd(rest)
    ensures TokenMatches(name, Encode(key) + rest, cs) <==> SortKey(name, cs) == SortKey(key, cs)
  {
    if key == "" {
      assert Encode(key) + rest == rest;
    } else if name != "" {
      EncodedHead(name, key, rest, cs);
      SameKeyCons(name, key, cs);
      EncodedMatches(name[1..], key[1..], rest, cs);
    }
  }

  lemma {:induction false} SkipEncoded(t: string, rest: string)
    requires '/' !in t && TokenEnd(rest)
    ensures SkipToken(t + rest) == rest
  {
    if t == "" {
      assert t + rest == rest;
    } else {
      assert (t + rest)[1..] == t[1..] + rest;
      SkipEncoded(t[1..], rest);
    }
  }

  // ----- what a token denotes

  /** Every `~` of the token stands before a 0 or a 1. */
  predicate WellEscaped(t: string) {
    forall i | 0 <= i < |t| && t[i] == '~' :: i + 1 < |t| && (t[i+1] == '0' || t[i+1] == '1')
  }

  /** Every `~` followed by `d` becomes `c`. */
  function Replaced(t: string, d: char, c: char): string {
    if t == "" then ""
    else if t[0] == '~' && At(t, 1) == d && |t| > 1 then [c] + Replaced(t[2..], d, c)
    else [t[0]] + Replaced(t[1..], d, c)
  }

  /** Section 4 of RFC 6901: first every `~1` becomes a slash, then every `~0` a tilde. */
  function Unescaped(t: string): string {
    Replaced(Replaced(t, '1', '/'), '0', '~')
  }

  lemma UnescapedHead(t: string)
    requires t != "" && (t[0] == '~' ==> |t| > 1 && (t[1] == '0' || t[1] == '1'))
    ensures Unescaped(t) ==
      if t[0] != '~' then [t[0]] + Unescaped(t[1..]) else [if t[1] == '0' then '~' else '/'] + Unescaped(t[2..])
  {
    var rest := if t[0] == '~' then t[2..] else t[1..];
    if t[0] == '~' && t[1] == '0' {
      assert t[1..][0] == '0' && t[1..][1..] == rest;
      assert Replaced(t, '1', '/') == ['~'] + (['0'] + Replaced(rest, '1', '/'));
      assert (['~'] + (['0'] + Replaced(rest, '1', '/')))[2..] == Replaced(rest, '1', '/');
    } else {
      var c := if t[0] == '~' then '/' else t[0];
      assert Replaced(t, '1', '/') == [c] + Replaced(rest, '1', '/');
      assert ([c] + Replaced(rest, '1', '/'))[1..] == Replaced(rest, '1', '/');
    }
  }

  lemma WellEscapedTail(t: string)
    requires t != ""
    ensures t[0] != '~' ==> (WellEscaped(t) <==> WellEscaped(t[1..]))
    ensures t[0] == '~' ==> (WellEscaped(t) <==> |t| > 1 && (t[1] == '0' || t[1] == '1') && WellEscaped(t[2..]))
  {
    if t[0] != '~' {
      if WellEscaped(t[1..]) {
        forall i | 0 <= i < |t| && t[i] == '~' ensures i + 1 < |t| && (t[i+1] == '0' || t[i+1] == '1') {
          assert t[1..][i-1] == '~';
        }
      }
    } else if |t| > 1 && (t[1] == '0' || t[1] == '1') {
      if WellEscaped(t) {
        forall i | 0 <= i < |t[2..]| && t[2..][i] == '~' ensures i + 1 < |t[2..]| && (t[2..][i+1] == '0' || t[2..][i+1] == '1') {
          assert t[i+2] == '~';
        }
      } else {
        var i :| 0 <= i < |t| && t[i] == '~' && !(i + 1 < |t| && (t[i+1] == '0' || t[i+1] == '1'));
        assert t[2..][i-2] == '~';
      }
    }
  }

  /** Encoding is undone by these two replacements. */
  lemma {:induction false} EncodeUnescaped(k: string)
    ensures WellEscaped(Encode(k)) && Unescaped(Encode(k)) == k
  {
    if k != "" {
      var e := Encode(k);
      EncodeHead(k, "");
      assert e + "" == e && Encode(k[1..]) + "" == Encode(k[1..]);
      hide Encode, Unescaped, WellEscaped;
      EncodeUnescaped(k[1..]);
      WellEscapedTail(e);
      UnescapedHead(e);
      assert e[if e[0] == '~' then 2 else 1..] == Encode(k[1..]);
      assert k == [k[0]] + k[1..];
    }
  }

  /** The keys a token denotes: those equal, in the case mode, to what RFC 6901 makes of it; a token with any other escape
      denotes none. */
  predicate Denotes(key: string, t: string, cs: bool) {
    WellEscaped(t) && SortKey(key, cs) == SortKey(Unescaped(t), cs)
  }

  /** Any token matches exactly the keys it denotes. */
  lemma {:induction false} TokenMatchesExact(name: string, t: string, rest: string, cs: bool)
    requires '/' !in t && TokenEnd(rest)
    ensures TokenMatches(name, t + rest, cs) <==> Denotes(name, t, cs)
    decreases |t|
  {
    hide SortKey, Unescaped, WellEscaped, ModeChar;
    if t == "" {
      assert t + rest == rest;
      EmptyUnescaped();
      EmptyKey(name, cs);
    } else {
      WellEscapedTail(t);
      assert (t + rest)[0] == t[0] && (t + rest)[1..] == t[1..] + rest && !TokenEnd(t + rest);
      if t[0] != '~' {
        UnescapedHead(t);
        EmptyKey(name, cs);
        EmptyKey(Unescaped(t), cs);
        if name != "" {
          TokenMatchesExact(name[1..], t[1..], rest, cs);
          SameKeyCons(name, Unescaped(t), cs);
        }
      } else if |t| > 1 && (t[1] == '0' || t[1] == '1') {
        assert (t + rest)[1] == t[1] && (t + rest)[2..] == t[2..] + rest;
        UnescapedHead(t);
        EmptyKey(name, cs);
        EmptyKey(Unescaped(t), cs);
        if name != "" {
          UnchangedByCase(name[0], Unescaped(t)[0], cs);
          TokenMatchesExact(name[1..], t[2..], rest, cs);
          SameKeyCons(name, Unescaped(t), cs);
        }
      } else {
        BadEscape(t, rest);
      }
    }
  }

  lemma BadEscape(t: string, rest: string)
    requires t != "" && TokenEnd(rest) && !(|t| > 1 && (t[1] == '0' || t[1] == '1'))
    ensures At(t + rest, 1) != '0' && At(t + rest, 1) != '1'
  {
    if |t| == 1 { assert |t + rest| > 1 ==> (t + rest)[1] == rest[0]; }
  }

  lemma EmptyUnescaped()
    ensures Unescaped("") == "" && WellEscaped("")
  {
  }

  lemma EmptyKey(s: string, cs: bool)
    ensures SortKey(s, cs) == SortKey("", cs) <==> s == ""
  {
  }

  // ----- array indices

  /** The digit loop of `decode_array_index_from_pointer`, in 64-bit arithmetic; it returns the rest too. */
  function ScanIndex(p: string, parsed: nat): (nat, string) {
    if p != "" && IsDigit(p[0])
    then ScanIndex(p[1..], (10 * parsed + (p[0] as int - '0' as int)) % ULONG_RANGE)
    else (parsed, p)
  }

  /** `decode_array_index_from_pointer`: a leading zero is refused unless it is the whole token. */
  function DecodeIndex(p: string): Option<nat> {
    if At(p, 0) == '0' && !TokenEnd(p[1..]) then None
    else
      var (index, rest) := ScanIndex(p, 0);
      if TokenEnd(rest) then Some(index) else None
  }

  lemma {:induction false} ScanDigits(a: string, b: string, rest: string)
    requires AllDigits(a) && AllDigits(b) && AllDigits(a + b)
    requires TokenEnd(rest) && DigitsValue(a + b) < ULONG_RANGE
    ensures DigitsValue(a) < ULONG_RANGE
    ensures ScanIndex(b + rest, DigitsValue(a)) == (DigitsValue(a + b), rest)
    decreases |b|
  {
    if b == "" {
      assert b + rest == rest && a + b == a;
    } else {
      var next := a + [b[0]];
      assert IsDigit(b[0]) && AllDigits(b[1..]);
      hide AllDigits, TokenEnd, IsDigit, DigitsValue, ScanIndex;
      MoveHead(a, b);
      DigitsStep(a, b[0]);
      ScanDigits(next, b[1..], rest);
      ScanStep(b, rest, DigitsValue(a), DigitsValue(next));
    }
  }

  lemma MoveHead(a: string, b: string)
    requires b != ""
    ensures (a + [b[0]]) + b[1..] == a + b
  {
  }

  lemma ScanStep(b: string, rest: string, parsed: nat, next: nat)
    requires b != "" && IsDigit(b[0]) && next == 10 * parsed + (b[0] as int - '0' as int) < ULONG_RANGE
    ensures ScanIndex(b + rest, parsed) == ScanIndex(b[1..] + rest, next)
  {
    assert (b + rest)[1..] == b[1..] + rest;
  }

  lemma DecodeDecimal(i: nat, rest: string)
    requires i < ULONG_RANGE && TokenEnd(rest)
    ensures DecodeIndex(Decimal(i) + rest) == Some(i)
  {
    var d := Decimal(i);
    DecimalValue(i);
    assert "" + d == d;
    ScanDigits("", d, rest);
    if i == 0 {
      assert (d + rest)[1..] == rest;
    }
  }

  /** Reducing early does not change the remainder. */
  lemma ScanRemainder(n: nat, d: nat)
    ensures (10 * (n % ULONG_RANGE) + d) % ULONG_RANGE == (10 * n + d) % ULONG_RANGE
  {
    var q, r := n / ULONG_RANGE, n % ULONG_RANGE;
    assert 10 * n + d == 10 * r + d + (10 * q) * ULONG_RANGE;
    AddMultiple(10 * r + d, 10 * q);
  }

  lemma {:induction false} AddMultiple(n: nat, k: nat)
    ensures (n + k * ULONG_RANGE) % ULONG_RANGE == n % ULONG_RANGE
  {
    if k > 0 { AddMultiple(n, k - 1); }
  }

  lemma {:induction false} ScanAll(a: string, b: string, rest: string)
    requires AllDigits(a) && AllDigits(b) && AllDigits(a + b) && (rest != "" ==> !IsDigit(rest[0]))
    ensures ScanIndex(b + rest, DigitsValue(a) % ULONG_RANGE) == (DigitsValue(a + b) % ULONG_RANGE, rest)
    decreases |b|
  {
    if b == "" {
      assert b + rest == rest && a + b == a;
    } else {
      var next, d := a + [b[0]], b[0] as int - '0' as int;
      assert IsDigit(b[0]) && AllDigits(b[1..]);
      assert (b + rest)[1..] == b[1..] + rest && (b + rest)[0] == b[0];
      assert ScanIndex(b + rest, DigitsValue(a) % ULONG_RANGE)
          == ScanIndex(b[1..] + rest, (10 * (DigitsValue(a) % ULONG_RANGE) + d) % ULONG_RANGE);
      hide AllDigits, TokenEnd, IsDigit, DigitsValue, ScanIndex;
      MoveHead(a, b);
      DigitsStep(a, b[0]);
      ScanRemainder(DigitsValue(a), d);
      ScanAll(next, b[1..], rest);
    }
  }

  /** Which tokens denote an index: digits up to the end of the token, without a leading zero in front of others.  No digit
      at all denotes index 0, and a number beyond 64 bits its remainder. */
  lemma DecodeIndexExact(digits: string, rest: string)
    requires AllDigits(digits) && (rest != "" ==> !IsDigit(rest[0]))
    ensures DecodeIndex(digits + rest) ==
      if (rest == "" || rest[0] == '/') && (|digits| <= 1 || digits[0] != '0')
      then Some(DigitsValue(digits) % 0x1_0000_0000_0000_0000) else None
  {
    assert "" + digits == digits && AllDigits("") && DigitsValue("") == 0;
    ScanAll("", digits, rest);
    DigitsFirst(digits, rest);
    hide ScanIndex, DigitsValue, AllDigits;
  }

  lemma DigitsFirst(digits: string, rest: string)
    requires AllDigits(digits) && (rest != "" ==> !IsDigit(rest[0]))
    ensures var p := digits + rest;
      At(p, 0) == '0' && !TokenEnd(p[1..]) <==> digits != "" && digits[0] == '0' && (|digits| > 1 || !TokenEnd(rest))
  {
    var p := digits + rest;
    if digits != "" { assert p[0] == digits[0] && p[1..] == digits[1..] + rest; }
    if |digits| > 1 { assert p[1..][0] == digits[1] && IsDigit(digits[1]); }
  }

  // ----- following a pointer

  function FirstMatch(ms: seq<Member>, p: string, cs: bool): (r: Option<nat>)
    ensures r.Some? ==> r.value < |ms| && TokenMatches(ms[r.value].key, p, cs)
    ensures r.Some? ==> forall j | 0 <= j < r.value :: !TokenMatches(ms[j].key, p, cs)
    ensures r.None? ==> forall j | 0 <= j < |ms| :: !TokenMatches(ms[j].key, p, cs)
  {
    if ms == [] then None
    else if TokenMatches(ms[0].key, p, cs) then Some(0)
    else match FirstMatch(ms[1..], p, cs)
      case None => None
      case Some(i) => Some(i + 1)
  }

  /** The child that the token at the start of `p` selects. */
  function SelectChild(j: Json, p: string, cs: bool): (r: Option<nat>)
    ensures r.Some? ==> r.value < |Children(j)|
  {
    match j
    case Array(items) =>
      (match DecodeIndex(p)
       case Some(i) => if i < |items| then Some(i) else None
       case None => None)
    case Object(ms) => FirstMatch(ms, p, cs)
    case _ => None
  }

  lemma {:induction false} SkipTokenShrinks(p: string)
    ensures |SkipToken(p)| <= |p|
  {
    if !TokenEnd(p) { SkipTokenShrinks(p[1..]); }
  }

  /** A location below the one that `prefix` names. */
  function Below(prefix: Loc, r: Option<Loc>): Option<Loc> {
    if r.Some? then Some(prefix + r.value) else None
  }

  lemma BelowBelow(a: Loc, b: Loc, r: Option<Loc>)
    ensures Below(a, Below(b, r)) == Below(a + b, r) && Below([], r) == r
  {
    if r.Some? {
      assert a + (b + r.value) == a + b + r.value;
      assert [] + r.value == r.value;
    }
  }

  /** What `get_item_from_pointer` finds, as a location. */
  function Locate(j: Json, pointer: string, cs: bool): (r: Option<Loc>)
    ensures r.Some? ==> ValidLoc(j, r.value)
    decreases |pointer|
  {
    if pointer == "" || pointer[0] != '/' then Some([])
    else
      var p := pointer[1..];
      match SelectChild(j, p, cs)
      case None => None
      case Some(i) =>
        SkipTokenShrinks(p);
        Below([i], Locate(Children(j)[i], SkipToken(p), cs))
  }

  lemma {:induction false} LocConcat(j: Json, a: Loc, b: Loc)
    requires ValidLoc(j, a)
    ensures ValidLoc(j, a + b) <==> ValidLoc(NodeAt(j, a), b)
    ensures ValidLoc(j, a + b) ==> NodeAt(j, a + b) == NodeAt(NodeAt(j, a), b)
    decreases a
  {
    if a == [] {
      assert a + b == b;
    } else {
      assert (a + b)[1..] == a[1..] + b;
      LocConcat(Children(j)[a[0]], a[1..], b);
    }
  }

  /** `get_item_from_pointer`: the loop that follows one token after the other. */
  method GetItemFromPointer(root: Json, pointer: string, cs: bool) returns (r: Option<Loc>)
    ensures r == Locate(root, pointer, cs)
  {
    var p := pointer;
    var loc: Loc := [];
    BelowBelow([], [], Locate(root, pointer, cs));
    while p != "" && p[0] == '/'
      invariant ValidLoc(root, loc)
      invariant Locate(root, pointer, cs) == Below(loc, Locate(NodeAt(root, loc), p, cs))
      decreases |p|
    {
      var current := NodeAt(root, loc);
      var child := SelectChild(current, p[1..], cs);
      if child.None? { return None; }
      SkipTokenShrinks(p[1..]);
      BelowBelow(loc, [child.value], Locate(Children(current)[child.value], SkipToken(p[1..]), cs));
      LocConcat(root, loc, [child.value]);
      loc := loc + [child.value];
      p := SkipToken(p[1..]);
    }
    r := Some(loc);
    assert loc + [] == loc;
  }

  // ----- which node any pointer names

  /** A pointer as its tokens, each behind a slash. */
  function Tokens(ts: seq<string>): (p: string)
    ensures TokenEnd(p)
  {
    if ts == [] then "" else "/" + ts[0] + Tokens(ts[1..])
  }

  /** The child a token names: the element at its index, or the first member whose key it denotes. */
  ghost predicate Names(j: Json, t: string, i: nat, cs: bool) {
    match j
    case Array(items) =>
      i < |items| && AllDigits(t) && (|t| <= 1 || t[0] != '0') && i == DigitsValue(t) % 0x1_0000_0000_0000_0000
    case Object(ms) => i < |ms| && Denotes(ms[i].key, t, cs) && forall k | 0 <= k < i :: !Denotes(ms[k].key, t, cs)
    case _ => false
  }

  lemma SelectExact(j: Json, t: string, rest: string, i: nat, cs: bool)
    requires '/' !in t && TokenEnd(rest)
    ensures SelectChild(j, t + rest, cs) == Some(i) <==> Names(j, t, i, cs)
  {
    hide Denotes, TokenMatches, DecodeIndex, AllDigits, DigitsValue;
    match j
    case Array(items) => IndexDenoted(t, rest);
    case Object(ms) =>
      forall k | 0 <= k < |ms| ensures TokenMatches(ms[k].key, t + rest, cs) <==> Denotes(ms[k].key, t, cs) {
        TokenMatchesExact(ms[k].key, t, rest, cs);
      }
    case _ =>
  }

  /** Where the digits end. */
  lemma DigitsUpTo(t: string) returns (n: nat)
    ensures n <= |t| && AllDigits(t[..n]) && (n < |t| ==> !IsDigit(t[n]))
  {
    n := 0;
    while n < |t| && IsDigit(t[n])
      invariant n <= |t| && AllDigits(t[..n])
    {
      n := n + 1;
    }
  }

  /** Any token, whatever its characters, as an index. */
  lemma IndexDenoted(t: string, rest: string)
    requires '/' !in t && TokenEnd(rest)
    ensures DecodeIndex(t + rest) ==
      if AllDigits(t) && (|t| <= 1 || t[0] != '0') then Some(DigitsValue(t) % 0x1_0000_0000_0000_0000) else None
  {
    hide DecodeIndex, DigitsValue, AllDigits;
    var n := DigitsUpTo(t);
    CutToken(t, n, rest);
    DecodeIndexExact(t[..n], t[n..] + rest);
    NotAllDigits(t, n);
  }

  lemma CutToken(t: string, n: nat, rest: string)
    requires n <= |t| && '/' !in t && TokenEnd(rest) && (n < |t| ==> !IsDigit(t[n]))
    ensures t + rest == t[..n] + (t[n..] + rest)
    ensures var behind := t[n..] + rest; (behind != "" ==> !IsDigit(behind[0])) && (TokenEnd(behind) <==> n == |t|)
  {
    if n < |t| { assert (t[n..] + rest)[0] == t[n] && t[n] in t; } else { assert t[n..] + rest == rest; }
  }

  lemma NotAllDigits(t: string, n: nat)
    requires n <= |t| && AllDigits(t[..n]) && (n < |t| ==> !IsDigit(t[n]))
    ensures (n == |t| <==> AllDigits(t)) && (n == |t| ==> t[..n] == t)
  {
  }

  /** Each token names a child of the node reached before. */
  ghost predicate AllNamed(j: Json, ts: seq<string>, loc: Loc, cs: bool) {
    |loc| == |ts| && forall n | 0 <= n < |ts| :: NamedAt(j, ts, loc, n, cs)
  }

  ghost predicate NamedAt(j: Json, ts: seq<string>, loc: Loc, n: nat, cs: bool)
    requires n < |ts| == |loc|
  {
    ValidLoc(j, loc[..n]) && Names(NodeAt(j, loc[..n]), ts[n], loc[n], cs)
  }

  lemma NamedBelow(j: Json, ts: seq<string>, loc: Loc, cs: bool)
    requires ts != [] && loc != [] && Names(j, ts[0], loc[0], cs) && loc[0] < |Children(j)|
    ensures AllNamed(j, ts, loc, cs) <==> AllNamed(Children(j)[loc[0]], ts[1..], loc[1..], cs)
  {
    var child := Children(j)[loc[0]];
    if |loc| == |ts| {
      hide Names;
      forall n: nat | n < |ts| - 1 ensures NamedAt(j, ts, loc, n + 1, cs) <==> NamedAt(child, ts[1..], loc[1..], n, cs) {
        assert loc[..n+1][1..] == loc[1..][..n] && loc[..n+1][0] == loc[0];
      }
      if AllNamed(child, ts[1..], loc[1..], cs) {
        forall n | 0 <= n < |ts| ensures NamedAt(j, ts, loc, n, cs) {
          if n > 0 { assert NamedAt(child, ts[1..], loc[1..], n - 1, cs); }
        }
      }
    }
  }

  /** The node any pointer names: following the tokens one by one leads exactly there. */
  lemma {:induction false} LocateExact(j: Json, ts: seq<string>, loc: Loc, cs: bool)
    requires forall t <- ts :: '/' !in t
    ensures Locate(j, Tokens(ts), cs) == Some(loc) <==> AllNamed(j, ts, loc, cs)
    decreases |ts|
  {
    hide SelectChild, Names, NamedAt;
    if ts != [] {
      var t, rest := ts[0], Tokens(ts[1..]);
      SelectBelow(j, t, rest, cs);
      if loc != [] {
        SelectExact(j, t, rest, loc[0], cs);
        NamedFirst(j, ts, loc, cs);
        if Names(j, t, loc[0], cs) {
          LocateExact(Children(j)[loc[0]], ts[1..], loc[1..], cs);
          NamedBelow(j, ts, loc, cs);
          assert loc == [loc[0]] + loc[1..];
        }
      }
    }
  }

  lemma NamedFirst(j: Json, ts: seq<string>, loc: Loc, cs: bool)
    requires ts != [] && loc != []
    ensures Names(j, ts[0], loc[0], cs) ==> loc[0] < |Children(j)|
    ensures AllNamed(j, ts, loc, cs) ==> Names(j, ts[0], loc[0], cs)
  {
    if AllNamed(j, ts, loc, cs) { assert NamedAt(j, ts, loc, 0, cs); }
  }

  lemma SelectBelow(j: Json, t: string, rest: string, cs: bool)
    requires '/' !in t && TokenEnd(rest)
    ensures Locate(j, "/" + t + rest, cs) ==
      match SelectChild(j, t + rest, cs)
      case None => None
      case Some(i) => Below([i], Locate(Children(j)[i], rest, cs))
  {
    var p := "/" + t + rest;
    assert p[1..] == t + rest;
    SkipEncoded(t, rest);
  }

  /** A text that does not start with a slash names the whole document. */
  lemma NoSlashNamesRoot(j: Json, pointer: string, cs: bool)
    requires pointer == "" || pointer[0] != '/'
    ensures Locate(j, pointer, cs) == Some([])
  {
  }

  // ----- steps: the reference form of a path

  datatype Step = Key(key: string) | Index(index: nat)

  function Token(s: Step): (t: string)
    ensures '/' !in t
  {
    match s
    case Key(k) => Encode(k)
    case Index(i) => Decimal(i)
  }

  /** Section 3 of RFC 6901: each reference token is prefixed by a slash. */
  function PathText(steps: seq<Step>): (p: string)
    ensures TokenEnd(p)
  {
    if steps == [] then "" else "/" + Token(steps[0]) + PathText(steps[1..])
  }

  ghost predicate StepsFrom(steps: seq<Step>, ks: iset<string>) {
    forall i | 0 <= i < |steps| :: (steps[i].Key? ==> steps[i].key in ks) && (steps[i].Index? ==> steps[i].index < ULONG_RANGE)
  }

  /** The child a step names, by exact key or by index. */
  function StepChild(j: Json, s: Step): (r: Option<nat>)
    ensures r.Some? ==> r.value < |Children(j)|
  {
    match (j, s)
    case (Array(items), Index(i)) => if i < |items| then Some(i) else None
    case (Object(ms), Key(k)) => if k in Keys(ms) then Some(IndexOf(ms, k)) else None
    case _ => None
  }

  /** Section 4 of RFC 6901: evaluation, token by token. */
  function Resolve(j: Json, steps: seq<Step>): (r: Option<Loc>)
    ensures r.Some? ==> ValidLoc(j, r.value)
    decreases steps
  {
    if steps == [] then Some([])
    else match StepChild(j, steps[0])
      case None => None
      case Some(i) =>
        Below([i], Resolve(Children(j)[i], steps[1..]))
  }

  /** As far as the steps lead, an array meets an index and an object a key. */
  predicate Aligned(j: Json, steps: seq<Step>)
    decreases steps
  {
    steps == [] || (
      && (j.Array? ==> steps[0].Index?) && (j.Object? ==> steps[0].Key?)
      && (StepChild(j, steps[0]).Some? ==> Aligned(Children(j)[StepChild(j, steps[0]).value], steps[1..]))
    )
  }

  lemma {:induction false} ResolvedAligned(j: Json, steps: seq<Step>)
    requires Resolve(j, steps).Some?
    ensures Aligned(j, steps)
    decreases steps
  {
    if steps != [] { ResolvedAligned(Children(j)[StepChild(j, steps[0]).value], steps[1..]); }
  }

  /** The token text of a step selects the child the step names. */
  lemma SelectStep(j: Json, s: Step, rest: string, cs: bool, ks: iset<string>)
    requires WellKeyed(j, ks) && Separates(cs, ks) && StepsFrom([s], ks) && TokenEnd(rest)
    requires (j.Array? ==> s.Index?) && (j.Object? ==> s.Key?)
    ensures SelectChild(j, Token(s) + rest, cs) == StepChild(j, s)
  {
    assert StepsFrom([s], ks) ==> [s][0] == s;
    if j.Array? {
      DecodeDecimal(s.index, rest);
    } else if j.Object? {
      var k, p, ms := s.key, Encode(s.key) + rest, j.members;
      forall i | 0 <= i < |ms| ensures TokenMatches(ms[i].key, p, cs) <==> ms[i].key == k {
        EncodedMatches(ms[i].key, k, rest, cs);
      }
      var f := FirstMatch(ms, p, cs);
      if f.Some? {
        DistinctIndex(ms, f.value);
      }
    }
  }

  /** Following one token and then the rest. */
  lemma LocateStep(j: Json, s: Step, rest: string, cs: bool, ks: iset<string>)
    requires WellKeyed(j, ks) && Separates(cs, ks) && StepsFrom([s], ks) && TokenEnd(rest)
    requires (j.Array? ==> s.Index?) && (j.Object? ==> s.Key?)
    ensures Locate(j, "/" + Token(s) + rest, cs) ==
      match StepChild(j, s)
      case None => None
      case Some(i) => Below([i], Locate(Children(j)[i], rest, cs))
  {
    SelectStep(j, s, rest, cs, ks);
    hide Token, SelectChild, StepChild, WellKeyed, Separates, StepsFrom, SkipToken;
    SkipEncoded(Token(s), rest);
    LocateFirst(j, Token(s), rest, cs);
  }

  lemma LocateFirst(j: Json, t: string, rest: string, cs: bool)
    requires SkipToken(t + rest) == rest
    ensures Locate(j, "/" + t + rest, cs) ==
      match SelectChild(j, t + rest, cs)
      case None => None
      case Some(i) => Below([i], Locate(Children(j)[i], rest, cs))
  {
    hide SelectChild, SkipToken;
    assert ("/" + t + rest)[1..] == t + rest;
  }

  /** Following the text of a path arrives where its steps lead, or nowhere when they lead nowhere. */
  lemma {:induction false} LocatePath(j: Json, steps: seq<Step>, cs: bool, ks: iset<string>)
    requires WellKeyed(j, ks) && Separates(cs, ks) && StepsFrom(steps, ks) && Aligned(j, steps)
    ensures Locate(j, PathText(steps), cs) == Resolve(j, steps)
    decreases steps
  {
    if steps != [] {
      assert StepsFrom([steps[0]], ks) && StepsFrom(steps[1..], ks);
      LocateStep(j, steps[0], PathText(steps[1..]), cs, ks);
      if StepChild(j, steps[0]).Some? {
        var i := StepChild(j, steps[0]).value;
        WellKeyedChild(j, i, ks);
        LocatePath(Children(j)[i], steps[1..], cs, ks);
      }
    }
  }

  lemma WellKeyedChild(j: Json, i: nat, ks: iset<string>)
    requires WellKeyed(j, ks) && i < |Children(j)|
    ensures WellKeyed(Children(j)[i], ks)
  {
  }

  // ----- building a pointer

  function StepTo(j: Json, i: nat): Step
    requires i < |Children(j)|
  {
    if j.Array? then Index(i) else Key(j.members[i].key)
  }

  function StepsTo(j: Json, loc: Loc): seq<Step>
    requires ValidLoc(j, loc)
    decreases loc
  {
    if loc == [] then [] else [StepTo(j, loc[0])] + StepsTo(Children(j)[loc[0]], loc[1..])
  }

  lemma {:induction false} HeightOfChild(j: Json, i: nat)
    requires i < |Children(j)|
    ensures Height(Children(j)[i]) < Height(j)
  {
    match j
    case Array(items) => HeightOfItem(items, i);
    case Object(ms) => HeightOfMember(ms, ms[i]);
  }

  /** `cJSONUtils_FindPointerFromObjectTo`: depth-first search for the node `target`;
      `here` is the location of the item being searched. */
  function FindPointer(j: Json, here: Loc, target: Loc): Option<string>
    decreases Height(j), 1, 0
  {
    if here == target then Some("") else FindAmongChildren(j, here, target, 0)
  }

  function FindAmongChildren(j: Json, here: Loc, target: Loc, i: nat): Option<string>
    requires i <= |Children(j)|
    decreases Height(j), 0, |Children(j)| - i
  {
    if i == |Children(j)| then None
    else
      HeightOfChild(j, i);
      match FindPointer(Children(j)[i], here + [i], target)
      case Some(p) => Some("/" + Token(StepTo(j, i)) + p)
      case None => FindAmongChildren(j, here, target, i + 1)
  }

  /** The search finds a node exactly when it lies below `here`, and spells the steps to it. */
  lemma {:induction false} FindPointerSpells(j: Json, here: Loc, target: Loc)
    ensures FindPointer(j, here, target) ==
      if here <= target && ValidLoc(j, target[|here|..]) then Some(PathText(StepsTo(j, target[|here|..]))) else None
    decreases Height(j), 1, 0
  {
    if here != target { FindAmongSpells(j, here, target, 0); }
  }

  lemma {:induction false} FindAmongSpells(j: Json, here: Loc, target: Loc, i: nat)
    requires i <= |Children(j)| && here != target
    ensures FindAmongChildren(j, here, target, i) ==
      if here <= target && i <= target[|here|] && ValidLoc(j, target[|here|..])
      then Some(PathText(StepsTo(j, target[|here|..]))) else None
    decreases Height(j), 0, |Children(j)| - i
  {
    hide PathText, StepsTo, ValidLoc;
    if i < |Children(j)| {
      HeightOfChild(j, i);
      FindPointerSpells(Children(j)[i], here + [i], target);
      FindAmongSpells(j, here, target, i + 1);
      if here <= target { FoundBelow(j, here, target, i); }
    } else if here <= target {
      ValidHead(j, target[|here|..]);
    }
  }

  lemma ValidHead(j: Json, loc: Loc)
    requires loc != []
    ensures ValidLoc(j, loc) ==> loc[0] < |Children(j)|
  {
  }

  lemma FoundBelow(j: Json, here: Loc, target: Loc, i: nat)
    requires here <= target && here != target && i < |Children(j)|
    ensures here + [i] <= target <==> target[|here|] == i
    ensures target[|here|] == i ==> (ValidLoc(j, target[|here|..]) <==> ValidLoc(Children(j)[i], target[|here|+1..]))
    ensures target[|here|] == i && ValidLoc(j, target[|here|..]) ==>
      PathText(StepsTo(j, target[|here|..])) == "/" + Token(StepTo(j, i)) + PathText(StepsTo(Children(j)[i], target[|here|+1..]))
    ensures ValidLoc(j, target[|here|..]) ==> target[|here|] < |Children(j)|
  {
    var rest := target[|here|..];
    assert target[|here|+1..] == rest[1..];
  }

  /** Arrays whose indices fit the 64-bit arithmetic of the decoder. */
  predicate Addressable(j: Json) {
    match j
    case Array(items) => |items| <= ULONG_RANGE && forall i | 0 <= i < |items| :: Addressable(items[i])
    case Object(ms) => forall i | 0 <= i < |ms| :: Addressable(ms[i].value)
    case _ => true
  }

  lemma StepsFromCons(s: Step, steps: seq<Step>, ks: iset<string>)
    requires StepsFrom(steps, ks) && (s.Key? ==> s.key in ks) && (s.Index? ==> s.index < ULONG_RANGE)
    ensures StepsFrom([s] + steps, ks)
  {
  }

  lemma {:induction false} StepsLeadBack(j: Json, loc: Loc, ks: iset<string>)
    requires WellKeyed(j, ks) && Addressable(j) && ValidLoc(j, loc)
    ensures Resolve(j, StepsTo(j, loc)) == Some(loc) && StepsFrom(StepsTo(j, loc), ks)
    decreases loc
  {
    if loc != [] {
      var i := loc[0];
      if j.Object? { DistinctIndex(j.members, i); }
      StepsLeadBack(Children(j)[i], loc[1..], ks);
      var steps := StepsTo(j, loc);
      assert steps[1..] == StepsTo(Children(j)[i], loc[1..]);
      assert steps == [steps[0]] + steps[1..];
      StepsFromCons(steps[0], steps[1..], ks);
      assert [loc[0]] + loc[1..] == loc;
    }
  }

  /** The pointer built for a node leads back to that very node; there is none for a node outside the tree. */
  lemma PointerRoundTrip(root: Json, target: Loc, cs: bool, ks: iset<string>)
    requires WellKeyed(root, ks) && Addressable(root) && Separates(cs, ks)
    ensures ValidLoc(root, target) <==> FindPointer(root, [], target).Some?
    ensures ValidLoc(root, target) ==> Locate(root, FindPointer(root, [], target).value, cs) == Some(target)
  {
    FindPointerSpells(root, [], target);
    assert target[0..] == target;
    if ValidLoc(root, target) {
      StepsLeadBack(root, target, ks);
      ResolvedAligned(root, StepsTo(root, target));
      LocatePath(root, StepsTo(root, target), cs, ks);
    }
  }
}
