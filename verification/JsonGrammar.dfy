/** The parser accepts exactly the texts of items: a grammar that says which characters spell an item, and both
    directions. */
module JsonGrammar {
  import opened CString
  import opened JsonTree
  import opened Parser
  import opened PrintParse

  ghost predicate Blanks(s: string, i: nat, j: nat) {
    i <= j <= |s| && forall k | i <= k < j :: s[k] <= ' '
  }

  /** The characters of `s` from `i` to `j` spell the item.  Strings and numbers are those of `ParseString` and
      `ParseNumber`. */
  ghost predicate Spells(v: Json, s: string, i: nat, j: nat)
    decreases v, 0
  {
    i < j <= |s| && match v
      case Invalid => false
      case Null => s[i..j] == "null"
      case True => s[i..j] == "true"
      case False => s[i..j] == "false"
      case Number(_) => (s[i] == '-' || '0' <= s[i] <= '9') && ParseNumber(s, i) == Some((v, j))
      case String(u) => ParseString(s, i) == Some((u, j))
      case Array(items) =>
        i + 1 < j && s[i] == '[' && s[j-1] == ']' && if items == [] then Blanks(s, i + 1, j - 1) else SpellsItems(items, s, i + 1, j - 1)
      case Object(ms) =>
        i + 1 < j && s[i] == '{' && s[j-1] == '}' && if ms == [] then Blanks(s, i + 1, j - 1) else SpellsMembers(ms, s, i + 1, j - 1)
  }

  /** Elements between blanks, separated by commas. */
  ghost predicate SpellsItems(items: seq<Json>, s: string, i: nat, j: nat)
    decreases items, 1
  {
    items != [] && exists a: nat, b: nat, c: nat ::
      && Blanks(s, i, a) && Spells(items[0], s, a, b) && Blanks(s, b, c)
      && if |items| == 1 then c == j else c < |s| && s[c] == ',' && SpellsItems(items[1..], s, c + 1, j)
  }

  /** A key, a colon and a value. */
  ghost predicate SpellsMember(m: Member, s: string, i: nat, j: nat)
    decreases m, 1
  {
    exists a: nat, b: nat, c: nat, d: nat ::
      && Blanks(s, i, a) && ParseString(s, a) == Some((m.key, b)) && Blanks(s, b, c)
      && c < |s| && s[c] == ':' && Blanks(s, c + 1, d) && Spells(m.value, s, d, j)
  }

  ghost predicate SpellsMembers(ms: seq<Member>, s: string, i: nat, j: nat)
    decreases ms, 2
  {
    ms != [] && exists b: nat, c: nat ::
      && SpellsMember(ms[0], s, i, b) && Blanks(s, b, c)
      && if |ms| == 1 then c == j else c < |s| && s[c] == ',' && SpellsMembers(ms[1..], s, c + 1, j)
  }

  // ----- whitespace

  lemma {:induction false} WsBlank(s: string, o: nat)
    requires o <= |s|
    ensures Blanks(s, o, SkipWs(s, o))
    decreases |s| - o
  {
    if o < |s| && s[o] <= ' ' && o + 1 < |s| { WsBlank(s, o + 1); }
  }

  lemma {:induction false} BlankWs(s: string, o: nat, a: nat)
    requires Blanks(s, o, a) && a < |s| && s[a] > ' '
    ensures SkipWs(s, o) == a
    decreases a - o
  {
    if o < a { BlankWs(s, o + 1, a); }
  }

  // ----- what is accepted spells the item

  lemma {:induction false} ValueSpelled(s: string, o: nat, depth: nat)
    requires o <= |s|
    ensures var r := ParseValue(s, o, depth); r.Some? ==> Spells(r.value.0, s, o, r.value.1)
    decreases |s| - o, 2
  {
    hide ParseString, ParseNumber, ParseArray, ParseObject;
    if o < |s| {
      if s[o] == '[' { ArraySpelled(s, o, depth); }
      if s[o] == '{' { ObjectSpelled(s, o, depth); }
      KindOf(s, o);
    }
  }

  lemma KindOf(s: string, o: nat)
    requires o < |s|
    ensures s[o] == '-' || IsDigit(s[o]) ==> (ParseNumber(s, o).Some? ==> ParseNumber(s, o).value.0.Number?)
  {
  }

  lemma {:induction false} ArraySpelled(s: string, o: nat, depth: nat)
    requires o < |s| && s[o] == '['
    ensures var r := ParseArray(s, o, depth); r.Some? ==> Spells(Array(r.value.0), s, o, r.value.1)
    decreases |s| - o, 1
  {
    hide ParseItems, SkipWs, Blanks, SpellsItems;
    if depth < NESTING_LIMIT {
      var first := SkipWs(s, o + 1);
      WsBlank(s, o + 1);
      if first < |s| && s[first] != ']' {
        ItemsSpelled(s, first, depth + 1);
        var r := ParseItems(s, first, depth + 1);
        if r.Some? {
          NotEmpty(r.value.0, s, first, r.value.1 - 1);
          ItemsFrom(r.value.0, s, o + 1, first, r.value.1 - 1);
        }
      }
    }
  }

  /** Blanks in front. */
  lemma ItemsFrom(items: seq<Json>, s: string, i: nat, i': nat, j: nat)
    requires Blanks(s, i, i') && SpellsItems(items, s, i', j)
    ensures SpellsItems(items, s, i, j)
  {
    hide Spells;
    var a: nat, b: nat, c: nat :| Blanks(s, i', a) && Spells(items[0], s, a, b) && Blanks(s, b, c)
      && if |items| == 1 then c == j else c < |s| && s[c] == ',' && SpellsItems(items[1..], s, c + 1, j);
    assert Blanks(s, i, a);
  }

  lemma {:induction false} ItemsSpelled(s: string, o: nat, depth: nat)
    requires o <= |s|
    ensures var r := ParseItems(s, o, depth);
      r.Some? ==> s[r.value.1-1] == ']' && SpellsItems(r.value.0, s, o, r.value.1 - 1)
    decreases |s| - o, 3
  {
    hide ParseValue, SkipWs, Spells, Blanks;
    var a := SkipWs(s, o);
    WsBlank(s, o);
    ValueSpelled(s, a, depth);
    var v := ParseValue(s, a, depth);
    if v.Some? {
      var c := SkipWs(s, v.value.1);
      WsBlank(s, v.value.1);
      if c < |s| && s[c] == ',' {
        ItemsSpelled(s, c + 1, depth);
        var rest := ParseItems(s, c + 1, depth);
        if rest.Some? { ItemsMore(v.value.0, rest.value.0, s, o, a, v.value.1, c, rest.value.1 - 1); }
      }
    }
  }

  lemma ItemsMore(x: Json, rest: seq<Json>, s: string, i: nat, a: nat, b: nat, c: nat, j: nat)
    requires Blanks(s, i, a) && Spells(x, s, a, b) && Blanks(s, b, c) && c < |s| && s[c] == ',' && SpellsItems(rest, s, c + 1, j)
    ensures SpellsItems([x] + rest, s, i, j)
  {
    hide Spells, Blanks;
    var items := [x] + rest;
    assert rest != [] by { NotEmpty(rest, s, c + 1, j); }
    assert items[0] == x && items[1..] == rest;
  }

  lemma NotEmpty(items: seq<Json>, s: string, i: nat, j: nat)
    requires SpellsItems(items, s, i, j)
    ensures items != []
  {
  }

  lemma {:induction false} ObjectSpelled(s: string, o: nat, depth: nat)
    requires o < |s| && s[o] == '{'
    ensures var r := ParseObject(s, o, depth); r.Some? ==> Spells(Object(r.value.0), s, o, r.value.1)
    decreases |s| - o, 1
  {
    hide ParseMembers, SkipWs, Blanks, SpellsMembers;
    if depth < NESTING_LIMIT {
      var first := SkipWs(s, o + 1);
      WsBlank(s, o + 1);
      if first < |s| && s[first] != '}' {
        MembersSpelled(s, first, depth + 1);
        var r := ParseMembers(s, first, depth + 1);
        if r.Some? {
          SomeMembers(r.value.0, s, first, r.value.1 - 1);
          MembersFrom(r.value.0, s, o + 1, first, r.value.1 - 1);
        }
      }
    }
  }

  lemma MembersFrom(ms: seq<Member>, s: string, i: nat, i': nat, j: nat)
    requires Blanks(s, i, i') && SpellsMembers(ms, s, i', j)
    ensures SpellsMembers(ms, s, i, j)
  {
    hide SpellsMember, Blanks;
    var b: nat, c: nat :| SpellsMember(ms[0], s, i', b) && Blanks(s, b, c)
      && if |ms| == 1 then c == j else c < |s| && s[c] == ',' && SpellsMembers(ms[1..], s, c + 1, j);
    MemberFrom(ms[0], s, i, i', b);
  }

  lemma MemberFrom(m: Member, s: string, i: nat, i': nat, j: nat)
    requires Blanks(s, i, i') && SpellsMember(m, s, i', j)
    ensures SpellsMember(m, s, i, j)
  {
    hide Spells, ParseString;
    var a: nat, b: nat, c: nat, d: nat :| Blanks(s, i', a) && ParseString(s, a) == Some((m.key, b)) && Blanks(s, b, c)
      && c < |s| && s[c] == ':' && Blanks(s, c + 1, d) && Spells(m.value, s, d, j);
    assert Blanks(s, i, a);
  }

  lemma {:induction false} MemberSpelled(s: string, o: nat, depth: nat)
    requires o <= |s|
    ensures var r := ParseMember(s, o, depth); r.Some? ==> SpellsMember(r.value.0, s, o, r.value.1)
    decreases |s| - o, 3
  {
    hide ParseValue, ParseString, SkipWs, Spells, Blanks;
    if o < |s| {
      var a := SkipWs(s, o);
      WsBlank(s, o);
      var k := ParseString(s, a);
      if k.Some? {
        var c := SkipWs(s, k.value.1);
        WsBlank(s, k.value.1);
        if c < |s| && s[c] == ':' {
          WsBlank(s, c + 1);
          ValueSpelled(s, SkipWs(s, c + 1), depth);
        }
      }
    }
  }

  lemma {:induction false} MembersSpelled(s: string, o: nat, depth: nat)
    requires o <= |s|
    ensures var r := ParseMembers(s, o, depth);
      r.Some? ==> s[r.value.1-1] == '}' && SpellsMembers(r.value.0, s, o, r.value.1 - 1)
    decreases |s| - o, 4
  {
    hide ParseMember, SkipWs, SpellsMember, Blanks;
    MemberSpelled(s, o, depth);
    var m := ParseMember(s, o, depth);
    if m.Some? {
      var c := SkipWs(s, m.value.1);
      WsBlank(s, m.value.1);
      if c < |s| && s[c] == ',' {
        MembersSpelled(s, c + 1, depth);
        var rest := ParseMembers(s, c + 1, depth);
        if rest.Some? { MembersMore(m.value.0, rest.value.0, s, o, m.value.1, c, rest.value.1 - 1); }
      }
    }
  }

  lemma MembersMore(m: Member, rest: seq<Member>, s: string, i: nat, b: nat, c: nat, j: nat)
    requires SpellsMember(m, s, i, b) && Blanks(s, b, c) && c < |s| && s[c] == ',' && SpellsMembers(rest, s, c + 1, j)
    ensures SpellsMembers([m] + rest, s, i, j)
  {
    hide SpellsMember, Blanks;
    var ms := [m] + rest;
    assert rest != [] by { SomeMembers(rest, s, c + 1, j); }
    assert ms[0] == m && ms[1..] == rest;
  }

  lemma SomeMembers(ms: seq<Member>, s: string, i: nat, j: nat)
    requires SpellsMembers(ms, s, i, j)
    ensures ms != []
  {
  }

  // ----- what spells an item is accepted

  /** No item starts with a blank or a closing bracket. */
  lemma FirstCharOf(v: Json, s: string, i: nat, j: nat)
    requires Spells(v, s, i, j)
    ensures i < |s| && s[i] > ' ' && s[i] != ']' && s[i] != '}'
  {
    hide SpellsItems, SpellsMembers;
    if v.Null? || v.True? || v.False? { assert s[i] == s[i..j][0]; }
  }

  lemma {:induction false} ValueAccepted(v: Json, s: string, i: nat, j: nat, depth: nat)
    requires Spells(v, s, i, j) && depth + Nesting(v) <= NESTING_LIMIT
    ensures ParseValue(s, i, depth) == Some((v, j))
    decreases v, 0
  {
    hide SpellsItems, SpellsMembers, ParseString, ParseNumber, ParseArray, ParseObject;
    match v
    case Null => assert s[i] == s[i..j][0];
    case True => assert s[i] == s[i..j][0];
    case False => assert s[i] == s[i..j][0];
    case Array(items) =>
      NoWord(s, i);
      ArrayAccepted(items, s, i, j, depth);
    case Object(ms) =>
      NoWord(s, i);
      ObjectAccepted(ms, s, i, j, depth);
    case Number(_) => NoWord(s, i);
    case String(_) =>
      StringStarts(s, i);
      NoWord(s, i);
  }

  lemma StringStarts(s: string, i: nat)
    ensures ParseString(s, i).Some? ==> i < |s| && s[i] == '"'
  {
  }

  lemma NoWord(s: string, i: nat)
    requires i < |s| && s[i] != 'n' && s[i] != 't' && s[i] != 'f'
    ensures !StartsWith(s, i, "null") && !StartsWith(s, i, "true") && !StartsWith(s, i, "false")
  {
    NotThere(s, i, "null");
    NotThere(s, i, "true");
    NotThere(s, i, "false");
  }

  lemma NotThere(s: string, i: nat, w: string)
    requires i < |s| && w != "" && s[i] != w[0]
    ensures !StartsWith(s, i, w)
  {
    if i + |w| <= |s| { assert s[i..i+|w|][0] == s[i]; }
  }

  /** The first element, without the blanks in front of it, and what follows. */
  lemma ItemsParts(items: seq<Json>, s: string, i: nat, j: nat) returns (a: nat, b: nat, c: nat)
    requires SpellsItems(items, s, i, j)
    ensures items != [] && Blanks(s, i, a) && Spells(items[0], s, a, b) && Blanks(s, b, c)
    ensures if |items| == 1 then c == j else c < |s| && s[c] == ',' && SpellsItems(items[1..], s, c + 1, j)
    ensures SpellsItems(items, s, a, j)
  {
    hide Spells;
    a, b, c :| Blanks(s, i, a) && Spells(items[0], s, a, b) && Blanks(s, b, c)
      && if |items| == 1 then c == j else c < |s| && s[c] == ',' && SpellsItems(items[1..], s, c + 1, j);
    assert Blanks(s, a, a);
  }

  lemma ItemsTurn(s: string, i: nat, a: nat, v: Json, b: nat, c: nat, depth: nat)
    requires i <= |s| && SkipWs(s, i) == a && ParseValue(s, a, depth) == Some((v, b)) && SkipWs(s, b) == c && c < |s|
    ensures s[c] == ']' ==> ParseItems(s, i, depth) == Some(([v], c + 1))
    ensures s[c] == ',' ==> var rest := ParseItems(s, c + 1, depth);
      rest.Some? ==> ParseItems(s, i, depth) == Some(([v] + rest.value.0, rest.value.1))
  {
    hide SkipWs, ParseValue;
  }

  lemma {:induction false} ArrayAccepted(items: seq<Json>, s: string, i: nat, j: nat, depth: nat)
    requires i + 1 < j <= |s| && s[i] == '[' && s[j-1] == ']' && depth + 1 + NestingOfItems(items) <= NESTING_LIMIT
    requires if items == [] then Blanks(s, i + 1, j - 1) else SpellsItems(items, s, i + 1, j - 1)
    ensures ParseArray(s, i, depth) == Some((items, j))
    decreases items, 2
  {
    hide Spells, ParseArray, ParseItems, SkipWs, NestingOfItems, SpellsItems, Blanks;
    if items == [] {
      BlankWs(s, i + 1, j - 1);
    } else {
      var a, b, c := ItemsParts(items, s, i + 1, j - 1);
      FirstCharOf(items[0], s, a, b);
      BlankWs(s, i + 1, a);
      ItemsAccepted(items, s, a, j - 1, depth + 1);
    }
    ArrayTurn(s, i, depth);
  }

  lemma ArrayTurn(s: string, i: nat, depth: nat)
    requires i < |s| && s[i] == '[' && depth < NESTING_LIMIT
    ensures var first := SkipWs(s, i + 1);
      first < |s| ==> ParseArray(s, i, depth) == if s[first] == ']' then Some(([], first + 1)) else ParseItems(s, first, depth + 1)
  {
    hide SkipWs, ParseItems;
  }

  lemma ObjectTurn(s: string, i: nat, depth: nat)
    requires i < |s| && s[i] == '{' && depth < NESTING_LIMIT
    ensures var first := SkipWs(s, i + 1);
      first < |s| ==> ParseObject(s, i, depth) == if s[first] == '}' then Some(([], first + 1)) else ParseMembers(s, first, depth + 1)
  {
    hide SkipWs, ParseMembers;
  }

  lemma {:induction false} ItemsAccepted(items: seq<Json>, s: string, i: nat, j: nat, depth: nat)
    requires i <= |s| && SpellsItems(items, s, i, j) && depth + NestingOfItems(items) <= NESTING_LIMIT && j < |s| && s[j] == ']'
    ensures ParseItems(s, i, depth) == Some((items, j + 1))
    decreases items, 1
  {
    hide Spells, SpellsItems, Blanks, ParseValue, ParseItems, SkipWs;
    var a, b, c := ItemsParts(items, s, i, j);
    FirstCharOf(items[0], s, a, b);
    BlankWs(s, i, a);
    CharAt(s, c, ',', ']', |items| == 1);
    BlankWs(s, b, c);
    ValueAccepted(items[0], s, a, b, depth);
    BlankInside(s, i, a);
    ItemsTurn(s, i, a, items[0], b, c, depth);
    if |items| == 1 {
      assert items == [items[0]];
    } else {
      ItemsAccepted(items[1..], s, c + 1, j, depth);
      assert items == [items[0]] + items[1..];
    }
  }

  lemma BlankInside(s: string, i: nat, j: nat)
    requires Blanks(s, i, j)
    ensures i <= j <= |s|
  {
  }

  lemma CharAt(s: string, c: nat, comma: char, close: char, last: bool)
    requires c < |s| && s[c] == (if last then close else comma) && comma > ' ' && close > ' '
    ensures s[c] > ' '
  {
  }

  lemma {:induction false} ObjectAccepted(ms: seq<Member>, s: string, i: nat, j: nat, depth: nat)
    requires i + 1 < j <= |s| && s[i] == '{' && s[j-1] == '}' && depth + 1 + NestingOfMembers(ms) <= NESTING_LIMIT
    requires if ms == [] then Blanks(s, i + 1, j - 1) else SpellsMembers(ms, s, i + 1, j - 1)
    ensures ParseObject(s, i, depth) == Some((ms, j))
    decreases ms, 3
  {
    hide Spells, SpellsMember, ParseObject, ParseMembers, SkipWs, NestingOfMembers, SpellsMembers, Blanks;
    if ms == [] {
      BlankWs(s, i + 1, j - 1);
    } else {
      var a, b, c := MembersParts(ms, s, i + 1, j - 1);
      BlankWs(s, i + 1, a);
      MembersAccepted(ms, s, a, j - 1, depth + 1);
    }
    ObjectTurn(s, i, depth);
  }

  /** A member, without the blanks in front of its key. */
  lemma KeyAfter(m: Member, s: string, i: nat, j: nat) returns (a: nat)
    requires SpellsMember(m, s, i, j)
    ensures Blanks(s, i, a) && a < |s| && s[a] == '"' && SpellsMember(m, s, a, j)
  {
    hide Spells;
    var b: nat, c: nat, d: nat;
    a, b, c, d :| Blanks(s, i, a) && ParseString(s, a) == Some((m.key, b)) && Blanks(s, b, c)
      && c < |s| && s[c] == ':' && Blanks(s, c + 1, d) && Spells(m.value, s, d, j);
    assert Blanks(s, a, a);
  }

  lemma MembersParts(ms: seq<Member>, s: string, i: nat, j: nat) returns (a: nat, b: nat, c: nat)
    requires SpellsMembers(ms, s, i, j)
    ensures ms != [] && Blanks(s, i, a) && a < |s| && s[a] == '"' && SpellsMember(ms[0], s, a, b) && Blanks(s, b, c)
    ensures SpellsMember(ms[0], s, i, b)
    ensures if |ms| == 1 then c == j else c < |s| && s[c] == ',' && SpellsMembers(ms[1..], s, c + 1, j)
    ensures SpellsMembers(ms, s, a, j)
  {
    hide SpellsMember, Blanks;
    b, c :| SpellsMember(ms[0], s, i, b) && Blanks(s, b, c)
      && if |ms| == 1 then c == j else c < |s| && s[c] == ',' && SpellsMembers(ms[1..], s, c + 1, j);
    a := KeyAfter(ms[0], s, i, b);
  }

  lemma MemberTurn(s: string, i: nat, a: nat, k: string, b: nat, c: nat, d: nat, v: Json, j: nat, depth: nat)
    requires i < |s| && SkipWs(s, i) == a && ParseString(s, a) == Some((k, b)) && SkipWs(s, b) == c && c < |s| && s[c] == ':'
    requires SkipWs(s, c + 1) == d && ParseValue(s, d, depth) == Some((v, j))
    ensures ParseMember(s, i, depth) == Some((Member(k, v), j))
  {
    hide SkipWs, ParseValue, ParseString;
  }

  lemma {:induction false} MemberAccepted(m: Member, s: string, i: nat, j: nat, depth: nat)
    requires SpellsMember(m, s, i, j) && depth + Nesting(m.value) <= NESTING_LIMIT
    ensures ParseMember(s, i, depth) == Some((m, j))
    decreases m, 1
  {
    hide Spells, SpellsMember, ParseValue, ParseString, SkipWs, ParseMember, Blanks;
    var a, b, c, d := MemberParts(m, s, i, j);
    FirstCharOf(m.value, s, d, j);
    BlankWs(s, i, a);
    BlankWs(s, b, c);
    BlankWs(s, c + 1, d);
    BlankInside(s, i, a);
    ValueAccepted(m.value, s, d, j, depth);
    MemberTurn(s, i, a, m.key, b, c, d, m.value, j, depth);
  }

  lemma MemberParts(m: Member, s: string, i: nat, j: nat) returns (a: nat, b: nat, c: nat, d: nat)
    requires SpellsMember(m, s, i, j)
    ensures Blanks(s, i, a) && ParseString(s, a) == Some((m.key, b)) && a < |s| && s[a] == '"'
    ensures Blanks(s, b, c) && c < |s| && s[c] == ':' && Blanks(s, c + 1, d) && Spells(m.value, s, d, j)
  {
    hide Spells, ParseString, Blanks;
    a, b, c, d :| Blanks(s, i, a) && ParseString(s, a) == Some((m.key, b)) && Blanks(s, b, c)
      && c < |s| && s[c] == ':' && Blanks(s, c + 1, d) && Spells(m.value, s, d, j);
    StringStarts(s, a);
  }

  lemma MembersTurn(s: string, i: nat, m: Member, b: nat, c: nat, depth: nat)
    requires i <= |s| && ParseMember(s, i, depth) == Some((m, b)) && SkipWs(s, b) == c && c < |s|
    ensures s[c] == '}' ==> ParseMembers(s, i, depth) == Some(([m], c + 1))
    ensures s[c] == ',' ==> var rest := ParseMembers(s, c + 1, depth);
      rest.Some? ==> ParseMembers(s, i, depth) == Some(([m] + rest.value.0, rest.value.1))
  {
    hide SkipWs, ParseMember;
  }

  lemma {:induction false} MembersAccepted(ms: seq<Member>, s: string, i: nat, j: nat, depth: nat)
    requires i <= |s| && SpellsMembers(ms, s, i, j) && depth + NestingOfMembers(ms) <= NESTING_LIMIT && j < |s| && s[j] == '}'
    ensures ParseMembers(s, i, depth) == Some((ms, j + 1))
    decreases ms, 2
  {
    hide SpellsMember, SpellsMembers, Blanks, ParseMember, ParseMembers, SkipWs;
    var a, b, c := MembersParts(ms, s, i, j);
    CharAt(s, c, ',', '}', |ms| == 1);
    BlankWs(s, b, c);
    BlankInside(s, i, a);
    MemberAccepted(ms[0], s, i, b, depth);
    MembersTurn(s, i, ms[0], b, c, depth);
    if |ms| == 1 {
      assert ms == [ms[0]];
    } else {
      MembersAccepted(ms[1..], s, c + 1, j, depth);
      assert ms == [ms[0]] + ms[1..];
    }
  }

  // ----- the parser and the grammar

  /** `parse_value` accepts exactly what spells an item that nests within the limit. */
  lemma ParseValueExact(s: string, o: nat, depth: nat, v: Json, q: nat)
    requires o <= |s| && depth <= NESTING_LIMIT
    ensures ParseValue(s, o, depth) == Some((v, q)) <==> Spells(v, s, o, q) && depth + Nesting(v) <= 1000
  {
    ValueSpelled(s, o, depth);
    ParsedValue(s, o, depth);
    hide ParseValue;
    if Spells(v, s, o, q) && depth + Nesting(v) <= NESTING_LIMIT { ValueAccepted(v, s, o, q, depth); }
  }

  /** A text spells an item: behind a byte order mark, if there is one, and blanks; when it has to end there, only blanks
      follow. */
  ghost predicate TextSpells(text: string, requireTerminated: bool, v: Json) {
    var s := text + ['\0'];
    var start: nat := if |text| > 3 && text[..3] == [0xEF as char, 0xBB as char, 0xBF as char] then 3 else 0;
    exists i: nat, j: nat :: Blanks(s, start, i) && Spells(v, s, i, j) && (requireTerminated ==> j <= |text| && Blanks(s, j, |s|))
  }

  /** `cJSON_ParseWithOpts` accepts exactly the texts that spell an item nesting at most 1000 deep; all others are refused. */
  lemma ParseExact(text: string, requireTerminated: bool, v: Json)
    requires NulFree(text)
    ensures Parse(text, requireTerminated) == Some(v) <==> TextSpells(text, requireTerminated, v) && Nesting(v) <= 1000
  {
    var s := text + ['\0'];
    var start := SkipBom(s);
    BomStart(text);
    var i := SkipWs(s, start);
    WsBlank(s, start);
    if Parse(text, requireTerminated) == Some(v) {
      var j := ParseValue(s, i, 0).value.1;
      ParseValueExact(s, i, 0, v, j);
      hide ParseValue, Spells, SkipWs, SkipBom;
      if requireTerminated { EndsBlank(text, j); }
    }
    hide ParseValue, SkipWs, SkipBom, Spells;
    if TextSpells(text, requireTerminated, v) && Nesting(v) <= NESTING_LIMIT {
      var i': nat, j: nat :| Blanks(s, start, i') && Spells(v, s, i', j) && (requireTerminated ==> j <= |text| && Blanks(s, j, |s|));
      FirstCharOf(v, s, i', j);
      BlankWs(s, start, i');
      ParseValueExact(s, i', 0, v, j);
      if requireTerminated { EndsBlank(text, j); }
    }
  }

  lemma BomStart(text: string)
    ensures SkipBom(text + ['\0']) == if |text| > 3 && text[..3] == [0xEF as char, 0xBB as char, 0xBF as char] then 3 else 0
  {
    if |text| > 3 { assert (text + ['\0'])[..3] == text[..3]; }
  }

  /** Only blanks follow exactly when skipping them arrives at the terminating NUL. */
  lemma {:induction false} EndsBlank(text: string, j: nat)
    requires NulFree(text) && j <= |text| + 1
    ensures var s := text + ['\0'];
      j < |s| && s[SkipWs(s, j)] == '\0' <==> j <= |text| && Blanks(s, j, |s|)
    decreases |text| + 1 - j
  {
    var s := text + ['\0'];
    if j < |text| && s[j] <= ' ' { EndsBlank(text, j + 1); }
  }
}
