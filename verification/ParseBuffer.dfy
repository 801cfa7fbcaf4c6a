/** The parser as the source runs it: a buffer whose offset and depth move step by step. */
module ParseBuffer {
  import opened CString
  import opened JsonTree
  import opened StringLiteral
  import opened Parser

  /** Results behind elements that were already parsed. */
  function Behind<T>(done: seq<T>, r: Parsed<seq<T>>): Parsed<seq<T>> {
    if r.Some? then Some((done + r.value.0, r.value.1)) else None
  }

  lemma BehindBehind<T>(a: seq<T>, b: seq<T>, r: Parsed<seq<T>>)
    ensures Behind(a, Behind(b, r)) == Behind(a + b, r) && Behind([], r) == r
  {
    if r.Some? {
      assert a + (b + r.value.0) == a + b + r.value.0;
      assert [] + r.value.0 == r.value.0;
    }
  }

  /** The result when no comma follows: the list must be closed here. */
  function Closing<T>(s: string, o: nat, bracket: char, done: seq<T>): Parsed<seq<T>> {
    if o < |s| && s[o] == bracket then Some((done, o + 1)) else None
  }

  /** One element with the whitespace around it. */
  function ItemAt(s: string, o: nat, depth: nat): (r: Parsed<Json>)
    requires o <= |s|
    ensures r.Some? ==> o < r.value.1 <= |s|
  {
    var v := ParseValue(s, SkipWs(s, o), depth);
    if v.Some? then Some((v.value.0, SkipWs(s, v.value.1))) else None
  }

  function MemberAt(s: string, o: nat, depth: nat): (r: Parsed<Member>)
    requires o <= |s|
    ensures r.Some? ==> o < r.value.1 <= |s|
  {
    var m := ParseMember(s, o, depth);
    if m.Some? then Some((m.value.0, SkipWs(s, m.value.1))) else None
  }

  lemma NoItem(s: string, o: nat, depth: nat)
    requires o <= |s|
    ensures ItemAt(s, o, depth).None? ==> ParseItems(s, o, depth).None?
    ensures MemberAt(s, o, depth).None? ==> ParseMembers(s, o, depth).None?
  {
  }

  lemma ItemsStep(s: string, o: nat, depth: nat)
    requires o <= |s| && ItemAt(s, o, depth).Some?
    ensures var (v, after) := ItemAt(s, o, depth).value;
      ParseItems(s, o, depth) ==
        if after < |s| && s[after] == ',' then Behind([v], ParseItems(s, after + 1, depth))
        else Closing(s, after, ']', [v])
  {
  }

  lemma MembersStep(s: string, o: nat, depth: nat)
    requires o <= |s| && MemberAt(s, o, depth).Some?
    ensures var (m, after) := MemberAt(s, o, depth).value;
      ParseMembers(s, o, depth) ==
        if after < |s| && s[after] == ',' then Behind([m], ParseMembers(s, after + 1, depth))
        else Closing(s, after, '}', [m])
  {
  }

  class Buffer {
    const content: string
    var offset: nat
    var depth: nat

    constructor (text: string)
      ensures content == text && offset == 0 && depth == 0
    {
      content, offset, depth := text, 0, 0;
    }

    /** The offset never leaves the buffer and the nesting never exceeds the limit. */
    predicate Valid()
      reads this
    {
      offset <= |content| && depth <= NESTING_LIMIT
    }

    /** `r` and the state are what the specification says: on success the result, the offset
        behind it, and as many open containers as there `were` before. */
    predicate Delivers<T(==)>(r: Option<T>, spec: Parsed<T>, were: nat)
      reads this
    {
      && Valid()
      && (r.Some? <==> spec.Some?)
      && (r.Some? ==> r.value == spec.value.0 && offset == spec.value.1 && depth == were)
    }

    method SkipWhitespace()
      requires Valid()
      modifies this`offset
      ensures Valid() && offset == SkipWs(content, old(offset))
    {
      if offset == |content| { return; }
      while offset < |content| && content[offset] <= ' '
        invariant old(offset) <= offset <= |content|
        invariant if offset < |content| then SkipWs(content, offset) == SkipWs(content, old(offset))
                  else SkipWs(content, old(offset)) == |content| - 1
      {
        offset := offset + 1;
      }
      if offset == |content| { offset := offset - 1; }
    }

    method ParseNumber() returns (r: Option<Json>)
      requires Valid()
      modifies this`offset
      ensures Delivers(r, Parser.ParseNumber(content, old(offset)), old(depth))
    {
      var length := 0;
      while offset + length < |content| && NumberChar(content[offset + length])
        invariant offset + length <= NumberEnd(content, offset) == NumberEnd(content, offset + length)
      {
        length := length + 1;
      }
      var number := Strtod(content[offset..offset + length]);
      if number.None? { return None; }
      NumberInside(content, offset);
      offset := offset + number.value.1;
      return Some(Number(number.value.0));
    }

    /** The two scans of a string literal; the second one writes into the buffer that the first one sized. */
    method ParseString() returns (r: Option<string>)
      requires Valid()
      modifies this`offset
      ensures Delivers(r, Parser.ParseString(content, old(offset)), old(depth))
    {
      if offset == |content| || content[offset] != '"' {
        if offset < |content| { offset := offset + 1; }
        return None;
      }
      var start := offset + 1;
      var e, skipped := FirstScan(start);
      if e.None? {
        offset := start;
        return None;
      }
      assert Allocation(content, offset, e.value) == e.value - offset - skipped + 1;
      BudgetCovers(content, start, e.value, true);
      var output := new char[e.value - offset - skipped + 1];
      var written := SecondScan(start, e.value, output);
      if written.None? { return None; }
      r := Some(UntilNul(output[..written.value]));
      offset := e.value + 1;
    }

    method FirstScan(start: nat) returns (e: Option<nat>, skipped: nat)
      requires start <= |content|
      ensures e == ScanEnd(content, start)
      ensures e.Some? ==> skipped == Skipped(content, start)
    {
      var i := start;
      skipped := 0;
      while i < |content| && content[i] != '"'
        invariant start <= i <= |content|
        invariant ScanEnd(content, i) == ScanEnd(content, start)
        invariant ScanEnd(content, i).Some? ==> skipped + Skipped(content, i) == Skipped(content, start)
      {
        if content[i] == '\\' {
          if i + 1 >= |content| { return None, 0; }
          skipped := skipped + 1;
          i := i + 1;
        }
        i := i + 1;
      }
      e := if i < |content| then Some(i) else None;
    }

    /** Every write stays inside the output buffer. */
    method SecondScan(start: nat, e: nat, output: array<char>) returns (written: Option<nat>)
      requires offset <= |content| && e < |content| && ScanEnd(content, start) == Some(e) && output.Length > Budget(content, start, e, true)
      modifies this`offset, output
      ensures offset <= |content|
      ensures written.Some? ==> offset == old(offset) && written.value < output.Length
      ensures match Unescape(content, start, e)
        case None => written.None?
        case Some(u) => written.Some? && output[..written.value] == u.0
    {
      assert Tracked(content, start, e, true);
      hide Unescape, Budget, Tracked, ScanEnd, Written;
      var p, w := start, 0;
      ghost var aligned := true;
      BudgetCovers(content, p, e, aligned);
      WrittenMore("", "", Unescape(content, p, e));
      while p < e
        invariant start <= p <= e + 1 && 0 <= w < output.Length && offset == old(offset)
        invariant p <= e ==> Tracked(content, p, e, aligned) && w + Budget(content, p, e, aligned) < output.Length
        invariant Unescape(content, start, e) == Written(output[..w], Unescape(content, p, e))
      {
        var next;
        next, aligned := ScanTurn(p, e, output, w, aligned);
        if next.None? {
          NothingWritten(output[..w]);
          return None;
        }
        p, w := next.value.0, next.value.1;
      }
      UnescapeEnd(content, p, e);
      EndWritten(output[..w], p);
      ghost var done := output[..w];
      output[w] := '\0';
      assert output[..w] == done;
      return Some(w);
    }

    /** One character or escape: where the scan goes on, and how much is written. */
    method ScanTurn(p: nat, e: nat, output: array<char>, w: nat, ghost aligned: bool)
      returns (next: Option<(nat, nat)>, ghost aligned': bool)
      requires offset <= |content| && p < e < |content| && Tracked(content, p, e, aligned)
      requires w < output.Length && w + Budget(content, p, e, aligned) < output.Length
      modifies this`offset, output
      ensures offset <= |content|
      ensures next.None? ==> Unescape(content, p, e).None?
      ensures next.Some? ==> var (q, w') := next.value;
        && offset == old(offset) && p < q <= e + 1 && w' < output.Length
        && (q <= e ==> Tracked(content, q, e, aligned') && w' + Budget(content, q, e, aligned') < output.Length)
        && Written(old(output[..w]), Unescape(content, p, e)) == Written(output[..w'], Unescape(content, q, e))
    {
      hide Unescape, UnescapeOne, Budget, Tracked, Written;
      BudgetCovers(content, p, e, aligned);
      var one := UnescapeOne(content, p, e);
      UnescapeTurn(content, p, e);
      aligned' := aligned;
      if one.None? {
        offset := p;
        return None, aligned;
      }
      var (bytes, q) := one.value;
      aligned' := TurnFits(content, p, e, aligned);
      if q <= e { BudgetCovers(content, q, e, aligned'); }
      WrittenMore(output[..w], bytes, Unescape(content, q, e));
      Write(output, w, bytes);
      return Some((q, w + |bytes|)), aligned';
    }

    method Write(output: array<char>, w: nat, bytes: string)
      requires w + |bytes| <= output.Length
      modifies output
      ensures output[..w + |bytes|] == old(output[..w]) + bytes
    {
      forall i | 0 <= i < |bytes| { output[w + i] := bytes[i]; }
    }

    method ParseValue() returns (r: Option<Json>)
      requires Valid()
      modifies this
      ensures Delivers(r, Parser.ParseValue(content, old(offset), old(depth)), old(depth))
      decreases |content| - offset, 2
    {
      if StartsWith(content, offset, "null") {
        offset := offset + 4;
        return Some(Null);
      }
      if StartsWith(content, offset, "false") {
        offset := offset + 5;
        return Some(False);
      }
      if StartsWith(content, offset, "true") {
        offset := offset + 4;
        return Some(True);
      }
      if offset < |content| && content[offset] == '"' {
        var s := ParseString();
        return if s.Some? then Some(String(s.value)) else None;
      }
      if offset < |content| && (content[offset] == '-' || IsDigit(content[offset])) {
        r := ParseNumber();
        return;
      }
      if offset < |content| && content[offset] == '[' {
        var items := ParseArray();
        return if items.Some? then Some(Array(items.value)) else None;
      }
      if offset < |content| && content[offset] == '{' {
        var ms := ParseObject();
        return if ms.Some? then Some(Object(ms.value)) else None;
      }
      return None;
    }

    method ParseArray() returns (r: Option<seq<Json>>)
      requires Valid() && offset < |content| && content[offset] == '['
      modifies this
      ensures Delivers(r, Parser.ParseArray(content, old(offset), old(depth)), old(depth))
      decreases |content| - offset, 1
    {
      if depth >= NESTING_LIMIT { return None; }
      depth := depth + 1;
      offset := offset + 1;
      SkipWhitespace();
      if offset < |content| && content[offset] == ']' {
        depth, offset := depth - 1, offset + 1;
        return Some([]);
      }
      if offset == |content| {
        offset := offset - 1;
        return None;
      }
      r := ParseItems();
      if r.Some? { depth := depth - 1; }
    }

    /** The loop of `parse_array`, from the first element to behind the closing bracket. */
    method ParseItems() returns (r: Option<seq<Json>>)
      requires Valid()
      modifies this
      ensures Delivers(r, Parser.ParseItems(content, old(offset), old(depth)), old(depth))
      decreases |content| - offset, 4
    {
      hide Parser.ParseItems, Parser.ParseValue, ItemAt;
      var items: seq<Json> := [];
      var more := true;
      ghost var start, open := offset, depth;
      BehindBehind([], [], Parser.ParseItems(content, start, open));
      while more
        invariant Valid() && depth == open && start <= offset
        invariant more ==> Parser.ParseItems(content, start, open) == Behind(items, Parser.ParseItems(content, offset, open))
        invariant !more ==> start < offset && Parser.ParseItems(content, start, open) == Closing(content, offset, ']', items)
        decreases more, |content| - offset
      {
        ghost var here := offset;
        var item := ParseItem();
        if item.None? {
          assert Parser.ParseItems(content, here, open).None? by { NoItem(content, here, open); }
          return None;
        }
        ItemsStep(content, here, open);
        more := offset < |content| && content[offset] == ',';
        if more {
          BehindBehind(items, [item.value], Parser.ParseItems(content, offset + 1, open));
          offset := offset + 1;
        }
        items := items + [item.value];
      }
      if offset == |content| || content[offset] != ']' { return None; }
      offset := offset + 1;
      return Some(items);
    }

    /** One element with the whitespace around it. */
    method ParseItem() returns (r: Option<Json>)
      requires Valid()
      modifies this
      ensures Delivers(r, ItemAt(content, old(offset), old(depth)), old(depth))
      decreases |content| - offset, 3
    {
      SkipWhitespace();
      r := ParseValue();
      if r.Some? { SkipWhitespace(); }
    }

    method ParseObject() returns (r: Option<seq<Member>>)
      requires Valid() && offset < |content| && content[offset] == '{'
      modifies this
      ensures Delivers(r, Parser.ParseObject(content, old(offset), old(depth)), old(depth))
      decreases |content| - offset, 1
    {
      if depth >= NESTING_LIMIT { return None; }
      depth := depth + 1;
      offset := offset + 1;
      SkipWhitespace();
      if offset < |content| && content[offset] == '}' {
        depth, offset := depth - 1, offset + 1;
        return Some([]);
      }
      if offset == |content| {
        offset := offset - 1;
        return None;
      }
      r := ParseMembers();
      if r.Some? { depth := depth - 1; }
    }

    /** The loop of `parse_object`, from the first member to behind the closing brace. */
    method ParseMembers() returns (r: Option<seq<Member>>)
      requires Valid()
      modifies this
      ensures Delivers(r, Parser.ParseMembers(content, old(offset), old(depth)), old(depth))
      decreases |content| - offset, 4
    {
      hide Parser.ParseMembers, Parser.ParseMember, MemberAt;
      var ms: seq<Member> := [];
      var more := true;
      ghost var start, open := offset, depth;
      BehindBehind([], [], Parser.ParseMembers(content, start, open));
      while more
        invariant Valid() && depth == open && start <= offset
        invariant more ==> Parser.ParseMembers(content, start, open) == Behind(ms, Parser.ParseMembers(content, offset, open))
        invariant !more ==> start < offset && Parser.ParseMembers(content, start, open) == Closing(content, offset, '}', ms)
        decreases more, |content| - offset
      {
        ghost var here := offset;
        var m := ParseMember();
        if m.None? {
          assert Parser.ParseMembers(content, here, open).None? by { NoItem(content, here, open); }
          return None;
        }
        MembersStep(content, here, open);
        more := offset < |content| && content[offset] == ',';
        if more {
          BehindBehind(ms, [m.value], Parser.ParseMembers(content, offset + 1, open));
          offset := offset + 1;
        }
        ms := ms + [m.value];
      }
      if offset == |content| || content[offset] != '}' { return None; }
      offset := offset + 1;
      return Some(ms);
    }

    /** One member with the whitespace behind it. */
    method ParseMember() returns (r: Option<Member>)
      requires Valid()
      modifies this
      ensures Delivers(r, MemberAt(content, old(offset), old(depth)), old(depth))
      decreases |content| - offset, 3
    {
      hide Parser.ParseString, Parser.ParseValue, SkipWs;
      if offset == |content| { return None; }
      SkipWhitespace();
      var key := ParseString();
      if key.None? { return None; }
      SkipWhitespace();
      if offset == |content| || content[offset] != ':' { return None; }
      offset := offset + 1;
      SkipWhitespace();
      var value := ParseValue();
      if value.None? { return None; }
      SkipWhitespace();
      return Some(Member(key.value, value.value));
    }

    /** `cJSON_ParseWithLengthOpts` on a fresh buffer. */
    method Parse(requireTerminated: bool) returns (r: Option<Json>)
      requires Valid() && offset == 0 && depth == 0
      modifies this
      ensures Valid() && r == Parser.ParseBuffer(content, requireTerminated)
    {
      if content == "" { return None; }
      offset := SkipBom(content);
      SkipWhitespace();
      r := ParseValue();
      if r.Some? && requireTerminated {
        SkipWhitespace();
        if offset >= |content| || content[offset] != '\0' { return None; }
      }
    }
  }

  /** What the second scan writes behind bytes that are already there. */
  function Written(done: string, r: Option<(string, nat)>): Option<(string, nat)> {
    if r.Some? then Some((done + r.value.0, r.value.1)) else None
  }

  lemma UnescapeTurn(s: string, p: nat, e: nat)
    requires p < e < |s|
    ensures UnescapeOne(s, p, e).None? ==> Unescape(s, p, e).None?
    ensures UnescapeOne(s, p, e).Some? ==> var (bytes, q) := UnescapeOne(s, p, e).value;
      p < q && Unescape(s, p, e) == Written(bytes, Unescape(s, q, e))
  {
  }

  lemma UnescapeEnd(s: string, p: nat, e: nat)
    requires e < |s| && p >= e
    ensures Unescape(s, p, e) == Some(("", p))
  {
  }

  lemma NothingWritten(done: string)
    ensures Written(done, None).None?
  {
  }

  lemma EndWritten(done: string, p: nat)
    ensures Written(done, Some(("", p))) == Some((done, p))
  {
    assert done + "" == done;
  }

  lemma WrittenMore(a: string, b: string, r: Option<(string, nat)>)
    ensures Written(a, Written(b, r)) == Written(a + b, r) && Written("", r) == r
  {
    if r.Some? {
      assert a + (b + r.value.0) == a + b + r.value.0;
      assert "" + r.value.0 == r.value.0;
    }
  }

  lemma NumberInside(s: string, o: nat)
    requires o <= |s|
    ensures var r := Parser.ParseNumber(s, o); r.Some? ==> r.value.1 <= |s|
  {
    if o < |s| { NumberAdvances(s, o); } else { assert s[o..NumberEnd(s, o)] == ""; }
  }
}
