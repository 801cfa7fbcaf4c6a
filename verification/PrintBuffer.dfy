/** The printer as the source runs it: into a buffer that grows, or that must suffice. */
module PrintBuffer {
  import opened CString
  import opened JsonTree
  import opened StringLiteral
  import opened Printer
  import Compare

  /** All keys and string values are C strings. */
  predicate CStrings(j: Json) {
    match j
    case String(s) => NulFree(s)
    case Array(items) => forall i | 0 <= i < |items| :: CStrings(items[i])
    case Object(ms) => forall i | 0 <= i < |ms| :: NulFree(ms[i].key) && CStrings(ms[i].value)
    case _ => true
  }

  class Buffer {
    var buffer: array<char>
    var offset: nat
    var depth: nat
    const noalloc: bool
    const format: bool
    /** The characters before `offset`. */
    ghost var text: string
    /** The end of the space that the last `ensure` reserved. */
    ghost var reserved: nat

    ghost predicate Valid()
      reads this, buffer
    {
      && buffer.Length <= INT_MAX
      && (if buffer.Length == 0 then offset == 0 else offset < buffer.Length)
      && reserved <= buffer.Length
      && |text| == offset
      && Reads(buffer[..], 0, text) && NulFree(text)
    }

    /** How long the buffer can become. */
    function Limit(): nat
      reads this
    {
      if noalloc then buffer.Length else INT_MAX
    }

    constructor (space: array<char>, noalloc: bool, format: bool)
      requires space.Length <= INT_MAX
      ensures Valid() && buffer == space && offset == 0 && depth == 0 && text == ""
      ensures this.noalloc == noalloc && this.format == format
    {
      buffer, offset, depth, text, reserved := space, 0, 0, "", 0;
      this.noalloc, this.format := noalloc, format;
    }

    /** `ensure`: room for `needed` more characters and one to spare, by reallocation if allowed. */
    method Ensure(needed: nat) returns (ok: bool)
      requires Valid()
      modifies this
      ensures Valid() && offset == old(offset) && depth == old(depth) && text == old(text) && Limit() == old(Limit())
      ensures buffer == old(buffer) || (!noalloc && fresh(buffer))
      ensures ok <==> offset + needed + 1 <= Limit()
      ensures ok ==> reserved == offset + needed < buffer.Length
    {
      if buffer.Length > 0 && offset >= buffer.Length { return false; }
      if needed > INT_MAX { return false; }
      var total := needed + offset + 1;
      if total <= buffer.Length {
        reserved := offset + needed;
        return true;
      }
      if noalloc { return false; }
      var size: nat;
      if total > INT_MAX / 2 {
        if total > INT_MAX { return false; }
        size := INT_MAX;
      } else {
        size := total * 2;
      }
      var bigger := new char[size];
      forall i | 0 <= i < buffer.Length { bigger[i] := buffer[i]; }
      forall i | 0 <= i < |text| ensures bigger[i] == text[i] { assert buffer[..][0+i] == text[i]; }
      buffer := bigger;
      reserved := offset + needed;
      return true;
    }

    /** Write characters behind the text, inside the reserved space, without moving the offset. */
    method Put(at: nat, s: string)
      requires Valid() && offset <= at && at + |s| <= reserved
      modifies buffer
      ensures Valid() && Reads(buffer[..], at, s)
      ensures forall i | 0 <= i < at :: buffer[i] == old(buffer[i])
    {
      forall i | 0 <= i < |text| ensures buffer[i] == text[i] { assert buffer[..][0+i] == text[i]; }
      forall i | 0 <= i < |s| { buffer[at + i] := s[i]; }
    }

    /** Move the offset behind characters that were just written. */
    method Advance(ghost s: string, n: nat)
      requires Valid() && Reads(buffer[..], offset, s) && n == |s| && offset + n < buffer.Length && NulFree(s)
      modifies this`offset, this`text
      ensures Valid() && text == old(text) + s
    {
      ReadsConcat(buffer[..], 0, text, s);
      offset, text := offset + n, text + s;
    }

    /** The text so far, followed by `x` and a NUL. */
    ghost predicate Ends(x: string)
      reads this, buffer
    {
      Reads(buffer[..], 0, x + ['\0']) && text <= x && |x| + 1 < buffer.Length
    }

    /** `update_offset`: move to the terminating NUL. */
    method UpdateOffset(ghost x: string)
      requires Valid() && Ends(x) && NulFree(x)
      modifies this`offset, this`text
      ensures Valid() && text == x
    {
      ghost var z := x + ['\0'];
      forall i | 0 <= i <= |x| ensures buffer[i] == z[i] { assert buffer[..][0+i] == z[i]; }
      assert forall i | 0 <= i < |x| :: z[i] == x[i];
      var i := offset;
      while buffer[i] != '\0'
        invariant offset <= i <= |x|
        decreases |x| - i
      {
        assert buffer[i] == z[i];
        i := i + 1;
      }
      assert buffer[i] == z[i];
      offset, text := i, x;
    }

    /** Append `s` and a terminating NUL; the offset stays in front of `s`. */
    method Append(s: string) returns (ok: bool)
      requires Valid()
      modifies this, buffer
      ensures Valid() && offset == old(offset) && depth == old(depth) && text == old(text) && Limit() == old(Limit())
      ensures buffer == old(buffer) || (!noalloc && fresh(buffer))
      ensures ok <==> offset + |s| + 2 <= Limit()
      ensures ok ==> Ends(text + s) && reserved == offset + |s| + 1
    {
      ok := Ensure(|s| + 1);
      if ok {
        Put(offset, s + ['\0']);
        ReadsConcat(buffer[..], 0, text, s + ['\0']);
        assert text + (s + ['\0']) == text + s + ['\0'];
      }
    }

    /** Append `s` without a NUL and move behind it; some places reserve a character to spare. */
    method Emit(s: string, spare: nat) returns (ok: bool)
      requires Valid() && NulFree(s)
      modifies this, buffer
      ensures Valid() && depth == old(depth) && Limit() == old(Limit())
      ensures buffer == old(buffer) || (!noalloc && fresh(buffer))
      ensures ok <==> old(offset) + |s| + spare + 1 <= Limit()
      ensures ok ==> text == old(text) + s
    {
      ok := Ensure(|s| + spare);
      if ok {
        Put(offset, s);
        Advance(s, |s|);
      }
    }

    /** Append `s` and a terminating NUL, and move between them. */
    method EmitTerminated(s: string) returns (ok: bool)
      requires Valid() && NulFree(s)
      modifies this, buffer
      ensures Valid() && depth == old(depth) && Limit() == old(Limit())
      ensures buffer == old(buffer) || (!noalloc && fresh(buffer))
      ensures ok <==> old(offset) + |s| + 2 <= Limit()
      ensures ok ==> text == old(text) + s && Ends(text)
    {
      ok := Append(s);
      if ok {
        ReadsConcat(buffer[..], 0, text + s, ['\0']);
        ReadsConcat(buffer[..], 0, text, s);
        Advance(s, |s|);
      }
    }

    /** `print_string_ptr`: count the escapes, reserve, then copy or escape. */
    method PrintString(s: string) returns (ok: bool)
      requires Valid() && NulFree(s)
      modifies this, buffer
      ensures Valid() && offset == old(offset) && depth == old(depth) && text == old(text) && Limit() == old(Limit())
      ensures buffer == old(buffer) || (!noalloc && fresh(buffer))
      ensures ok <==> offset + |Quote(s)| + 2 <= Limit()
      ensures ok ==> Ends(text + Quote(s))
    {
      hide Reads;
      var escapes := CountEscapes(s);
      ok := Ensure(|s| + escapes + 3);
      if !ok { return; }
      if escapes == 0 {
        Put(offset, "\"" + s + "\"" + ['\0']);
      } else {
        PutEscaped(s);
      }
      assert Reads(buffer[..], offset, Quote(s) + ['\0']);
      ReadsConcat(buffer[..], 0, text, Quote(s) + ['\0']);
      assert text + (Quote(s) + ['\0']) == text + Quote(s) + ['\0'];
    }

    /** The second loop of `print_string_ptr`. */
    method PutEscaped(s: string)
      requires Valid() && NulFree(s) && reserved == offset + |Escape(s)| + 3
      modifies buffer
      ensures Valid() && Reads(buffer[..], offset, Quote(s) + ['\0'])
    {
      hide Reads, EscapeChar;
      Put(offset, "\"");
      var at := offset + 1;
      assert "\"" + Escape(s[..0]) == "\"";
      for i := 0 to |s|
        invariant Valid() && at == offset + 1 + |Escape(s[..i])| && Reads(buffer[..], offset, "\"" + Escape(s[..i]))
      {
        EscapeSnoc(s, i);
        EscapeSplit(s, i + 1);
        PutBehind("\"" + Escape(s[..i]), EscapeChar(s[i]));
        assert "\"" + Escape(s[..i]) + EscapeChar(s[i]) == "\"" + Escape(s[..i+1]);
        at := at + |EscapeChar(s[i])|;
      }
      assert s[..|s|] == s;
      PutBehind("\"" + Escape(s), "\"" + ['\0']);
      assert "\"" + Escape(s) + ("\"" + ['\0']) == Quote(s) + ['\0'];
    }

    /** Write `s` behind characters `done` that follow the text. */
    method PutBehind(done: string, s: string)
      requires Valid() && Reads(buffer[..], offset, done) && offset + |done| + |s| <= reserved
      modifies buffer
      ensures Valid() && Reads(buffer[..], offset, done + s)
    {
      Put(offset + |done|, s);
      forall i | 0 <= i < |done| ensures buffer[offset + i] == done[i] {
        assert old(buffer[..])[offset + i] == done[i];
      }
      ReadsConcat(buffer[..], offset, done, s);
    }

    /** `print_value`: succeeds exactly when every item is of a known type and the text, its
        terminating NUL and one spare character fit. */
    method PrintValue(j: Json) returns (ok: bool)
      requires Valid() && CStrings(j)
      modifies this, buffer
      ensures Valid() && Limit() == old(Limit())
      ensures buffer == old(buffer) || (!noalloc && fresh(buffer))
      ensures ok <==> Compare.AllTyped(j) && old(offset) + |Print(j, old(depth), format)| + 2 <= Limit()
      ensures ok ==> Ends(old(text) + Print(j, old(depth), format)) && depth == old(depth)
      decreases j, 2
    {
      match j {
        case Invalid => return false;
        case Null => ok := Append("null");
        case False => ok := Append("false");
        case True => ok := Append("true");
        case Number(n) =>
          PrintNulFree(j, depth, format);
          ok := EmitTerminated(PrintInt(n));
        case String(s) => ok := PrintString(s);
        case Array(items) => ok := PrintArray(items);
        case Object(ms) => ok := PrintObject(ms);
      }
    }

    /** Print one value and move behind it. */
    method PrintChild(j: Json) returns (ok: bool)
      requires Valid() && CStrings(j)
      modifies this, buffer
      ensures Valid() && Limit() == old(Limit())
      ensures buffer == old(buffer) || (!noalloc && fresh(buffer))
      ensures ok <==> Compare.AllTyped(j) && old(offset) + |Print(j, old(depth), format)| + 2 <= Limit()
      ensures ok ==> text == old(text) + Print(j, old(depth), format) && depth == old(depth)
      decreases j, 3
    {
      ghost var x := text + Print(j, depth, format);
      PrintNulFree(j, depth, format);
      ok := PrintValue(j);
      if ok {
        UpdateOffset(x);
      }
    }

    method PrintArray(items: seq<Json>) returns (ok: bool)
      requires Valid() && CStrings(Array(items))
      modifies this, buffer
      ensures Valid() && Limit() == old(Limit())
      ensures buffer == old(buffer) || (!noalloc && fresh(buffer))
      ensures ok <==> Compare.AllTyped(Array(items)) && old(offset) + |Print(Array(items), old(depth), format)| + 2 <= Limit()
      ensures ok ==> Ends(old(text) + Print(Array(items), old(depth), format)) && depth == old(depth)
      decreases items, 1
    {
      hide PrintItems, Reads;
      ok := Emit("[", 0);
      if !ok { return; }
      depth := depth + 1;
      ok := PrintElements(items);
      if !ok { return; }
      ok := Append("]");
      if ok { depth := depth - 1; }
      assert old(text) + "[" + PrintItems(items, old(depth) + 1, format) + "]"
          == old(text) + ("[" + PrintItems(items, old(depth) + 1, format) + "]");
    }

    /** One turn of the loop of `print_array`: an element and, before another one, the separator. */
    method PrintElement(item: Json, more: bool) returns (ok: bool)
      requires Valid() && CStrings(item)
      modifies this, buffer
      ensures Valid() && Limit() == old(Limit())
      ensures buffer == old(buffer) || (!noalloc && fresh(buffer))
      ensures ok <==> Compare.AllTyped(item) && old(offset) + |ItemText(item, old(depth), format, more)| + 2 <= Limit()
      ensures ok ==> text == old(text) + ItemText(item, old(depth), format, more) && depth == old(depth)
      decreases item, 4
    {
      hide Print, Reads, ItemText;
      ItemTextIs(text, item, depth, format, more);
      ok := PrintChild(item);
      if ok && more {
        ok := EmitTerminated("," + If(format, " "));
      }
    }

    /** The loop of `print_array`. */
    method PrintElements(items: seq<Json>) returns (ok: bool)
      requires Valid() && CStrings(Array(items))
      modifies this, buffer
      ensures Valid() && Limit() == old(Limit())
      ensures buffer == old(buffer) || (!noalloc && fresh(buffer))
      ensures ok <==> FitsItems(items, old(offset), old(depth), format, Limit())
      ensures ok ==> text == old(text) + PrintItems(items, old(depth), format) && depth == old(depth)
      decreases items, 0
    {
      hide Reads, PrintItems, ItemText;
      var i := 0;
      ghost var full := text + PrintItems(items, depth, format);
      assert items[0..] == items;
      while i < |items|
        invariant i <= |items| && Valid() && Limit() == old(Limit()) && depth == old(depth)
        invariant buffer == old(buffer) || (!noalloc && fresh(buffer))
        invariant full == text + PrintItems(items[i..], depth, format)
        invariant forall k | 0 <= k < i :: Compare.AllTyped(items[k])
        invariant i == |items| > 0 ==> offset + 2 <= Limit()
      {
        ItemsSplit(items, i, depth, format);
        ghost var before := text;
        ok := PrintElement(items[i], i + 1 < |items|);
        if !ok { return; }
        i := i + 1;
        assert full == before + (ItemText(items[i-1], depth, format, i < |items|) + PrintItems(items[i..], depth, format));
      }
      assert items[i..] == [];
      EmptyItems(depth, format);
      ok := true;
    }

    method PrintObject(ms: seq<Member>) returns (ok: bool)
      requires Valid() && CStrings(Object(ms))
      modifies this, buffer
      ensures Valid() && Limit() == old(Limit())
      ensures buffer == old(buffer) || (!noalloc && fresh(buffer))
      ensures ok <==> Compare.AllTyped(Object(ms)) && old(offset) + |Print(Object(ms), old(depth), format)| + 2 <= Limit()
      ensures ok ==> Ends(old(text) + Print(Object(ms), old(depth), format)) && depth == old(depth)
      decreases ms, 1
    {
      ObjectJoins(text, ms, depth, format);
      hide PrintMembers, Reads, Print;
      ok := Emit("{" + If(format, "\n"), 1);
      if !ok { return; }
      depth := depth + 1;
      ok := PrintLines(ms);
      if !ok { return; }
      ok := Append(If(format, Tabs(depth - 1)) + "}");
      if ok { depth := depth - 1; }
    }

    /** The indented key and the colon of a member. */
    method PrintKey(key: string) returns (ok: bool)
      requires Valid() && NulFree(key)
      modifies this, buffer
      ensures Valid() && Limit() == old(Limit()) && depth == old(depth)
      ensures buffer == old(buffer) || (!noalloc && fresh(buffer))
      ensures ok <==> old(offset) + |KeyText(key, depth, format)| + 1 <= Limit()
      ensures ok ==> text == old(text) + KeyText(key, depth, format)
    {
      hide Reads, Quote;
      ok := true;
      if format { ok := Emit(Tabs(depth), 0); }
      if !ok { return; }
      ghost var quoted := text + Quote(key);
      QuoteNulFree(key);
      ok := PrintString(key);
      if !ok { return; }
      UpdateOffset(quoted);
      ok := Emit(":" + If(format, "\t"), 0);
      ghost var tabs := If(format, Tabs(depth));
      assert old(text) + tabs + Quote(key) + (":" + If(format, "\t")) == old(text) + KeyText(key, depth, format);
    }

    /** One turn of the loop of `print_object`: a member on its line. */
    method PrintLine(m: Member, more: bool) returns (ok: bool)
      requires Valid() && NulFree(m.key) && CStrings(m.value)
      modifies this, buffer
      ensures Valid() && Limit() == old(Limit())
      ensures buffer == old(buffer) || (!noalloc && fresh(buffer))
      ensures ok <==> Compare.AllTyped(m.value) && old(offset) + |LineText(m, old(depth), format, more)| + 2 <= Limit()
      ensures ok ==> text == old(text) + LineText(m, old(depth), format, more) && depth == old(depth)
      decreases m, 4
    {
      hide Reads, Print, KeyText, LineText;
      LineJoins(text, m, depth, format, more);
      ok := PrintKey(m.key);
      if !ok { return; }
      ok := PrintChild(m.value);
      if !ok { return; }
      ok := EmitTerminated(If(more, ",") + If(format, "\n"));
    }

    /** The loop of `print_object`. */
    method PrintLines(ms: seq<Member>) returns (ok: bool)
      requires Valid() && CStrings(Object(ms))
      modifies this, buffer
      ensures Valid() && Limit() == old(Limit())
      ensures buffer == old(buffer) || (!noalloc && fresh(buffer))
      ensures ok <==> FitsMembers(ms, old(offset), old(depth), format, Limit())
      ensures ok ==> text == old(text) + PrintMembers(ms, old(depth), format) && depth == old(depth)
      decreases ms, 0
    {
      hide Reads, PrintMembers, LineText;
      var i := 0;
      ghost var full := text + PrintMembers(ms, depth, format);
      assert ms[0..] == ms;
      while i < |ms|
        invariant i <= |ms| && Valid() && Limit() == old(Limit()) && depth == old(depth)
        invariant buffer == old(buffer) || (!noalloc && fresh(buffer))
        invariant full == text + PrintMembers(ms[i..], depth, format)
        invariant forall k | 0 <= k < i :: Compare.AllTyped(ms[k].value)
        invariant i == |ms| > 0 ==> offset + 2 <= Limit()
      {
        LinesSplit(ms, i, depth, format);
        ghost var before := text;
        ok := PrintLine(ms[i], i + 1 < |ms|);
        if !ok { return; }
        i := i + 1;
        assert full == before + (LineText(ms[i-1], depth, format, i < |ms|) + PrintMembers(ms[i..], depth, format));
      }
      assert ms[i..] == [];
      EmptyMembers(depth, format);
      ok := true;
    }
  }

  /** The text of an element with the separator behind it, if another one follows. */
  function ItemText(item: Json, depth: nat, format: bool, more: bool): string {
    Print(item, depth, format) + (if more then "," + If(format, " ") else "")
  }

  lemma ItemTextIs(t: string, item: Json, depth: nat, format: bool, more: bool)
    ensures var x := ItemText(item, depth, format, more);
      if more then x == Print(item, depth, format) + ("," + If(format, " ")) && t + Print(item, depth, format) + ("," + If(format, " ")) == t + x
      else x == Print(item, depth, format)
  {
    hide Print;
  }

  /** The loop over the elements succeeds: a NUL and a spare character fit behind the last one. */
  ghost predicate FitsItems(items: seq<Json>, offset: nat, depth: nat, format: bool, limit: nat) {
    items != [] ==> Compare.AllTyped(Array(items)) && offset + |PrintItems(items, depth, format)| + 2 <= limit
  }

  lemma ItemsSplit(items: seq<Json>, i: nat, depth: nat, format: bool)
    requires i < |items|
    ensures PrintItems(items[i..], depth, format) ==
      ItemText(items[i], depth, format, i + 1 < |items|) + PrintItems(items[i+1..], depth, format)
  {
    assert items[i..][1..] == items[i+1..];
    if i + 1 == |items| { EmptyItems(depth, format); }
  }

  /** The line of a member, with a comma if another one follows. */
  function LineText(m: Member, depth: nat, format: bool, more: bool): string {
    If(format, Tabs(depth)) + PrintMember(m, depth, format) + (If(more, ",") + If(format, "\n"))
  }

  ghost predicate FitsMembers(ms: seq<Member>, offset: nat, depth: nat, format: bool, limit: nat) {
    ms != [] ==> Compare.AllTyped(Object(ms)) && offset + |PrintMembers(ms, depth, format)| + 2 <= limit
  }

  function KeyText(key: string, depth: nat, format: bool): string {
    If(format, Tabs(depth)) + (Quote(key) + (":" + If(format, "\t")))
  }

  /** The pieces of a line in the order in which they are written. */
  lemma ObjectJoins(t: string, ms: seq<Member>, depth: nat, format: bool)
    ensures var open, body, close := "{" + If(format, "\n"), PrintMembers(ms, depth + 1, format), If(format, Tabs(depth)) + "}";
      && t + open + body + close == t + Print(Object(ms), depth, format)
      && |open| + |body| + |close| == |Print(Object(ms), depth, format)|
  {
    hide PrintMembers, If;
    var open, body, close := "{" + If(format, "\n"), PrintMembers(ms, depth + 1, format), If(format, Tabs(depth)) + "}";
    assert Print(Object(ms), depth, format) == open + body + close;
  }

  lemma LineJoins(t: string, m: Member, depth: nat, format: bool, more: bool)
    ensures var end := If(more, ",") + If(format, "\n");
      && t + KeyText(m.key, depth, format) + Print(m.value, depth, format) + end == t + LineText(m, depth, format, more)
      && |KeyText(m.key, depth, format)| + |Print(m.value, depth, format)| + |end| == |LineText(m, depth, format, more)|
  {
    hide Quote, Print, If;
    var tabs, k, sp, v := If(format, Tabs(depth)), Quote(m.key), If(format, "\t"), Print(m.value, depth, format);
    assert tabs + (k + ":" + sp + v) == tabs + (k + (":" + sp)) + v;
  }

  lemma LinesSplit(ms: seq<Member>, i: nat, depth: nat, format: bool)
    requires i < |ms|
    ensures PrintMembers(ms[i..], depth, format) ==
      LineText(ms[i], depth, format, i + 1 < |ms|) + PrintMembers(ms[i+1..], depth, format)
  {
    assert ms[i..][1..] == ms[i+1..];
    if i + 1 == |ms| { EmptyMembers(depth, format); }
  }

  /** The text of C strings is a C string. */
  lemma {:induction false} PrintNulFree(j: Json, depth: nat, format: bool)
    requires CStrings(j)
    ensures NulFree(Print(j, depth, format))
    decreases j, 2
  {
    hide PrintItems, PrintMembers;
    match j
    case Number(n) => IntNulFree(n);
    case String(s) => QuoteNulFree(s);
    case Array(items) =>
      ItemsNulFree(items, depth + 1, format);
      BracketsNulFree(items, depth, format);
    case Object(ms) =>
      MembersNulFree(ms, depth + 1, format);
      BracesNulFree(ms, depth, format);
    case _ =>
  }

  lemma BracketsNulFree(items: seq<Json>, depth: nat, format: bool)
    requires NulFree(PrintItems(items, depth + 1, format))
    ensures NulFree(Print(Array(items), depth, format))
  {
    hide PrintItems;
  }

  lemma BracesNulFree(ms: seq<Member>, depth: nat, format: bool)
    requires NulFree(PrintMembers(ms, depth + 1, format))
    ensures NulFree(Print(Object(ms), depth, format))
  {
    hide PrintMembers;
    var open, body, close := "{" + If(format, "\n"), PrintMembers(ms, depth + 1, format), If(format, Tabs(depth)) + "}";
    NulFreeConcat(open, body);
    NulFreeConcat(open + body, close);
    assert Print(Object(ms), depth, format) == open + body + close;
  }

  lemma IntNulFree(n: int)
    ensures NulFree(PrintInt(n))
  {
    var d := Decimal(if n < 0 then -n else n);
    assert forall i | 0 <= i < |d| :: IsDigit(d[i]);
  }

  lemma {:induction false} EscapeNulFree(s: string)
    requires NulFree(s)
    ensures NulFree(Escape(s))
  {
    if s != "" { EscapeNulFree(s[1..]); }
  }

  lemma QuoteNulFree(s: string)
    requires NulFree(s)
    ensures NulFree(Quote(s))
  {
    EscapeNulFree(s);
  }

  lemma {:induction false} ItemsNulFree(items: seq<Json>, depth: nat, format: bool)
    requires CStrings(Array(items))
    ensures NulFree(PrintItems(items, depth, format))
    decreases items, 1
  {
    if items != [] {
      PrintNulFree(items[0], depth, format);
      ItemsNulFree(items[1..], depth, format);
    }
  }

  lemma {:induction false} MembersNulFree(ms: seq<Member>, depth: nat, format: bool)
    requires CStrings(Object(ms))
    ensures NulFree(PrintMembers(ms, depth, format))
    decreases ms, 1
  {
    if ms != [] {
      var tabs, end := If(format, Tabs(depth)), If(|ms| > 1, ",") + If(format, "\n");
      MemberNulFree(ms[0], depth, format);
      MembersNulFree(ms[1..], depth, format);
      NulFreeConcat(tabs, PrintMember(ms[0], depth, format));
      hide PrintMember;
      NulFreeConcat(end, PrintMembers(ms[1..], depth, format));
      NulFreeConcat(tabs + PrintMember(ms[0], depth, format), end + PrintMembers(ms[1..], depth, format));
    }
  }

  lemma NulFreeConcat(a: string, b: string)
    requires NulFree(a) && NulFree(b)
    ensures NulFree(a + b)
  {
  }

  lemma MemberNulFree(m: Member, depth: nat, format: bool)
    requires NulFree(m.key) && CStrings(m.value)
    ensures NulFree(PrintMember(m, depth, format))
    decreases m, 3
  {
    hide Quote, Print;
    QuoteNulFree(m.key);
    PrintNulFree(m.value, depth, format);
  }

  /** The first loop of `print_string_ptr`: the number of additional characters. */
  method CountEscapes(s: string) returns (escapes: nat)
    ensures |Escape(s)| == |s| + escapes && (escapes == 0 ==> Escape(s) == s)
  {
    escapes := 0;
    for i := 0 to |s|
      invariant |Escape(s[..i])| == i + escapes && (escapes == 0 ==> Escape(s[..i]) == s[..i])
    {
      EscapeSnoc(s, i);
      escapes := escapes + |EscapeChar(s[i])| - 1;
    }
    assert s[..|s|] == s;
  }

  lemma {:induction false} EscapeSnoc(s: string, i: nat)
    requires i < |s|
    ensures Escape(s[..i+1]) == Escape(s[..i]) + EscapeChar(s[i])
    ensures |EscapeChar(s[i])| == 1 ==> EscapeChar(s[i]) == [s[i]] && s[..i+1] == s[..i] + [s[i]]
    decreases i
  {
    if i > 0 {
      assert s[..i+1][1..] == s[1..][..i] && s[..i][1..] == s[1..][..i-1];
      EscapeSnoc(s[1..], i - 1);
    }
  }

  lemma {:induction false} EscapeSplit(s: string, i: nat)
    requires i <= |s|
    ensures |Escape(s[..i])| <= |Escape(s)|
    decreases |s| - i
  {
    if i == |s| {
      assert s[..i] == s;
    } else {
      EscapeSnoc(s, i);
      EscapeSplit(s, i + 1);
    }
  }

  // ----- entry points

  /** `cJSON_Print` and `cJSON_PrintUnformatted`: the text, whenever it and two more characters stay
      below the largest int. */
  method PrintText(j: Json, format: bool) returns (r: Option<string>)
    requires CStrings(j)
    ensures r == if Compare.AllTyped(j) && |Print(j, 0, format)| + 2 <= INT_MAX then Some(Print(j, 0, format)) else None
  {
    var space := new char[256];
    var p := new Buffer(space, false, format);
    var ok := p.PrintChild(j);
    if !ok { return None; }
    assert p.text == "" + Print(j, 0, format) == Print(j, 0, format);
    TextRead(p.buffer[..], p.text);
    return Some(p.buffer[..p.offset]);
  }

  lemma TextRead(b: string, t: string)
    requires Reads(b, 0, t)
    ensures |t| <= |b| && b[..|t|] == t
  {
    assert forall i | 0 <= i < |t| :: b[0+i] == t[i];
  }

  /** `cJSON_PrintBuffered`: every starting size gives the same text. */
  method PrintBuffered(j: Json, prebuffer: int, format: bool) returns (r: Option<array<char>>)
    requires CStrings(j) && prebuffer <= INT_MAX
    ensures r.Some? <==> 0 <= prebuffer && Compare.AllTyped(j) && |Print(j, 0, format)| + 2 <= INT_MAX
    ensures r.Some? ==> Reads(r.value[..], 0, Print(j, 0, format) + ['\0'])
  {
    if prebuffer < 0 { return None; }
    var space := new char[prebuffer];
    var p := new Buffer(space, false, format);
    var ok := p.PrintValue(j);
    if !ok { return None; }
    assert "" + Print(j, 0, format) == Print(j, 0, format);
    return Some(p.buffer);
  }

  /** `cJSON_PrintPreallocated`: two characters more than the text are necessary and sufficient. */
  method PrintPreallocated(j: Json, buffer: array<char>, format: bool) returns (ok: bool)
    requires CStrings(j) && buffer.Length <= INT_MAX
    modifies buffer
    ensures ok <==> Compare.AllTyped(j) && |Print(j, 0, format)| + 2 <= buffer.Length
    ensures ok ==> Reads(buffer[..], 0, Print(j, 0, format) + ['\0'])
  {
    var p := new Buffer(buffer, true, format);
    ok := p.PrintValue(j);
    assert "" + Print(j, 0, format) == Print(j, 0, format);
  }
}
