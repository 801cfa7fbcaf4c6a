/** Parsing undoes printing. */
module PrintParse {
  import opened CString
  import opened JsonTree
  import opened StringLiteral
  import opened Printer
  import opened Parser
  import opened NumberTokens

  /** How deep containers nest, empty ones included. */
  function Nesting(j: Json): nat
    decreases j, 1
  {
    match j
    case Array(items) => 1 + NestingOfItems(items)
    case Object(ms) => 1 + NestingOfMembers(ms)
    case _ => 0
  }

  function NestingOfItems(items: seq<Json>): nat
    decreases items, 0
  {
    if items == [] then 0 else Max(Nesting(items[0]), NestingOfItems(items[1..]))
  }

  function NestingOfMembers(ms: seq<Member>): nat
    decreases ms, 0
  {
    if ms == [] then 0 else Max(Nesting(ms[0].value), NestingOfMembers(ms[1..]))
  }

  // ----- whitespace

  predicate Blank(s: string) {
    forall i | 0 <= i < |s| :: s[i] <= ' '
  }

  lemma {:induction false} SkipBlank(t: string, p: nat, w: string)
    requires Reads(t, p, w) && Blank(w) && p + |w| < |t| && t[p+|w|] > ' '
    ensures SkipWs(t, p) == p + |w|
    decreases |w|
  {
    if w != "" {
      assert t[p] == w[0];
      assert Reads(t, p + 1, w[1..]) by {
        forall i | 0 <= i < |w[1..]| ensures t[(p+1)+i] == w[1..][i] { assert t[p+(i+1)] == w[i+1]; }
      }
      SkipBlank(t, p + 1, w[1..]);
    }
  }

  lemma NoBlank(t: string, p: nat)
    requires p < |t| && t[p] > ' '
    ensures SkipWs(t, p) == p
  {
  }

  // ----- numbers

  /** A number ends here. */
  predicate Stops(t: string, p: nat) {
    p < |t| && !NumberChar(t[p])
  }

  lemma {:induction false} NumberRun(t: string, p: nat, x: string)
    requires Reads(t, p, x) && Stops(t, p + |x|) && forall i | 0 <= i < |x| :: NumberChar(x[i])
    ensures NumberEnd(t, p) == p + |x|
    decreases |x|
  {
    if x != "" {
      assert t[p] == x[0];
      assert Reads(t, p + 1, x[1..]) by {
        forall i | 0 <= i < |x[1..]| ensures t[(p+1)+i] == x[1..][i] { assert t[p+(i+1)] == x[i+1]; }
      }
      NumberRun(t, p + 1, x[1..]);
    }
  }

  lemma {:induction false} AllDigitsEnd(c: string, i: nat)
    requires i <= |c| && AllDigits(c[i..])
    ensures DigitsEnd(c, i) == |c|
    decreases |c| - i
  {
    if i < |c| {
      assert c[i..][0] == c[i] && c[i..][1..] == c[i+1..];
      AllDigitsEnd(c, i + 1);
    }
  }

  /** A sign and digits: no fraction, no exponent. */
  lemma StrtodDigits(c: string, d: string, negative: bool)
    requires AllDigits(d) && d != "" && c == (if negative then "-" else "") + d
    ensures Strtod(c) == Some((Saturate(if negative then 0 - DigitsValue(d) else DigitsValue(d)), |c|))
  {
    hide DigitsValue, Decimal, Saturate;
    var i := if negative then 1 else 0;
    assert IsDigit(d[0]) && c[i] == d[0];
    assert c[i..] == d;
    AllDigitsEnd(c, i);
    assert c[i..|c|] + "" == d;
    assert Exponent(c, |c|) == (|c|, 0);
    assert Scale(DigitsValue(d), 0) == DigitsValue(d) by { assert Pow10(0) == 1; }
  }

  lemma StrtodInt(n: int)
    requires INT_MIN <= n <= INT_MAX
    ensures Strtod(PrintInt(n)) == Some((n, |PrintInt(n)|))
  {
    hide Strtod, Decimal, AllDigits, DigitsValue;
    var d := Decimal(if n < 0 then -n else n);
    DecimalValue(if n < 0 then -n else n);
    assert "" + d == d;
    StrtodDigits(PrintInt(n), d, n < 0);
  }

  lemma PrintIntShape(n: int)
    ensures var x := PrintInt(n);
      (x[0] == '-' || IsDigit(x[0])) && forall i | 0 <= i < |x| :: NumberChar(x[i])
  {
    var x := PrintInt(n);
    forall i | 0 <= i < |x| ensures NumberChar(x[i]) {
      if n < 0 && i > 0 { assert x[i] == Decimal(-n)[i-1]; }
    }
  }

  lemma ParsePrintedNumber(t: string, p: nat, n: int, depth: nat)
    requires INT_MIN <= n <= INT_MAX && Reads(t, p, PrintInt(n)) && Stops(t, p + |PrintInt(n)|)
    ensures ParseValue(t, p, depth) == Some((Number(n), p + |PrintInt(n)|))
  {
    hide Strtod, NumberEnd, PrintInt, Reads, ParseValue;
    var x := PrintInt(n);
    PrintIntShape(n);
    NumberRun(t, p, x);
    ReadsHead(t, p, x);
    LiteralWord(t, p, x);
    StrtodInt(n);
    NumberDispatch(t, p, depth);
  }

  lemma NumberDispatch(t: string, p: nat, open: nat)
    requires p < |t| && (t[p] == '-' || IsDigit(t[p]))
    ensures ParseValue(t, p, open) == ParseNumber(t, p)
  {
    hide ParseNumber;
    OtherWord(t, p, "null");
    OtherWord(t, p, "false");
    OtherWord(t, p, "true");
  }

  // ----- strings

  lemma {:induction false} WholeString(s: string)
    requires NulFree(s)
    ensures UntilNul(s) == s
  {
    if s != "" { WholeString(s[1..]); }
  }

  lemma ParseQuoted(t: string, p: nat, s: string)
    requires NulFree(s) && Reads(t, p, Quote(s))
    ensures ParseString(t, p) == Some((s, p + |Quote(s)|))
  {
    hide Escape, Unescape, ScanEnd, UntilNul;
    ReadsConcat(t, p, "\"" + Escape(s), "\"");
    ReadsConcat(t, p, "\"", Escape(s));
    assert t[p] == "\""[0] && t[p + |Escape(s)| + 1] == "\""[0] by {
      assert t[p+0] == "\""[0];
      assert t[(p + |"\"" + Escape(s)|) + 0] == "\""[0];
    }
    UnescapeEscape(t, p + 1, s);
    WholeString(s);
  }

  // ----- values

  /** No text of a value starts with whitespace or a closing bracket. */
  lemma FirstChar(j: Json, depth: nat, format: bool)
    requires Printable(j)
    ensures var x := Print(j, depth, format); x != "" && x[0] > ' ' && x[0] != ']' && x[0] != '}'
  {
    if j.Number? { PrintIntShape(j.valueint); }
  }

  lemma LiteralWord(t: string, p: nat, w: string)
    ensures Reads(t, p, w) <==> StartsWith(t, p, w)
  {
    if Reads(t, p, w) { assert t[p..p+|w|] == w; }
    if StartsWith(t, p, w) {
      forall i | 0 <= i < |w| ensures t[p+i] == w[i] { assert t[p..p+|w|][i] == w[i]; }
    }
  }

  function Wrapped<T>(r: Parsed<T>, f: T -> Json): Parsed<Json> {
    if r.Some? then Some((f(r.value.0), r.value.1)) else None
  }

  /** The first character decides how a value is parsed. */
  lemma Dispatch(t: string, p: nat, open: nat)
    requires p < |t|
    ensures t[p] == '"' ==> ParseValue(t, p, open) == Wrapped(ParseString(t, p), s => String(s))
    ensures t[p] == '[' ==> ParseValue(t, p, open) == Wrapped(ParseArray(t, p, open), xs => Array(xs))
    ensures t[p] == '{' ==> ParseValue(t, p, open) == Wrapped(ParseObject(t, p, open), ms => Object(ms))
  {
    hide ParseString, ParseArray, ParseObject;
    if t[p] == '"' || t[p] == '[' || t[p] == '{' {
      OtherWord(t, p, "null");
      OtherWord(t, p, "false");
      OtherWord(t, p, "true");
    }
  }

  lemma OtherWord(t: string, p: nat, w: string)
    requires p < |t| && w != "" && t[p] != w[0]
    ensures !StartsWith(t, p, w)
  {
  }

  lemma ParseWord(t: string, p: nat, j: Json, w: string, open: nat)
    requires (j == Null && w == "null") || (j == True && w == "true") || (j == False && w == "false")
    requires Reads(t, p, w)
    ensures ParseValue(t, p, open) == Some((j, p + |w|))
  {
    ReadsHead(t, p, w);
    LiteralWord(t, p, w);
    if w != "null" { OtherWord(t, p, "null"); }
    if w != "false" { OtherWord(t, p, "false"); }
  }

  /** Containers open around a value: never more than the limit. */
  predicate Opened(open: nat) { open <= NESTING_LIMIT }

  /** A result that needs `deep` nested containers. */
  function Within<T>(deep: nat, r: (T, nat)): Parsed<T> {
    if deep <= NESTING_LIMIT then Some(r) else None
  }

  /** The parser reads a printed item back, or refuses it, if its containers nest too deep. */
  lemma {:induction false} ParsePrinted(t: string, p: nat, j: Json, depth: nat, format: bool, open: nat)
    requires Printable(j) && Opened(open)
    requires Reads(t, p, Print(j, depth, format)) && Stops(t, p + |Print(j, depth, format)|)
    ensures ParseValue(t, p, open) == Within(open + Nesting(j), (j, p + |Print(j, depth, format)|))
    decreases j, 2
  {
    hide Reads, ParseValue, ParseString, ParseArray, ParseObject;
    match j
    case Null => ParseWord(t, p, j, "null", open);
    case True => ParseWord(t, p, j, "true", open);
    case False => ParseWord(t, p, j, "false", open);
    case Number(n) => ParsePrintedNumber(t, p, n, open);
    case String(s) =>
      ReadsHead(t, p, Quote(s));
      ParseQuoted(t, p, s);
      Dispatch(t, p, open);
    case Array(items) =>
      ParsePrintedArray(t, p, items, depth, format, open);
      Dispatch(t, p, open);
    case Object(ms) =>
      ParsePrintedObject(t, p, ms, depth, format, open);
      Dispatch(t, p, open);
  }

  lemma {:induction false} ParsePrintedArray(t: string, p: nat, items: seq<Json>, depth: nat, format: bool, open: nat)
    requires Printable(Array(items)) && Opened(open)
    requires Reads(t, p, Print(Array(items), depth, format))
    ensures t[p] == '['
    ensures ParseArray(t, p, open) == Within(open + Nesting(Array(items)), (items, p + |Print(Array(items), depth, format)|))
    decreases items, 1
  {
    hide Reads, PrintItems, SkipWs, ParseItems;
    var body := PrintItems(items, depth + 1, format);
    assert Print(Array(items), depth, format) == "[" + (body + "]");
    ReadsConcat(t, p, "[", body + "]");
    ReadsConcat(t, p + 1, body, "]");
    ReadsHead(t, p, "[");
    ReadsHead(t, p + 1 + |body|, "]");
    if open == NESTING_LIMIT {
    } else if items == [] {
      assert body == "" by { EmptyItems(depth + 1, format); }
      NoBlank(t, p + 1);
    } else {
      ItemsHead(items, depth + 1, format);
      ReadsHead(t, p + 1, body);
      NoBlank(t, p + 1);
      ParsePrintedItems(t, p + 1, items, depth + 1, format, open + 1);
    }
  }

  /** Leading whitespace before an element does not matter. */
  lemma ItemsAfterBlank(t: string, p: nat, q: nat, open: nat)
    requires p <= q < |t| && SkipWs(t, p) == q == SkipWs(t, q)
    ensures ParseItems(t, p, open) == ParseItems(t, q, open)
  {
  }

  /** The parser's turn over the last element and the closing bracket. */
  lemma ItemsLast(t: string, p: nat, x: Json, q: nat, open: nat, deep: nat)
    requires p <= q < |t| && SkipWs(t, p) == p && SkipWs(t, q) == q && t[q] == ']'
    requires ParseValue(t, p, open) == Within(deep, (x, q))
    ensures ParseItems(t, p, open) == Within(deep, ([x], q + 1))
  {
    hide ParseValue, SkipWs;
  }

  /** The parser's turn over an element and a comma. */
  lemma ItemsMore(t: string, p: nat, x: Json, q: nat, open: nat, a: nat, xs: seq<Json>, b: nat, e: nat)
    requires p <= q < |t| && SkipWs(t, p) == p && SkipWs(t, q) == q && t[q] == ','
    requires ParseValue(t, p, open) == Within(open + a, (x, q))
    requires ParseItems(t, q + 1, open) == Within(open + b, (xs, e))
    ensures ParseItems(t, p, open) == Within(open + Max(a, b), ([x] + xs, e))
  {
    hide ParseValue, SkipWs;
  }

  lemma {:induction false} ParsePrintedItems(t: string, p: nat, items: seq<Json>, depth: nat, format: bool, open: nat)
    requires items != [] && Printable(Array(items)) && Opened(open)
    requires Reads(t, p, PrintItems(items, depth, format))
    requires p + |PrintItems(items, depth, format)| < |t| && t[p+|PrintItems(items, depth, format)|] == ']'
    ensures ParseItems(t, p, open) ==
      Within(open + NestingOfItems(items), (items, p + |PrintItems(items, depth, format)| + 1))
    decreases items, 0
  {
    hide Reads, Print, If, SkipWs, ParseValue, ParseItems, Within, Nesting;
    var x := Print(items[0], depth, format);
    FirstChar(items[0], depth, format);
    var q := p + |x|;
    if |items| == 1 {
      assert PrintItems(items, depth, format) == x;
      ReadsHead(t, p, x);
      ParsePrinted(t, p, items[0], depth, format, open);
      NoBlank(t, p);
      NoBlank(t, q);
      ItemsLast(t, p, items[0], q, open, open + Nesting(items[0]));
      assert items == [items[0]];
    } else {
      var gap, rest := "," + If(format, " "), PrintItems(items[1..], depth, format);
      assert PrintItems(items, depth, format) == x + (gap + rest);
      hide PrintItems;
      ReadsConcat(t, p, x, gap + rest);
      ReadsConcat(t, q, gap, rest);
      ReadsHead(t, p, x);
      ItemGap(t, q, items[1..], depth, format);
      ParsePrinted(t, p, items[0], depth, format, open);
      NoBlank(t, p);
      NoBlank(t, q);
      ParsePrintedItems(t, q + |gap|, items[1..], depth, format, open);
      ItemsAfterBlank(t, q + 1, q + |gap|, open);
      ItemsMore(t, p, items[0], q, open, Nesting(items[0]), items[1..], NestingOfItems(items[1..]), q + |gap| + |rest| + 1);
      assert items == [items[0]] + items[1..];
    }
  }

  lemma ItemsHead(items: seq<Json>, depth: nat, format: bool)
    requires items != [] && Printable(Array(items))
    ensures var x := PrintItems(items, depth, format); x != "" && x[0] > ' ' && x[0] != ']'
  {
    FirstChar(items[0], depth, format);
  }

  /** The comma and the space between two elements. */
  lemma ItemGap(t: string, p: nat, items: seq<Json>, depth: nat, format: bool)
    requires items != [] && Printable(Array(items))
    requires Reads(t, p, "," + If(format, " ")) && Reads(t, p + |"," + If(format, " ")|, PrintItems(items, depth, format))
    ensures var next := p + |"," + If(format, " ")|;
      p + 1 <= next < |t| && t[p] == ',' && SkipWs(t, p + 1) == next == SkipWs(t, next)
  {
    hide Reads, PrintItems, SkipWs;
    var gap, rest := "," + If(format, " "), PrintItems(items, depth, format);
    ItemsHead(items, depth, format);
    ReadsHead(t, p, gap);
    ReadsHead(t, p + |gap|, rest);
    ReadsConcat(t, p, ",", If(format, " "));
    SkipBlank(t, p + 1, If(format, " "));
    NoBlank(t, p + |gap|);
  }

  // ----- objects

  lemma {:induction false} ParsePrintedMember(t: string, o: nat, p: nat, m: Member, depth: nat, format: bool, open: nat)
    requires NulFree(m.key) && Printable(m.value) && Opened(open)
    requires Reads(t, p, PrintMember(m, depth, format)) && Stops(t, p + |PrintMember(m, depth, format)|)
    requires o < |t| && SkipWs(t, o) == p
    ensures ParseMember(t, o, open) == Within(open + Nesting(m.value), (m, p + |PrintMember(m, depth, format)|))
    decreases m, 3
  {
    hide Reads, Quote, Print, SkipWs, ParseValue, ParseString;
    var k, x, sp := Quote(m.key), Print(m.value, depth, format), If(format, "\t");
    assert PrintMember(m, depth, format) == k + (":" + (sp + x));
    ReadsConcat(t, p, k, ":" + (sp + x));
    ReadsConcat(t, p + |k|, ":", sp + x);
    ReadsConcat(t, p + |k| + 1, sp, x);
    ParseQuoted(t, p, m.key);
    ReadsHead(t, p + |k|, ":");
    NoBlank(t, p + |k|);
    FirstChar(m.value, depth, format);
    ReadsHead(t, p + |k| + 1 + |sp|, x);
    SkipBlank(t, p + |k| + 1, sp);
    ParsePrinted(t, p + |k| + 1 + |sp|, m.value, depth, format, open);
  }

  lemma MemberFirst(m: Member, depth: nat, format: bool)
    ensures var x := PrintMember(m, depth, format); x != "" && x[0] == '"'
  {
  }

  lemma IfBlank(format: bool, depth: nat)
    ensures Blank(If(format, Tabs(depth))) && Blank(If(format, "\n"))
    ensures If(true, ",") == "," && If(false, ",") == ""
  {
  }

  /** The parser's turn over the last member and the closing brace. */
  lemma MembersLast(t: string, o: nat, m: Member, q: nat, open: nat, deep: nat)
    requires o <= q < |t| && SkipWs(t, q) < |t| && t[SkipWs(t, q)] == '}'
    requires ParseMember(t, o, open) == Within(deep, (m, q))
    ensures ParseMembers(t, o, open) == Within(deep, ([m], SkipWs(t, q) + 1))
  {
    hide ParseMember, SkipWs;
  }

  /** The parser's turn over a member and a comma. */
  lemma MembersMore(t: string, o: nat, m: Member, q: nat, open: nat, a: nat, ms: seq<Member>, b: nat, e: nat)
    requires o <= q < |t| && SkipWs(t, q) == q && t[q] == ','
    requires ParseMember(t, o, open) == Within(open + a, (m, q))
    requires ParseMembers(t, q + 1, open) == Within(open + b, (ms, e))
    ensures ParseMembers(t, o, open) == Within(open + Max(a, b), ([m] + ms, e))
  {
    hide ParseMember, SkipWs;
  }

  /** The text of members up to the closing brace, in the parts in which the parser meets them. */
  lemma MembersText(ms: seq<Member>, depth: nat, format: bool, w: string)
    requires ms != []
    ensures var tabs, x := If(format, Tabs(depth)), PrintMember(ms[0], depth, format);
      var end, rest := If(|ms| > 1, ",") + If(format, "\n"), PrintMembers(ms[1..], depth, format);
      && PrintMembers(ms, depth, format) + (w + "}") == tabs + (x + (end + (rest + (w + "}"))))
      && |PrintMembers(ms, depth, format)| == |tabs| + |x| + |end| + |rest|
  {
    hide If, PrintMember;
  }

  /** Where the first member and what follows it stand. */
  lemma FirstMember(t: string, p: nat, tabs: string, x: string, end: string, rest: string, m: Member, depth: nat, format: bool)
    requires tabs == If(format, Tabs(depth)) && x == PrintMember(m, depth, format)
    requires Reads(t, p, tabs + (x + (end + rest)))
    ensures var q := p + |tabs| + |x|;
      && p + |tabs| < |t| && SkipWs(t, p) == p + |tabs|
      && Reads(t, p + |tabs|, x) && Reads(t, q, end) && Reads(t, q + |end|, rest)
  {
    hide Reads, PrintMember, SkipWs, If;
    ReadsConcat(t, p, tabs, x + (end + rest));
    ReadsConcat(t, p + |tabs|, x, end + rest);
    ReadsConcat(t, p + |tabs| + |x|, end, rest);
    MemberFirst(m, depth, format);
    ReadsHead(t, p + |tabs|, x);
    IfBlank(format, depth);
    SkipBlank(t, p, tabs);
  }

  /** A member, the comma or blank behind it, and what follows. */
  lemma {:induction false} ParsePrintedMembers(t: string, o: nat, p: nat, ms: seq<Member>, depth: nat, format: bool, open: nat, w: string)
    requires ms != [] && Printable(Object(ms)) && Opened(open) && Blank(w)
    requires Reads(t, p, PrintMembers(ms, depth, format) + (w + "}"))
    requires o < |t| && p < |t| && SkipWs(t, o) == SkipWs(t, p)
    ensures ParseMembers(t, o, open) ==
      Within(open + NestingOfMembers(ms), (ms, p + |PrintMembers(ms, depth, format)| + |w| + 1))
    decreases ms, 4
  {
    hide Reads, PrintMember, SkipWs, ParseMember, If, ParseMembers, PrintMembers, Within, Nesting;
    var tabs, x := If(format, Tabs(depth)), PrintMember(ms[0], depth, format);
    var end := If(|ms| > 1, ",") + If(format, "\n");
    var rest := PrintMembers(ms[1..], depth, format);
    MembersText(ms, depth, format, w);
    FirstMember(t, p, tabs, x, end, rest + (w + "}"), ms[0], depth, format);
    var q := p + |tabs| + |x|;
    IfBlank(format, depth);
    if |ms| == 1 {
      EmptyMembers(depth, format);
      assert ms[1..] == [];
      assert end == If(format, "\n");
      LastMember(t, q, end, w);
      ParsePrintedMember(t, o, p + |tabs|, ms[0], depth, format, open);
      MembersLast(t, o, ms[0], q, open, open + Nesting(ms[0].value));
      assert ms == [ms[0]];
    } else {
      assert end == "," + If(format, "\n");
      CommaNext(t, q, If(format, "\n"));
      ParsePrintedMember(t, o, p + |tabs|, ms[0], depth, format, open);
      MemberGap(t, q + 1, If(format, "\n"), ms[1..], depth, format, w);
      ParsePrintedMembers(t, q + 1, q + |end|, ms[1..], depth, format, open, w);
      MembersMore(t, o, ms[0], q, open, Nesting(ms[0].value), ms[1..], NestingOfMembers(ms[1..]),
                  q + |end| + |rest| + |w| + 1);
      assert ms == [ms[0]] + ms[1..];
    }
  }

  lemma CommaNext(t: string, q: nat, nl: string)
    requires Reads(t, q, "," + nl)
    ensures q < |t| && t[q] == ',' && Stops(t, q) && SkipWs(t, q) == q && Reads(t, q + 1, nl)
  {
    hide Reads, SkipWs;
    ReadsConcat(t, q, ",", nl);
    ReadsHead(t, q, ",");
    NoBlank(t, q);
  }

  lemma LastMember(t: string, q: nat, nl: string, w: string)
    requires Blank(nl) && Blank(w) && Reads(t, q, nl) && Reads(t, q + |nl|, "" + (w + "}"))
    ensures q + |nl| + |w| < |t| && t[q+|nl|+|w|] == '}' && SkipWs(t, q) == q + |nl| + |w| && Stops(t, q)
  {
    hide Reads, SkipWs;
    assert "" + (w + "}") == w + "}";
    ReadsConcat(t, q + |nl|, w, "}");
    ReadsHead(t, q + |nl| + |w|, "}");
    ReadsConcat(t, q, nl, w);
    SkipBlank(t, q, nl + w);
    ReadsHead(t, q, nl + w);
  }

  /** From behind a comma to the quote of the next member. */
  lemma MemberGap(t: string, p: nat, nl: string, ms: seq<Member>, depth: nat, format: bool, w: string)
    requires ms != [] && Blank(nl) && Reads(t, p, nl) && Reads(t, p + |nl|, PrintMembers(ms, depth, format) + (w + "}"))
    ensures p < |t| && p + |nl| < |t| && SkipWs(t, p) == SkipWs(t, p + |nl|)
    ensures var q := SkipWs(t, p); p <= q < |t| && t[q] == '"' && SkipWs(t, q) == q
  {
    hide Reads, PrintMember, SkipWs, If;
    var tabs, x := If(format, Tabs(depth)), PrintMember(ms[0], depth, format);
    var others := If(|ms| > 1, ",") + If(format, "\n") + PrintMembers(ms[1..], depth, format);
    var q := p + |nl|;
    assert PrintMembers(ms, depth, format) + (w + "}") == tabs + (x + (others + (w + "}")));
    ReadsConcat(t, q, tabs, x + (others + (w + "}")));
    ReadsConcat(t, q + |tabs|, x, others + (w + "}"));
    MemberFirst(ms[0], depth, format);
    ReadsHead(t, q + |tabs|, x);
    IfBlank(format, depth);
    SkipBlank(t, q, tabs);
    ReadsConcat(t, p, nl, tabs);
    SkipBlank(t, p, nl + tabs);
    NoBlank(t, q + |tabs|);
  }

  lemma {:induction false} ParsePrintedObject(t: string, p: nat, ms: seq<Member>, depth: nat, format: bool, open: nat)
    requires Printable(Object(ms)) && Opened(open)
    requires Reads(t, p, Print(Object(ms), depth, format))
    ensures t[p] == '{'
    ensures ParseObject(t, p, open) == Within(open + Nesting(Object(ms)), (ms, p + |Print(Object(ms), depth, format)|))
    decreases ms, 5
  {
    hide Reads, PrintMembers, SkipWs, ParseMembers, If;
    var nl, body, w := If(format, "\n"), PrintMembers(ms, depth + 1, format), If(format, Tabs(depth));
    IfBlank(format, depth);
    assert Print(Object(ms), depth, format) == "{" + (nl + (body + (w + "}")));
    ReadsConcat(t, p, "{", nl + (body + (w + "}")));
    ReadsConcat(t, p + 1, nl, body + (w + "}"));
    ReadsHead(t, p, "{");
    if open == NESTING_LIMIT {
    } else if ms == [] {
      assert body == "" by { EmptyMembers(depth + 1, format); }
      LastMember(t, p + 1, nl, w);
    } else {
      MemberGap(t, p + 1, nl, ms, depth + 1, format, w);
      ParsePrintedMembers(t, SkipWs(t, p + 1), p + 1 + |nl|, ms, depth + 1, format, open + 1, w);
    }
  }

  /** `cJSON_Parse` of the text of `cJSON_Print` or `cJSON_PrintUnformatted` gives the item back,
      exactly when its containers nest within the limit. */
  lemma PrintThenParse(j: Json, format: bool, requireTerminated: bool)
    requires Printable(j)
    ensures Parse(Print(j, 0, format), requireTerminated) == if Nesting(j) <= NESTING_LIMIT then Some(j) else None
  {
    hide Print, ParseValue, SkipWs, SkipBom, Reads, Printable, Nesting;
    var x := Print(j, 0, format);
    var t := x + ['\0'];
    FirstChar(j, 0, format);
    ReadsAll(x, "\0");
    ParsePrinted(t, 0, j, 0, format, 0);
    NoBlank(t, 0);
    AtTerminator(x);
    NoBom(j, format);
    BomDiffers(t);
  }

  lemma ReadsAll(x: string, y: string)
    ensures Reads(x + y, 0, x)
  {
  }

  /** Skipping steps back onto the terminating NUL. */
  lemma AtTerminator(x: string)
    ensures SkipWs(x + ['\0'], |x|) == |x|
  {
  }

  lemma BomDiffers(t: string)
    requires t != "" && t[0] != BOM[0]
    ensures SkipBom(t) == 0
  {
  }

  lemma NoBom(j: Json, format: bool)
    requires Printable(j)
    ensures Print(j, 0, format)[0] != BOM[0]
  {
    if j.Number? { PrintIntShape(j.valueint); }
  }

  // ----- what the parser returns can be printed

  /** Printable, and with its containers within the limit behind `open` open ones. */
  predicate Prints(j: Json, open: nat) {
    Printable(j) && open + Nesting(j) <= NESTING_LIMIT
  }

  predicate ItemsPrint(items: seq<Json>, open: nat) {
    (forall i | 0 <= i < |items| :: Printable(items[i])) && open + NestingOfItems(items) <= NESTING_LIMIT
  }

  predicate MembersPrint(ms: seq<Member>, open: nat) {
    && (forall i | 0 <= i < |ms| :: NulFree(ms[i].key) && Printable(ms[i].value))
    && open + NestingOfMembers(ms) <= NESTING_LIMIT
  }

  lemma {:induction false} UntilNulFree(s: string)
    ensures NulFree(UntilNul(s))
  {
    if s != "" { UntilNulFree(s[1..]); }
  }

  lemma ParsedString(s: string, o: nat)
    requires o <= |s|
    ensures ParseString(s, o).Some? ==> NulFree(ParseString(s, o).value.0)
  {
    hide Unescape, ScanEnd, UntilNul;
    if o < |s| {
      var e := ScanEnd(s, o + 1);
      if e.Some? {
        var u := Unescape(s, o + 1, e.value);
        if u.Some? { UntilNulFree(u.value.0); }
      }
    }
  }

  lemma {:induction false} ParsedValue(s: string, o: nat, open: nat)
    requires o <= |s| && Opened(open)
    ensures ParseValue(s, o, open).Some? ==> Prints(ParseValue(s, o, open).value.0, open)
    decreases |s| - o, 2
  {
    hide ParseString, ParseArray, ParseObject, ParseNumber, StartsWith;
    if o < |s| {
      ParsedString(s, o);
      ParsedNumber(s, o);
      if s[o] == '[' { ParsedArray(s, o, open); }
      if s[o] == '{' { ParsedObject(s, o, open); }
    }
  }

  lemma ParsedNumber(s: string, o: nat)
    requires o <= |s|
    ensures ParseNumber(s, o).Some? ==> ParseNumber(s, o).value.0.Number? && Printable(ParseNumber(s, o).value.0)
  {
  }

  lemma {:induction false} ParsedArray(s: string, o: nat, open: nat)
    requires o < |s| && s[o] == '[' && Opened(open)
    ensures ParseArray(s, o, open).Some? ==> Prints(Array(ParseArray(s, o, open).value.0), open)
    decreases |s| - o, 1
  {
    hide ParseItems, SkipWs;
    if open < NESTING_LIMIT {
      ParsedItems(s, SkipWs(s, o + 1), open + 1);
    }
  }

  lemma {:induction false} ParsedItems(s: string, o: nat, open: nat)
    requires o <= |s| && Opened(open)
    ensures ParseItems(s, o, open).Some? ==> ItemsPrint(ParseItems(s, o, open).value.0, open)
    decreases |s| - o, 3
  {
    hide ParseValue, SkipWs;
    var v := ParseValue(s, SkipWs(s, o), open);
    ParsedValue(s, SkipWs(s, o), open);
    if v.Some? {
      var after := SkipWs(s, v.value.1);
      var x := v.value.0;
      assert ItemsPrint([x], open) by { assert NestingOfItems([x]) == Max(Nesting(x), NestingOfItems([])); }
      if after < |s| && s[after] == ',' {
        ParsedItems(s, after + 1, open);
        var rest := ParseItems(s, after + 1, open);
        if rest.Some? { ItemsPrintMore(x, rest.value.0, open); }
      }
    }
  }

  lemma ItemsPrintMore(x: Json, xs: seq<Json>, open: nat)
    requires Prints(x, open) && ItemsPrint(xs, open)
    ensures ItemsPrint([x] + xs, open)
  {
    assert ([x] + xs)[1..] == xs;
  }

  lemma {:induction false} ParsedObject(s: string, o: nat, open: nat)
    requires o < |s| && s[o] == '{' && Opened(open)
    ensures ParseObject(s, o, open).Some? ==> Prints(Object(ParseObject(s, o, open).value.0), open)
    decreases |s| - o, 1
  {
    hide ParseMembers, SkipWs;
    if open < NESTING_LIMIT {
      ParsedMembers(s, SkipWs(s, o + 1), open + 1);
    }
  }

  lemma {:induction false} ParsedMember(s: string, o: nat, open: nat)
    requires o <= |s| && Opened(open)
    ensures var r := ParseMember(s, o, open); r.Some? ==> NulFree(r.value.0.key) && Prints(r.value.0.value, open)
    decreases |s| - o, 3
  {
    hide ParseValue, ParseString, SkipWs;
    if o < |s| {
      ParsedString(s, SkipWs(s, o));
      var k := ParseString(s, SkipWs(s, o));
      if k.Some? {
        var colon := SkipWs(s, k.value.1);
        if colon < |s| { ParsedValue(s, SkipWs(s, colon + 1), open); }
      }
    }
  }

  lemma {:induction false} ParsedMembers(s: string, o: nat, open: nat)
    requires o <= |s| && Opened(open)
    ensures ParseMembers(s, o, open).Some? ==> MembersPrint(ParseMembers(s, o, open).value.0, open)
    decreases |s| - o, 4
  {
    hide ParseMember, SkipWs;
    var v := ParseMember(s, o, open);
    ParsedMember(s, o, open);
    if v.Some? {
      var after := SkipWs(s, v.value.1);
      var m := v.value.0;
      assert MembersPrint([m], open) by { assert NestingOfMembers([m]) == Max(Nesting(m.value), NestingOfMembers([])); }
      if after < |s| && s[after] == ',' {
        ParsedMembers(s, after + 1, open);
        var rest := ParseMembers(s, after + 1, open);
        if rest.Some? { MembersPrintMore(m, rest.value.0, open); }
      }
    }
  }

  lemma MembersPrintMore(m: Member, ms: seq<Member>, open: nat)
    requires NulFree(m.key) && Prints(m.value, open) && MembersPrint(ms, open)
    ensures MembersPrint([m] + ms, open)
  {
    assert ([m] + ms)[1..] == ms;
  }

  /** A text whose numbers are all ints: the item holds these numbers as they are written, and printing and parsing it
      again gives the item. */
  lemma ParseThenPrint(text: string, requireTerminated: bool, format: bool, again: bool)
    requires OnlyInts(text + ['\0'])
    ensures var j := Parse(text, requireTerminated);
      j.Some? ==>
        && AsWritten(j.value, Tokens(text + ['\0'], 0))
        && Printable(j.value) && Parse(Print(j.value, 0, format), again) == j
  {
    var t := text + ['\0'];
    ParsedValue(t, SkipWs(t, SkipBom(t)), 0);
    NumbersAsWritten(text, requireTerminated);
    var j := Parse(text, requireTerminated);
    hide ParseValue, Print, SkipWs, OnlyInts, AsWritten, Tokens;
    if j.Some? { PrintThenParse(j.value, format, again); }
  }
}
