/** The numbers that a text writes, found without parsing it, and those of the item that the parser returns. */
module NumberTokens {
  import opened CString
  import opened JsonTree
  import opened StringLiteral
  import opened Printer
  import opened Parser

  // ----- the numbers of a text

  /** The characters from `o` on that `parse_number` looks at. */
  function TokenAt(s: string, o: nat): string
    requires o <= |s|
  {
    s[o..NumberEnd(s, o)]
  }

  /** All numbers outside of string literals, in order. */
  function Tokens(s: string, o: nat): (r: seq<string>)
    requires o <= |s|
    ensures forall c | c in r :: ReadNumber(c).Some?
    decreases |s| - o
  {
    if o == |s| then []
    else if s[o] == '"' then
      (match ScanEnd(s, o + 1)
       case None => []
       case Some(e) => Tokens(s, e + 1))
    else if s[o] == '-' || IsDigit(s[o]) then
      (match ReadNumber(TokenAt(s, o))
       case None => Tokens(s, o + 1)
       case Some(d) =>
         NumberAdvances(s, o);
         [TokenAt(s, o)] + Tokens(s, o + d.length))
    else Tokens(s, o + 1)
  }

  /** The token writes the integer `n`. */
  predicate Writes(c: string, n: int)
    requires ReadNumber(c).Some?
  {
    var d := ReadNumber(c).value;
    var k := if d.negative then 0 - n else n;
    if d.x >= 0 then d.m * Pow10(d.x) == k else d.m == k * Pow10(-d.x)
  }

  /** The token writes an integer in the range of `int`. */
  ghost predicate WritesInt(c: string)
    requires ReadNumber(c).Some?
  {
    exists n :: INT_MIN <= n <= INT_MAX && Writes(c, n)
  }

  /** All numbers of the text are ints. */
  ghost predicate OnlyInts(s: string) {
    forall c | c in Tokens(s, 0) :: WritesInt(c)
  }

  // ----- an int is read as it is written

  lemma TimesOrdered(a: int, b: int, p: nat)
    requires a <= b
    ensures a * p <= b * p
  {
  }

  lemma FloorQuotient(m: nat, p: nat, t: nat)
    requires p > 0 && t * p <= m < (t + 1) * p
    ensures m / p == t
  {
    var q := m / p;
    assert m == q * p + m % p && (q + 1) * p == q * p + p;
    if q < t {
      TimesOrdered(q + 1, t, p);
    } else if t < q {
      TimesOrdered(t + 1, q, p);
    }
  }

  /** The integer part of `m * 10^x`. */
  predicate IntegerPart(m: nat, x: int, t: nat) {
    if x >= 0 then t == m * Pow10(x) else t * Pow10(-x) <= m < (t + 1) * Pow10(-x)
  }

  lemma ScaleIs(m: nat, x: int, t: nat)
    requires IntegerPart(m, x, t)
    ensures Scale(m, x) == t
  {
    hide Pow10;
    if x < 0 { FloorQuotient(m, Pow10(-x), t); }
  }

  /** Every number is truncated towards zero, and then cut to the range of a 32-bit int. */
  lemma NumberTruncated(c: string, t: nat)
    requires ReadNumber(c).Some? && IntegerPart(ReadNumber(c).value.m, ReadNumber(c).value.x, t)
    ensures var n := if ReadNumber(c).value.negative then 0 - t else t;
      Strtod(c).Some? && Strtod(c).value.0 == if n > 2147483647 then 2147483647 else if n < -2147483648 then -2147483648 else n
  {
    hide ReadNumber, Pow10, Scale, IntegerPart;
    ScaleIs(ReadNumber(c).value.m, ReadNumber(c).value.x, t);
  }

  lemma {:induction false} DigitsUpTo(c: string, i: nat, j: nat)
    requires i <= j <= |c| && AllDigits(c[i..j]) && (j < |c| ==> !IsDigit(c[j]))
    ensures DigitsEnd(c, i) == j
    decreases j - i
  {
    if i < j {
      assert c[i] == c[i..j][0] && c[i+1..j] == c[i..j][1..];
      DigitsUpTo(c, i + 1, j);
    }
  }

  /** A decimal number: a sign or none, digits, a point with further digits or none. */
  predicate Decimals(sign: string, whole: string, point: bool, fraction: string) {
    && (sign == "" || sign == "-" || sign == "+")
    && AllDigits(whole) && AllDigits(fraction) && whole + fraction != "" && (!point ==> fraction == "")
  }

  function DecimalsText(sign: string, whole: string, point: bool, fraction: string): string {
    sign + whole + (if point then "." + fraction else "")
  }

  /** What a decimal number without an exponent, or in front of one, is read as. */
  lemma DecimalsRead(sign: string, whole: string, point: bool, fraction: string, rest: string)
    requires Decimals(sign, whole, point, fraction) && (rest != "" ==> rest[0] == 'e' || rest[0] == 'E')
    ensures AllDigits(whole + fraction)
    ensures var t := DecimalsText(sign, whole, point, fraction);
      var (end, x) := Exponent(t + rest, |t|);
      ReadNumber(t + rest) == Some(Scientific(sign == "-", DigitsValue(whole + fraction), x - |fraction|, end))
  {
    hide DecimalsText, Decimals, LaidOut, ReadNumber, Exponent, DigitsValue, AllDigits;
    var t := DecimalsText(sign, whole, point, fraction);
    DecimalsLayout(sign, whole, point, fraction, rest);
    ReadLayout(t + rest, sign, whole, point, fraction, |t|);
  }

  /** A decimal number at the start of `c`, up to `k`. */
  ghost predicate LaidOut(c: string, sign: string, whole: string, point: bool, fraction: string, k: nat) {
    var i, j := |sign|, |sign| + |whole|;
    && i <= j <= k <= |c| && (i == 1 <==> c != "" && (c[0] == '-' || c[0] == '+')) && (sign == "-" <==> i == 1 && c[0] == '-') && i <= 1
    && AllDigits(whole + fraction) && whole + fraction != "" && c[i..j] == whole && DigitsEnd(c, i) == j
    && (if point then j < |c| && c[j] == '.' && DigitsEnd(c, j + 1) == k && c[j+1..k] == fraction
        else k == j && (j < |c| ==> c[j] != '.') && fraction == "")
  }

  lemma ReadLayout(c: string, sign: string, whole: string, point: bool, fraction: string, k: nat)
    requires LaidOut(c, sign, whole, point, fraction, k)
    ensures k <= |c| && AllDigits(whole + fraction)
    ensures var (end, x) := Exponent(c, k);
      ReadNumber(c) == Some(Scientific(sign == "-", DigitsValue(whole + fraction), x - |fraction|, end))
  {
    hide Exponent, DigitsValue, DigitsEnd, AllDigits;
  }

  lemma DecimalsLayout(sign: string, whole: string, point: bool, fraction: string, rest: string)
    requires Decimals(sign, whole, point, fraction) && (rest != "" ==> rest[0] == 'e' || rest[0] == 'E')
    ensures AllDigits(whole + fraction)
    ensures var t := DecimalsText(sign, whole, point, fraction); LaidOut(t + rest, sign, whole, point, fraction, |t|)
  {
    var t := DecimalsText(sign, whole, point, fraction);
    var c, i, j := t + rest, |sign|, |sign| + |whole|;
    assert c[i..j] == whole;
    assert sign != "" ==> c[0] == sign[0];
    assert sign == "" && whole != "" ==> c[0] == whole[0] && IsDigit(whole[0]);
    assert point ==> c[j] == '.' && c[j+1..|t|] == fraction;
    assert |t| < |c| ==> c[|t|] == rest[0];
    DigitsUpTo(c, i, j);
    if point { DigitsUpTo(c, j + 1, |t|); }
  }

  /** Section 6 of RFC 8259: the number that a decimal text denotes, with or without an exponent. */
  lemma NumberDenotes(sign: string, whole: string, point: bool, fraction: string)
    requires Decimals(sign, whole, point, fraction)
    ensures AllDigits(whole + fraction)
    ensures var t := DecimalsText(sign, whole, point, fraction);
      ReadNumber(t) == Some(Scientific(sign == "-", DigitsValue(whole + fraction), -|fraction|, |t|))
  {
    hide DecimalsText, Decimals, ReadNumber, Exponent, DigitsValue, AllDigits;
    var t := DecimalsText(sign, whole, point, fraction);
    assert t + "" == t;
    DecimalsRead(sign, whole, point, fraction, "");
    NoExponent(t);
  }

  lemma NoExponent(c: string)
    ensures Exponent(c, |c|) == (|c|, 0)
  {
  }

  lemma ScientificDenotes(sign: string, whole: string, point: bool, fraction: string, e: char, expSign: string, exp: string)
    requires Decimals(sign, whole, point, fraction) && (e == 'e' || e == 'E')
    requires (expSign == "" || expSign == "-" || expSign == "+") && AllDigits(exp) && exp != ""
    ensures AllDigits(whole + fraction)
    ensures var t := DecimalsText(sign, whole, point, fraction) + ([e] + expSign + exp);
      var x := if expSign == "-" then 0 - DigitsValue(exp) else DigitsValue(exp);
      ReadNumber(t) == Some(Scientific(sign == "-", DigitsValue(whole + fraction), x - |fraction|, |t|))
  {
    hide DecimalsText, Decimals, ReadNumber, DigitsValue, Exponent, AllDigits;
    DecimalsRead(sign, whole, point, fraction, [e] + expSign + exp);
    ExponentRead(DecimalsText(sign, whole, point, fraction), e, expSign, exp);
  }

  lemma ExponentRead(t: string, e: char, expSign: string, exp: string)
    requires (e == 'e' || e == 'E') && (expSign == "" || expSign == "-" || expSign == "+") && AllDigits(exp) && exp != ""
    ensures var c := t + ([e] + expSign + exp);
      Exponent(c, |t|) == (|c|, if expSign == "-" then 0 - DigitsValue(exp) else DigitsValue(exp))
  {
    var c := t + ([e] + expSign + exp);
    var from := |t| + 1 + |expSign|;
    assert c[from..|c|] == exp && c[|t|] == e;
    assert expSign != "" ==> c[|t|+1] == expSign[0];
    assert expSign == "" ==> c[|t|+1] == exp[0] && IsDigit(exp[0]);
    DigitsUpTo(c, from, |c|);
    hide DigitsValue, DigitsEnd, AllDigits;
    ExponentParts(c, |t|, from);
  }

  lemma ExponentParts(c: string, p: nat, from: nat)
    requires p + 1 <= from < |c| && (c[p] == 'e' || c[p] == 'E') && DigitsEnd(c, from) == |c|
    requires from == (if c[p+1] == '+' || c[p+1] == '-' then p + 2 else p + 1) && AllDigits(c[from..|c|])
    ensures Exponent(c, p) == (|c|, if c[p+1] == '-' then 0 - DigitsValue(c[from..|c|]) else DigitsValue(c[from..|c|]))
  {
    hide DigitsValue, DigitsEnd;
  }

  lemma ExactQuotient(m: nat, p: nat, k: int)
    requires p > 0 && m == k * p
    ensures m / p == k
  {
    if k < 0 { TimesOrdered(k, -1, p); }
    assert (k + 1) * p == k * p + p;
    FloorQuotient(m, p, k);
  }

  lemma IntRead(c: string, n: int)
    requires ReadNumber(c).Some? && Writes(c, n) && INT_MIN <= n <= INT_MAX
    ensures Strtod(c).value.0 == n
  {
    hide ReadNumber, Pow10;
    var d := ReadNumber(c).value;
    if d.x < 0 { ExactQuotient(d.m, Pow10(-d.x), if d.negative then 0 - n else n); }
  }

  // ----- the numbers of an item

  function Numbers(j: Json): seq<int> {
    match j
    case Number(n) => [n]
    case Array(items) => NumbersOfItems(items)
    case Object(ms) => NumbersOfMembers(ms)
    case _ => []
  }

  function NumbersOfItems(items: seq<Json>): seq<int> {
    if items == [] then [] else Numbers(items[0]) + NumbersOfItems(items[1..])
  }

  function NumbersOfMembers(ms: seq<Member>): seq<int> {
    if ms == [] then [] else Numbers(ms[0].value) + NumbersOfMembers(ms[1..])
  }

  /** What `strtod` reads of each token. */
  function Values(ts: seq<string>): (r: seq<int>)
    requires forall c | c in ts :: ReadNumber(c).Some?
    ensures |r| == |ts| && forall i | 0 <= i < |ts| :: r[i] == Strtod(ts[i]).value.0
  {
    seq(|ts|, i requires 0 <= i < |ts| => Strtod(ts[i]).value.0)
  }

  function ValuesFrom(s: string, o: nat): seq<int>
    requires o <= |s|
  {
    Values(Tokens(s, o))
  }

  /** Reading from `o` to `q` finds these numbers. */
  ghost predicate Finds(s: string, o: nat, ns: seq<int>, q: nat) {
    o <= q <= |s| && ValuesFrom(s, o) == ns + ValuesFrom(s, q)
  }

  lemma FindsThen(s: string, o: nat, a: seq<int>, p: nat, b: seq<int>, q: nat)
    requires Finds(s, o, a, p) && Finds(s, p, b, q)
    ensures Finds(s, o, a + b, q)
  {
    hide Values, Tokens;
  }

  predicate Plain(c: char) { c != '"' && c != '-' && !IsDigit(c) }

  lemma {:induction false} PlainFindsNothing(s: string, o: nat, q: nat)
    requires o <= q <= |s| && forall i | o <= i < q :: Plain(s[i])
    ensures Finds(s, o, [], q)
    decreases q - o
  {
    hide Values;
    if o < q { PlainFindsNothing(s, o + 1, q); }
  }

  lemma {:induction false} SpaceFindsNothing(s: string, o: nat)
    requires o <= |s|
    ensures Finds(s, o, [], SkipWs(s, o))
    decreases |s| - o
  {
    hide Values, Tokens;
    if o < |s| && s[o] <= ' ' && o + 1 < |s| {
      PlainFindsNothing(s, o, o + 1);
      SpaceFindsNothing(s, o + 1);
      FindsThen(s, o, [], o + 1, [], SkipWs(s, o + 1));
      var none: seq<int> := [];
      assert none + none == none;
    } else {
      PlainFindsNothing(s, o, o);
    }
  }

  lemma StringFindsNothing(s: string, o: nat)
    requires o <= |s|
    ensures ParseString(s, o).Some? ==> Finds(s, o, [], ParseString(s, o).value.1)
  {
    hide Values, Unescape, UntilNul;
  }

  lemma NumberFindsItself(s: string, o: nat)
    requires o < |s| && (s[o] == '-' || IsDigit(s[o]))
    ensures var r := ParseNumber(s, o); r.Some? ==> Finds(s, o, Numbers(r.value.0), r.value.1)
  {
    NumberParsed(s, o);
    TokensAtNumber(s, o);
    hide ReadNumber, Strtod, NumberEnd, Tokens, IsDigit, Finds, ParseNumber, TokenAt;
    var c := TokenAt(s, o);
    StrtodReads(c);
    if ReadNumber(c).Some? { TokenFound(s, o, c, o + ReadNumber(c).value.length); }
  }

  lemma NumberParsed(s: string, o: nat)
    requires o <= |s|
    ensures var r, c := ParseNumber(s, o), TokenAt(s, o);
      && (r.Some? <==> Strtod(c).Some?)
      && (r.Some? ==> r == Some((Number(Strtod(c).value.0), o + Strtod(c).value.1)))
  {
    hide Strtod, NumberEnd;
  }

  lemma TokenFound(s: string, o: nat, c: string, q: nat)
    requires o <= q <= |s| && ReadNumber(c).Some? && Tokens(s, o) == [c] + Tokens(s, q)
    ensures Strtod(c).Some? && Finds(s, o, [Strtod(c).value.0], q)
  {
    hide ReadNumber, Strtod, Tokens, Values;
    StrtodReads(c);
    ValuesCons(c, Tokens(s, q));
  }

  lemma TokensAtNumber(s: string, o: nat)
    requires o < |s| && (s[o] == '-' || IsDigit(s[o]))
    ensures var d := ReadNumber(TokenAt(s, o));
      d.Some? ==> o + d.value.length <= |s| && Tokens(s, o) == [TokenAt(s, o)] + Tokens(s, o + d.value.length)
  {
    NumberAdvances(s, o);
    hide ReadNumber, NumberEnd, ScanEnd;
  }

  lemma StrtodReads(c: string)
    ensures Strtod(c).Some? <==> ReadNumber(c).Some?
    ensures Strtod(c).Some? ==> Strtod(c).value.1 == ReadNumber(c).value.length
  {
    hide ReadNumber;
  }

  lemma ValuesCons(c: string, ts: seq<string>)
    requires ReadNumber(c).Some? && forall t | t in ts :: ReadNumber(t).Some?
    ensures Values([c] + ts) == [Strtod(c).value.0] + Values(ts)
  {
    hide ReadNumber, Strtod;
    StrtodReads(c);
  }

  // ----- the parser reads the numbers in order

  lemma {:induction false} ValueFinds(s: string, o: nat, depth: nat)
    requires o <= |s|
    ensures var r := ParseValue(s, o, depth); r.Some? ==> Finds(s, o, Numbers(r.value.0), r.value.1)
    decreases |s| - o, 2
  {
    hide ParseString, ParseNumber, ParseArray, ParseObject, Finds;
    if StartsWith(s, o, "null") {
      WordFindsNothing(s, o, "null");
    } else if StartsWith(s, o, "false") {
      WordFindsNothing(s, o, "false");
    } else if StartsWith(s, o, "true") {
      WordFindsNothing(s, o, "true");
    } else if o < |s| {
      StringFindsNothing(s, o);
      if s[o] == '-' || IsDigit(s[o]) { NumberFindsItself(s, o); }
      if s[o] == '[' { ArrayFinds(s, o, depth); }
      if s[o] == '{' { ObjectFinds(s, o, depth); }
    }
  }

  lemma WordFindsNothing(s: string, o: nat, w: string)
    requires o <= |s| && StartsWith(s, o, w) && forall i | 0 <= i < |w| :: Plain(w[i])
    ensures Finds(s, o, [], o + |w|)
  {
    forall i | o <= i < o + |w| ensures Plain(s[i]) { assert s[i] == s[o..o+|w|][i-o]; }
    PlainFindsNothing(s, o, o + |w|);
  }

  /** One plain character, then whitespace. */
  lemma MarkFindsNothing(s: string, o: nat)
    requires o < |s| && Plain(s[o])
    ensures Finds(s, o, [], SkipWs(s, o + 1)) && Finds(s, o, [], o + 1)
  {
    hide Finds, SkipWs;
    PlainFindsNothing(s, o, o + 1);
    SpaceFindsNothing(s, o + 1);
    FindsThen(s, o, [], o + 1, [], SkipWs(s, o + 1));
    var none: seq<int> := [];
    assert none + none == none;
  }

  /** Before and after a part there is only whitespace and a mark. */
  lemma FindsBetween(s: string, o: nat, a: nat, ns: seq<int>, b: nat, c: nat)
    requires Finds(s, o, [], a) && Finds(s, a, ns, b) && Finds(s, b, [], c)
    ensures Finds(s, o, ns, c)
  {
    FindsThen(s, o, [], a, ns, b);
    FindsThen(s, o, [] + ns, b, [], c);
    hide Finds;
    assert [] + ns == ns && ns + [] == ns;
  }

  lemma {:induction false} ArrayFinds(s: string, o: nat, depth: nat)
    requires o < |s| && s[o] == '['
    ensures var r := ParseArray(s, o, depth); r.Some? ==> Finds(s, o, NumbersOfItems(r.value.0), r.value.1)
    decreases |s| - o, 1
  {
    hide ParseItems, Finds, SkipWs;
    MarkFindsNothing(s, o);
    var first := SkipWs(s, o + 1);
    if first < |s| {
      if s[first] == ']' {
        MarkFindsNothing(s, first);
        FindsFrom(s, o, first, [], first + 1);
      } else {
        ItemsFind(s, first, depth + 1);
        var r := ParseItems(s, first, depth + 1);
        if r.Some? { FindsFrom(s, o, first, NumbersOfItems(r.value.0), r.value.1); }
      }
    }
  }

  lemma FindsFrom(s: string, o: nat, a: nat, ns: seq<int>, b: nat)
    requires Finds(s, o, [], a) && Finds(s, a, ns, b)
    ensures Finds(s, o, ns, b)
  {
    PlainFindsNothing(s, b, b);
    FindsBetween(s, o, a, ns, b, b);
  }

  lemma {:induction false} ItemsFind(s: string, o: nat, depth: nat)
    requires o <= |s|
    ensures var r := ParseItems(s, o, depth); r.Some? ==> Finds(s, o, NumbersOfItems(r.value.0), r.value.1)
    decreases |s| - o, 3
  {
    hide ParseValue, Finds, SkipWs, Numbers;
    var from := SkipWs(s, o);
    SpaceFindsNothing(s, o);
    ValueFinds(s, from, depth);
    var v := ParseValue(s, from, depth);
    if v.Some? {
      var after := SkipWs(s, v.value.1);
      SpaceFindsNothing(s, v.value.1);
      if after < |s| && (s[after] == ',' || s[after] == ']') {
        MarkFindsNothing(s, after);
        FindsBetween(s, o, from, Numbers(v.value.0), v.value.1, after);
        Ends(s, o, Numbers(v.value.0), after);
        ItemNumbers(v.value.0, []);
        if s[after] == ',' {
          ItemsFind(s, after + 1, depth);
          var rest := ParseItems(s, after + 1, depth);
          if rest.Some? {
            ItemNumbers(v.value.0, rest.value.0);
            FindsThen(s, o, Numbers(v.value.0), after + 1, NumbersOfItems(rest.value.0), rest.value.1);
          }
        }
      }
    }
  }

  lemma Ends(s: string, o: nat, ns: seq<int>, after: nat)
    requires Finds(s, o, ns, after) && after < |s| && Plain(s[after])
    ensures Finds(s, o, ns, after + 1)
  {
    hide Finds, SkipWs;
    MarkFindsNothing(s, after);
    FindsThen(s, o, ns, after, [], after + 1);
    assert ns + [] == ns;
  }

  lemma ItemNumbers(x: Json, rest: seq<Json>)
    ensures NumbersOfItems([x] + rest) == Numbers(x) + NumbersOfItems(rest)
    ensures NumbersOfItems([x]) == Numbers(x)
  {
    assert ([x] + rest)[1..] == rest && [x][1..] == [];
  }

  lemma {:induction false} ObjectFinds(s: string, o: nat, depth: nat)
    requires o < |s| && s[o] == '{'
    ensures var r := ParseObject(s, o, depth); r.Some? ==> Finds(s, o, NumbersOfMembers(r.value.0), r.value.1)
    decreases |s| - o, 1
  {
    hide ParseMembers, Finds, SkipWs;
    MarkFindsNothing(s, o);
    var first := SkipWs(s, o + 1);
    if first < |s| {
      if s[first] == '}' {
        MarkFindsNothing(s, first);
        FindsFrom(s, o, first, [], first + 1);
      } else {
        MembersFind(s, first, depth + 1);
        var r := ParseMembers(s, first, depth + 1);
        if r.Some? { FindsFrom(s, o, first, NumbersOfMembers(r.value.0), r.value.1); }
      }
    }
  }

  lemma {:induction false} MemberFinds(s: string, o: nat, depth: nat)
    requires o <= |s|
    ensures var r := ParseMember(s, o, depth); r.Some? ==> Finds(s, o, Numbers(r.value.0.value), r.value.1)
    decreases |s| - o, 3
  {
    hide ParseValue, ParseString, Finds, SkipWs, Numbers;
    if o < |s| {
      var from := SkipWs(s, o);
      SpaceFindsNothing(s, o);
      StringFindsNothing(s, from);
      var k := ParseString(s, from);
      if k.Some? {
        var colon := SkipWs(s, k.value.1);
        SpaceFindsNothing(s, k.value.1);
        FindsBetween(s, o, from, [], k.value.1, colon);
        if colon < |s| && s[colon] == ':' {
          MarkFindsNothing(s, colon);
          ValueFinds(s, SkipWs(s, colon + 1), depth);
          FindsFrom(s, o, colon, [], SkipWs(s, colon + 1));
          var v := ParseValue(s, SkipWs(s, colon + 1), depth);
          if v.Some? { FindsFrom(s, o, SkipWs(s, colon + 1), Numbers(v.value.0), v.value.1); }
        }
      }
    }
  }

  lemma {:induction false} MembersFind(s: string, o: nat, depth: nat)
    requires o <= |s|
    ensures var r := ParseMembers(s, o, depth); r.Some? ==> Finds(s, o, NumbersOfMembers(r.value.0), r.value.1)
    decreases |s| - o, 4
  {
    hide ParseMember, Finds, SkipWs, Numbers;
    MemberFinds(s, o, depth);
    var m := ParseMember(s, o, depth);
    if m.Some? {
      var after := SkipWs(s, m.value.1);
      SpaceFindsNothing(s, m.value.1);
      if after < |s| && (s[after] == ',' || s[after] == '}') {
        FindsThen(s, o, Numbers(m.value.0.value), m.value.1, [], after);
        assert Numbers(m.value.0.value) + [] == Numbers(m.value.0.value);
        Ends(s, o, Numbers(m.value.0.value), after);
        MemberNumbers(m.value.0, []);
        if s[after] == ',' {
          MembersFind(s, after + 1, depth);
          var rest := ParseMembers(s, after + 1, depth);
          if rest.Some? {
            MemberNumbers(m.value.0, rest.value.0);
            FindsThen(s, o, Numbers(m.value.0.value), after + 1, NumbersOfMembers(rest.value.0), rest.value.1);
          }
        }
      }
    }
  }

  lemma MemberNumbers(m: Member, rest: seq<Member>)
    ensures NumbersOfMembers([m] + rest) == Numbers(m.value) + NumbersOfMembers(rest)
    ensures NumbersOfMembers([m]) == Numbers(m.value)
  {
    assert ([m] + rest)[1..] == rest && [m][1..] == [];
  }

  /** The numbers of the item are those that the text writes, in order: none is cut. */
  ghost predicate AsWritten(j: Json, ts: seq<string>) {
    |Numbers(j)| <= |ts| && forall i | 0 <= i < |Numbers(j)| :: ReadNumber(ts[i]).Some? && Writes(ts[i], Numbers(j)[i])
  }

  /** When a text writes only ints, the parsed item holds the numbers as they are written. */
  lemma NumbersAsWritten(text: string, requireTerminated: bool)
    requires OnlyInts(text + ['\0'])
    ensures var j := Parse(text, requireTerminated); j.Some? ==> AsWritten(j.value, Tokens(text + ['\0'], 0))
  {
    var s := text + ['\0'];
    var bom, start := SkipBom(s), SkipWs(s, SkipBom(s));
    BomFindsNothing(s);
    SpaceFindsNothing(s, bom);
    ValueFinds(s, start, 0);
    var v := ParseValue(s, start, 0);
    hide ParseValue, Finds, SkipBom, SkipWs, Tokens, ReadNumber;
    if v.Some? {
      FindsFrom(s, 0, bom, [], start);
      FindsFrom(s, 0, start, Numbers(v.value.0), v.value.1);
      TokensAsWritten(s, v.value.0, v.value.1);
    }
  }

  lemma BomFindsNothing(s: string)
    ensures Finds(s, 0, [], SkipBom(s))
  {
    hide Finds;
    assert SkipBom(s) == 3 ==> s[0] == s[..3][0] && s[1] == s[..3][1] && s[2] == s[..3][2];
    PlainFindsNothing(s, 0, SkipBom(s));
  }

  lemma TokensAsWritten(s: string, j: Json, q: nat)
    requires Finds(s, 0, Numbers(j), q) && OnlyInts(s)
    ensures AsWritten(j, Tokens(s, 0))
  {
    var ts := Tokens(s, 0);
    hide Numbers, Tokens, ReadNumber, Strtod;
    forall i | 0 <= i < |Numbers(j)| ensures Writes(ts[i], Numbers(j)[i]) {
      assert ts[i] in ts && WritesInt(ts[i]);
      var n :| INT_MIN <= n <= INT_MAX && Writes(ts[i], n);
      IntRead(ts[i], n);
      assert Values(ts)[i] == Numbers(j)[i];
    }
  }
}
