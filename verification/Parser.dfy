/** The recursive-descent parser, as functions from an offset to an item and the offset behind it. */
module Parser {
  import opened CString
  import opened JsonTree
  import opened StringLiteral
  import opened Printer

  const NESTING_LIMIT: nat := 1000

  type Parsed<T> = Option<(T, nat)>

  /** `buffer_skip_whitespace`: when only whitespace is left it steps back to the last character. */
  function SkipWs(s: string, o: nat): (r: nat)
    requires o <= |s|
    ensures o <= r <= |s| && (o < |s| ==> r < |s|)
    decreases |s| - o
  {
    if o < |s| && s[o] <= ' ' then (if o + 1 == |s| then o else SkipWs(s, o + 1)) else o
  }

  predicate StartsWith(s: string, o: nat, w: string) {
    o + |w| <= |s| && s[o..o+|w|] == w
  }

  // ----- numbers

  predicate NumberChar(c: char) {
    IsDigit(c) || c == '+' || c == '-' || c == 'e' || c == 'E' || c == '.'
  }

  /** The end of the characters that `parse_number` copies for `strtod`. */
  function NumberEnd(s: string, o: nat): (r: nat)
    requires o <= |s|
    ensures o <= r <= |s| && forall i | o <= i < r :: NumberChar(s[i])
    ensures r < |s| ==> !NumberChar(s[r])
    decreases |s| - o
  {
    if o < |s| && NumberChar(s[o]) then NumberEnd(s, o + 1) else o
  }

  function DigitsEnd(c: string, i: nat): (r: nat)
    requires i <= |c|
    ensures i <= r <= |c| && AllDigits(c[i..r]) && (r < |c| ==> !IsDigit(c[r]))
    decreases |c| - i
  {
    if i < |c| && IsDigit(c[i]) then
      var r := DigitsEnd(c, i + 1);
      assert c[i..r] == [c[i]] + c[i+1..r];
      r
    else i
  }

  /** The end and the value of an exponent part that starts at `i`; `(i, 0)` when there is none. */
  function Exponent(c: string, i: nat): (nat, int)
    requires i <= |c|
  {
    if i < |c| && (c[i] == 'e' || c[i] == 'E') then
      var sign := i + 1 < |c| && (c[i+1] == '+' || c[i+1] == '-');
      var from := if sign then i + 2 else i + 1;
      var to := DigitsEnd(c, from);
      if to == from then (i, 0)
      else (to, if sign && c[i+1] == '-' then 0 - DigitsValue(c[from..to]) else DigitsValue(c[from..to]))
    else (i, 0)
  }

  /** The integer part of `m * 10^x`. */
  function Scale(m: nat, x: int): int {
    if x >= 0 then m * Pow10(x) else m / Pow10(-x)
  }

  function Saturate(n: int): int {
    if n >= INT_MAX then INT_MAX else if n <= INT_MIN then INT_MIN else n
  }

  /** A decimal number `m * 10^x` with its sign, and the number of characters it takes. */
  datatype Scientific = Scientific(negative: bool, m: nat, x: int, length: nat)

  /** The number at the start of a string, as `strtod` reads it; none when there is none. */
  function ReadNumber(c: string): Option<Scientific> {
    var signed := c != "" && (c[0] == '-' || c[0] == '+');
    var i := if signed then 1 else 0;
    var j := DigitsEnd(c, i);
    var k := if j < |c| && c[j] == '.' then DigitsEnd(c, j + 1) else j;
    var fraction := if j < k then c[j+1..k] else "";
    if j == i && fraction == "" then None
    else
      var (end, x) := Exponent(c, k);
      Some(Scientific(signed && c[0] == '-', DigitsValue(c[i..j] + fraction), x - |fraction|, end))
  }

  /** `strtod` followed by the conversion to `valueint`: the number, truncated and saturated, and
      the number of characters used; none when there is no number.  Binary rounding is not modelled. */
  function Strtod(c: string): Parsed<int> {
    match ReadNumber(c)
    case None => None
    case Some(d) => Some((Saturate(if d.negative then 0 - Scale(d.m, d.x) else Scale(d.m, d.x)), d.length))
  }

  function ParseNumber(s: string, o: nat): Parsed<Json>
    requires o <= |s|
  {
    match Strtod(s[o..NumberEnd(s, o)])
    case None => None
    case Some(r) => Some((Number(r.0), o + r.1))
  }

  // ----- strings

  /** The C string that starts a buffer: everything before the first NUL. */
  function UntilNul(s: string): (r: string)
    ensures r <= s && '\0' !in r && (r != s ==> s[|r|] == '\0')
  {
    if s == "" || s[0] == '\0' then "" else [s[0]] + UntilNul(s[1..])
  }

  /** `parse_string` at the opening quote. */
  function ParseString(s: string, o: nat): (r: Parsed<string>)
    ensures r.Some? ==> o < r.value.1 <= |s|
  {
    if o >= |s| || s[o] != '"' then None
    else match ScanEnd(s, o + 1)
      case None => None
      case Some(e) =>
        match Unescape(s, o + 1, e)
        case None => None
        case Some(u) => Some((UntilNul(u.0), e + 1))
  }

  // ----- values

  /** `parse_value`; a success always moves on. */
  function ParseValue(s: string, o: nat, depth: nat): (r: Parsed<Json>)
    requires o <= |s|
    ensures r.Some? ==> o < r.value.1 <= |s|
    decreases |s| - o, 2
  {
    if StartsWith(s, o, "null") then Some((Null, o + 4))
    else if StartsWith(s, o, "false") then Some((False, o + 5))
    else if StartsWith(s, o, "true") then Some((True, o + 4))
    else if o == |s| then None
    else if s[o] == '"' then
      (match ParseString(s, o)
       case None => None
       case Some(r) => Some((String(r.0), r.1)))
    else if s[o] == '-' || IsDigit(s[o]) then NumberAdvances(s, o); ParseNumber(s, o)
    else if s[o] == '[' then
      (match ParseArray(s, o, depth)
       case None => None
       case Some(r) => Some((Array(r.0), r.1)))
    else if s[o] == '{' then
      (match ParseObject(s, o, depth)
       case None => None
       case Some(r) => Some((Object(r.0), r.1)))
    else None
  }

  lemma NumberAdvances(s: string, o: nat)
    requires o < |s|
    ensures var r := ParseNumber(s, o); r.Some? ==> o < r.value.1 <= |s|
  {
    var c := s[o..NumberEnd(s, o)];
    var i := if c != "" && (c[0] == '-' || c[0] == '+') then 1 else 0;
    var j := DigitsEnd(c, i);
    var k := if j < |c| && c[j] == '.' then DigitsEnd(c, j + 1) else j;
    ExponentInside(c, k);
  }

  lemma ExponentInside(c: string, k: nat)
    requires k <= |c|
    ensures k <= Exponent(c, k).0 <= |c|
  {
  }

  function ParseArray(s: string, o: nat, depth: nat): (r: Parsed<seq<Json>>)
    requires o < |s| && s[o] == '['
    ensures r.Some? ==> o < r.value.1 <= |s|
    decreases |s| - o, 1
  {
    if depth >= NESTING_LIMIT then None
    else
      var first := SkipWs(s, o + 1);
      if first == |s| then None
      else if s[first] == ']' then Some(([], first + 1))
      else ParseItems(s, first, depth + 1)
  }

  /** The comma-separated elements up to the closing bracket. */
  function ParseItems(s: string, o: nat, depth: nat): (r: Parsed<seq<Json>>)
    requires o <= |s|
    ensures r.Some? ==> o < r.value.1 <= |s|
    decreases |s| - o, 3
  {
    match ParseValue(s, SkipWs(s, o), depth)
    case None => None
    case Some(v) =>
      var after := SkipWs(s, v.1);
      if after == |s| then None
      else if s[after] == ',' then
        (match ParseItems(s, after + 1, depth)
         case None => None
         case Some(rest) => Some(([v.0] + rest.0, rest.1)))
      else if s[after] == ']' then Some(([v.0], after + 1))
      else None
  }

  function ParseObject(s: string, o: nat, depth: nat): (r: Parsed<seq<Member>>)
    requires o < |s| && s[o] == '{'
    ensures r.Some? ==> o < r.value.1 <= |s|
    decreases |s| - o, 1
  {
    if depth >= NESTING_LIMIT then None
    else
      var first := SkipWs(s, o + 1);
      if first == |s| then None
      else if s[first] == '}' then Some(([], first + 1))
      else ParseMembers(s, first, depth + 1)
  }

  /** One `"key": value` pair. */
  function ParseMember(s: string, o: nat, depth: nat): (r: Parsed<Member>)
    requires o <= |s|
    ensures r.Some? ==> o < r.value.1 <= |s|
    decreases |s| - o, 3
  {
    if o == |s| then None
    else match ParseString(s, SkipWs(s, o))
      case None => None
      case Some(k) =>
        var colon := SkipWs(s, k.1);
        if colon == |s| || s[colon] != ':' then None
        else match ParseValue(s, SkipWs(s, colon + 1), depth)
          case None => None
          case Some(v) => Some((Member(k.0, v.0), v.1))
  }

  function ParseMembers(s: string, o: nat, depth: nat): (r: Parsed<seq<Member>>)
    requires o <= |s|
    ensures r.Some? ==> o < r.value.1 <= |s|
    decreases |s| - o, 4
  {
    match ParseMember(s, o, depth)
    case None => None
    case Some(m) =>
      var after := SkipWs(s, m.1);
      if after == |s| then None
      else if s[after] == ',' then
        (match ParseMembers(s, after + 1, depth)
         case None => None
         case Some(rest) => Some(([m.0] + rest.0, rest.1)))
      else if s[after] == '}' then Some(([m.0], after + 1))
      else None
  }

  // ----- entry points

  const BOM := [0xEF as char, 0xBB as char, 0xBF as char]

  /** `skip_utf8_bom` at the start of the buffer. */
  function SkipBom(s: string): (o: nat)
    ensures o <= |s|
  {
    if |s| > 4 && s[..3] == BOM then 3 else 0
  }

  /** `cJSON_ParseWithLengthOpts` on a buffer. */
  function ParseBuffer(s: string, requireTerminated: bool): Option<Json> {
    if s == "" then None
    else match ParseValue(s, SkipWs(s, SkipBom(s)), 0)
      case None => None
      case Some(v) =>
        if requireTerminated && (v.1 == |s| || s[SkipWs(s, v.1)] != '\0') then None else Some(v.0)
  }

  /** `cJSON_ParseWithOpts`: the terminating NUL is part of the buffer. */
  function Parse(text: string, requireTerminated: bool): Option<Json> {
    ParseBuffer(text + ['\0'], requireTerminated)
  }
}
