/** String literals: escaping (`print_string_ptr`) and the two scans of `parse_string`. */
module StringLiteral {
  import opened CString
  import opened JsonTree

  // ----- hexadecimal digits

  predicate IsHex(c: char) {
    '0' <= c <= '9' || 'A' <= c <= 'F' || 'a' <= c <= 'f'
  }

  function HexValue(c: char): (v: nat)
    requires IsHex(c)
    ensures v < 16
  {
    if '0' <= c <= '9' then c as int - '0' as int
    else if 'A' <= c <= 'F' then 10 + c as int - 'A' as int
    else 10 + c as int - 'a' as int
  }

  predicate FourHex(s: string, i: nat) {
    i + 4 <= |s| && IsHex(s[i]) && IsHex(s[i+1]) && IsHex(s[i+2]) && IsHex(s[i+3])
  }

  /** `parse_hex4`: zero when one of the four characters is not a digit. */
  function ParseHex4(s: string, i: nat): (v: nat)
    requires i + 4 <= |s|
    ensures v < 0x10000
  {
    if FourHex(s, i)
    then 0x1000 * HexValue(s[i]) + 0x100 * HexValue(s[i+1]) + 0x10 * HexValue(s[i+2]) + HexValue(s[i+3])
    else 0
  }

  // ----- UTF-8

  function Byte(b: nat): char
    requires b < 256
  {
    b as char
  }

  /** The encoding branch of `utf16_literal_to_utf8`; the shifts and masks of the source are
      written as divisions and remainders by powers of two. */
  function EncodeUtf8(cp: nat): (bytes: string)
    requires cp <= 0x10FFFF
    ensures 1 <= |bytes| <= 4 && (cp < 0x10000 ==> |bytes| <= 3)
  {
    var c1 := cp / 0x40;
    var c2 := c1 / 0x40;
    var c3 := c2 / 0x40;
    if cp < 0x80 then [Byte(cp)]
    else if cp < 0x800 then [Byte(0xC0 + c1), Tail(cp)]
    else if cp < 0x10000 then [Byte(0xE0 + c2), Tail(c1), Tail(cp)]
    else [Byte(0xF0 + c3), Tail(c2), Tail(c1), Tail(cp)]
  }

  /** A continuation byte carries the six low bits. */
  function Tail(bits: nat): (c: char)
    ensures c as int == 0x80 + bits % 0x40
  {
    (0x80 + bits % 0x40) as char
  }

  predicate Continuation(c: char) { 0x80 <= c as int < 0xC0 }

  function Low(c: char): int { c as int - 0x80 }

  /** The scalar value that a well-formed UTF-8 sequence of section 4 of RFC 3629 stands for. */
  function DecodeUtf8(b: string): Option<int> {
    if |b| == 1 && b[0] as int < 0x80 then Some(b[0] as int)
    else if |b| == 2 && 0xC2 <= b[0] as int < 0xE0 && Continuation(b[1]) then
      Some((b[0] as int - 0xC0) * 0x40 + Low(b[1]))
    else if |b| == 3 && 0xE0 <= b[0] as int < 0xF0 && Continuation(b[1]) && Continuation(b[2])
         && (b[0] as int == 0xE0 ==> b[1] as int >= 0xA0) && (b[0] as int == 0xED ==> (b[1] as int) < 0xA0) then
      Some((b[0] as int - 0xE0) * 0x1000 + Low(b[1]) * 0x40 + Low(b[2]))
    else if |b| == 4 && 0xF0 <= b[0] as int < 0xF5 && Continuation(b[1]) && Continuation(b[2]) && Continuation(b[3])
         && (b[0] as int == 0xF0 ==> b[1] as int >= 0x90) && (b[0] as int == 0xF4 ==> (b[1] as int) < 0x90) then
      Some((b[0] as int - 0xF0) * 0x40000 + Low(b[1]) * 0x1000 + Low(b[2]) * 0x40 + Low(b[3]))
    else None
  }

  predicate Surrogate(cp: nat) { 0xD800 <= cp < 0xE000 }

  lemma Utf8Short(cp: nat)
    requires cp < 0x800
    ensures DecodeUtf8(EncodeUtf8(cp)) == Some(cp as int)
  {
  }

  lemma Utf8Three(cp: nat)
    requires 0x800 <= cp < 0x10000 && !Surrogate(cp)
    ensures DecodeUtf8(EncodeUtf8(cp)) == Some(cp as int)
  {
    var c1 := cp / 0x40;
    var c2 := c1 / 0x40;
    assert cp == 0x40 * c1 + cp % 0x40 && c1 == 0x40 * c2 + c1 % 0x40;
    var b := EncodeUtf8(cp);
    assert b[0] as int == 0xE0 + c2 && Low(b[1]) == c1 % 0x40 && Low(b[2]) == cp % 0x40;
  }

  lemma Utf8Four(cp: nat)
    requires 0x10000 <= cp <= 0x10FFFF
    ensures DecodeUtf8(EncodeUtf8(cp)) == Some(cp as int)
  {
    var c1 := cp / 0x40;
    var c2 := c1 / 0x40;
    var c3 := c2 / 0x40;
    assert cp == 0x40 * c1 + cp % 0x40 && c1 == 0x40 * c2 + c1 % 0x40 && c2 == 0x40 * c3 + c2 % 0x40;
    var b := EncodeUtf8(cp);
    assert b[0] as int == 0xF0 + c3 && Low(b[1]) == c2 % 0x40 && Low(b[2]) == c1 % 0x40 && Low(b[3]) == cp % 0x40;
  }

  /** The bytes written for a code point are its one well-formed UTF-8 encoding. */
  lemma Utf8RoundTrip(cp: nat)
    requires cp <= 0x10FFFF && !Surrogate(cp)
    ensures DecodeUtf8(EncodeUtf8(cp)) == Some(cp as int)
  {
    if cp < 0x800 { Utf8Short(cp); } else if cp < 0x10000 { Utf8Three(cp); } else { Utf8Four(cp); }
  }

  /** `utf16_literal_to_utf8` at the backslash `p` of a literal that ends at `e`: the bytes written
      and the number of characters used. */
  function Utf16Literal(s: string, p: nat, e: nat): (r: Option<(string, nat)>)
    requires p <= e <= |s|
    ensures r.Some? ==> (r.value.1 == 6 || r.value.1 == 12) && p + r.value.1 <= e
    ensures r.Some? ==> 2 * |r.value.0| <= r.value.1
  {
    if e - p < 6 then None
    else
      var first := ParseHex4(s, p + 2);
      if 0xDC00 <= first <= 0xDFFF then None
      else if 0xD800 <= first <= 0xDBFF then
        if e - (p + 6) < 6 then None
        else if s[p+6] != '\\' || s[p+7] != 'u' then None
        else
          var second := ParseHex4(s, p + 8);
          if second < 0xDC00 || second > 0xDFFF then None
          else Some((EncodeUtf8(0x10000 + (first % 0x400) * 0x400 + second % 0x400), 12))
      else Some((EncodeUtf8(first), 6))
  }

  /** A high surrogate at `p`, followed by the escape of a low one, before `e`. */
  predicate SurrogatePair(s: string, p: nat, e: nat)
    requires p <= e <= |s|
  {
    && p + 12 <= e && 0xD800 <= ParseHex4(s, p + 2) < 0xDC00
    && s[p+6] == '\\' && s[p+7] == 'u' && 0xDC00 <= ParseHex4(s, p + 8) < 0xE000
  }

  /** Section 7 of RFC 8259: the code point above 0xFFFF that a surrogate pair stands for. */
  function PairValue(s: string, p: nat, e: nat): int
    requires p <= e <= |s| && SurrogatePair(s, p, e)
  {
    0x10000 + (ParseHex4(s, p + 2) - 0xD800) * 0x400 + (ParseHex4(s, p + 8) - 0xDC00)
  }

  /** Section 7 of RFC 8259: what a `\u` escape, or a pair of them, denotes; other surrogates are refused. */
  lemma Utf16LiteralDenotes(s: string, p: nat, e: nat)
    requires p + 6 <= e <= |s| && FourHex(s, p + 2)
    ensures var first, r := ParseHex4(s, p + 2), Utf16Literal(s, p, e);
      && (!Surrogate(first) ==> r.Some? && r.value.1 == 6 && DecodeUtf8(r.value.0) == Some(first as int))
      && (Surrogate(first) ==> (r.Some? <==> SurrogatePair(s, p, e)))
      && (SurrogatePair(s, p, e) ==> r.Some? && r.value.1 == 12 && DecodeUtf8(r.value.0) == Some(PairValue(s, p, e)))
  {
    hide EncodeUtf8, DecodeUtf8, ParseHex4;
    var first, r := ParseHex4(s, p + 2), Utf16Literal(s, p, e);
    if !Surrogate(first) {
      Utf8RoundTrip(first);
    } else if r.Some? {
      var second := ParseHex4(s, p + 8);
      assert first % 0x400 == first - 0xD800 && second % 0x400 == second - 0xDC00;
      Utf8RoundTrip(0x10000 + (first - 0xD800) * 0x400 + (second - 0xDC00));
    }
  }

  // ----- the first scan

  /** The closing quote of the literal whose characters start at `i`, if there is one. */
  function ScanEnd(s: string, i: nat): (r: Option<nat>)
    ensures r.Some? ==> i <= r.value < |s| && s[r.value] == '"'
    decreases |s| - i
  {
    if i >= |s| then None
    else if s[i] == '"' then Some(i)
    else if s[i] == '\\' then (if i + 1 >= |s| then None else ScanEnd(s, i + 2))
    else ScanEnd(s, i + 1)
  }

  /** The number of backslashes the first scan has skipped between `i` and the closing quote. */
  function Skipped(s: string, i: nat): nat
    decreases |s| - i
  {
    if i + 1 >= |s| || s[i] == '"' then 0
    else if s[i] == '\\' then 1 + Skipped(s, i + 2)
    else Skipped(s, i + 1)
  }

  // ----- the second scan

  function SimpleEscape(c: char): Option<char> {
    if c == 'b' then Some('\U{8}')
    else if c == 'f' then Some('\U{c}')
    else if c == 'n' then Some('\n')
    else if c == 'r' then Some('\r')
    else if c == 't' then Some('\t')
    else if c == '"' || c == '\\' || c == '/' then Some(c)
    else None
  }

  /** One turn of the second scan at `p`: the bytes written and the new position. */
  function UnescapeOne(s: string, p: nat, e: nat): (r: Option<(string, nat)>)
    requires p < e < |s|
    ensures r.Some? ==> p < r.value.1 <= e + 1
  {
    if s[p] != '\\' then Some(([s[p]], p + 1))
    else if s[p+1] == 'u' then
      (match Utf16Literal(s, p, e)
       case None => None
       case Some(b) => Some((b.0, p + b.1)))
    else match SimpleEscape(s[p+1])
      case None => None
      case Some(c) => Some(([c], p + 2))
  }

  /** The second scan from `p` to the closing quote `e`: the bytes written and where it stops. */
  function Unescape(s: string, p: nat, e: nat): (r: Option<(string, nat)>)
    requires e < |s|
    ensures r.Some? && p <= e + 1 ==> e <= r.value.1 <= e + 1
    decreases e + 1 - p
  {
    if p >= e then Some(("", p))
    else match UnescapeOne(s, p, e)
      case None => None
      case Some(one) =>
        match Unescape(s, one.1, e)
        case None => None
        case Some(rest) => Some((one.0 + rest.0, rest.1))
  }

  // ----- the buffer of the second scan

  /** Where the second scan may stand: at a character the first scan looked at (`aligned`), or at
      one the first scan jumped over behind a backslash. */
  predicate Tracked(s: string, p: nat, e: nat, aligned: bool) {
    if aligned then ScanEnd(s, p) == Some(e) else p < e && ScanEnd(s, p + 1) == Some(e)
  }

  /** Buffer space that the first scan still has for what follows `p`. */
  function Budget(s: string, p: nat, e: nat, aligned: bool): int {
    e - p - Skipped(s, if aligned then p else p + 1)
  }

  /** Moving on by one character costs one byte, except from a backslash onto what it escapes. */
  lemma OneMove(s: string, p: nat, e: nat, aligned: bool)
    requires e < |s| && p < e && Tracked(s, p, e, aligned)
    ensures var onto := aligned && s[p] == '\\';
      && Tracked(s, p + 1, e, !onto)
      && Budget(s, p, e, aligned) == Budget(s, p + 1, e, !onto) + (if onto then 0 else 1)
  {
    if aligned && s[p] == '\\' {
      assert ScanEnd(s, p) == ScanEnd(s, p + 2);
    }
  }

  /** Two characters cost at least one byte. */
  lemma {:induction false} EvenMoves(s: string, p: nat, e: nat, aligned: bool, pairs: nat) returns (aligned': bool)
    requires e < |s| && p + 2 * pairs <= e && Tracked(s, p, e, aligned)
    ensures Tracked(s, p + 2 * pairs, e, aligned')
    ensures Budget(s, p, e, aligned) >= Budget(s, p + 2 * pairs, e, aligned') + pairs
    decreases pairs
  {
    aligned' := aligned;
    if pairs > 0 {
      OneMove(s, p, e, aligned);
      var mid := !(aligned && s[p] == '\\');
      OneMove(s, p + 1, e, mid);
      aligned' := EvenMoves(s, p + 2, e, !(mid && s[p+1] == '\\'), pairs - 1);
    }
  }

  lemma {:induction false} BudgetCovers(s: string, p: nat, e: nat, aligned: bool)
    requires e < |s| && Tracked(s, p, e, aligned)
    ensures p <= e && Budget(s, p, e, aligned) >= 0 && (aligned && p == e ==> Budget(s, p, e, aligned) == 0)
    decreases e - p
  {
    if p < e {
      OneMove(s, p, e, aligned);
      BudgetCovers(s, p + 1, e, !(aligned && s[p] == '\\'));
    }
  }

  /** A turn takes one character for one byte, or pairs of characters for at most half as many bytes. */
  lemma TurnLength(s: string, p: nat, e: nat)
    requires p < e < |s| && UnescapeOne(s, p, e).Some?
    ensures var (bytes, q) := UnescapeOne(s, p, e).value;
      && (q == p + 1 ==> |bytes| == 1 && s[p] != '\\')
      && (q != p + 1 ==> s[p] == '\\' && (q == p + 2 || q == p + 6 || q == p + 12) && 2 * |bytes| <= q - p)
      && (q > e ==> q == p + 2)
  {
    hide Utf16Literal, SimpleEscape;
  }

  /** One turn of the second scan writes no more than the first scan allowed for. */
  lemma TurnFits(s: string, p: nat, e: nat, aligned: bool) returns (aligned': bool)
    requires e < |s| && p < e && Tracked(s, p, e, aligned) && UnescapeOne(s, p, e).Some?
    ensures var (bytes, q) := UnescapeOne(s, p, e).value;
      && (q <= e ==> Tracked(s, q, e, aligned') && Budget(s, p, e, aligned) >= |bytes| + Budget(s, q, e, aligned'))
      && Budget(s, p, e, aligned) >= |bytes|
  {
    hide Budget, UnescapeOne, ScanEnd;
    TurnLength(s, p, e);
    var (bytes, q) := UnescapeOne(s, p, e).value;
    aligned' := aligned;
    if q == p + 1 {
      OneMove(s, p, e, aligned);
      aligned' := true;
      BudgetCovers(s, q, e, aligned');
    } else if q <= e {
      aligned' := EvenMoves(s, p, e, aligned, (q - p) / 2);
      BudgetCovers(s, q, e, aligned');
    } else {
      OneMove(s, p, e, aligned);
      assert !aligned;
      BudgetCovers(s, p + 1, e, true);
    }
  }

  /** Every byte of the second scan has room in the buffer that the first scan asked for,
      also when an escape lets the two scans fall out of step. */
  lemma {:induction false} UnescapeFits(s: string, p: nat, e: nat, aligned: bool)
    requires e < |s| && Tracked(s, p, e, aligned) && Unescape(s, p, e).Some?
    ensures |Unescape(s, p, e).value.0| <= Budget(s, p, e, aligned)
    decreases e - p
  {
    BudgetCovers(s, p, e, aligned);
    if p < e {
      var aligned' := TurnFits(s, p, e, aligned);
      var q := UnescapeOne(s, p, e).value.1;
      if q <= e { UnescapeFits(s, q, e, aligned'); }
    }
  }

  /** The allocation of `parse_string` for the literal that opens at `o` and closes at `e`. */
  function Allocation(s: string, o: nat, e: nat): int {
    e - o - Skipped(s, o + 1) + 1
  }

  /** The terminated result fits the allocation. */
  lemma OutputFits(s: string, o: nat, e: nat)
    requires ScanEnd(s, o + 1) == Some(e) && Unescape(s, o + 1, e).Some?
    ensures |Unescape(s, o + 1, e).value.0| + 1 <= Allocation(s, o, e)
  {
    UnescapeFits(s, o + 1, e, true);
  }

  /** Every `\u` that the first scan passes is followed by four digits. */
  predicate HexComplete(s: string, p: nat, e: nat)
    requires e < |s|
    decreases e - p
  {
    if p >= e then true
    else if s[p] != '\\' then HexComplete(s, p + 1, e)
    else (s[p+1] == 'u' ==> FourHex(s[..e], p + 2)) && HexComplete(s, p + 2, e)
  }

  /** Four digits contain no backslash, so the first scan passes them one by one. */
  lemma PassHex(s: string, p: nat, e: nat)
    requires e < |s| && ScanEnd(s, p) == Some(e) && p < e && s[p] == '\\' && s[p+1] == 'u'
    requires HexComplete(s, p, e)
    ensures p + 6 <= e && ScanEnd(s, p + 6) == Some(e) && HexComplete(s, p + 6, e)
  {
    assert FourHex(s[..e], p + 2);
    assert forall i | p + 2 <= i < p + 6 :: IsHex(s[..e][i]) && s[..e][i] == s[i];
    assert ScanEnd(s, p + 2) == ScanEnd(s, p + 3) == ScanEnd(s, p + 4) == ScanEnd(s, p + 5) == ScanEnd(s, p + 6);
    assert HexComplete(s, p + 2, e) == HexComplete(s, p + 3, e) == HexComplete(s, p + 4, e);
    assert HexComplete(s, p + 4, e) == HexComplete(s, p + 5, e) == HexComplete(s, p + 6, e);
  }

  /** With complete escapes the second scan stops exactly at the quote the first scan found. */
  lemma {:induction false} ScansAgree(s: string, p: nat, e: nat)
    requires e < |s| && ScanEnd(s, p) == Some(e) && HexComplete(s, p, e) && Unescape(s, p, e).Some?
    ensures Unescape(s, p, e).value.1 == e
    decreases e - p
  {
    if p < e {
      var q := UnescapeOne(s, p, e).value.1;
      if s[p] != '\\' {
        ScansAgree(s, p + 1, e);
      } else if s[p+1] != 'u' {
        ScansAgree(s, p + 2, e);
      } else {
        PassHex(s, p, e);
        if q == p + 12 { PassHex(s, p + 6, e); }
        ScansAgree(s, q, e);
      }
    }
  }

  // ----- escaping

  /** A lower-case hexadecimal digit, as `%04x` prints it. */
  function HexDigit(v: nat): (c: char)
    requires v < 16
    ensures IsHex(c) && HexValue(c) == v
  {
    if v < 10 then ('0' as int + v) as char else ('a' as int + v - 10) as char
  }

  /** What `print_string_ptr` writes for one character. */
  function EscapeChar(c: char): (e: string)
    ensures |e| > 0
  {
    if c == '"' then ['\\', '"']
    else if c == '\\' then ['\\', '\\']
    else if c == '\U{8}' then ['\\', 'b']
    else if c == '\U{c}' then ['\\', 'f']
    else if c == '\n' then ['\\', 'n']
    else if c == '\r' then ['\\', 'r']
    else if c == '\t' then ['\\', 't']
    else if c < ' ' then ['\\', 'u', '0', '0', HexDigit(c as int / 16), HexDigit(c as int % 16)]
    else [c]
  }

  function Escape(s: string): string {
    if s == "" then "" else EscapeChar(s[0]) + Escape(s[1..])
  }

  function Quote(s: string): string {
    "\"" + Escape(s) + "\""
  }

  /** `t` continues with `x` at `p`. */
  predicate Reads(t: string, p: nat, x: string) {
    p + |x| <= |t| && forall i | 0 <= i < |x| :: t[p+i] == x[i]
  }

  lemma ReadsConcat(t: string, p: nat, x: string, y: string)
    ensures Reads(t, p, x + y) <==> Reads(t, p, x) && Reads(t, p + |x|, y)
  {
    if Reads(t, p, x) && Reads(t, p + |x|, y) {
      forall i | 0 <= i < |x + y| ensures t[p+i] == (x + y)[i] {
        if i >= |x| { assert (x + y)[i] == y[i-|x|]; }
      }
    }
    if Reads(t, p, x + y) {
      forall i | 0 <= i < |x| ensures t[p+i] == x[i] { assert (x + y)[i] == x[i]; }
      forall i | 0 <= i < |y| ensures t[(p+|x|)+i] == y[i] {
        assert (x + y)[|x|+i] == y[i];
        assert t[p+(|x|+i)] == (x + y)[|x|+i];
      }
    }
  }

  lemma ReadsHead(t: string, p: nat, x: string)
    requires Reads(t, p, x)
    ensures p + |x| <= |t| && (x != "" ==> t[p] == x[0])
  {
    if x != "" { assert t[p+0] == x[0]; }
  }

  /** Both scans pass one escaped character. */
  lemma PassEscaped(t: string, p: nat, c: char, e: nat)
    requires Reads(t, p, EscapeChar(c)) && c != '\0' && p + |EscapeChar(c)| <= e < |t|
    ensures var q := p + |EscapeChar(c)|;
      ScanEnd(t, p) == ScanEnd(t, q) && UnescapeOne(t, p, e) == Some(([c], q))
  {
    var x := EscapeChar(c);
    assert t[p] == x[0];
    if |x| == 2 {
      assert t[p+1] == x[1];
      assert ScanEnd(t, p) == ScanEnd(t, p + 2);
    } else if |x| == 6 {
      assert t[p+1] == x[1] && t[p+2] == x[2] && t[p+3] == x[3] && t[p+4] == x[4] && t[p+5] == x[5];
      PassControl(t, p, c, e);
    }
  }

  lemma PassControl(t: string, p: nat, c: char, e: nat)
    requires '\0' < c < ' ' && p + 6 <= e < |t| && t[p] == '\\' && t[p+1] == 'u' && t[p+2] == '0' && t[p+3] == '0'
    requires t[p+4] == HexDigit(c as int / 16) && t[p+5] == HexDigit(c as int % 16)
    ensures ScanEnd(t, p) == ScanEnd(t, p + 6) && UnescapeOne(t, p, e) == Some(([c], p + 6))
  {
    assert ScanEnd(t, p + 2) == ScanEnd(t, p + 3) == ScanEnd(t, p + 4) == ScanEnd(t, p + 5) == ScanEnd(t, p + 6);
    assert HexValue('0') == 0;
    assert ParseHex4(t, p + 2) == 16 * (c as int / 16) + c as int % 16 == c as int;
    assert EncodeUtf8(c as int) == [c];
  }

  lemma EscapeHead(s: string)
    requires s != ""
    ensures Escape(s) == EscapeChar(s[0]) + Escape(s[1..])
  {
  }

  /** Reading back an escaped string: the scans end at its closing quote with its characters. */
  lemma {:induction false} UnescapeEscape(t: string, p: nat, s: string)
    requires NulFree(s) && Reads(t, p, Escape(s)) && p + |Escape(s)| < |t| && t[p+|Escape(s)|] == '"'
    ensures var e := p + |Escape(s)|;
      ScanEnd(t, p) == Some(e) && Unescape(t, p, e) == Some((s, e))
    decreases |s|
  {
    if s != "" {
      var x := EscapeChar(s[0]);
      EscapeHead(s);
      hide EscapeChar, Reads, Escape, UnescapeOne, ScanEnd;
      ReadsConcat(t, p, x, Escape(s[1..]));
      PassEscaped(t, p, s[0], p + |Escape(s)|);
      UnescapeEscape(t, p + |x|, s[1..]);
      assert [s[0]] + s[1..] == s;
    }
  }
}
