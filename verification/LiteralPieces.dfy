/** What string literals denote: section 7 of RFC 8259, piece by piece. */
module LiteralPieces {
  import opened CString
  import opened JsonTree
  import opened StringLiteral
  import opened Parser

  /** A character as it is, a two-character escape, a `\u` escape, or two of them for one character.  Code units are
      given with their value. */
  datatype Piece =
    | AsIs(c: char)
    | Short(letter: char)
    | Unicode(hex: string, v: nat)
    | Surrogates(high: string, h: nat, low: string, l: nat)

  /** The table of two-character escapes. */
  const ESCAPES: map<char, char> :=
    map['"' := '"', '\\' := '\\', '/' := '/', 'b' := '\U{8}', 'f' := '\U{c}', 'n' := '\U{a}', 'r' := '\U{d}', 't' := '\U{9}']

  predicate DigitOf(c: char, k: nat) {
    k < 16 && (c == "0123456789abcdef"[k] || c == "0123456789ABCDEF"[k])
  }

  /** Four hexadecimal digits of either case, most significant first. */
  ghost predicate HexOf(hex: string, v: nat) {
    |hex| == 4 && exists a: nat, b: nat, c: nat, d: nat ::
      DigitOf(hex[0], a) && DigitOf(hex[1], b) && DigitOf(hex[2], c) && DigitOf(hex[3], d) && v == 4096 * a + 256 * b + 16 * c + d
  }

  ghost predicate Legal(x: Piece) {
    match x
    case AsIs(c) => c != '"' && c != '\\'
    case Short(letter) => letter in ESCAPES
    case Unicode(hex, v) => HexOf(hex, v) && !(0xD800 <= v < 0xE000)
    case Surrogates(high, h, low, l) => HexOf(high, h) && 0xD800 <= h < 0xDC00 && HexOf(low, l) && 0xDC00 <= l < 0xE000
  }

  function Text(x: Piece): string {
    match x
    case AsIs(c) => [c]
    case Short(letter) => ['\\', letter]
    case Unicode(hex, _) => ['\\', 'u'] + hex
    case Surrogates(high, _, low, _) => ['\\', 'u'] + high + ['\\', 'u'] + low
  }

  ghost function Denoted(x: Piece): string
    requires Legal(x)
  {
    match x
    case AsIs(c) => [c]
    case Short(letter) => [ESCAPES[letter]]
    case Unicode(hex, v) =>
      HexRange(hex, v);
      EncodeUtf8(v)
    case Surrogates(_, h, _, l) => EncodeUtf8(0x10000 + 0x400 * (h - 0xD800) + (l - 0xDC00))
  }

  function Texts(xs: seq<Piece>): string {
    if xs == [] then "" else Text(xs[0]) + Texts(xs[1..])
  }

  ghost function DenotedAll(xs: seq<Piece>): string
    requires forall x | x in xs :: Legal(x)
  {
    if xs == [] then "" else Denoted(xs[0]) + DenotedAll(xs[1..])
  }

  lemma HexRange(hex: string, v: nat)
    requires HexOf(hex, v)
    ensures v < 0x10000 && |hex| == 4
  {
  }

  /** The bytes of a code point: section 3 of RFC 3629. */
  lemma Utf8Layout(cp: nat)
    requires cp <= 0x10FFFF
    ensures var b := EncodeUtf8(cp);
      && (cp < 0x80 ==> b == [cp as char])
      && (0x80 <= cp < 0x800 ==> b == [(0xC0 + cp / 64) as char, (0x80 + cp % 64) as char])
      && (0x800 <= cp < 0x10000 ==> b == [(0xE0 + cp / 4096) as char, (0x80 + cp / 64 % 64) as char, (0x80 + cp % 64) as char])
      && (0x10000 <= cp ==> b == [(0xF0 + cp / 262144) as char, (0x80 + cp / 4096 % 64) as char, (0x80 + cp / 64 % 64) as char,
                                  (0x80 + cp % 64) as char])
  {
    assert cp / 64 / 64 == cp / 4096 && cp / 64 / 64 / 64 == cp / 262144;
  }

  // ----- one piece

  lemma HexDigitOf(c: char, k: nat)
    requires DigitOf(c, k)
    ensures IsHex(c) && HexValue(c) == k
  {
  }

  lemma HexRead(t: string, p: nat, hex: string, v: nat)
    requires Reads(t, p, hex) && HexOf(hex, v)
    ensures FourHex(t, p) && ParseHex4(t, p) == v
  {
    var a: nat, b: nat, c: nat, d: nat :| DigitOf(hex[0], a) && DigitOf(hex[1], b) && DigitOf(hex[2], c) && DigitOf(hex[3], d)
      && v == 4096 * a + 256 * b + 16 * c + d;
    assert t[p] == t[p+0] == hex[0] && t[p+1] == hex[1] && t[p+2] == hex[2] && t[p+3] == hex[3];
    HexDigitOf(hex[0], a);
    HexDigitOf(hex[1], b);
    HexDigitOf(hex[2], c);
    HexDigitOf(hex[3], d);
  }

  /** The first scan passes four digits one by one. */
  lemma PassDigits(t: string, p: nat)
    requires FourHex(t, p)
    ensures ScanEnd(t, p) == ScanEnd(t, p + 4)
  {
    assert ScanEnd(t, p) == ScanEnd(t, p + 1) == ScanEnd(t, p + 2) == ScanEnd(t, p + 3) == ScanEnd(t, p + 4);
  }

  lemma EscapeAt(t: string, p: nat, hex: string, v: nat)
    requires Reads(t, p, ['\\', 'u'] + hex) && HexOf(hex, v)
    ensures p + 6 <= |t| && t[p] == '\\' && t[p+1] == 'u' && FourHex(t, p + 2) && ParseHex4(t, p + 2) == v
    ensures ScanEnd(t, p) == ScanEnd(t, p + 6)
  {
    hide HexOf, ParseHex4;
    var x := ['\\', 'u'];
    ReadsConcat(t, p, x, hex);
    assert t[p+0] == x[0] && t[p+1] == x[1];
    HexRead(t, p + 2, hex, v);
    PassDigits(t, p + 2);
    assert ScanEnd(t, p) == ScanEnd(t, p + 2);
  }

  /** Both scans pass one legal piece, and the second one writes what it denotes. */
  lemma OnePiece(t: string, p: nat, x: Piece, e: nat)
    requires Legal(x) && Reads(t, p, Text(x)) && p + |Text(x)| <= e < |t|
    ensures |Text(x)| > 0 && ScanEnd(t, p) == ScanEnd(t, p + |Text(x)|)
    ensures UnescapeOne(t, p, e) == Some((Denoted(x), p + |Text(x)|))
  {
    hide HexOf, ScanEnd, UnescapeOne, EncodeUtf8, Reads;
    match x
    case AsIs(c) => OneAsIs(t, p, c, e);
    case Short(letter) => OneShort(t, p, letter, e);
    case Unicode(hex, v) =>
      HexRange(hex, v);
      OneUnicode(t, p, hex, v, e);
    case Surrogates(high, h, low, l) =>
      HexRange(high, h);
      HexRange(low, l);
      OnePair(t, p, high, h, low, l, e);
  }

  lemma OneAsIs(t: string, p: nat, c: char, e: nat)
    requires c != '"' && c != '\\' && Reads(t, p, [c]) && p < e < |t|
    ensures ScanEnd(t, p) == ScanEnd(t, p + 1) && UnescapeOne(t, p, e) == Some(([c], p + 1))
  {
    assert t[p+0] == [c][0];
  }

  lemma OneShort(t: string, p: nat, letter: char, e: nat)
    requires letter in ESCAPES && Reads(t, p, ['\\', letter]) && p + 2 <= e < |t|
    ensures ScanEnd(t, p) == ScanEnd(t, p + 2) && UnescapeOne(t, p, e) == Some(([ESCAPES[letter]], p + 2))
  {
    var x := ['\\', letter];
    assert t[p+0] == x[0] && t[p+1] == x[1];
    ShortRead(letter);
    PassShort(t, p);
    hide SimpleEscape, ScanEnd;
  }

  lemma PassShort(t: string, p: nat)
    requires p + 1 < |t| && t[p] == '\\'
    ensures ScanEnd(t, p) == ScanEnd(t, p + 2)
  {
  }

  lemma ShortRead(letter: char)
    ensures letter in ESCAPES ==> SimpleEscape(letter) == Some(ESCAPES[letter]) && letter != 'u'
    ensures letter !in ESCAPES ==> SimpleEscape(letter) == None
  {
  }

  lemma OneUnicode(t: string, p: nat, hex: string, v: nat, e: nat)
    requires HexOf(hex, v) && !(0xD800 <= v < 0xE000) && Reads(t, p, ['\\', 'u'] + hex) && p + 6 <= e < |t|
    ensures v < 0x10000 && |hex| == 4
    ensures ScanEnd(t, p) == ScanEnd(t, p + 6) && UnescapeOne(t, p, e) == Some((EncodeUtf8(v), p + 6))
  {
    EscapeAt(t, p, hex, v);
    HexRange(hex, v);
    hide HexOf, ParseHex4, EncodeUtf8, ScanEnd, Reads;
    UnitRead(t, p, v, e);
  }

  lemma UnitRead(t: string, p: nat, v: nat, e: nat)
    requires p + 6 <= e < |t| && t[p] == '\\' && t[p+1] == 'u' && ParseHex4(t, p + 2) == v && !(0xD800 <= v < 0xE000)
    ensures UnescapeOne(t, p, e) == Some((EncodeUtf8(v), p + 6))
  {
    hide ParseHex4, EncodeUtf8, SimpleEscape;
  }

  lemma OnePair(t: string, p: nat, high: string, h: nat, low: string, l: nat, e: nat)
    requires HexOf(high, h) && 0xD800 <= h < 0xDC00 && HexOf(low, l) && 0xDC00 <= l < 0xE000
    requires Reads(t, p, ['\\', 'u'] + high + ['\\', 'u'] + low) && p + 12 <= e < |t|
    ensures |high| == |low| == 4 && ScanEnd(t, p) == ScanEnd(t, p + 12)
    ensures UnescapeOne(t, p, e) == Some((EncodeUtf8(0x10000 + 0x400 * (h - 0xD800) + (l - 0xDC00)), p + 12))
  {
    hide HexOf, ParseHex4, EncodeUtf8, ScanEnd, Reads, UnescapeOne, FourHex;
    HexRange(high, h);
    HexRange(low, l);
    PairText(t, p, high, low);
    EscapeAt(t, p, high, h);
    EscapeAt(t, p + 6, low, l);
    PairRead(t, p, h, l, e);
  }

  lemma PairText(t: string, p: nat, high: string, low: string)
    requires |high| == 4 && Reads(t, p, ['\\', 'u'] + high + ['\\', 'u'] + low)
    ensures Reads(t, p, ['\\', 'u'] + high) && Reads(t, p + 6, ['\\', 'u'] + low)
  {
    hide Reads;
    var a, b := ['\\', 'u'] + high, ['\\', 'u'] + low;
    assert ['\\', 'u'] + high + ['\\', 'u'] + low == a + b && |a| == 6;
    ReadsConcat(t, p, a, b);
  }

  lemma PairRead(t: string, p: nat, h: nat, l: nat, e: nat)
    requires p + 12 <= e < |t| && t[p] == '\\' && t[p+1] == 'u' && t[p+6] == '\\' && t[p+7] == 'u'
    requires ParseHex4(t, p + 2) == h && 0xD800 <= h < 0xDC00 && ParseHex4(t, p + 8) == l && 0xDC00 <= l < 0xE000
    ensures UnescapeOne(t, p, e) == Some((EncodeUtf8(0x10000 + 0x400 * (h - 0xD800) + (l - 0xDC00)), p + 12))
  {
    hide ParseHex4, EncodeUtf8, SimpleEscape;
    assert h % 0x400 == h - 0xD800 && l % 0x400 == l - 0xDC00;
  }

  // ----- whole literals

  lemma Divided(xs: seq<Piece>, t: string, p: nat)
    requires xs != [] && Reads(t, p, Texts(xs))
    ensures Reads(t, p, Text(xs[0])) && Reads(t, p + |Text(xs[0])|, Texts(xs[1..]))
    ensures |Texts(xs)| == |Text(xs[0])| + |Texts(xs[1..])|
  {
    ReadsConcat(t, p, Text(xs[0]), Texts(xs[1..]));
  }

  /** Some bytes, in front of what follows them. */
  function Behind(bytes: string, rest: Option<(string, nat)>): Option<(string, nat)> {
    if rest.Some? then Some((bytes + rest.value.0, rest.value.1)) else None
  }

  lemma BehindTwice(a: string, b: string, rest: Option<(string, nat)>)
    ensures Behind(a, Behind(b, rest)) == Behind(a + b, rest) && Behind("", rest) == rest
  {
    if rest.Some? { assert a + (b + rest.value.0) == (a + b) + rest.value.0 && "" + rest.value.0 == rest.value.0; }
  }

  lemma UnescapeTurn(t: string, p: nat, e: nat, bytes: string, q: nat)
    requires p < e < |t| && UnescapeOne(t, p, e) == Some((bytes, q))
    ensures Unescape(t, p, e) == Behind(bytes, Unescape(t, q, e))
  {
    hide UnescapeOne;
  }

  /** Both scans pass legal pieces, whatever follows. */
  lemma {:induction false} PassPieces(t: string, p: nat, xs: seq<Piece>, e: nat)
    requires (forall x | x in xs :: Legal(x)) && Reads(t, p, Texts(xs)) && p + |Texts(xs)| <= e < |t|
    ensures ScanEnd(t, p) == ScanEnd(t, p + |Texts(xs)|)
    ensures Unescape(t, p, e) == Behind(DenotedAll(xs), Unescape(t, p + |Texts(xs)|, e))
    decreases |xs|
  {
    hide Text, Legal, Denoted, UnescapeOne, Unescape, ScanEnd, Reads, Behind;
    var rest := Unescape(t, p + |Texts(xs)|, e);
    if xs == [] {
      BehindTwice("", "", rest);
    } else {
      Divided(xs, t, p);
      OnePiece(t, p, xs[0], e);
      var q := p + |Text(xs[0])|;
      UnescapeTurn(t, p, e, Denoted(xs[0]), q);
      PassPieces(t, q, xs[1..], e);
      BehindTwice(Denoted(xs[0]), DenotedAll(xs[1..]), rest);
    }
  }

  /** Section 7 of RFC 8259: a literal of legal pieces is read as what its pieces denote, up to the first NUL, and ends
      behind its closing quote. */
  lemma LiteralDenotes(s: string, o: nat, xs: seq<Piece>)
    requires forall x | x in xs :: Legal(x)
    requires Reads(s, o, "\"" + Texts(xs) + "\"")
    ensures ParseString(s, o) == Some((UntilNul(DenotedAll(xs)), o + |Texts(xs)| + 2))
  {
    hide Texts, DenotedAll, Unescape, ScanEnd, UntilNul, Legal, Reads, Behind;
    var e := o + 1 + |Texts(xs)|;
    QuotedText(s, o, Texts(xs));
    PassPieces(s, o + 1, xs, e);
    AtQuote(s, e);
    BehindNothing(DenotedAll(xs), e);
  }

  lemma QuotedText(s: string, o: nat, x: string)
    ensures Reads(s, o, "\"" + x) ==> Reads(s, o + 1, x) && o < |s| && s[o] == '"'
    ensures Reads(s, o, "\"" + x + "\"") ==> Reads(s, o, "\"" + x) && o + 1 + |x| < |s| && s[o+1+|x|] == '"'
  {
    hide Reads;
    ReadsConcat(s, o, "\"" + x, "\"");
    ReadsConcat(s, o, "\"", x);
    if Reads(s, o, "\"" + x) { ReadsHead(s, o, "\""); }
    if Reads(s, o, "\"" + x + "\"") { ReadsHead(s, o + 1 + |x|, "\""); }
  }

  lemma AtQuote(s: string, e: nat)
    requires e < |s| && s[e] == '"'
    ensures ScanEnd(s, e) == Some(e) && Unescape(s, e, e) == Some(("", e))
  {
  }

  lemma BehindNothing(bytes: string, e: nat)
    ensures Behind(bytes, Some(("", e))) == Some((bytes, e))
  {
    assert bytes + "" == bytes;
  }

  ghost predicate UnitIn(hex: string, from: nat, below: nat) {
    exists v: nat :: HexOf(hex, v) && from <= v < below
  }

  /** A backslash that starts no legal piece: another letter, or a surrogate that is not part of a pair. */
  ghost predicate IllegalAt(t: string, q: nat, e: nat)
    requires q < e < |t|
  {
    t[q] == '\\' &&
    if t[q+1] != 'u' then t[q+1] !in ESCAPES
    else
      || q + 6 > e
      || UnitIn(t[q+2..q+6], 0xDC00, 0xE000)
      || (UnitIn(t[q+2..q+6], 0xD800, 0xDC00) &&
          (q + 12 > e || t[q+6] != '\\' || t[q+7] != 'u' || UnitIn(t[q+8..q+12], 0, 0xDC00) || UnitIn(t[q+8..q+12], 0xE000, 0x10000)))
  }

  /** A literal in which legal pieces are followed by such a backslash is refused, and so is one without an end. */
  lemma LiteralRefused(s: string, o: nat, xs: seq<Piece>, e: nat)
    requires forall x | x in xs :: Legal(x)
    requires Reads(s, o, "\"" + Texts(xs)) && ScanEnd(s, o + 1) == Some(e) && o + 1 + |Texts(xs)| < e
    requires IllegalAt(s, o + 1 + |Texts(xs)|, e)
    ensures ParseString(s, o) == None
  {
    hide Texts, DenotedAll, Unescape, UnescapeOne, ScanEnd, UntilNul, Legal, Reads, IllegalAt;
    QuotedText(s, o, Texts(xs));
    PassPieces(s, o + 1, xs, e);
    TurnRefused(s, o + 1 + |Texts(xs)|, e);
    TurnEnds(s, o + 1 + |Texts(xs)|, e);
  }

  lemma TurnEnds(t: string, p: nat, e: nat)
    requires p < e < |t| && UnescapeOne(t, p, e) == None
    ensures Unescape(t, p, e) == None
  {
    hide UnescapeOne;
  }

  lemma TurnRefused(t: string, q: nat, e: nat)
    requires q < e < |t| && IllegalAt(t, q, e)
    ensures UnescapeOne(t, q, e) == None
  {
    ShortRead(t[q+1]);
    hide SimpleEscape, EncodeUtf8, ParseHex4, HexOf;
    if t[q+1] == 'u' && q + 6 <= e {
      UnitRange(t, q + 2, 0xDC00, 0xE000);
      UnitRange(t, q + 2, 0xD800, 0xDC00);
      if q + 12 <= e {
        UnitRange(t, q + 8, 0, 0xDC00);
        UnitRange(t, q + 8, 0xE000, 0x10000);
      }
    }
    hide UnitIn;
  }

  lemma UnitRange(t: string, p: nat, from: nat, below: nat)
    requires p + 4 <= |t|
    ensures UnitIn(t[p..p+4], from, below) ==> from <= ParseHex4(t, p) < below
  {
    var hex := t[p..p+4];
    hide HexOf, ParseHex4;
    if UnitIn(hex, from, below) {
      var v: nat :| HexOf(hex, v) && from <= v < below;
      HexRead(t, p, hex, v);
    }
  }

  lemma UnterminatedRefused(s: string, o: nat)
    requires ScanEnd(s, o + 1) == None
    ensures ParseString(s, o) == None
  {
  }

  /** Where the first scan ends: at the first quote that is not part of a piece, behind any legal pieces. */
  lemma EndBehindPieces(s: string, p: nat, xs: seq<Piece>)
    requires (forall x | x in xs :: Legal(x)) && Reads(s, p, Texts(xs)) && p + |Texts(xs)| < |s|
    ensures s[p+|Texts(xs)|] == '"' ==> ScanEnd(s, p) == Some(p + |Texts(xs)|)
  {
    hide Texts, DenotedAll, Unescape, Legal, Reads;
    PassPieces(s, p, xs, p + |Texts(xs)|);
  }

  /** Where one of the four characters of a `\u` escape is no digit, the escape is read as a NUL. */
  lemma IncompleteHexIsNul(t: string, p: nat, e: nat)
    requires p + 6 <= e < |t| && t[p] == '\\' && t[p+1] == 'u' && !FourHex(t, p + 2)
    ensures UnescapeOne(t, p, e) == Some((['\0'], p + 6))
  {
    Utf8Layout(0);
    hide EncodeUtf8;
  }
}
