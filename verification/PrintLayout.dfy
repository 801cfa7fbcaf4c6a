/** How printed text looks: separators, lines, indentation and escapes. */
module PrintLayout {
  import opened CString
  import opened JsonTree
  import opened StringLiteral
  import opened Printer
  import opened LiteralPieces

  /** The parts with a separator between each two of them. */
  function Join(parts: seq<string>, separator: string): string {
    if parts == [] then ""
    else if |parts| == 1 then parts[0]
    else parts[0] + separator + Join(parts[1..], separator)
  }

  lemma WordsLayout(depth: nat, format: bool)
    ensures Print(Null, depth, format) == "null" && Print(True, depth, format) == "true" && Print(False, depth, format) == "false"
  {
  }

  /** An int is printed as its decimal digits without leading zeros, behind a minus sign if it is negative. */
  lemma IntLayout(n: int, depth: nat, format: bool)
    ensures var digits := Decimal(if n < 0 then 0 - n else n);
      && Print(Number(n), depth, format) == (if n < 0 then "-" else "") + digits
      && AllDigits(digits) && DigitsValue(digits) == (if n < 0 then 0 - n else n) && (|digits| > 1 ==> digits[0] != '0')
  {
    var m: nat := if n < 0 then 0 - n else n;
    DecimalValue(m);
    assert "" + Decimal(m) == Decimal(m);
  }

  function Elements(items: seq<Json>, depth: nat, format: bool): (r: seq<string>)
    ensures |r| == |items|
  {
    seq(|items|, i requires 0 <= i < |items| => Print(items[i], depth, format))
  }

  /** `[a, b]`, or `[a,b]` when not formatted. */
  lemma ArrayLayout(items: seq<Json>, depth: nat, format: bool)
    ensures Print(Array(items), depth, format) ==
      "[" + Join(Elements(items, depth + 1, format), if format then ", " else ",") + "]"
  {
    ItemsJoined(items, depth + 1, format);
  }

  lemma {:induction false} ItemsJoined(items: seq<Json>, depth: nat, format: bool)
    ensures PrintItems(items, depth, format) == Join(Elements(items, depth, format), if format then ", " else ",")
  {
    hide Print;
    var separator := if format then ", " else ",";
    if |items| > 1 {
      ItemsJoined(items[1..], depth, format);
      var x, rest := Print(items[0], depth, format), PrintItems(items[1..], depth, format);
      assert Elements(items, depth, format)[1..] == Elements(items[1..], depth, format);
      assert "," + If(format, " ") == separator;
      assert x + (separator + rest) == x + separator + rest;
    }
  }

  /** The lines of a formatted object: tabs, the quoted key, a colon, a tab and the value. */
  function Lines(ms: seq<Member>, depth: nat): (r: seq<string>)
    ensures |r| == |ms|
  {
    seq(|ms|, i requires 0 <= i < |ms| => Tabs(depth) + "\"" + Escape(ms[i].key) + "\":\t" + Print(ms[i].value, depth, true))
  }

  /** Members without any blanks. */
  function Pairs(ms: seq<Member>, depth: nat): (r: seq<string>)
    ensures |r| == |ms|
  {
    seq(|ms|, i requires 0 <= i < |ms| => "\"" + Escape(ms[i].key) + "\":" + Print(ms[i].value, depth, false))
  }

  /** Formatted, every member has a line of its own, indented by the depth, and the closing brace too. */
  lemma ObjectLayout(ms: seq<Member>, depth: nat)
    ensures Print(Object(ms), depth, true) ==
      "{\n" + Join(Lines(ms, depth + 1), ",\n") + (if ms == [] then "" else "\n") + Tabs(depth) + "}"
    ensures Print(Object(ms), depth, false) == "{" + Join(Pairs(ms, depth + 1), ",") + "}"
  {
    hide PrintMembers, Lines, Pairs, Tabs, Join;
    LinesJoined(ms, depth + 1);
    PairsJoined(ms, depth + 1);
    Braces(PrintMembers(ms, depth + 1, true), Tabs(depth));
    Braces(PrintMembers(ms, depth + 1, false), "");
    var x := Join(Lines(ms, depth + 1), ",\n");
    assert "{\n" + (x + (if ms == [] then "" else "\n")) + Tabs(depth) + "}" == "{\n" + x + (if ms == [] then "" else "\n") + Tabs(depth) + "}";
  }

  lemma Braces(x: string, tabs: string)
    ensures "{" + "\n" + x + tabs + "}" == "{\n" + x + tabs + "}"
    ensures "{" + "" + x + "" + "}" == "{" + x + "}"
  {
    assert "{" + "\n" == "{\n" && "{" + "" == "{" && x + "" == x;
    assert "{" + x + "" == "{" + x;
  }

  lemma {:induction false} LinesJoined(ms: seq<Member>, depth: nat)
    ensures PrintMembers(ms, depth, true) == Join(Lines(ms, depth), ",\n") + if ms == [] then "" else "\n"
  {
    hide Print, Tabs, Escape;
    if ms != [] {
      var line := Tabs(depth) + "\"" + Escape(ms[0].key) + "\":\t" + Print(ms[0].value, depth, true);
      LineOf(ms[0], depth);
      if |ms| == 1 {
        EmptyMembers(depth, true);
        assert ms[1..] == [];
        assert line + ("" + "\n" + "") == line + "\n";
      } else {
        LinesJoined(ms[1..], depth);
        var rest := Join(Lines(ms[1..], depth), ",\n");
        assert Lines(ms, depth)[1..] == Lines(ms[1..], depth);
        assert line + ("," + "\n" + (rest + "\n")) == line + ",\n" + rest + "\n";
      }
    }
  }

  lemma LineOf(m: Member, depth: nat)
    ensures If(true, Tabs(depth)) + PrintMember(m, depth, true) == Tabs(depth) + "\"" + Escape(m.key) + "\":\t" + Print(m.value, depth, true)
  {
    hide Print, Tabs, Escape;
    var t, k, v := Tabs(depth), Escape(m.key), Print(m.value, depth, true);
    assert t + (("\"" + k + "\"") + ":" + "\t" + v) == t + "\"" + k + "\":\t" + v;
  }

  lemma {:induction false} PairsJoined(ms: seq<Member>, depth: nat)
    ensures PrintMembers(ms, depth, false) == Join(Pairs(ms, depth), ",")
  {
    hide Print, PrintMember, Escape, Pairs, Join, Tabs;
    if ms == [] {
      NoPairs(depth);
    } else {
      PairOf(ms[0], depth);
      PairsCons(ms, depth);
      if |ms| == 1 {
        EmptyMembers(depth, false);
        assert ms[1..] == [];
      } else {
        PairsJoined(ms[1..], depth);
      }
      Commas(If(false, Tabs(depth)) + PrintMember(ms[0], depth, false), PrintMembers(ms[1..], depth, false));
    }
  }

  lemma NoPairs(depth: nat)
    ensures Join(Pairs([], depth), ",") == ""
  {
  }

  lemma PairsCons(ms: seq<Member>, depth: nat)
    requires ms != []
    ensures var pair := "\"" + Escape(ms[0].key) + "\":" + Print(ms[0].value, depth, false);
      Join(Pairs(ms, depth), ",") == if |ms| == 1 then pair else pair + "," + Join(Pairs(ms[1..], depth), ",")
  {
    hide Print, Escape;
    if |ms| > 1 { assert Pairs(ms, depth)[1..] == Pairs(ms[1..], depth); }
  }

  lemma Commas(head: string, rest: string)
    ensures head + ("," + "" + rest) == head + "," + rest && head + ("" + "" + "") == head
  {
    assert "," + "" == "," && "" + "" == "";
    assert head + "" == head;
  }

  lemma PairOf(m: Member, depth: nat)
    ensures If(false, Tabs(depth)) + PrintMember(m, depth, false) == "\"" + Escape(m.key) + "\":" + Print(m.value, depth, false)
  {
    hide Print, Escape;
    var k, v := Escape(m.key), Print(m.value, depth, false);
    assert "" + (("\"" + k + "\"") + ":" + "" + v) == "\"" + k + "\":" + v;
  }

  // ----- escapes

  /** A piece as RFC 8259 allows it: control characters do not stand for themselves. */
  ghost predicate Strict(x: Piece) {
    Legal(x) && (x.AsIs? ==> x.c >= ' ')
  }

  /** Every character is written as a legal piece that denotes it. */
  lemma EscapeIsPiece(c: char) returns (x: Piece)
    requires c != '\0'
    ensures Strict(x) && Text(x) == EscapeChar(c) && Denoted(x) == [c]
  {
    if |EscapeChar(c)| == 1 {
      x := AsIs(c);
    } else if |EscapeChar(c)| == 2 {
      x := Short(EscapeChar(c)[1]);
    } else {
      var hex := EscapeChar(c)[2..];
      x := Unicode(hex, c as int);
      ControlHex(c);
    }
  }

  lemma ControlHex(c: char)
    requires |EscapeChar(c)| > 2
    ensures c < ' ' && var hex := EscapeChar(c)[2..];
      HexOf(hex, c as int) && EscapeChar(c) == ['\\', 'u'] + hex && EncodeUtf8(c as int) == [c]
  {
    var hex := EscapeChar(c)[2..];
    var a, b := c as int / 16, c as int % 16;
    assert hex == ['0', '0', HexDigit(a), HexDigit(b)];
    HexDigitIs(a);
    HexDigitIs(b);
    hide HexDigit, EscapeChar;
    assert DigitOf(hex[0], 0) && DigitOf(hex[1], 0) && DigitOf(hex[2], a) && DigitOf(hex[3], b);
  }

  lemma HexDigitIs(k: nat)
    requires k < 16
    ensures DigitOf(HexDigit(k), k)
  {
  }

  /** And as the shortest one. */
  lemma EscapeShortest(c: char, x: Piece)
    requires c != '\0' && Strict(x) && Denoted(x) == [c]
    ensures |EscapeChar(c)| <= |Text(x)|
  {
    match x
    case AsIs(d) =>
    case Short(letter) =>
    case Unicode(hex, v) => HexRange(hex, v);
    case Surrogates(high, h, low, l) =>
      HexRange(high, h);
      HexRange(low, l);
  }
}
