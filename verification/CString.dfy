/** Byte strings of the C sources.  A `char` stands for one byte of a C string;
    the terminating NUL is not part of the sequence. */
module CString {

  /** `strcmp(a, b) < 0`: the first differing byte decides, a proper prefix comes first. */
  predicate Less(a: string, b: string) {
    if b == "" then false
    else if a == "" then true
    else a[0] < b[0] || (a[0] == b[0] && Less(a[1..], b[1..]))
  }

  lemma {:induction false} LessAsymmetric(a: string, b: string)
    requires Less(a, b)
    ensures !Less(b, a) && a != b
  {
    if a != "" && a[0] == b[0] {
      LessAsymmetric(a[1..], b[1..]);
    }
  }

  lemma {:induction false} LessTransitive(a: string, b: string, c: string)
    requires Less(a, b) && Less(b, c)
    ensures Less(a, c)
  {
    if a != "" && a[0] == b[0] && b[0] == c[0] {
      LessTransitive(a[1..], b[1..], c[1..]);
    }
  }

  lemma {:induction false} LessTotal(a: string, b: string)
    ensures Less(a, b) || a == b || Less(b, a)
  {
    if a != "" && b != "" && a[0] == b[0] {
      LessTotal(a[1..], b[1..]);
      assert a == [a[0]] + a[1..] && b == [b[0]] + b[1..];
    }
  }

  /** `tolower` in the C locale. */
  function Lower(c: char): char {
    if 'A' <= c <= 'Z' then (c as int + 32) as char else c
  }

  function Fold(s: string): (f: string)
    ensures |f| == |s|
  {
    seq(|s|, i requires 0 <= i < |s| => Lower(s[i]))
  }

  /** The string that a comparison in the given case mode looks at. */
  function SortKey(s: string, caseSensitive: bool): string {
    if caseSensitive then s else Fold(s)
  }

  predicate NulFree(s: string) {
    forall i | 0 <= i < |s| :: s[i] != '\0'
  }

  /** What the C code reads at offset `i` of a NUL-terminated string. */
  function At(s: string, i: nat): char
    requires i <= |s|
  {
    if i < |s| then s[i] else '\0'
  }

  /** The byte an insensitive or sensitive comparison looks at. */
  function ModeChar(c: char, caseSensitive: bool): char {
    if caseSensitive then c else Lower(c)
  }

  lemma {:induction false} LessAfterPrefix(a: string, b: string, i: nat)
    requires i <= |a| && i <= |b| && a[..i] == b[..i]
    ensures Less(a, b) <==> Less(a[i..], b[i..])
    decreases i
  {
    if i == 0 {
      assert a[0..] == a && b[0..] == b;
    } else {
      assert a[0] == a[..i][0] == b[0];
      assert a[1..][..i-1] == a[..i][1..] == b[1..][..i-1];
      LessAfterPrefix(a[1..], b[1..], i - 1);
      assert a[1..][i-1..] == a[i..] && b[1..][i-1..] == b[i..];
    }
  }

  /** `compare_strings`: walk both strings while the bytes agree, then subtract. */
  method CompareStrings(a: string, b: string, caseSensitive: bool) returns (diff: int)
    requires NulFree(a) && NulFree(b)
    ensures diff == 0 <==> SortKey(a, caseSensitive) == SortKey(b, caseSensitive)
    ensures diff < 0 <==> Less(SortKey(a, caseSensitive), SortKey(b, caseSensitive))
  {
    ghost var ka, kb := SortKey(a, caseSensitive), SortKey(b, caseSensitive);
    var i := 0;
    while ModeChar(At(a, i), caseSensitive) == ModeChar(At(b, i), caseSensitive)
      invariant i <= |a| && i <= |b| && ka[..i] == kb[..i]
      decreases |a| - i
    {
      if At(a, i) == '\0' {
        assert ka == ka[..i] && kb == kb[..i];
        if Less(ka, kb) { LessAsymmetric(ka, kb); }
        return 0;
      }
      assert ka[..i+1] == ka[..i] + [ka[i]] && kb[..i+1] == kb[..i] + [kb[i]];
      i := i + 1;
    }
    diff := ModeChar(At(a, i), caseSensitive) as int - ModeChar(At(b, i), caseSensitive) as int;
    LessAfterPrefix(ka, kb, i);
  }

  predicate IsDigit(c: char) { '0' <= c <= '9' }

  predicate AllDigits(s: string) {
    forall i | 0 <= i < |s| :: IsDigit(s[i])
  }

  /** Decimal digits of a number, as `%lu` prints it. */
  function Decimal(n: nat): (s: string)
    ensures |s| > 0
    ensures AllDigits(s)
    ensures n < 10 ==> |s| == 1
    ensures n > 0 ==> s[0] != '0'
  {
    if n < 10 then [DigitChar(n)] else Decimal(n / 10) + [DigitChar(n % 10)]
  }

  function DigitChar(d: nat): char
    requires d < 10
  {
    ('0' as int + d) as char
  }

  /** The number a run of decimal digits denotes. */
  function DigitsValue(s: string): nat
    requires AllDigits(s)
  {
    if s == "" then 0 else 10 * DigitsValue(s[..|s|-1]) + (s[|s|-1] as int - '0' as int)
  }

  function Pow10(n: nat): (p: nat)
    ensures p > 0
  {
    if n == 0 then 1 else 10 * Pow10(n - 1)
  }

  /** Positional notation: every digit is worth ten times the one behind it. */
  lemma {:induction false} DigitPlaces(a: string, b: string)
    requires AllDigits(a) && AllDigits(b)
    ensures AllDigits(a + b) && DigitsValue(a + b) == DigitsValue(a) * Pow10(|b|) + DigitsValue(b)
    decreases |b|
  {
    if b == "" {
      assert a + b == a;
    } else {
      DigitPlaces(a, b[..|b|-1]);
      LastDigit(a, b);
      TenTimes(DigitsValue(a), Pow10(|b| - 1));
      hide DigitsValue, AllDigits;
    }
  }

  lemma DigitsStep(a: string, c: char)
    requires AllDigits(a) && IsDigit(c)
    ensures AllDigits(a + [c]) && DigitsValue(a + [c]) == 10 * DigitsValue(a) + (c as int - '0' as int) >= DigitsValue(a)
  {
    assert (a + [c])[..|a|] == a;
  }

  lemma LastDigit(a: string, b: string)
    requires AllDigits(a) && AllDigits(b) && b != "" && AllDigits(a + b[..|b|-1])
    ensures AllDigits(a + b) && AllDigits(b[..|b|-1])
    ensures var d := b[|b|-1] as int - '0' as int;
      && DigitsValue(a + b) == 10 * DigitsValue(a + b[..|b|-1]) + d
      && DigitsValue(b) == 10 * DigitsValue(b[..|b|-1]) + d
  {
    var b', c := b[..|b|-1], b[|b|-1];
    assert AllDigits(b') && IsDigit(c);
    hide DigitsValue, AllDigits, IsDigit;
    DigitsStep(b', c);
    DigitsStep(a + b', c);
    assert b' + [c] == b && (a + b') + [c] == a + b;
  }

  lemma TenTimes(v: nat, p: nat)
    ensures v * (10 * p) == 10 * (v * p)
  {
  }

  /** The ten digits. */
  lemma DigitMeans(k: nat)
    requires k < 10
    ensures AllDigits(["0123456789"[k]]) && DigitsValue(["0123456789"[k]]) == k
  {
    var d := ["0123456789"[k]];
    assert d[..0] == "";
  }

  lemma {:induction false} DecimalValue(n: nat)
    ensures DigitsValue(Decimal(n)) == n
  {
    if n >= 10 {
      DecimalValue(n / 10);
      assert Decimal(n)[..|Decimal(n)|-1] == Decimal(n / 10);
    }
  }
}
