/** The Python string built-ins the presence mapper relies on, with Python's
    semantics: `str(n)` for integers, the `02d` format, `str.lstrip(chars)`
    (a set of characters, not a prefix) and `str.capitalize` (ASCII letters). */
module PyStr {

  // ---------------------------------------------------------------------------
  // Decimal digits: `str(n)` and `format(n, "02d")`
  // ---------------------------------------------------------------------------

  predicate IsDigit(c: char) {
    '0' <= c <= '9'
  }

  predicate IsDigits(s: string) {
    forall i :: 0 <= i < |s| ==> IsDigit(s[i])
  }

  function DigitChar(d: nat): (c: char)
    requires d < 10
    ensures IsDigit(c)
  {
    ('0' as int + d) as char
  }

  function DigitValue(c: char): (d: nat)
    requires IsDigit(c)
    ensures d < 10 && DigitChar(d) == c
  {
    c as int - '0' as int
  }

  /** The decimal digits of `n`, most significant first, without leading zeros. */
  function Digits(n: nat): (r: string)
    ensures IsDigits(r)
    ensures |r| == 1 <==> n < 10
    ensures |r| >= 1
    ensures r[0] == '0' <==> n == 0
    decreases n
  {
    if n < 10 then [DigitChar(n)] else Digits(n / 10) + [DigitChar(n % 10)]
  }

  /** The number a string of decimal digits denotes (the inverse of Digits). */
  function DigitsValue(s: string): nat
    requires IsDigits(s)
    decreases |s|
  {
    if s == [] then 0 else DigitsValue(s[..|s| - 1]) * 10 + DigitValue(s[|s| - 1])
  }

  /** A canonical digit string: non-empty and without a leading zero unless it is "0". */
  predicate IsCanonicalDigits(s: string) {
    |s| >= 1 && IsDigits(s) && (s[0] == '0' ==> |s| == 1)
  }

  lemma {:induction false} DigitsRoundTrip(n: nat)
    ensures DigitsValue(Digits(n)) == n
    decreases n
  {
    if n >= 10 {
      var r := Digits(n);
      assert r[..|r| - 1] == Digits(n / 10);
      DigitsRoundTrip(n / 10);
    } else {
      assert Digits(n)[..0] == [];
    }
  }

  lemma {:induction false} DigitsValuePositive(s: string)
    requires IsDigits(s) && |s| >= 1 && s[0] != '0'
    ensures DigitsValue(s) >= 1
    decreases |s|
  {
    if |s| > 1 {
      DigitsValuePositive(s[..|s| - 1]);
    } else {
      assert s[..0] == [];
      assert DigitValue(s[0]) != 0;
    }
  }

  /** Every canonical digit string is the rendering of the number it denotes. */
  lemma {:induction false} DigitsCanonicalRoundTrip(s: string)
    requires IsCanonicalDigits(s)
    ensures Digits(DigitsValue(s)) == s
    decreases |s|
  {
    if |s| == 1 {
      assert s[..0] == [];
      assert Digits(DigitsValue(s)) == [s[0]];
    } else {
      var p := s[..|s| - 1];
      assert IsCanonicalDigits(p);
      DigitsValuePositive(p);
      DigitsCanonicalRoundTrip(p);
      var v := DigitsValue(s);
      assert v == DigitsValue(p) * 10 + DigitValue(s[|s| - 1]);
      assert v / 10 == DigitsValue(p) && v % 10 == DigitValue(s[|s| - 1]);
      assert s == p + [s[|s| - 1]];
    }
  }

  /** Python's `str(n)` for an integer `n`. */
  function Decimal(n: int): (r: string)
    ensures |r| >= 1
    ensures n >= 0 ==> IsCanonicalDigits(r)
    ensures n < 0 ==> r[0] == '-' && IsCanonicalDigits(r[1..]) && |r| >= 2
  {
    if n >= 0 then Digits(n) else "-" + Digits(-n)
  }

  /** An optionally signed string of decimal digits. */
  predicate IsIntLiteral(s: string) {
    |s| >= 1 && if s[0] == '-' then IsDigits(s[1..]) else IsDigits(s)
  }

  /** Reads back an optionally signed decimal integer. */
  function ParseInt(s: string): int
    requires IsIntLiteral(s)
  {
    if s[0] == '-' then 0 - DigitsValue(s[1..]) else DigitsValue(s)
  }

  lemma DecimalRoundTrip(n: int)
    ensures ParseInt(Decimal(n)) == n
  {
    if n >= 0 {
      DigitsRoundTrip(n);
    } else {
      assert Decimal(n)[1..] == Digits(-n);
      DigitsRoundTrip(-n);
    }
  }

  /** Python's `format(n, "02d")`: at least two characters, zero-padded on the
      left; a negative number already has two characters with its sign. */
  function Pad2(n: int): (r: string)
    ensures |r| >= 2 && IsIntLiteral(r)
    ensures 0 <= n < 100 ==> |r| == 2 && IsDigits(r)
    ensures (n < 0 || n >= 10) ==> r == Decimal(n)
    ensures 0 <= n < 10 ==> r == ['0', DigitChar(n)]
  {
    if 0 <= n < 10 then "0" + Digits(n) else Decimal(n)
  }

  lemma Pad2RoundTrip(n: int)
    ensures ParseInt(Pad2(n)) == n
  {
    if 0 <= n < 10 {
      var r := ['0', DigitChar(n)];
      assert r[..1] == ['0'] && r[..1][..0] == [];
      assert DigitValue(r[1]) == n;
      assert DigitsValue(r[..1]) == 0;
    } else {
      DecimalRoundTrip(n);
    }
  }

  // ---------------------------------------------------------------------------
  // `str.lstrip(chars)`
  // ---------------------------------------------------------------------------

  /** Python's `s.lstrip(chars)`: removes the longest prefix made only of
      characters in the SET `chars`. */
  function LStripSet(s: string, chars: set<char>): (r: string)
    ensures |r| <= |s| && r == s[|s| - |r|..]
    ensures forall i :: 0 <= i < |s| - |r| ==> s[i] in chars
    ensures r == [] || r[0] !in chars
    decreases |s|
  {
    if s != [] && s[0] in chars then LStripSet(s[1..], chars) else s
  }

  /** The strip is determined by its two defining properties: any cut point `k`
      with only `chars` before it and no `chars` character at it is the one
      LStripSet uses. */
  lemma {:induction false} LStripSetUnique(s: string, chars: set<char>, k: nat)
    requires k <= |s|
    requires forall i :: 0 <= i < k ==> s[i] in chars
    requires k == |s| || s[k] !in chars
    ensures LStripSet(s, chars) == s[k..]
    decreases k
  {
    if k > 0 {
      assert s[0] in chars;
      assert s[1..][k - 1..] == s[k..];
      LStripSetUnique(s[1..], chars, k - 1);
    }
  }

  /** Stripping a second time changes nothing. */
  lemma LStripSetIdempotent(s: string, chars: set<char>)
    ensures LStripSet(LStripSet(s, chars), chars) == LStripSet(s, chars)
  {
    LStripSetUnique(LStripSet(s, chars), chars, 0);
  }

  /** A string whose first character is outside the set is left as it is. */
  lemma LStripSetKeeps(s: string, chars: set<char>)
    requires s != [] && s[0] !in chars
    ensures LStripSet(s, chars) == s
  {
    LStripSetUnique(s, chars, 0);
  }

  /** A prefix made only of stripped characters disappears, and the strip goes
      on into what follows it. */
  lemma {:induction false} LStripSetSkips(a: string, b: string, chars: set<char>)
    requires forall i :: 0 <= i < |a| ==> a[i] in chars
    ensures LStripSet(a + b, chars) == LStripSet(b, chars)
    decreases |a|
  {
    if a != [] {
      assert (a + b)[1..] == a[1..] + b;
      LStripSetSkips(a[1..], b, chars);
    } else {
      assert a + b == b;
    }
  }

  /** When the strip of `a` stops inside `a`, whatever follows `a` is kept. */
  lemma LStripSetPrefix(a: string, b: string, chars: set<char>)
    requires LStripSet(a, chars) != []
    ensures LStripSet(a + b, chars) == LStripSet(a, chars) + b
  {
    var r := LStripSet(a, chars);
    var k := |a| - |r|;
    assert (a + b)[k] == r[0];
    assert (a + b)[k..] == r + b;
    LStripSetUnique(a + b, chars, k);
  }

  // ---------------------------------------------------------------------------
  // `str.capitalize`
  // ---------------------------------------------------------------------------

  predicate IsLowerAscii(c: char) {
    'a' <= c <= 'z'
  }

  predicate IsUpperAscii(c: char) {
    'A' <= c <= 'Z'
  }

  function Upper(c: char): (u: char)
    ensures !IsLowerAscii(u)
    ensures IsLowerAscii(c) ==> IsUpperAscii(u) && u as int == c as int - 32
    ensures !IsLowerAscii(c) ==> u == c
  {
    if IsLowerAscii(c) then (c as int - 32) as char else c
  }

  function Lower(c: char): (l: char)
    ensures !IsUpperAscii(l)
    ensures IsUpperAscii(c) ==> IsLowerAscii(l) && l as int == c as int + 32
    ensures !IsUpperAscii(c) ==> l == c
  {
    if IsUpperAscii(c) then (c as int + 32) as char else c
  }

  /** Upper and Lower undo each other on ASCII letters. */
  lemma CaseRoundTrip(c: char)
    ensures IsLowerAscii(c) ==> Lower(Upper(c)) == c
    ensures IsUpperAscii(c) ==> Upper(Lower(c)) == c
  {
  }

  /** Python's `s.capitalize()` on ASCII letters: the first character upper
      case, every other character lower case, length unchanged. */
  function Capitalize(s: string): (r: string)
    ensures |r| == |s|
    ensures s != [] ==> r[0] == Upper(s[0])
    ensures forall i :: 1 <= i < |s| ==> r[i] == Lower(s[i])
  {
    if s == [] then [] else [Upper(s[0])] + seq(|s| - 1, i requires 0 <= i < |s| - 1 => Lower(s[i + 1]))
  }

  /** A word with no upper-case letter after its first character only has
      its first character changed by capitalize. */
  lemma CapitalizeWord(s: string)
    requires s != []
    requires forall i :: 1 <= i < |s| ==> !IsUpperAscii(s[i])
    ensures Capitalize(s) == [Upper(s[0])] + s[1..]
  {
    var r := Capitalize(s);
    forall i | 1 <= i < |s| ensures r[i] == ([Upper(s[0])] + s[1..])[i] {
    }
  }

  /** What capitalize produces: no lower-case letter first, no upper-case letter after. */
  predicate IsCapitalized(s: string) {
    (s != [] ==> !IsLowerAscii(s[0])) && forall i :: 1 <= i < |s| ==> !IsUpperAscii(s[i])
  }

  /** Capitalize always yields a capitalized string and leaves one unchanged,
      so applying it twice is the same as applying it once. */
  lemma CapitalizeNormalForm(s: string)
    ensures IsCapitalized(Capitalize(s))
    ensures IsCapitalized(s) ==> Capitalize(s) == s
    ensures Capitalize(Capitalize(s)) == Capitalize(s)
  {
  }
}
