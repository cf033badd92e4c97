/** The block code of a character: the enumeration id of its Unicode block (ICU's
    UBlockCode) written as exactly three decimal digits, zero-padded on the left. */
module BlockCode {
  import opened Utf16

  /** A block enumeration id; the three-digit format holds every id below 1000. */
  type BlockId = b: nat | b < 1000

  const Zero: CodeUnit := 0x30

  predicate IsDigit(u: CodeUnit) { Zero <= u <= Zero + 9 }

  predicate AllDigits(s: UString) {
    forall i :: 0 <= i < |s| ==> IsDigit(s[i])
  }

  function DigitChar(d: nat): (u: CodeUnit)
    requires d < 10
  {
    Zero + d
  }

  function DigitValue(u: CodeUnit): nat
    requires IsDigit(u)
  {
    u - Zero
  }

  /** n written in decimal with no leading zero ("0" for zero). */
  function Decimal(n: nat): (s: UString)
    ensures 1 <= |s| && AllDigits(s)
    ensures |s| > 1 ==> s[0] != Zero
  {
    if n < 10 then [DigitChar(n)] else Decimal(n / 10) + [DigitChar(n % 10)]
  }

  /** The value of a string of decimal digits; leading zeros add nothing. */
  function ParseDecimal(s: UString): nat
    requires AllDigits(s)
  {
    if s == [] then 0 else ParseDecimal(s[..|s| - 1]) * 10 + DigitValue(s[|s| - 1])
  }

  function Zeros(n: nat): (s: UString)
    ensures |s| == n && forall i :: 0 <= i < n ==> s[i] == Zero
  {
    if n == 0 then [] else [Zero] + Zeros(n - 1)
  }

  /** The block code of getUnicodeBlock: three digits, the decimal form of the block id
      left-padded with '0' (see BlockDigitsPadsDecimal). */
  function BlockDigits(b: BlockId): (s: UString)
    ensures |s| == 3
  {
    [DigitChar(b / 100), DigitChar(b / 10 % 10), DigitChar(b % 10)]
  }

  /** The three digits are the decimal form of the id with as many '0's in front as it
      takes to make three. */
  lemma BlockDigitsPadsDecimal(b: BlockId)
    ensures AllDigits(BlockDigits(b))
    ensures |Decimal(b)| <= 3 && BlockDigits(b) == Zeros(3 - |Decimal(b)|) + Decimal(b)
  {
    if b < 10 {
      assert Decimal(b) == [DigitChar(b)];
    } else if b < 100 {
      assert Decimal(b / 10) == [DigitChar(b / 10)];
    } else {
      assert Decimal(b / 100) == [DigitChar(b / 100)];
      assert Decimal(b / 10) == Decimal(b / 100) + [DigitChar(b / 10 % 10)];
    }
  }

  /** Parsing a decimal rendering gives the number back. */
  lemma {:induction false} ParseDecimalOfDecimal(n: nat)
    ensures ParseDecimal(Decimal(n)) == n
  {
    if n >= 10 {
      var s := Decimal(n);
      assert s[..|s| - 1] == Decimal(n / 10);
      ParseDecimalOfDecimal(n / 10);
    }
  }

  /** Leading zeros do not change the value of a digit string. */
  lemma {:induction false} ParseDecimalIgnoresPadding(k: nat, s: UString)
    requires AllDigits(s)
    ensures AllDigits(Zeros(k) + s)
    ensures ParseDecimal(Zeros(k) + s) == ParseDecimal(s)
    decreases |s|
  {
    var z := Zeros(k);
    if s == [] {
      assert z + s == z;
      ZerosParseToZero(k);
    } else {
      var init := s[..|s| - 1];
      assert (z + s)[..|z + s| - 1] == z + init;
      ParseDecimalIgnoresPadding(k, init);
    }
  }

  lemma {:induction false} ZerosParseToZero(k: nat)
    ensures ParseDecimal(Zeros(k)) == 0
  {
    if k > 0 {
      var z := Zeros(k);
      assert z[..k - 1] == Zeros(k - 1);
      ZerosParseToZero(k - 1);
    }
  }

  /** Stripping the padding and parsing the digits gives back the block id. */
  lemma ParseBlockDigits(b: BlockId)
    ensures AllDigits(BlockDigits(b)) && ParseDecimal(BlockDigits(b)) == b
  {
    BlockDigitsPadsDecimal(b);
    var d := Decimal(b);
    ParseDecimalIgnoresPadding(3 - |d|, d);
    ParseDecimalOfDecimal(b);
  }

  /** Every three-digit string is the block code of exactly one id: the one it parses to. */
  lemma BlockDigitsOfParse(s: UString)
    requires |s| == 3 && AllDigits(s)
    ensures ParseDecimal(s) < 1000
    ensures BlockDigits(ParseDecimal(s)) == s
  {
    var d0, d1, d2 := DigitValue(s[0]), DigitValue(s[1]), DigitValue(s[2]);
    assert s[..2][..1] == [s[0]] && s[..2][..0] == [];
    assert ParseDecimal([s[0]]) == d0;
    assert ParseDecimal(s[..2]) == d0 * 10 + d1;
    var n := ParseDecimal(s);
    assert n == (d0 * 10 + d1) * 10 + d2;
    SplitDigit(d0 * 10 + d1, d2);
    SplitDigit(d0, d1);
    assert n / 10 == d0 * 10 + d1 && n % 10 == d2;
    assert n / 100 == d0 by {
      DivDiv(n);
    }
  }

  lemma SplitDigit(x: nat, y: nat)
    requires y < 10
    ensures (x * 10 + y) / 10 == x && (x * 10 + y) % 10 == y
  {
  }

  lemma DivDiv(n: nat)
    ensures n / 100 == n / 10 / 10
  {
    var q, r := n / 10 / 10, n / 10 % 10;
    assert n / 10 == q * 10 + r;
    assert n == (q * 10 + r) * 10 + n % 10;
    assert n == q * 100 + (r * 10 + n % 10);
  }
}
