/** UTF-16 code units and the decoding of code points from them, following the
    UTF-16 encoding form of section 3.9 of the Unicode Standard: a lead surrogate
    followed by a trail surrogate is one supplementary code point; every other code
    unit, an unpaired surrogate included, stands for itself (ICU's char32At). */
module Utf16 {

  type CodeUnit = u: int | 0 <= u < 0x1_0000

  /** The contents of a UnicodeString: UTF-16 code units. */
  type UString = seq<CodeUnit>

  const MaxCodePoint: int := 0x10FFFF

  predicate IsLead(u: int) { 0xD800 <= u <= 0xDBFF }

  predicate IsTrail(u: int) { 0xDC00 <= u <= 0xDFFF }

  /** A code point that UTF-16 can encode: not above U+10FFFF and not a surrogate. */
  predicate IsScalarValue(cp: int) {
    0 <= cp <= MaxCodePoint && !(0xD800 <= cp <= 0xDFFF)
  }

  /** ICU's U16_LENGTH: the number of code units a code point occupies. */
  function U16Length(cp: int): nat {
    if cp <= 0xFFFF then 1 else 2
  }

  /** Whether the code unit at i opens a surrogate pair. */
  predicate StartsPair(units: UString, i: nat)
    requires i < |units|
  {
    IsLead(units[i]) && i + 1 < |units| && IsTrail(units[i + 1])
  }

  /** The number of code units of the code point starting at i. */
  function CharLength(units: UString, i: nat): nat
    requires i < |units|
  {
    if StartsPair(units, i) then 2 else 1
  }

  /** The code point that starts at code unit i (char32At). */
  function CharAt(units: UString, i: nat): (cp: int)
    requires i < |units|
    ensures 0 <= cp <= MaxCodePoint
    ensures U16Length(cp) == CharLength(units, i)
    ensures i + U16Length(cp) <= |units|
  {
    if StartsPair(units, i) then
      0x10000 + (units[i] as int - 0xD800) * 0x400 + (units[i + 1] as int - 0xDC00)
    else
      units[i]
  }

  /** The offset right after the code point at p, or p itself at the end. */
  function NextOffset(units: UString, p: nat): (q: nat)
    requires p <= |units|
    ensures q <= |units|
    ensures p < |units| ==> p < q
  {
    if p < |units| then p + CharLength(units, p) else p
  }

  /** The code points of units from offset p on. */
  function CodePointsFrom(units: UString, p: nat): (cps: seq<int>)
    requires p <= |units|
    ensures |cps| <= |units| - p <= 2 * |cps|
    ensures forall k :: 0 <= k < |cps| ==> 0 <= cps[k] <= MaxCodePoint
    decreases |units| - p
  {
    if p == |units| then [] else [CharAt(units, p)] + CodePointsFrom(units, NextOffset(units, p))
  }

  /** UnicodeString::countChar32. */
  function CountChar32(units: UString): nat {
    |CodePointsFrom(units, 0)|
  }

  /** The offset reached by stepping over n code points from p, stopping at the end. */
  function Skip(units: UString, p: nat, n: nat): (q: nat)
    requires p <= |units|
    ensures p <= q <= |units|
    ensures n > 0 && p < |units| ==> p < q
    decreases n
  {
    if n == 0 || p == |units| then p else Skip(units, NextOffset(units, p), n - 1)
  }

  /** The number of code units a sequence of code points occupies. */
  function TotalLength(cps: seq<int>): nat {
    if cps == [] then 0 else U16Length(cps[0]) + TotalLength(cps[1..])
  }

  /** The first n entries of s, or all of s when it is shorter. */
  function Take<T>(s: seq<T>, n: nat): seq<T> {
    if n <= |s| then s[..n] else s
  }

  /** Encoding of one code point, the inverse of CharAt. */
  function Encode(cp: int): (s: UString)
    requires IsScalarValue(cp)
    ensures |s| == U16Length(cp)
  {
    if cp <= 0xFFFF then [cp]
    else [0xD800 + (cp - 0x10000) / 0x400, 0xDC00 + (cp - 0x10000) % 0x400]
  }

  function EncodeAll(cps: seq<int>): (s: UString)
    requires forall k :: 0 <= k < |cps| ==> IsScalarValue(cps[k])
    ensures |s| == TotalLength(cps)
  {
    if cps == [] then [] else Encode(cps[0]) + EncodeAll(cps[1..])
  }

  /** Decoding the encoding of a scalar value gives it back, whatever follows it. */
  lemma DecodeEncode(cp: int, rest: UString)
    requires IsScalarValue(cp)
    ensures |Encode(cp) + rest| > 0
    ensures CharAt(Encode(cp) + rest, 0) == cp
    ensures CharLength(Encode(cp) + rest, 0) == |Encode(cp)|
  {
    var s := Encode(cp) + rest;
    if cp > 0xFFFF {
      var v := cp - 0x10000;
      assert v == (v / 0x400) * 0x400 + v % 0x400;
      assert StartsPair(s, 0);
    } else {
      assert !IsLead(s[0]);
    }
  }

  /** Decoding does not depend on what precedes the decoding position. */
  lemma {:induction false} CodePointsAfterPrefix(a: UString, b: UString, i: nat)
    requires i <= |b|
    ensures CodePointsFrom(a + b, |a| + i) == CodePointsFrom(b, i)
    decreases |b| - i
  {
    var ab := a + b;
    if i < |b| {
      assert ab[|a| + i] == b[i];
      assert |a| + i + 1 < |ab| ==> ab[|a| + i + 1] == b[i + 1];
      assert StartsPair(ab, |a| + i) == StartsPair(b, i);
      assert CharAt(ab, |a| + i) == CharAt(b, i);
      CodePointsAfterPrefix(a, b, i + CharLength(b, i));
    }
  }

  /** Round trip: decoding an encoded sequence of scalar values gives it back. */
  lemma {:induction false} DecodeEncodeAll(cps: seq<int>)
    requires forall k :: 0 <= k < |cps| ==> IsScalarValue(cps[k])
    ensures CodePointsFrom(EncodeAll(cps), 0) == cps
  {
    if cps != [] {
      var head, rest := Encode(cps[0]), EncodeAll(cps[1..]);
      DecodeEncode(cps[0], rest);
      calc {
        CodePointsFrom(head + rest, 0);
        [cps[0]] + CodePointsFrom(head + rest, |head|);
        { CodePointsAfterPrefix(head, rest, 0); }
        [cps[0]] + CodePointsFrom(rest, 0);
        { DecodeEncodeAll(cps[1..]); }
        [cps[0]] + cps[1..];
      }
    }
  }

  /** Entry k of the decoded code points starts at Skip(units, p, k), and past the
      last one Skip stops at the end of units. */
  lemma {:induction false} SkipLocatesCodePoint(units: UString, p: nat, k: nat)
    requires p <= |units|
    ensures k < |CodePointsFrom(units, p)| ==>
              Skip(units, p, k) < |units| && CharAt(units, Skip(units, p, k)) == CodePointsFrom(units, p)[k]
    ensures k >= |CodePointsFrom(units, p)| ==> Skip(units, p, k) == |units|
    decreases k
  {
    if p < |units| && k > 0 {
      SkipLocatesCodePoint(units, NextOffset(units, p), k - 1);
    }
  }

  /** Skip measures code points: stepping over n code points from p covers exactly the
      code units that the first n decoded code points occupy. */
  lemma {:induction false} SkipMeasures(units: UString, p: nat, n: nat)
    requires p <= |units|
    ensures Skip(units, p, n) == p + TotalLength(Take(CodePointsFrom(units, p), n))
    decreases n
  {
    var cps := CodePointsFrom(units, p);
    if n == 0 {
      assert Take(cps, n) == [];
    } else if p == |units| {
      assert Take(cps, n) == [];
    } else {
      var q := NextOffset(units, p);
      SkipMeasures(units, q, n - 1);
      var t := Take(cps, n);
      assert t[0] == CharAt(units, p);
      assert t[1..] == Take(CodePointsFrom(units, q), n - 1);
    }
  }

  /** Stepping over one more code point moves one code point further. */
  lemma {:induction false} SkipStep(units: UString, p: nat, n: nat)
    requires p <= |units|
    ensures Skip(units, p, n + 1) == NextOffset(units, Skip(units, p, n))
    decreases n
  {
    if n > 0 && p < |units| {
      SkipStep(units, NextOffset(units, p), n - 1);
    }
  }

  /** Skip stays inside units exactly when fewer code points are stepped over than
      there are from p on. */
  lemma {:induction false} SkipBoundedByCount(units: UString, p: nat, n: nat)
    requires p <= |units|
    ensures Skip(units, p, n) < |units| <==> n < |CodePointsFrom(units, p)|
    decreases n
  {
    if p < |units| && n > 0 {
      SkipBoundedByCount(units, NextOffset(units, p), n - 1);
    }
  }
}
