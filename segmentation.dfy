/** What the break engine computes, stated on values: the six-element window at each
    code point of the normalized string, the boundaries the model accepts, and their
    translation to native offsets. The engine's methods are proved against these. */
module Segmentation {
  import opened Utf16
  import opened BlockCode
  import opened Elements
  import opened Scoring

  datatype Option<T> = None | Some(value: T)

  /** Everything a decision depends on: the block of each code point (the Unicode
      character database), the feature-key scheme of the trained model, its weights
      and its bias. */
  datatype Classifier = Classifier(
    blockOf: int -> BlockId,
    featureKeys: seq<ElementValue> -> seq<UString>,
    weights: Weights,
    bias: int)

  /** The element a code point is stored as: the code point and its block code. */
  function ElementOf(blockOf: int -> BlockId, cp: int): ElementValue {
    ElementValue(cp, BlockDigits(blockOf(cp)))
  }

  /** The element for the code point at offset q, or the sentinel at the end. */
  function ElementAtOffset(blockOf: int -> BlockId, units: UString, q: nat): ElementValue
    requires q <= |units|
  {
    if q < |units| then ElementOf(blockOf, CharAt(units, q)) else Sentinel
  }

  /** The elements of the n code points from offset p on, sentinels past the end. */
  function ElementsFrom(blockOf: int -> BlockId, units: UString, p: nat, n: nat): (w: seq<ElementValue>)
    requires p <= |units|
    ensures |w| == n
    decreases n
  {
    if n == 0 then [] else [ElementAtOffset(blockOf, units, p)] + ElementsFrom(blockOf, units, NextOffset(units, p), n - 1)
  }

  /** Slot k of a window holds the element at the offset k code points further on. */
  lemma {:induction false} ElementsFromAt(blockOf: int -> BlockId, units: UString, p: nat, n: nat, k: nat)
    requires p <= |units| && k < n
    ensures ElementsFrom(blockOf, units, p, n)[k] == ElementAtOffset(blockOf, units, Skip(units, p, k))
    decreases k
  {
    if k > 0 {
      ElementsFromAt(blockOf, units, NextOffset(units, p), n - 1, k - 1);
      if p == |units| {
        SkipAtEnd(units, k);
      }
    }
  }

  lemma SkipAtEnd(units: UString, k: nat)
    ensures Skip(units, |units|, k) == |units|
  {
  }

  /** A window holds one element per code point, each with its own block code, and
      sentinels once the string has run out. */
  lemma WindowHoldsCodePoints(blockOf: int -> BlockId, units: UString, p: nat, k: nat)
    requires p <= |units| && k < WindowSize
    ensures var cps := CodePointsFrom(units, p);
            ElementsFrom(blockOf, units, p, WindowSize)[k] ==
              if k < |cps| then ElementValue(cps[k], BlockDigits(blockOf(cps[k]))) else Sentinel
  {
    ElementsFromAt(blockOf, units, p, WindowSize, k);
    SkipLocatesCodePoint(units, p, k);
  }

  /** A window of n + 1 elements is the window of n with the next element appended. */
  lemma {:induction false} ElementsFromSnoc(blockOf: int -> BlockId, units: UString, p: nat, n: nat)
    requires p <= |units|
    ensures ElementsFrom(blockOf, units, p, n + 1) ==
            ElementsFrom(blockOf, units, p, n) + [ElementAtOffset(blockOf, units, Skip(units, p, n))]
    decreases n
  {
    if n > 0 {
      ElementsFromSnoc(blockOf, units, NextOffset(units, p), n - 1);
      if p == |units| {
        SkipAtEnd(units, n);
      }
    }
  }

  /** Sliding: the window at the next code point is this window without its first
      element, followed by the element right after this window's last code point. */
  lemma SlideWindow(blockOf: int -> BlockId, units: UString, p: nat)
    requires p < |units|
    ensures ElementsFrom(blockOf, units, NextOffset(units, p), WindowSize) ==
            ElementsFrom(blockOf, units, p, WindowSize)[1..] + [ElementAtOffset(blockOf, units, Skip(units, p, WindowSize))]
  {
    ElementsFromSnoc(blockOf, units, p, WindowSize);
  }

  predicate WindowAccepts(c: Classifier, window: seq<ElementValue>) {
    Accepts(c.weights, c.bias, c.featureKeys(window))
  }

  /** The decision the model makes about the boundary after the code point at offset
      p: the window that starts at p scores positive. */
  function Decider(c: Classifier, units: UString): nat -> bool {
    (p: nat) => p <= |units| && WindowAccepts(c, ElementsFrom(c.blockOf, units, p, WindowSize))
  }

  /** The accepted boundaries after the code point at offset p: the boundary after
      each code point that has another one after it, in order, when accept holds at
      that code point. */
  function BreaksFrom(accept: nat -> bool, units: UString, p: nat): (r: seq<nat>)
    requires p <= |units|
    ensures forall i :: 0 <= i < |r| ==> p < r[i] < |units|
    ensures forall i, j :: 0 <= i < j < |r| ==> r[i] < r[j]
    decreases |units| - p
  {
    if p == |units| then []
    else
      var q := NextOffset(units, p);
      if q == |units| then []
      else (if accept(p) then [q] else []) + BreaksFrom(accept, units, q)
  }

  /** The accepted boundaries of a whole normalized string, in code-unit offsets. */
  function Breaks(c: Classifier, units: UString): seq<nat> {
    BreaksFrom(Decider(c, units), units, 0)
  }

  /** One step of a scan that collects the breaks in order: when the boundaries
      collected so far followed by those after the code point at p are all the breaks,
      so are the boundaries collected after deciding the boundary after p, followed by
      those after the next code point. */
  lemma {:induction false} CollectStep(accept: nat -> bool, units: UString, p: nat,
                                       all: seq<int>, before: seq<int>, after: seq<int>)
    requires p < |units| && NextOffset(units, p) < |units|
    requires before + BreaksFrom(accept, units, p) == all
    requires after == before + (if accept(p) then [NextOffset(units, p)] else [])
    ensures after + BreaksFrom(accept, units, NextOffset(units, p)) == all
  {
    var q := NextOffset(units, p);
    var accepted: seq<int> := if accept(p) then [q] else [];
    var rest: seq<int> := BreaksFrom(accept, units, q);
    assert BreaksFrom(accept, units, p) == accepted + rest;
    assert after + rest == before + (accepted + rest);
  }

  /** The boundary k + 1 code points after p is collected exactly when accept holds at
      the code point k code points after p. */
  lemma {:induction false} BreakAtCodePoint(accept: nat -> bool, units: UString, p: nat, k: nat)
    requires p <= |units| && k + 1 < |CodePointsFrom(units, p)|
    ensures Skip(units, p, k + 1) in BreaksFrom(accept, units, p) <==> accept(Skip(units, p, k))
    decreases k
  {
    var q := NextOffset(units, p);
    assert CodePointsFrom(units, p) == [CharAt(units, p)] + CodePointsFrom(units, q);
    SkipBoundedByCount(units, q, 0);
    var rest := BreaksFrom(accept, units, q);
    if k == 0 {
      assert q !in rest;
    } else {
      SkipBoundedByCount(units, q, k - 1);
      assert q < Skip(units, q, k);
      BreakAtCodePoint(accept, units, q, k - 1);
    }
  }

  /** The boundary after the (k+1)-th code point of a string is a break exactly when the
      window that starts at its (k+1)-th code point scores positive. */
  lemma BreakWhereWindowScores(c: Classifier, units: UString, k: nat)
    requires k + 1 < CountChar32(units)
    ensures Skip(units, 0, k + 1) in Breaks(c, units) <==>
            WindowAccepts(c, ElementsFrom(c.blockOf, units, Skip(units, 0, k), WindowSize))
  {
    BreakAtCodePoint(Decider(c, units), units, 0, k);
  }

  /** Every accepted boundary is the boundary after some code point that is followed
      by another one: it lies k code points on, for some k between 1 and the number of
      code points less one. */
  lemma {:induction false} BreaksAreCodePointBoundaries(accept: nat -> bool, units: UString, p: nat, b: nat)
    requires p <= |units| && b in BreaksFrom(accept, units, p)
    ensures exists k :: 1 <= k < |CodePointsFrom(units, p)| && b == Skip(units, p, k)
    decreases |units| - p
  {
    var q := NextOffset(units, p);
    assert CodePointsFrom(units, p) == [CharAt(units, p)] + CodePointsFrom(units, q);
    if b == q {
      assert Skip(units, p, 1) == q;
      SkipBoundedByCount(units, p, 1);
    } else {
      assert b in BreaksFrom(accept, units, q);
      BreaksAreCodePointBoundaries(accept, units, q, b);
      var k :| 1 <= k < |CodePointsFrom(units, q)| && b == Skip(units, q, k);
      assert Skip(units, p, k + 1) == Skip(units, q, k);
    }
  }

  /** There is at most one boundary between each two consecutive code points, so a
      text of n code points has at most n - 1 breaks, and one of at most one code
      point has none. */
  lemma {:induction false} BreakCount(accept: nat -> bool, units: UString, p: nat)
    requires p <= |units|
    ensures |BreaksFrom(accept, units, p)| + 1 <= |CodePointsFrom(units, p)| || BreaksFrom(accept, units, p) == []
    decreases |units| - p
  {
    if p < |units| {
      var q := NextOffset(units, p);
      if q < |units| {
        BreakCount(accept, units, q);
      }
    }
  }

  /** Whether normalized offset b has a native offset: always without an index map,
      and with one when b is inside it. */
  predicate Mappable(inputMap: Option<seq<int>>, b: nat) {
    inputMap.None? || b < |inputMap.value|
  }

  /** The native offset of normalized offset b. The normalized string is the text from
      rangeStart on, so without an index map b lies b code units after rangeStart. */
  function NativeOffset(inputMap: Option<seq<int>>, rangeStart: int, b: nat): int
    requires Mappable(inputMap, b)
  {
    match inputMap
    case None => rangeStart + b
    case Some(m) => m[b]
  }

  /** How many leading entries of bs can be translated before the first that cannot. */
  function MappedPrefix(inputMap: Option<seq<int>>, bs: seq<nat>): (n: nat)
    ensures n <= |bs|
    ensures forall i :: 0 <= i < n ==> Mappable(inputMap, bs[i])
    ensures n < |bs| ==> !Mappable(inputMap, bs[n])
  {
    if bs == [] || !Mappable(inputMap, bs[0]) then 0 else 1 + MappedPrefix(inputMap, bs[1..])
  }

  /** The native offsets of a list of normalized offsets, entry by entry. */
  function Translate(inputMap: Option<seq<int>>, rangeStart: int, bs: seq<nat>): (r: seq<int>)
    requires forall i :: 0 <= i < |bs| ==> Mappable(inputMap, bs[i])
  {
    seq(|bs|, i requires 0 <= i < |bs| => NativeOffset(inputMap, rangeStart, bs[i]))
  }

  /** Without an index map every break translates, and for a range that starts at 0 the
      native offsets are the normalized offsets. */
  lemma TranslateIdentity(bs: seq<nat>)
    ensures MappedPrefix(None, bs) == |bs|
    ensures Translate(None, 0, bs) == bs
  {
  }

  predicate StrictlyIncreasing(s: seq<int>) {
    forall i, j :: 0 <= i < j < |s| ==> s[i] < s[j]
  }

  /** The normalized string is the text of the range: without an index map it has as many
      code units as the range, and an index map gives a native offset to every offset of
      the string, its end included, rising strictly from rangeStart to rangeEnd. */
  predicate RangeMatches(inputMap: Option<seq<int>>, units: UString, rangeStart: int, rangeEnd: int) {
    match inputMap
    case None => |units| == rangeEnd - rangeStart
    case Some(m) =>
      |m| == |units| + 1 && StrictlyIncreasing(m) && m[0] == rangeStart && m[|units|] == rangeEnd
  }

  /** When the normalized string is the text of the range, every break of the string
      translates, and the native breaks rise strictly and lie strictly inside the range. */
  lemma NativeBreaksInsideRange(c: Classifier, units: UString, inputMap: Option<seq<int>>,
                                rangeStart: int, rangeEnd: int)
    requires RangeMatches(inputMap, units, rangeStart, rangeEnd)
    ensures var bs := Breaks(c, units);
            && MappedPrefix(inputMap, bs) == |bs|
            && StrictlyIncreasing(Translate(inputMap, rangeStart, bs))
            && forall i :: 0 <= i < |bs| ==> rangeStart < Translate(inputMap, rangeStart, bs)[i] < rangeEnd
  {
    var bs := Breaks(c, units);
    assert forall i :: 0 <= i < |bs| ==> Mappable(inputMap, bs[i]);
  }

  /** A range of at most one native code unit has no break. */
  lemma {:induction false} ShortRangeHasNoBreaks(c: Classifier, units: UString, inputMap: Option<seq<int>>,
                                                 rangeStart: int, rangeEnd: int)
    requires RangeMatches(inputMap, units, rangeStart, rangeEnd)
    ensures rangeEnd - rangeStart <= 1 ==> Breaks(c, units) == []
  {
    var bs := Breaks(c, units);
    if bs != [] {
      NativeBreaksInsideRange(c, units, inputMap, rangeStart, rangeEnd);
      assert rangeStart < Translate(inputMap, rangeStart, bs)[0] < rangeEnd;
    }
  }
}
