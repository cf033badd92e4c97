/** MlBreakEngine: the machine-learned phrase-break engine for Japanese. It slides a
    six-element window over the normalized text of a range, scores the boundary at each
    step with a linear model, and reports the accepted boundaries as native offsets. */
module MlBreak {
  import opened Utf16
  import opened BlockCode
  import opened Elements
  import opened Scoring
  import opened Segmentation
  import opened Vectors

  /** The part of UErrorCode the engine produces or passes on. */
  datatype ErrorCode = ZeroError | IllegalArgumentError | IndexOutOfBoundsError | OtherError {
    predicate Failed() { !ZeroError? }
  }

  class MlBreakEngine {
    const fDigitOrOpenPunctuationOrAlphabetSet: set<int>
    const fClosePunctuationSet: set<int>
    /** The loaded model: feature key to weight. */
    const fModel: Weights
    /** The bias of the model. */
    const fNegativeSum: int
    /** The Unicode character database's block lookup (ublock_getCode). */
    const blockOf: int -> BlockId
    /** The key scheme of the trained model: the feature keys of a window. */
    const featureKeys: seq<ElementValue> -> seq<UString>

    /** Builds an engine over an already loaded model. */
    constructor (digitOrOpenPunctuationOrAlphabetSet: set<int>, closePunctuationSet: set<int>,
                 model: Weights, negativeSum: int,
                 blockOf: int -> BlockId, featureKeys: seq<ElementValue> -> seq<UString>)
      ensures fDigitOrOpenPunctuationOrAlphabetSet == digitOrOpenPunctuationOrAlphabetSet
      ensures fClosePunctuationSet == closePunctuationSet
      ensures fModel == model && fNegativeSum == negativeSum
      ensures this.blockOf == blockOf && this.featureKeys == featureKeys
    {
      fDigitOrOpenPunctuationOrAlphabetSet := digitOrOpenPunctuationOrAlphabetSet;
      fClosePunctuationSet := closePunctuationSet;
      fModel := model;
      fNegativeSum := negativeSum;
      this.blockOf := blockOf;
      this.featureKeys := featureKeys;
    }

    function Config(): Classifier {
      Classifier(blockOf, featureKeys, fModel, fNegativeSum)
    }

    /** The block code of ch: three decimal digits that read back as ch's block id,
        zero-padded in front of its decimal form. */
    function GetUnicodeBlock(ch: int): (s: UString)
      ensures |s| == 3 && AllDigits(s) && ParseDecimal(s) == blockOf(ch)
      ensures |Decimal(blockOf(ch))| <= 3 && s == Zeros(3 - |Decimal(blockOf(ch))|) + Decimal(blockOf(ch))
    {
      ParseBlockDigits(blockOf(ch));
      BlockDigitsPadsDecimal(blockOf(ch));
      BlockDigits(blockOf(ch))
    }

    /** Stores the code point at offset index of inString, with its block code, in slot
        j of the window (the sentinel when index is the end), and returns the offset of
        the code point after it. */
    method SetElement(inString: UString, index: nat, elementList: ElementList, j: nat) returns (next: nat)
      requires elementList.Valid() && j < WindowSize && index <= |inString|
      modifies elementList.Repr
      ensures elementList.Valid() && elementList.Repr == old(elementList.Repr)
      ensures elementList.Contents == old(elementList.Contents)[j := ElementAtOffset(blockOf, inString, index)]
      ensures next == NextOffset(inString, index)
    {
      if index < |inString| {
        var ch := CharAt(inString, index);
        elementList.SetAt(j, ch, GetUnicodeBlock(ch));
        next := index + U16Length(ch);
      } else {
        elementList.SetAt(j, NoCharacter, []);
        next := index;
      }
    }

    /** Fills the window with the first six code points of inString, each with its block
        code, sentinels past the end, and returns how many code units those code points
        take. */
    method InitElementList(inString: UString, elementList: ElementList) returns (codeUnits: nat)
      requires elementList.Valid()
      modifies elementList.Repr
      ensures elementList.Valid() && elementList.Repr == old(elementList.Repr)
      ensures elementList.Contents == ElementsFrom(blockOf, inString, 0, WindowSize)
      ensures codeUnits == Skip(inString, 0, WindowSize) <= |inString|
      ensures codeUnits == TotalLength(Take(CodePointsFrom(inString, 0), WindowSize))
    {
      var index := 0;
      var j := 0;
      while j < WindowSize
        invariant 0 <= j <= WindowSize
        invariant elementList.Valid() && elementList.Repr == old(elementList.Repr)
        invariant index == Skip(inString, 0, j)
        invariant forall k :: 0 <= k < j ==>
                    elementList.Contents[k] == ElementAtOffset(blockOf, inString, Skip(inString, 0, k))
      {
        SkipStep(inString, 0, j);
        index := SetElement(inString, index, elementList, j);
        j := j + 1;
      }
      forall k | 0 <= k < WindowSize
        ensures elementList.Contents[k] == ElementsFrom(blockOf, inString, 0, WindowSize)[k]
      {
        ElementsFromAt(blockOf, inString, 0, WindowSize, k);
      }
      codeUnits := index;
      SkipMeasures(inString, 0, WindowSize);
    }

    /** Scores the window; when the score is positive, records index as a break and
        counts it, and otherwise changes nothing. */
    method EvaluateBreakpoint(elementList: ElementList, index: int, numBreaks: int, boundary: Vector32)
      returns (newNumBreaks: int)
      requires elementList.Valid()
      modifies boundary
      ensures WindowAccepts(Config(), elementList.Contents) ==>
                boundary.elems == old(boundary.elems) + [index] && newNumBreaks == numBreaks + 1
      ensures !WindowAccepts(Config(), elementList.Contents) ==>
                boundary.elems == old(boundary.elems) && newNumBreaks == numBreaks
    {
      var score := Score(fModel, fNegativeSum, featureKeys(elementList.Values()));
      newNumBreaks := numBreaks;
      if score > 0 {
        boundary.AddElement(index);
        newNumBreaks := numBreaks + 1;
      }
    }

    /** One step of the scan: the window moves from the code point at p to the next one,
        reading the code point at codeUts, right after the old window, into the last slot. */
    method Slide(inString: UString, p: nat, codeUts: nat, elementList: ElementList) returns (nextCodeUts: nat)
      requires p < |inString| && elementList.Valid()
      requires elementList.Contents == ElementsFrom(blockOf, inString, p, WindowSize)
      requires codeUts == Skip(inString, p, WindowSize)
      modifies elementList.Repr
      ensures elementList.Valid() && elementList.Repr == old(elementList.Repr)
      ensures elementList.Contents == ElementsFrom(blockOf, inString, NextOffset(inString, p), WindowSize)
      ensures nextCodeUts == Skip(inString, NextOffset(inString, p), WindowSize)
      ensures NextOffset(inString, p) < |inString| ==>
                elementList.elems[0].GetCharacter() == CharAt(inString, NextOffset(inString, p))
    {
      SlideWindow(blockOf, inString, p);
      SkipStep(inString, p, WindowSize);
      elementList.Shift();
      nextCodeUts := SetElement(inString, codeUts, elementList, WindowSize - 1);
      assert Skip(inString, p, WindowSize + 1) == Skip(inString, NextOffset(inString, p), WindowSize);
      ElementsFromAt(blockOf, inString, NextOffset(inString, p), WindowSize, 0);
    }

    /** One round of the scan of divideUpRange: decides the boundary after the code
        point at p, recording it when accepted, and slides the window on by one code
        point. */
    method ScanStep(inString: UString, p: nat, codeUts: nat, elementList: ElementList,
                    boundary: Vector32, numBreaks: int)
      returns (nextCodeUts: nat, newNumBreaks: int)
      requires p < |inString| && NextOffset(inString, p) < |inString|
      requires elementList.Valid() && boundary !in elementList.Repr
      requires elementList.Contents == ElementsFrom(blockOf, inString, p, WindowSize)
      requires codeUts == Skip(inString, p, WindowSize)
      requires boundary.elems + BreaksFrom(Decider(Config(), inString), inString, p) == Breaks(Config(), inString)
      requires numBreaks == |boundary.elems|
      modifies elementList.Repr, boundary
      ensures elementList.Valid() && elementList.Repr == old(elementList.Repr)
      ensures elementList.Contents == ElementsFrom(blockOf, inString, NextOffset(inString, p), WindowSize)
      ensures nextCodeUts == Skip(inString, NextOffset(inString, p), WindowSize)
      ensures boundary.elems + BreaksFrom(Decider(Config(), inString), inString, NextOffset(inString, p)) ==
                Breaks(Config(), inString)
      ensures newNumBreaks == |boundary.elems|
      ensures elementList.elems[0].GetCharacter() == CharAt(inString, NextOffset(inString, p))
    {
      ghost var before := boundary.elems;
      newNumBreaks := EvaluateBreakpoint(elementList, NextOffset(inString, p), numBreaks, boundary);
      assert Decider(Config(), inString)(p) == WindowAccepts(Config(), elementList.Contents);
      CollectStep(Decider(Config(), inString), inString, p, Breaks(Config(), inString), before, boundary.elems);
      nextCodeUts := Slide(inString, p, codeUts, elementList);
    }

    /** The scan of divideUpRange: slides the window over the whole string and collects
        the accepted boundaries, in code-unit offsets, with their count. */
    method Scan(inString: UString) returns (boundary: Vector32, numBreaks: int)
      ensures fresh(boundary)
      ensures boundary.elems == Breaks(Config(), inString) && numBreaks == |boundary.elems|
    {
      boundary := new Vector32();
      numBreaks := 0;
      var elementList := new ElementList();
      var codeUts := InitElementList(inString, elementList);
      var p := 0;
      var index := NextOffset(inString, 0);
      while index < |inString|
        invariant p <= |inString| && index == NextOffset(inString, p)
        invariant fresh(boundary) && fresh(elementList.Repr) && boundary !in elementList.Repr
        invariant elementList.Valid()
        invariant elementList.Contents == ElementsFrom(blockOf, inString, p, WindowSize)
        invariant codeUts == Skip(inString, p, WindowSize)
        invariant boundary.elems + BreaksFrom(Decider(Config(), inString), inString, p) == Breaks(Config(), inString)
        invariant numBreaks == |boundary.elems|
        decreases |inString| - p
      {
        codeUts, numBreaks := ScanStep(inString, p, codeUts, elementList, boundary, numBreaks);
        p := index;
        index := index + U16Length(elementList.elems[0].GetCharacter());
      }
      assert BreaksFrom(Decider(Config(), inString), inString, p) == [];
    }

    /** Finds the breaks of inString, the normalized text of the range, and appends them
        to foundBreaks as native offsets: through inputMap when there is one, and otherwise
        rangeStart plus the offset in inString. A failure
        passed in, a reversed range, or a break that inputMap does not cover ends the
        call with an error; in the last case the breaks before it have been appended. */
    method DivideUpRange(rangeStart: int, rangeEnd: int, foundBreaks: Vector32, inString: UString,
                         inputMap: Option<seq<int>>, status: ErrorCode)
      returns (count: int, statusOut: ErrorCode)
      modifies foundBreaks
      ensures status.Failed() ==>
                statusOut == status && count == 0 && foundBreaks.elems == old(foundBreaks.elems)
      ensures !status.Failed() && rangeStart > rangeEnd ==>
                statusOut == IllegalArgumentError && count == 0 && foundBreaks.elems == old(foundBreaks.elems)
      ensures !status.Failed() && rangeStart <= rangeEnd ==>
                var breaks := Breaks(Config(), inString);
                var n := MappedPrefix(inputMap, breaks);
                && foundBreaks.elems == old(foundBreaks.elems) + Translate(inputMap, rangeStart, breaks[..n])
                && (n == |breaks| ==> statusOut == ZeroError && count == |breaks|)
                && (n < |breaks| ==> statusOut == IndexOutOfBoundsError && count == 0)
      ensures statusOut == ZeroError ==> |foundBreaks.elems| == |old(foundBreaks.elems)| + count
      ensures !status.Failed() && RangeMatches(inputMap, inString, rangeStart, rangeEnd) ==>
                && statusOut == ZeroError
                && (forall i :: |old(foundBreaks.elems)| <= i < |foundBreaks.elems| ==>
                      rangeStart < foundBreaks.elems[i] < rangeEnd)
                && (rangeEnd - rangeStart <= 1 ==> count == 0 && foundBreaks.elems == old(foundBreaks.elems))
    {
      if status.Failed() {
        return 0, status;
      }
      if rangeStart > rangeEnd {
        return 0, IllegalArgumentError;
      }
      var boundary, numBreaks := Scan(inString);
      var breaks: seq<nat> := boundary.elems;
      var appended := AppendNativeOffsets(breaks, inputMap, rangeStart, foundBreaks);
      if RangeMatches(inputMap, inString, rangeStart, rangeEnd) {
        NativeBreaksInsideRange(Config(), inString, inputMap, rangeStart, rangeEnd);
        ShortRangeHasNoBreaks(Config(), inString, inputMap, rangeStart, rangeEnd);
      }
      if appended < |breaks| {
        return 0, IndexOutOfBoundsError;
      }
      return numBreaks, ZeroError;
    }
  }

  /** The last part of divideUpRange: appends the native offset of each break to
      foundBreaks, in order, and stops at the first break that inputMap does not cover.
      Returns how many were appended. */
  method AppendNativeOffsets(breaks: seq<nat>, inputMap: Option<seq<int>>, rangeStart: int, foundBreaks: Vector32)
    returns (appended: nat)
    modifies foundBreaks
    ensures appended == MappedPrefix(inputMap, breaks)
    ensures foundBreaks.elems == old(foundBreaks.elems) + Translate(inputMap, rangeStart, breaks[..appended])
  {
    ghost var n := MappedPrefix(inputMap, breaks);
    appended := 0;
    while appended < |breaks| && Mappable(inputMap, breaks[appended])
      invariant appended <= n
      invariant foundBreaks.elems == old(foundBreaks.elems) + Translate(inputMap, rangeStart, breaks[..appended])
    {
      assert appended < n;
      assert breaks[..appended + 1] == breaks[..appended] + [breaks[appended]];
      foundBreaks.AddElement(NativeOffset(inputMap, rangeStart, breaks[appended]));
      appended := appended + 1;
    }
  }
}
