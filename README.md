# ICU machine-learned phrase-break engine, modelled in Dafny

This project models the core of ICU's `MlBreakEngine`, the break engine that finds phrase
boundaries in Japanese text with a linear model. It also models the `Element` record the
engine keeps in its sliding window. The model covers:

- **`Element`** (`element.dfy`). A class with a character, a four-slot `char16_t` buffer
  (`ublock`: three digits and a terminating NUL) and a length. `SetCharAndUblock` stores a
  character and its block code, and the getters read them back.
- **The element list.** The engine's window of six `Element`s, which the model keeps in
  one object together with its abstract contents. Slots are overwritten in place with
  `setCharAndUblock`. The header does not show how the slide moves elements: the model
  rotates the slots one place to the front, so the first element goes to the last slot,
  where it is overwritten before it is read.
- **`getUnicodeBlock`** (`block_code.dfy`, `MlBreak.MlBreakEngine.GetUnicodeBlock`). A
  character's Unicode block id becomes exactly three decimal digits, left-padded with
  `'0'`. Parsing the digits gives the id back, and every three-digit string is the code of
  exactly one id.
- **`initElementList`** (`utf16.dfy`, `MlBreak.MlBreakEngine.InitElementList`). It decodes
  the first six code points of the normalized UTF-16 string, following the UTF-16 encoding
  form in section 3.9 of the Unicode Standard. It stores each code point with its block
  code in a slot of the window and returns the number of code units those code points
  take. When the text has fewer than six code points, the remaining slots hold a sentinel:
  no character (`U_SENTINEL`, -1) and no block code.
- **`evaluateBreakpoint`** (`scoring.dfy`, `MlBreak.MlBreakEngine.EvaluateBreakpoint`). The
  score is the bias `fNegativeSum` plus the weights in `fModel` of the window's feature
  keys; a key the model does not hold weighs 0. A boundary is accepted when the score is
  positive. An accepted boundary's index is appended to the boundary vector and the break
  count goes up by one; otherwise nothing changes.
- **`divideUpRange`** (`segmentation.dfy`, `MlBreak.MlBreakEngine.DivideUpRange`). The
  window slides over the normalized string one code point at a time, and the boundary after
  every code point that has a successor is scored. The accepted boundaries are collected in
  order, mapped through `inputMap` to native offsets, and appended to `foundBreaks`. The header
  describes `inString` as the text from `rangeStart` to `rangeEnd`, so without a map a
  break's native offset is `rangeStart` plus its offset in `inString`; for a range that
  starts at 0 that is the identity. The count is returned.

What the engine computes is stated on values in `Segmentation`:

- `ElementsFrom` is the window at a code point.
- `Breaks` is the list of accepted boundaries of a string.
- `Translate` maps the boundaries to native offsets.

The methods are proved against these functions, and the lemmas beside them state what the
result means:

- each break is the boundary after a code point;
- a boundary is a break exactly when its window scores positive;
- a text of n code points has at most n - 1 breaks;
- when `inString` is the text of the range (without a map it has `rangeEnd - rangeStart`
  code units; a map rises strictly from `rangeStart` to `rangeEnd`), native breaks rise and
  lie strictly inside the range, and a range of at most one code unit has no break.

The engine's fields are `const`. In C++, `divideUpRange`, `getUnicodeBlock`,
`initElementList` and `evaluateBreakpoint` are `const` member functions. `loadMLModel`,
which fills the model, is not modelled: the model and its bias are given to the
constructor. So no modelled call can change the model, the bias or the two character
sets.

Conventions the header leaves open:

- **Window alignment.** This is the model's own convention: the window that starts at
  code point k scores the boundary right after code point k. That boundary's index is the
  code-unit offset of code point k + 1. The first window starts at the first code point of
  the range, so no window starts with sentinels standing for text before `rangeStart`.
- **Block lookup and feature keys.** The Unicode block lookup is the function `blockOf`,
  from code point to an id below 1000. The model's feature-key scheme is the function
  `featureKeys`, from the six window values to a list of keys. Both are fixed when the
  engine is built.
- **Error handling.**
  - A status that already holds a failure makes `divideUpRange` return 0 and append
    nothing.
  - `rangeStart > rangeEnd` is an illegal-argument error.
  - A break that the index map does not cover is an index-out-of-bounds error. The breaks
    before it stay appended, and 0 is returned.
- **Unpaired surrogates.** An unpaired surrogate code unit decodes to itself and takes one
  unit, as `UnicodeString::char32At` does.

`fixture.dfy` gives a worked example. A model with the weights "before = A" → 1 and
"after = B" → 1 and bias -1 accepts exactly one boundary in "ABX": the one between A and
B.

## Model

| member | source | states |
|---|---|---|
| Elements.Element.constructor | icu4c/source/common/mlbe.h:21-24 | a new element holds an empty block code, terminated, in a fresh four-slot buffer |
| Elements.Element.SetCharAndUblock | icu4c/source/common/mlbe.h:26-32 | afterwards `GetCharacter()` is the character stored, `GetLength()` is the code's length, and the first `GetLength()` slots of `GetUblock()` are exactly the code |
| Elements.Element.GetCharacter | icu4c/source/common/mlbe.h:34-39 | the getter returns the character the element holds |
| Elements.Element.GetUblock | icu4c/source/common/mlbe.h:41-46 | the getter returns the four-slot buffer, whose slots before the length are the block code and whose slot at the length is the NUL terminator |
| Elements.Element.GetLength | icu4c/source/common/mlbe.h:48-58 | the length is at most three, it is below the buffer's four slots, and the slot after the digits holds the NUL terminator |
| Elements.ElementList.SetAt | icu4c/source/common/mlbe.h:32 | `setCharAndUblock` on one slot of the window: that slot takes the new value and every other slot keeps its value |
| Elements.ElementList.Shift | icu4c/source/common/mlbe.h:83-97 | the slide's move of the window: the contents become the old contents without the first slot, followed by it in the last slot |
| Elements.ElementList.Values | icu4c/source/common/mlbe.h:132 | reading the six elements gives the window's abstract contents |
| MlBreak.MlBreakEngine.constructor | icu4c/source/common/mlbe.h:74-75 | the engine keeps the two character sets, the model and its bias exactly as given |
| MlBreak.MlBreakEngine.GetUnicodeBlock | icu4c/source/common/mlbe.h:107-116 | the result is three decimal digits that parse to the character's block id, and it is that id's decimal form with as many `'0'`s in front as make three |
| BlockCode.BlockDigits | icu4c/source/common/mlbe.h:112-113 | a block code is exactly three code units; what they are is stated by `BlockDigitsPadsDecimal` |
| BlockCode.BlockDigitsPadsDecimal | icu4c/source/common/mlbe.h:112-113 | the three-digit code is all digits and is the id's decimal form padded on the left with `'0'` |
| BlockCode.ParseBlockDigits | icu4c/source/common/mlbe.h:112-113 | stripping the padding and parsing the three digits gives back the block id |
| BlockCode.BlockDigitsOfParse | icu4c/source/common/mlbe.h:112-113 | every string of three digits is the code of the id it parses to, so the code is one-to-one |
| BlockCode.ParseDecimalOfDecimal | icu4c/source/common/mlbe.h:112-113 | parsing the decimal form of a number gives the number |
| BlockCode.ParseDecimalIgnoresPadding | icu4c/source/common/mlbe.h:112-113 | leading `'0'`s do not change the value of a digit string |
| BlockCode.Decimal | icu4c/source/common/mlbe.h:112-113 | a number's decimal form is nonempty, all digits and without a leading zero |
| MlBreak.MlBreakEngine.SetElement | icu4c/source/common/mlbe.h:119-127 | one slot takes the element for the code point at the given offset, or the sentinel at the end of the text; the other slots are unchanged; the returned offset is the one after that code point |
| MlBreak.MlBreakEngine.InitElementList | icu4c/source/common/mlbe.h:119-127 | the window holds the elements of the first six code points, sentinels past the end; the result is the number of code units those code points take, which is at most the string's length |
| Segmentation.ElementsFrom | icu4c/source/common/mlbe.h:122 | a window always has the number of slots asked for |
| Segmentation.WindowHoldsCodePoints | icu4c/source/common/mlbe.h:122 | slot k of the window holds the k-th decoded code point with its own block code, or the sentinel when the text has fewer code points |
| Segmentation.ElementsFromAt | icu4c/source/common/mlbe.h:122 | slot k of a window holds the element at the offset k code points further on |
| Segmentation.SlideWindow | icu4c/source/common/mlbe.h:83-97 | the window at the next code point is this window without its first slot, followed by the element right after its last code point |
| Utf16.CharAt | icu4c/source/common/mlbe.h:124 | the decoded code point is at most U+10FFFF, and its UTF-16 length is the number of units it was read from |
| Utf16.CodePointsFrom | icu4c/source/common/mlbe.h:124 | a string of n code units decodes to between n/2 and n code points, all in the code space |
| Utf16.SkipMeasures | icu4c/source/common/mlbe.h:124 | stepping over n code points covers exactly the code units the first n decoded code points occupy |
| Utf16.SkipBoundedByCount | icu4c/source/common/mlbe.h:124 | stepping over n code points stays inside the string exactly when the string has more than n code points |
| Utf16.SkipLocatesCodePoint | icu4c/source/common/mlbe.h:124 | the k-th decoded code point starts where stepping over k code points ends, and stepping past the last one ends at the string's end |
| Utf16.SkipStep | icu4c/source/common/mlbe.h:124 | stepping over n + 1 code points is stepping over n and then over one more |
| Utf16.DecodeEncode | icu4c/source/common/mlbe.h:124 | decoding the UTF-16 encoding of a scalar value gives it back, with the length of the encoding |
| Utf16.DecodeEncodeAll | icu4c/source/common/mlbe.h:124 | decoding an encoded sequence of scalar values gives the sequence back |
| Utf16.CodePointsAfterPrefix | icu4c/source/common/mlbe.h:124 | decoding from a position does not depend on the code units before it |
| Utf16.EncodeAll | icu4c/source/common/mlbe.h:124 | an encoded sequence takes as many code units as the code points' UTF-16 lengths add up to |
| MlBreak.MlBreakEngine.EvaluateBreakpoint | icu4c/source/common/mlbe.h:129-139 | when the window scores positive, exactly the index is appended to the boundary vector and the count grows by one; otherwise both are unchanged |
| Scoring.Score | icu4c/source/common/mlbe.h:143-144 | the score is the bias `fNegativeSum` plus the table's entries for exactly the keys the table holds; a missing key adds nothing |
| Scoring.Accepts | icu4c/source/common/mlbe.h:143-144 | a window is accepted exactly when the entries of the keys the table holds add up to more than the negated bias |
| Scoring.SumWeightsKnownKeys | icu4c/source/common/mlbe.h:143 | summing every key with a missing one read as 0 equals summing the entries of the keys the table holds |
| Scoring.UnknownKeysWeighNothing | icu4c/source/common/mlbe.h:143 | keys the model does not hold add nothing to the score |
| Scoring.BiasDecidesWithoutKnownKeys | icu4c/source/common/mlbe.h:143-144 | when no feature of the window is in the model, the score is the bias and the boundary is accepted exactly when the bias is positive |
| Scoring.SumWeightsAppend | icu4c/source/common/mlbe.h:143 | the weight of two lists of keys is the sum of their weights |
| Scoring.SumWeightsWithout | icu4c/source/common/mlbe.h:143 | taking one key out of a list takes its weight out of the sum |
| Scoring.SumWeightsOrderFree | icu4c/source/common/mlbe.h:143 | the score depends only on which keys occur how often, not on their order |
| Fixture.ExampleBreaks | icu4c/source/common/mlbe.h:129-139 | with weights for "A before" and "B after" and bias -1, the only break in "ABX" is at offset 1 |
| Segmentation.BreaksFrom | icu4c/source/common/mlbe.h:83-97 | the collected boundaries rise strictly and lie strictly after the starting code point and strictly before the end of the text |
| Segmentation.BreakAtCodePoint | icu4c/source/common/mlbe.h:83-97 | the boundary k + 1 code points on is collected exactly when the decision at the k-th code point accepts it |
| Segmentation.BreakWhereWindowScores | icu4c/source/common/mlbe.h:83-97 | in a whole string, the boundary after code point k is a break exactly when the window starting at code point k scores positive |
| Segmentation.BreaksAreCodePointBoundaries | icu4c/source/common/mlbe.h:83-97 | every break is the boundary after some code point that has a successor |
| Segmentation.BreakCount | icu4c/source/common/mlbe.h:93 | a text of n code points has at most n - 1 breaks, and one of at most one code point has none |
| Segmentation.CollectStep | icu4c/source/common/mlbe.h:83-97 | deciding one more boundary and appending it when accepted keeps "collected so far plus still to come = all breaks" |
| MlBreak.MlBreakEngine.Slide | icu4c/source/common/mlbe.h:83-97 | one slide moves the window to the next code point, reading the code point after the old window into the last slot |
| MlBreak.MlBreakEngine.ScanStep | icu4c/source/common/mlbe.h:83-97 | one round of the scan decides the boundary after the current code point, records it when accepted, and keeps the scan's invariant |
| MlBreak.MlBreakEngine.Scan | icu4c/source/common/mlbe.h:83-97 | the boundary vector ends up holding exactly the string's breaks, in order, and the count is their number |
| MlBreak.MlBreakEngine.DivideUpRange | icu4c/source/common/mlbe.h:83-97 | the error cases return 0 and append nothing; otherwise the breaks are appended as native offsets (through the map, or `rangeStart` plus the offset without one), up to the first one the index map does not cover; with all of them mapped, the status is success and the count returned is the number of entries appended; when `inString` is the text of the range, the call succeeds, every appended break lies strictly inside the range, and a range of at most one code unit gets no break |
| MlBreak.AppendNativeOffsets | icu4c/source/common/mlbe.h:87-91 | appends the native offsets of the breaks in order (through the map, or `rangeStart` plus the offset without one), as many as the index map covers, and returns that number |
| Segmentation.MappedPrefix | icu4c/source/common/mlbe.h:91 | the number of leading breaks the index map covers: all of those are covered, and the next one is not |
| Segmentation.TranslateIdentity | icu4c/source/common/mlbe.h:87-91 | without an index map, every break is covered, and for a range starting at 0 native offsets are the normalized offsets |
| Segmentation.NativeBreaksInsideRange | icu4c/source/common/mlbe.h:87-91 | when `inString` is the text of the range (without a map it has `rangeEnd - rangeStart` code units; a map rises strictly from `rangeStart` to `rangeEnd` over the whole string), every break is mapped, and the native breaks rise strictly and lie strictly inside the range |
| Segmentation.ShortRangeHasNoBreaks | icu4c/source/common/mlbe.h:87-91 | when `inString` is the text of the range, a range of at most one code unit has no break |
| Fixture.ExampleNativeBreaks | icu4c/source/common/mlbe.h:87-91 | "ABX" as the range [100, 103) without an index map: its one break is at native offset 101 |
| Vectors.Vector32.AddElement | icu4c/source/common/mlbe.h:135 | appending puts the value at the end and keeps everything before it |

## Left out

- `loadMLModel` (resource-bundle loading and parsing of the model blob) is not modelled. The engine is built from an already loaded weight map and bias.
- The Unicode block database behind `getUnicodeBlock` (`ublock_getCode`) is the function `blockOf`, fixed at construction.
- The feature-key layout of the trained model is the function `featureKeys`, from the six window values to a list of keys, because the header does not show it.
- MlBreak.MlBreakEngine.InitElementList: the header describes the list as holding the first six characters but does not show which boundary a window scores. The model's own convention is that the window starting at code point k scores the boundary after it, so no window starts with sentinels standing for text before `rangeStart`. A key scheme that looks at characters before the window's first slot cannot be expressed.
- The `UText *inText` argument of `divideUpRange` is not modelled: `DivideUpRange` has no such parameter, because the header shows no use of it and the normalized string stands for the text.
- The two `UnicodeSet` fields are kept in the engine but not used for any decision, because the header shows no use of them.
- `UnicodeSet`, `Hashtable` and `LocalPointer` internals are not modelled. They are `set<int>`, `map` and `Option`.
- `UErrorCode` is reduced to the outcomes the engine produces. Allocation failures are not modelled: Dafny allocation does not fail.
- MlBreak.MlBreakEngine.DivideUpRange: `int32_t` offsets and counts are unbounded integers. The wrap-around of a 32-bit count past 2^31 - 1 is not modelled.
- MlBreak.MlBreakEngine.EvaluateBreakpoint: the score is an unbounded integer. An `int32_t` sum would wrap on overflow.
- The entries of `inputMap`, and the length of `inString` without one, are not required to match the range. When they do (`Segmentation.RangeMatches`), `DivideUpRange` and `Segmentation.NativeBreaksInsideRange` state that the breaks lie inside the range; otherwise breaks are appended as computed.
- Equal native offsets for distinct normalized breaks are appended as they come, with no deduplication.
- `UMemory`, the destructor and object lifetime are not modelled.
