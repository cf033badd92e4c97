/** A worked example of the decision rule: a model with two weights and a negative bias
    over the text "ABX" accepts the boundary between 'A' and 'B' and no other. */
module Fixture {
  import opened Utf16
  import opened Elements
  import opened Scoring
  import opened Segmentation

  const A: CodeUnit := 0x41
  const B: CodeUnit := 0x42
  const X: CodeUnit := 0x58

  /** The key of a window slot: its position tag followed by its character, when the
      character is a single code unit. */
  function SlotKey(tag: CodeUnit, e: ElementValue): UString {
    [tag] + (if 0 <= e.character < 0x1_0000 then [e.character as CodeUnit] else [])
  }

  /** Two features: the character before the boundary (tag 1) and after it (tag 2). */
  function TwoSlotKeys(window: seq<ElementValue>): seq<UString> {
    if |window| < 2 then [] else [SlotKey(1, window[0]), SlotKey(2, window[1])]
  }

  const Example: Classifier :=
    Classifier(_ => 0, TwoSlotKeys, map[[1, A] := 1, [2, B] := 1], -1)

  /** "ABX" has exactly one break, at code-unit offset 1. */
  lemma ExampleBreaks()
    ensures Breaks(Example, [A, B, X]) == [1]
  {
    var units: UString := [A, B, X];
    assert NextOffset(units, 0) == 1 && NextOffset(units, 1) == 2 && NextOffset(units, 2) == 3;
    var w0 := ElementsFrom(Example.blockOf, units, 0, WindowSize);
    var w1 := ElementsFrom(Example.blockOf, units, 1, WindowSize);
    ElementsFromAt(Example.blockOf, units, 0, WindowSize, 0);
    ElementsFromAt(Example.blockOf, units, 0, WindowSize, 1);
    ElementsFromAt(Example.blockOf, units, 1, WindowSize, 0);
    ElementsFromAt(Example.blockOf, units, 1, WindowSize, 1);
    assert w0[0].character == A && w0[1].character == B;
    assert w1[0].character == B && w1[1].character == X;
    var k0: seq<UString>, k1: seq<UString> := TwoSlotKeys(w0), TwoSlotKeys(w1);
    assert SlotKey(1, w0[0]) == [1, A] && SlotKey(2, w0[1]) == [2, B];
    assert SlotKey(1, w1[0]) == [1, B] && SlotKey(2, w1[1]) == [2, X];
    assert k0 == [[1, A], [2, B]] && k1 == [[1, B], [2, X]];
    assert k0[1..] == [[2, B]] && k1[1..] == [[2, X]];
    var ka: UString, kb: UString, kb2: UString, kx: UString := [1, A], [2, B], [1, B], [2, X];
    assert ka in Example.weights && kb in Example.weights;
    assert kb2 != ka && kb2 != kb && kx != ka && kx != kb;
    assert Weight(Example.weights, ka) == 1 && Weight(Example.weights, kb) == 1;
    assert Weight(Example.weights, kb2) == 0 && Weight(Example.weights, kx) == 0;
    assert [kb][1..] == [] && [kx][1..] == [];
    assert SumWeights(Example.weights, [kb]) == 1 && SumWeights(Example.weights, [kx]) == 0;
    assert SumWeights(Example.weights, k0) == 2;
    assert SumWeights(Example.weights, k1) == 0;
    var accept := Decider(Example, units);
    assert accept(0) && !accept(1);
    assert BreaksFrom(accept, units, 2) == [];
    assert BreaksFrom(accept, units, 1) == [];
  }

  /** The same text as the range [100, 103) of a larger text, with no index map: the
      break lands at native offset 101, inside the range. */
  lemma ExampleNativeBreaks()
    ensures Translate(None, 100, Breaks(Example, [A, B, X])) == [101]
  {
    ExampleBreaks();
  }
}
