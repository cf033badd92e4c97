/** The linear model of the break engine: a table from feature keys to weights (the
    fModel hash table, where a missing key reads as 0) and a bias (fNegativeSum). A
    candidate boundary is accepted when bias plus the weights of its features is
    positive. */
module Scoring {
  import opened Utf16

  type Weights = map<UString, int>

  /** The weight of one feature key; a key the model does not hold weighs 0. */
  function Weight(weights: Weights, key: UString): int {
    if key in weights then weights[key] else 0
  }

  function SumWeights(weights: Weights, keys: seq<UString>): int {
    if keys == [] then 0 else Weight(weights, keys[0]) + SumWeights(weights, keys[1..])
  }

  /** The keys of a list that the model holds, in their order. */
  function KnownKeys(weights: Weights, keys: seq<UString>): (k: seq<UString>)
    ensures forall i :: 0 <= i < |k| ==> k[i] in weights
    ensures |k| <= |keys|
  {
    if keys == [] then []
    else (if keys[0] in weights then [keys[0]] else []) + KnownKeys(weights, keys[1..])
  }

  /** The sum of the table's entries for keys it holds. */
  function SumKnown(weights: Weights, keys: seq<UString>): int
    requires forall i :: 0 <= i < |keys| ==> keys[i] in weights
  {
    if keys == [] then 0 else weights[keys[0]] + SumKnown(weights, keys[1..])
  }

  /** The score of a list of feature keys: the bias plus the table's entries for the
      keys it holds; keys missing from the table add nothing. */
  function Score(weights: Weights, bias: int, keys: seq<UString>): (r: int)
    ensures r == bias + SumKnown(weights, KnownKeys(weights, keys))
  {
    SumWeightsKnownKeys(weights, keys);
    bias + SumWeights(weights, keys)
  }

  /** The decision rule: accept when the score is strictly positive, that is, when the
      entries of the keys the table holds outweigh the negated bias. */
  function Accepts(weights: Weights, bias: int, keys: seq<UString>): (a: bool)
    ensures a <==> SumKnown(weights, KnownKeys(weights, keys)) > -bias
  {
    Score(weights, bias, keys) > 0
  }

  /** Summing over all keys, with missing ones read as 0, equals summing the entries of
      the keys the table holds. */
  lemma {:induction false} SumWeightsKnownKeys(weights: Weights, keys: seq<UString>)
    ensures SumWeights(weights, keys) == SumKnown(weights, KnownKeys(weights, keys))
  {
    if keys != [] {
      SumWeightsKnownKeys(weights, keys[1..]);
      var rest := KnownKeys(weights, keys[1..]);
      if keys[0] in weights {
        assert KnownKeys(weights, keys) == [keys[0]] + rest;
        assert ([keys[0]] + rest)[1..] == rest;
      } else {
        assert KnownKeys(weights, keys) == rest;
      }
    }
  }

  /** The sum of the weights of two lists of keys is the sum of the two sums. */
  lemma {:induction false} SumWeightsAppend(weights: Weights, a: seq<UString>, b: seq<UString>)
    ensures SumWeights(weights, a + b) == SumWeights(weights, a) + SumWeights(weights, b)
  {
    if a != [] {
      assert (a + b)[1..] == a[1..] + b;
      SumWeightsAppend(weights, a[1..], b);
    } else {
      assert a + b == b;
    }
  }

  /** Keys the model does not hold contribute nothing. */
  lemma {:induction false} UnknownKeysWeighNothing(weights: Weights, keys: seq<UString>)
    requires forall i :: 0 <= i < |keys| ==> keys[i] !in weights
    ensures SumWeights(weights, keys) == 0
  {
    if keys != [] {
      UnknownKeysWeighNothing(weights, keys[1..]);
    }
  }

  /** When no feature of a window is in the model, the bias alone decides. */
  lemma BiasDecidesWithoutKnownKeys(weights: Weights, bias: int, keys: seq<UString>)
    requires forall i :: 0 <= i < |keys| ==> keys[i] !in weights
    ensures Score(weights, bias, keys) == bias
    ensures Accepts(weights, bias, keys) <==> bias > 0
  {
    UnknownKeysWeighNothing(weights, keys);
  }

  /** Taking the key at j out of a list takes its weight out of the sum. */
  lemma SumWeightsWithout(weights: Weights, b: seq<UString>, j: nat)
    requires j < |b|
    ensures SumWeights(weights, b) == Weight(weights, b[j]) + SumWeights(weights, b[..j] + b[j + 1..])
  {
    assert b == b[..j] + [b[j]] + b[j + 1..];
    SumWeightsAppend(weights, b[..j] + [b[j]], b[j + 1..]);
    SumWeightsAppend(weights, b[..j], [b[j]]);
    SumWeightsAppend(weights, b[..j], b[j + 1..]);
    assert SumWeights(weights, [b[j]]) == Weight(weights, b[j]);
  }

  /** Removing the same key from two lists with the same keys leaves the same keys. */
  lemma RemoveSameKey(a: seq<UString>, b: seq<UString>, j: nat)
    requires a != [] && j < |b| && b[j] == a[0] && multiset(a) == multiset(b)
    ensures multiset(a[1..]) == multiset(b[..j] + b[j + 1..])
  {
    var k := a[0];
    assert a == [k] + a[1..];
    assert b == b[..j] + [k] + b[j + 1..];
    calc {
      multiset(a[1..]);
      multiset(a) - multiset{k};
      multiset(b) - multiset{k};
      multiset(b[..j]) + multiset(b[j + 1..]);
      multiset(b[..j] + b[j + 1..]);
    }
  }

  /** The score depends only on which keys occur how often, not on their order: the
      model is a hash table, read one key at a time. */
  lemma {:induction false} SumWeightsOrderFree(weights: Weights, a: seq<UString>, b: seq<UString>)
    requires multiset(a) == multiset(b)
    ensures SumWeights(weights, a) == SumWeights(weights, b)
    decreases |a|
  {
    if a != [] {
      assert a[0] in multiset(b);
      var j :| 0 <= j < |b| && b[j] == a[0];
      RemoveSameKey(a, b, j);
      SumWeightsOrderFree(weights, a[1..], b[..j] + b[j + 1..]);
      SumWeightsWithout(weights, b, j);
    } else {
      assert |b| == |multiset(b)| == 0;
    }
  }
}
