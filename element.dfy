/** Element: a character together with its block code, kept in a four-slot buffer
    (three digits and a terminating NUL) with a separate length. The six-element window
    the break engine slides over a string is an array of these. */
module Elements {
  import opened Utf16

  /** The abstract value of an Element: its character and the block code it holds. */
  datatype ElementValue = ElementValue(character: int, ublock: UString)

  /** ICU's U_SENTINEL: the character of a window slot past the end of the text. */
  const NoCharacter: int := -1

  /** The value of a window slot past the end of the text: no character, no block code. */
  const Sentinel: ElementValue := ElementValue(NoCharacter, [])

  const Capacity: nat := 4

  class Element {
    var character: int
    const ublock: array<CodeUnit>
    var length: nat

    /** The buffer has its four slots, the code fits in front of the terminator, and the
        terminator is in place. */
    ghost predicate Valid()
      reads this, ublock
    {
      ublock.Length == Capacity && length < Capacity && ublock[length] == 0
    }

    function Value(): ElementValue
      reads this, ublock
      requires Valid()
    {
      ElementValue(character, ublock[..length])
    }

    /** An element holding no block code. */
    constructor ()
      ensures Valid() && fresh(ublock)
      ensures GetLength() == 0 && Value().ublock == []
    {
      character := 0;
      length := 0;
      ublock := new CodeUnit[Capacity](_ => 0);
    }

    /** Stores ch and copies the block code into the buffer, followed by a terminator. */
    method SetCharAndUblock(ch: int, code: UString)
      requires Valid()
      requires |code| < Capacity
      modifies this, ublock
      ensures Valid()
      ensures GetCharacter() == ch
      ensures GetLength() == |code| && GetUblock()[..GetLength()] == code
    {
      character := ch;
      length := |code|;
      var i := 0;
      while i < |code|
        invariant 0 <= i <= |code|
        invariant ublock[..i] == code[..i]
        modifies ublock
      {
        ublock[i] := code[i];
        i := i + 1;
      }
      ublock[length] := 0;
      assert ublock[..length] == code[..|code|];
    }

    /** The character the element holds. */
    function GetCharacter(): (c: int)
      reads this, ublock
      ensures Valid() ==> c == Value().character
    {
      character
    }

    /** The buffer itself, as the C++ getter hands out its pointer: a NUL-terminated
        string of four slots whose code units before the terminator are the block code. */
    function GetUblock(): (a: array<CodeUnit>)
      reads this, ublock
      ensures Valid() ==> a.Length == Capacity && a[..length] == Value().ublock && a[length] == 0
    {
      ublock
    }

    /** The number of digits stored: at most three, and the slot after them holds the
        terminator. */
    function GetLength(): (n: nat)
      reads this, ublock
      requires Valid()
      ensures n < Capacity && n < GetUblock().Length && GetUblock()[n] == 0
    {
      length
    }
  }

  const WindowSize: nat := 6

  /** No two slots share an element or a buffer. */
  ghost predicate Distinct(es: seq<Element>) {
    forall i, j :: 0 <= i < j < |es| ==> es[i] != es[j] && es[i].ublock != es[j].ublock
  }

  /** An element that shares nothing with the slots can be added to them. */
  lemma AppendDistinct(es: seq<Element>, e: Element)
    requires Distinct(es)
    requires forall i :: 0 <= i < |es| ==> es[i] != e && es[i].ublock != e.ublock
    ensures Distinct(es + [e])
  {
  }

  /** Rotating the slots keeps them distinct. */
  lemma RotateDistinct(es: seq<Element>)
    requires |es| > 0 && Distinct(es)
    ensures Distinct(es[1..] + [es[0]])
  {
    var r := es[1..] + [es[0]];
    forall i, j | 0 <= i < j < |r|
      ensures r[i] != r[j] && r[i].ublock != r[j].ublock
    {
      if j == |r| - 1 {
        assert r[i] == es[i + 1] && r[j] == es[0];
      } else {
        assert r[i] == es[i + 1] && r[j] == es[j + 1];
      }
    }
  }

  /** The window the break engine slides over a string: six elements, each read and
      written through an array slot. The model owns these six slots in one object;
      Contents is the value of each slot, and Repr the array, the six elements and their
      buffers. */
  class ElementList {
    const elems: array<Element>
    ghost var Contents: seq<ElementValue>
    ghost var Repr: set<object>

    ghost predicate Valid()
      reads this, Repr
    {
      && this in Repr && elems in Repr
      && elems.Length == WindowSize
      && Distinct(elems[..])
      && (forall i :: 0 <= i < WindowSize ==> elems[i] in Repr && elems[i].ublock in Repr)
      && |Contents| == WindowSize
      && (forall i :: 0 <= i < WindowSize ==> elems[i].Valid() && Contents[i] == elems[i].Value())
    }

    /** Six fresh elements. */
    constructor ()
      ensures Valid() && fresh(Repr)
    {
      var first := new Element();
      var a := new Element[WindowSize](_ => first);
      ghost var contents := [first.Value()];
      ghost var repr: set<object> := {a, first, first.ublock};
      var k := 1;
      while k < WindowSize
        invariant 1 <= k <= WindowSize
        invariant |contents| == k
        invariant a in repr && fresh(repr)
        invariant Distinct(a[..k])
        invariant forall i :: 0 <= i < k ==>
                    a[i] in repr && a[i].ublock in repr && a[i].Valid() && contents[i] == a[i].Value()
        modifies a
      {
        var e := new Element();
        AppendDistinct(a[..k], e);
        a[k] := e;
        assert a[..k + 1] == a[..k] + [e];
        contents := contents + [e.Value()];
        repr := repr + {e, e.ublock};
        k := k + 1;
      }
      assert a[..] == a[..WindowSize];
      elems := a;
      Contents := contents;
      Repr := repr + {this};
    }

    /** The values of the six slots, read from the elements. */
    function Values(): (v: seq<ElementValue>)
      reads this, Repr
      requires Valid()
      ensures v == Contents
    {
      [elems[0].Value(), elems[1].Value(), elems[2].Value(), elems[3].Value(), elems[4].Value(), elems[5].Value()]
    }

    /** setCharAndUblock on slot j; the other slots keep their values. */
    method SetAt(j: nat, ch: int, code: UString)
      requires Valid() && j < WindowSize && |code| < Capacity
      modifies Repr
      ensures Valid() && Repr == old(Repr)
      ensures Contents == old(Contents)[j := ElementValue(ch, code)]
    {
      var e := elems[j];
      e.SetCharAndUblock(ch, code);
      Contents := Contents[j := ElementValue(ch, code)];
      forall i | 0 <= i < WindowSize && i != j
        ensures elems[i].Valid() && Contents[i] == elems[i].Value()
      {
        assert elems[i] != e && elems[i].ublock != e.ublock;
      }
    }

    /** The model's slide of the window: every element moves one slot to the front, and
        the element that was in front moves to the last slot, where the caller overwrites
        it. Rotating the slots, rather than copying values over them, keeps the six
        elements distinct; the last slot's old value is never read before it is set. */
    method Shift()
      requires Valid()
      modifies Repr
      ensures Valid() && Repr == old(Repr)
      ensures Contents == old(Contents)[1..] + [old(Contents)[0]]
    {
      ghost var es := elems[..];
      ghost var cs := Contents;
      RotateDistinct(es);
      elems[0], elems[1], elems[2], elems[3], elems[4], elems[5] :=
        elems[1], elems[2], elems[3], elems[4], elems[5], elems[0];
      assert elems[..] == es[1..] + [es[0]];
      Contents := cs[1..] + [cs[0]];
      forall i | 0 <= i < WindowSize
        ensures elems[i].Valid() && Contents[i] == elems[i].Value()
      {
        var k := if i < WindowSize - 1 then i + 1 else 0;
        assert elems[i] == es[k] && Contents[i] == cs[k];
      }
    }
  }
}
