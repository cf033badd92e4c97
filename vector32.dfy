/** ICU's UVector32, as far as the break engine uses it: a growable vector of 32-bit
    integers that is appended to. */
module Vectors {

  class Vector32 {
    var elems: seq<int>

    constructor ()
      ensures elems == []
    {
      elems := [];
    }

    /** addElement / push: appends x at the end. */
    method AddElement(x: int)
      modifies this
      ensures elems == old(elems) + [x]
    {
      elems := elems + [x];
    }
  }
}
