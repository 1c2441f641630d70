/** The one-field append buffer of src/utils/StringBuilderUtils.ts. */
module StringBuilderUtils {

  /** The pieces joined in order, with nothing between them. */
  function Concat(pieces: seq<string>): string
  {
    if pieces == [] then "" else pieces[0] + Concat(pieces[1..])
  }

  /** Appending one more piece extends the joined string by exactly that piece. */
  lemma {:induction false} ConcatSnoc(pieces: seq<string>, s: string)
    ensures Concat(pieces + [s]) == Concat(pieces) + s
    decreases |pieces|
  {
    if pieces == [] {
      assert [] + [s] == [s];
    } else {
      assert (pieces + [s])[1..] == pieces[1..] + [s];
      ConcatSnoc(pieces[1..], s);
    }
  }

  class StringBuilder {
    /** The private buffer; it starts empty. */
    var value: string
    /** Every string appended so far, in call order. */
    ghost var pieces: seq<string>

    ghost predicate Valid()
      reads this
    {
      value == Concat(pieces)
    }

    constructor ()
      ensures Valid() && pieces == [] && value == ""
    {
      value := "";
      pieces := [];
    }

    method Append(s: string)
      requires Valid()
      modifies this
      ensures Valid()
      ensures pieces == old(pieces) + [s]
      ensures value == old(value) + s
    {
      ConcatSnoc(pieces, s);
      value := value + s;
      pieces := pieces + [s];
    }

    /** Reads the buffer without changing it, so repeated calls agree. */
    method ToString() returns (r: string)
      requires Valid()
      ensures r == value
      ensures r == Concat(pieces)
    {
      r := value;
    }
  }
}
