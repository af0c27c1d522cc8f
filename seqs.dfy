/** Concatenation of a sequence of pieces, and dropping the empty pieces. */
module Seqs {
  /** The pieces joined in order, built from the back as a writer appends them. */
  function Concat<T>(pieces: seq<seq<T>>): seq<T>
  {
    if pieces == [] then [] else Concat(pieces[..|pieces| - 1]) + pieces[|pieces| - 1]
  }

  /** The non-empty pieces, in order. */
  function NonEmpty<T>(pieces: seq<seq<T>>): (r: seq<seq<T>>)
    ensures forall k | 0 <= k < |r| :: r[k] != []
    ensures |r| <= |pieces|
  {
    if pieces == [] then []
    else
      var last := pieces[|pieces| - 1];
      NonEmpty(pieces[..|pieces| - 1]) + (if last == [] then [] else [last])
  }

  /** The sum of the pieces' lengths. */
  function TotalLength<T>(pieces: seq<seq<T>>): nat
  {
    if pieces == [] then 0 else TotalLength(pieces[..|pieces| - 1]) + |pieces[|pieces| - 1]|
  }

  /** One more piece: it is kept exactly when it is non-empty, and joined at the end. */
  lemma Snoc<T>(pieces: seq<seq<T>>, last: seq<T>)
    ensures NonEmpty(pieces + [last]) == NonEmpty(pieces) + (if last == [] then [] else [last])
    ensures Concat(NonEmpty(pieces + [last])) == Concat(NonEmpty(pieces)) + last
  {
    var all := pieces + [last];
    assert all[..|all| - 1] == pieces;
    if last != [] {
      var ne := NonEmpty(pieces) + [last];
      assert ne[..|ne| - 1] == NonEmpty(pieces);
      assert Concat(ne) == Concat(NonEmpty(pieces)) + last;
    } else {
      assert NonEmpty(pieces) + [] == NonEmpty(pieces);
      assert Concat(NonEmpty(pieces)) + last == Concat(NonEmpty(pieces));
    }
  }

  lemma {:induction false} ConcatLength<T>(pieces: seq<seq<T>>)
    ensures |Concat(pieces)| == TotalLength(pieces)
  {
    if pieces != [] {
      ConcatLength(pieces[..|pieces| - 1]);
    }
  }

  /** Leaving out the empty pieces does not change the concatenation. */
  lemma {:induction false} ConcatNonEmpty<T>(pieces: seq<seq<T>>)
    ensures Concat(NonEmpty(pieces)) == Concat(pieces)
  {
    if pieces != [] {
      var init, last := pieces[..|pieces| - 1], pieces[|pieces| - 1];
      ConcatNonEmpty(init);
      if last != [] {
        var ne := NonEmpty(init) + [last];
        assert ne[..|ne| - 1] == NonEmpty(init);
      } else {
        assert NonEmpty(pieces) == NonEmpty(init);
      }
    }
  }

  /** The front piece comes first in the concatenation. */
  lemma {:induction false} ConcatCons<T>(first: seq<T>, rest: seq<seq<T>>)
    ensures Concat([first] + rest) == first + Concat(rest)
  {
    if rest == [] {
      assert [first] + rest == [first];
      assert Concat([first][..0]) == [];
    } else {
      var all := [first] + rest;
      assert all[..|all| - 1] == [first] + rest[..|rest| - 1];
      ConcatCons(first, rest[..|rest| - 1]);
    }
  }
}
