/** Sequence facts shared by the byte-stream, log and trace models:
    in-order concatenation of pieces, the sum of their lengths, and
    occurrence counting. */
module Seqs {

  /** The in-order concatenation of `pieces`. */
  function Flatten<T>(pieces: seq<seq<T>>): seq<T>
  {
    if |pieces| == 0 then [] else pieces[0] + Flatten(pieces[1..])
  }

  /** The sum of the lengths of `pieces`. */
  function TotalLength<T>(pieces: seq<seq<T>>): nat
  {
    if |pieces| == 0 then 0 else |pieces[0]| + TotalLength(pieces[1..])
  }

  /** The number of positions of `s` that hold `x`. */
  function Count<T(==)>(s: seq<T>, x: T): nat
  {
    if |s| == 0 then 0 else (if s[0] == x then 1 else 0) + Count(s[1..], x)
  }

  /** Appending one more piece appends its elements to the concatenation. */
  lemma {:induction false} FlattenSnoc<T>(pieces: seq<seq<T>>, piece: seq<T>)
    ensures Flatten(pieces + [piece]) == Flatten(pieces) + piece
    decreases |pieces|
  {
    if |pieces| == 0 {
      assert pieces + [piece] == [piece];
      assert Flatten([piece][1..]) == [];
    } else {
      assert (pieces + [piece])[1..] == pieces[1..] + [piece];
      FlattenSnoc(pieces[1..], piece);
    }
  }

  /** The concatenation is exactly as long as the pieces together:
      nothing is lost and nothing is duplicated. */
  lemma {:induction false} FlattenLength<T>(pieces: seq<seq<T>>)
    ensures |Flatten(pieces)| == TotalLength(pieces)
    decreases |pieces|
  {
    if |pieces| > 0 {
      FlattenLength(pieces[1..]);
    }
  }

  /** Counting distributes over concatenation. */
  lemma {:induction false} CountAppend<T>(a: seq<T>, b: seq<T>, x: T)
    ensures Count(a + b, x) == Count(a, x) + Count(b, x)
    decreases |a|
  {
    if |a| == 0 {
      assert a + b == b;
    } else {
      assert (a + b)[1..] == a[1..] + b;
      CountAppend(a[1..], b, x);
    }
  }

  /** An element that occurs in `s` is counted at least once. */
  lemma {:induction false} CountPositive<T>(s: seq<T>, x: T)
    requires x in s
    ensures Count(s, x) >= 1
    decreases |s|
  {
    if s[0] != x {
      assert x in s[1..];
      CountPositive(s[1..], x);
    }
  }
}
