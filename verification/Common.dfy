/** Types every part of the model shares. */
module Common {
  datatype Option<+T> = None | Some(value: T)

  datatype Result<+T, +E> = Ok(value: T) | Err(error: E)

  type Byte = b: int | 0 <= b < 256

  type Bytes = seq<Byte>

  function Min(a: int, b: int): (m: int)
    ensures m <= a && m <= b && (m == a || m == b)
  {
    if a <= b then a else b
  }

  const NEWLINE: Byte := 0x0A

  /** The pieces' bytes, one after another. */
  function Flat(pieces: seq<Bytes>): Bytes {
    if pieces == [] then [] else pieces[0] + Flat(pieces[1..])
  }

  lemma {:induction false} FlatOn(pieces: seq<Bytes>, piece: Bytes)
    ensures Flat(pieces + [piece]) == Flat(pieces) + piece
    decreases |pieces|
  {
    if pieces == [] {
      assert [piece][1..] == [];
      assert [] + [piece] == [piece] && piece + [] == piece && [] + piece == piece;
    } else {
      assert (pieces + [piece])[1..] == pieces[1..] + [piece];
      FlatOn(pieces[1..], piece);
      assert pieces[0] + (Flat(pieces[1..]) + piece) == pieces[0] + Flat(pieces[1..]) + piece;
    }
  }

  lemma {:induction false} SubsetSize<T>(a: set<T>, b: set<T>)
    requires a <= b
    ensures |a| <= |b|
    decreases a
  {
    if x :| x in a {
      SubsetSize(a - {x}, b - {x});
    }
  }

  /** A slice of a slice. */
  lemma SliceTwice(b: Bytes, n: nat, k: nat)
    requires n <= k <= |b|
    ensures b[..k][n..] == b[n..][..k - n]
  {
  }

  lemma DropOfConcat(a: Bytes, b: Bytes, n: nat)
    requires n <= |a|
    ensures (a + b)[n..] == a[n..] + b
  {
  }
}
