/** The two value types nested in the game class: the piece colours and a board coordinate. */
module Pieces {

  datatype Option<T> = None | Some(value: T)

  /** The two colours, declared in this (ordinal) order. */
  datatype Piece = Black | White

  /** `Piece.values()`, in declaration order. */
  const Values: seq<Piece> := [Black, White]

  /** `Piece.ordinal()`: the position of `p` in `Values`. */
  function Ordinal(p: Piece): (i: nat)
    ensures i < |Values| && Values[i] == p
  {
    match p
    case Black => 0
    case White => 1
  }

  /** `Piece.next()`: the cyclic successor in the enum order. */
  function Next(p: Piece): (q: Piece)
    ensures q != p
    ensures p == Black ==> q == White
    ensures p == White ==> q == Black
  {
    Values[(Ordinal(p) + 1) % |Values|]
  }

  /** Two steps of the cycle come back to the start. */
  lemma NextInvolution(p: Piece)
    ensures Next(Next(p)) == p
  {
  }

  /** `Piece.values()` lists every colour exactly once. */
  lemma ValuesEnumerate(p: Piece)
    ensures p in Values
    ensures forall i, j :: 0 <= i < j < |Values| ==> Values[i] != Values[j]
  {
    assert Values[Ordinal(p)] == p;
  }

  /** A board coordinate. The fields are natural numbers: the constructor of the
      source asserts that both components are non-negative, so every place that
      builds a `Coord` has to prove that. */
  datatype Coord = Coord(x: nat, y: nat)

  /** `Coord.equals`: component-wise comparison, which is value equality. */
  function Equals(a: Coord, b: Coord): (r: bool)
    ensures r <==> a == b
  {
    a.x == b.x && a.y == b.y
  }

  /** Bitwise exclusive or, as Java's `^` on two non-negative `int`s. */
  function Xor(a: nat, b: nat): (r: nat)
    ensures r == 0 <==> a == b
    decreases a + b
  {
    if a == 0 && b == 0 then 0
    else 2 * Xor(a / 2, b / 2) + (if a % 2 == b % 2 then 0 else 1)
  }

  /** `Coord.hashCode`: `x ^ y`. */
  function HashCode(c: Coord): (h: nat)
    ensures h == 0 <==> c.x == c.y
  {
    Xor(c.x, c.y)
  }

  /** The hash agrees with equality: equal coordinates hash alike. */
  lemma HashConsistent(a: Coord, b: Coord)
    requires Equals(a, b)
    ensures HashCode(a) == HashCode(b)
  {
  }
}
