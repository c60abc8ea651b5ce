/** Vocabulary shared by every other module: options, bytes, and flattening. */
module Basics {

  datatype Option<+T> = None | Some(value: T)

  type byte = x: int | 0 <= x < 256

  type bytes = seq<byte>

  /** A 16-bit unsigned field. */
  type Word = x: int | 0 <= x < 0x1_0000

  /** A sequence number modulo 8. */
  type Mod8 = x: int | 0 <= x < 8

  /** One more than the largest value of the source's 64-bit size type. */
  const SIZE_MODULUS: int := 0x1_0000_0000_0000_0000

  /** A value of the source's 64-bit size type. */
  type Size = x: int | 0 <= x < SIZE_MODULUS

  function Min(a: int, b: int): int {
    if a <= b then a else b
  }

  /** The two bytes of a 16-bit field, most significant first. */
  function WordBytes(w: Word): bytes {
    [w / 256, w % 256]
  }

  function WordAt(b: bytes, i: nat): Word
    requires i + 2 <= |b|
  {
    var high: int, low: int := b[i], b[i + 1];
    high * 256 + low
  }

  function Concat<T>(parts: seq<seq<T>>): seq<T> {
    if parts == [] then [] else parts[0] + Concat(parts[1..])
  }

  lemma ConcatSplit<T>(left: seq<seq<T>>, right: seq<seq<T>>)
    ensures Concat(left + right) == Concat(left) + Concat(right)
  {
    if left == [] {
      assert left + right == right;
    } else {
      assert (left + right)[1..] == left[1..] + right;
    }
  }

  lemma ConcatAppend<T>(parts: seq<seq<T>>, last: seq<T>)
    ensures Concat(parts + [last]) == Concat(parts) + last
  {
    ConcatSplit(parts, [last]);
    assert Concat([last]) == last + Concat([]);
  }
}
