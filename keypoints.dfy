/**
 * The keypoint that the detector hands to the coordination layer, and the
 * composite key `(octave, scale, i, j)` the root sorts by.
 */
module Keypoints {

  /** A C++ `int`: 32-bit two's complement. */
  newtype int32 = x: int | -0x8000_0000 <= x < 0x8000_0000

  /** A C++ `uint8_t`. */
  newtype uint8 = x: int | 0 <= x < 0x100

  /**
   * A C++ `float`. The coordination layer only copies these fields, never
   * computes with them, so a float is modelled by its 32-bit pattern.
   */
  type Float32 = bv32

  /** Number of entries of every descriptor. */
  const DescriptorLength: nat := 128

  /** A descriptor: exactly 128 quantized gradient-histogram values, in order. */
  type Descriptor = d: seq<uint8> | |d| == DescriptorLength
    witness seq(DescriptorLength, _ => 0)

  datatype Keypoint = Keypoint(
    i: int32,
    j: int32,
    octave: int32,
    scale: int32,
    x: Float32,
    y: Float32,
    sigma: Float32,
    extremumVal: Float32,
    descriptor: Descriptor)

  /** The merge key, compared lexicographically (as `std::tie` does). */
  datatype Key = Key(octave: int, scale: int, i: int, j: int)

  function KeyOf(kp: Keypoint): (k: Key)
    ensures k.octave == kp.octave as int && k.scale == kp.scale as int
    ensures k.i == kp.i as int && k.j == kp.j as int
  {
    Key(kp.octave as int, kp.scale as int, kp.i as int, kp.j as int)
  }

  /** Lexicographic `<` on keys. */
  predicate KeyLess(a: Key, b: Key) {
    if a.octave != b.octave then a.octave < b.octave
    else if a.scale != b.scale then a.scale < b.scale
    else if a.i != b.i then a.i < b.i
    else a.j < b.j
  }

  /** The comparator the root passes to the sort. */
  predicate Precedes(a: Keypoint, b: Keypoint) {
    KeyLess(KeyOf(a), KeyOf(b))
  }

  /**
   * The comparator is `std::tie(a.octave, a.scale, a.i, a.j) < std::tie(b.octave, b.scale, b.i, b.j)`:
   * octave first, then scale, then `i`, then `j`.
   */
  lemma PrecedesIsTieOrder(a: Keypoint, b: Keypoint)
    ensures Precedes(a, b) <==>
      (a.octave < b.octave || (a.octave == b.octave &&
        (a.scale < b.scale || (a.scale == b.scale &&
          (a.i < b.i || (a.i == b.i && a.j < b.j))))))
  {
  }

  /** The key order is a strict total order: exactly one of `<`, `==`, `>` holds. */
  lemma KeyOrderTrichotomy(a: Key, b: Key)
    ensures KeyLess(a, b) || a == b || KeyLess(b, a)
    ensures !(KeyLess(a, b) && KeyLess(b, a))
    ensures !KeyLess(a, a)
  {
  }

  lemma KeyLessTransitive(a: Key, b: Key, c: Key)
    requires KeyLess(a, b) && KeyLess(b, c)
    ensures KeyLess(a, c)
  {
  }

  /** "Not after" is transitive too; the sort's correctness rests on it. */
  lemma NotAfterTransitive(a: Key, b: Key, c: Key)
    requires !KeyLess(b, a) && !KeyLess(c, b)
    ensures !KeyLess(c, a)
  {
  }
}
