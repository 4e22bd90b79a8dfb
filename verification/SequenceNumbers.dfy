/** 32-bit wrapping sequence numbers, and the stream indices they stand for.

    A sequence number is the image of an unbounded stream index under
    `Wrap(base + index)`. The comparisons the stack makes on 32-bit values agree
    with the comparisons on indices as long as the two indices are less than
    2^31 apart, which is the segment-lifetime assumption of TCP. */
module SequenceNumbers {

  const MODULUS: int := 0x1_0000_0000
  const LIFETIME: int := 0x8000_0000

  type U32 = x: int | 0 <= x < 0x1_0000_0000
  type U16 = x: int | 0 <= x < 0x1_0000
  type Byte = x: int | 0 <= x < 256

  const U64_MAX: int := 0xFFFF_FFFF_FFFF_FFFF
  type U64 = x: int | 0 <= x <= 0xFFFF_FFFF_FFFF_FFFF

  function Wrap(x: int): U32 { x % MODULUS }

  function WrapAdd(a: U32, b: int): U32 { Wrap(a + b) }

  function WrapSub(a: U32, b: int): U32 { Wrap(a - b) }

  function SaturatingAdd(a: U64, b: U64): U64 {
    if a + b > U64_MAX then U64_MAX else a + b
  }

  /** `(value - reference) as i32 > 0`. */
  predicate SequenceAfter(value: U32, reference: U32) {
    0 < WrapSub(value, reference) < LIFETIME
  }

  /** A zero window still admits the next expected sequence number. */
  predicate SequenceInWindow(sequence: U32, next: U32, window: U16) {
    WrapSub(sequence, next) < if window == 0 then 1 else window
  }

  /** Two indices closer than the lifetime bound never collide after wrapping. */
  ghost predicate Near(x: int, y: int) { -LIFETIME < x - y < LIFETIME }

  lemma WrapShift(base: int, x: int, d: int)
    ensures WrapAdd(Wrap(base + x), d) == Wrap(base + x + d)
    ensures WrapSub(Wrap(base + x), d) == Wrap(base + x - d)
  {
  }

  lemma WrapDistance(base: int, x: int, y: int)
    ensures WrapSub(Wrap(base + x), Wrap(base + y)) == Wrap(x - y)
  {
  }

  lemma WrapEqual(base: int, x: int, y: int)
    requires Near(x, y)
    ensures Wrap(base + x) == Wrap(base + y) <==> x == y
  {
  }

  /** Window membership of wrapped numbers is window membership of indices. */
  lemma WindowExact(base: int, s: int, n: int, window: U16)
    requires Near(s, n)
    ensures SequenceInWindow(Wrap(base + s), Wrap(base + n), window) <==>
            0 <= s - n < if window == 0 then 1 else window
  {
    WrapDistance(base, s, n);
  }

  lemma AfterExact(base: int, x: int, y: int)
    requires Near(x, y)
    ensures SequenceAfter(Wrap(base + x), Wrap(base + y)) <==> y < x
  {
    WrapDistance(base, x, y);
  }

  /** Advancing the reference by no more than the distance shortens the distance by as much. */
  lemma DistanceShrinks(value: U32, reference: U32, len: nat)
    requires len <= WrapSub(value, reference)
    ensures WrapSub(value, WrapAdd(reference, len)) == WrapSub(value, reference) - len
    ensures value == WrapAdd(reference, len) <==> WrapSub(value, reference) == len
  {
    var q := (reference + len) / MODULUS;
    assert WrapAdd(reference, len) == reference + len - q * MODULUS && 0 <= q <= 1;
    var k := if value >= reference then 0 else 1;
    assert WrapSub(value, reference) == value - reference + k * MODULUS;
  }
}
