/** Little-endian fields and the FNV-1a checksum of a snapshot slot. */
module SnapshotChecksum {
  import opened SequenceNumbers

  const OFFSET_BASIS: U32 := 0x811c_9dc5
  const PRIME: U32 := 0x0100_0193
  /** `PRIME * INVERSE` is 1 modulo 2^32. */
  const INVERSE: U32 := 0x359c_449b
  const CHECKSUM_OFFSET: nat := 20

  // ----- little-endian fields -----

  function Pow256(n: nat): nat { if n == 0 then 1 else 256 * Pow256(n - 1) }

  function LittleEndian(x: nat, n: nat): (bytes: seq<Byte>)
    ensures |bytes| == n
  {
    if n == 0 then [] else [x % 256] + LittleEndian(x / 256, n - 1)
  }

  function FromLittleEndian(bytes: seq<Byte>): (x: nat)
    ensures x < Pow256(|bytes|)
  {
    if bytes == [] then 0 else bytes[0] + 256 * FromLittleEndian(bytes[1..])
  }

  lemma {:induction false} LittleEndianRoundTrip(x: nat, n: nat)
    requires x < Pow256(n)
    ensures FromLittleEndian(LittleEndian(x, n)) == x
  {
    if n > 0 { LittleEndianRoundTrip(x / 256, n - 1); }
  }

  lemma {:induction false} LittleEndianInjective(a: seq<Byte>, b: seq<Byte>)
    requires |a| == |b| && FromLittleEndian(a) == FromLittleEndian(b)
    ensures a == b
  {
    if a != [] {
      LittleEndianInjective(a[1..], b[1..]);
      assert a == [a[0]] + a[1..] && b == [b[0]] + b[1..];
    }
  }

  // ----- exclusive or -----

  /** Exclusive or of the low `n` bits. */
  function Xor(a: nat, b: nat, n: nat): (x: nat) {
    if n == 0 then 0 else (if a % 2 != b % 2 then 1 else 0) + 2 * Xor(a / 2, b / 2, n - 1)
  }

  function Pow2(n: nat): nat { if n == 0 then 1 else 2 * Pow2(n - 1) }

  lemma {:induction false} XorBound(a: nat, b: nat, n: nat)
    ensures Xor(a, b, n) < Pow2(n)
  {
    if n > 0 { XorBound(a / 2, b / 2, n - 1); }
  }

  /** Applying the same mask twice gives the value back, and so does applying the value to the result. */
  lemma {:induction false} XorCancels(a: nat, b: nat, n: nat)
    requires a < Pow2(n) && b < Pow2(n)
    ensures Xor(Xor(a, b, n), b, n) == a && Xor(a, Xor(a, b, n), n) == b
  {
    if n > 0 { XorCancels(a / 2, b / 2, n - 1); }
  }

  lemma Width()
    ensures Pow2(32) == MODULUS
  {
    assert Pow2(8) == 256;
    assert Pow2(16) == 0x1_0000;
    assert Pow2(24) == 0x100_0000;
  }

  // ----- FNV-1a -----

  function XorWord(hash: U32, byte: Byte): U32 {
    XorBound(hash, byte, 32);
    Width();
    Xor(hash, byte, 32)
  }

  function Mix(hash: U32, byte: Byte): U32 { Wrap(XorWord(hash, byte) * PRIME) }

  /** The checksum of the first `n` bytes; the four checksum bytes count as zero. */
  function Hash(bytes: seq<Byte>, n: nat): U32
    requires n <= |bytes|
  {
    if n == 0 then OFFSET_BASIS else Mix(Hash(bytes, n - 1), Counted(bytes, n - 1))
  }

  function Counted(bytes: seq<Byte>, i: nat): Byte
    requires i < |bytes|
  {
    if CHECKSUM_OFFSET <= i < CHECKSUM_OFFSET + 4 then 0 else bytes[i]
  }

  function Checksum(bytes: seq<Byte>): U32 { Hash(bytes, |bytes|) }

  method ComputeChecksum(bytes: array<Byte>) returns (hash: U32)
    ensures hash == Checksum(bytes[..])
  {
    hash := OFFSET_BASIS;
    for i := 0 to bytes.Length
      invariant hash == Hash(bytes[..], i)
    {
      if CHECKSUM_OFFSET <= i < CHECKSUM_OFFSET + 4 {
        hash := XorWord(hash, 0);
      } else {
        hash := XorWord(hash, bytes[i]);
      }
      hash := Wrap(hash * PRIME);
    }
  }

  /** The prime is odd, so multiplying by it modulo 2^32 can be undone. */
  lemma MultiplyUndone(x: U32)
    ensures Wrap(Wrap(x * PRIME) * INVERSE) == x
  {
    var q := x * PRIME / MODULUS;
    assert PRIME * INVERSE == 3513497 * MODULUS + 1;
    var t := 3513497 * x - q * INVERSE;
    assert Wrap(x * PRIME) * INVERSE == x + t * MODULUS;
    WrapMultiple(x, t);
  }

  lemma WrapMultiple(x: U32, t: int)
    ensures Wrap(x + t * MODULUS) == x
  {
  }

  /** Each step is injective in the running hash and, for a fixed hash, in the byte. */
  lemma MixInjective(h: U32, g: U32, b: Byte, c: Byte)
    requires Mix(h, b) == Mix(g, c) && (b == c || h == g)
    ensures h == g && b == c
  {
    MultiplyUndone(XorWord(h, b));
    MultiplyUndone(XorWord(g, c));
    assert XorWord(h, b) == XorWord(g, c);
    Width();
    XorCancels(h, b, 32);
    XorCancels(g, c, 32);
  }

  /** Contents that agree on every counted byte have the same checksum. */
  lemma {:induction false} HashAgrees(a: seq<Byte>, b: seq<Byte>, n: nat)
    requires n <= |a| == |b| && forall i :: 0 <= i < n ==> Counted(a, i) == Counted(b, i)
    ensures Hash(a, n) == Hash(b, n)
  {
    if n > 0 { HashAgrees(a, b, n - 1); }
  }

  /** Contents that differ in exactly one counted byte never have the same checksum. */
  lemma {:induction false} HashDiffers(a: seq<Byte>, b: seq<Byte>, at: nat, n: nat)
    requires at < n <= |a| == |b| && Counted(a, at) != Counted(b, at)
    requires forall i :: 0 <= i < n && i != at ==> Counted(a, i) == Counted(b, i)
    ensures Hash(a, n) != Hash(b, n)
  {
    hide Mix, Counted;
    if at == n - 1 {
      HashAgrees(a, b, at);
    } else {
      HashDiffers(a, b, at, n - 1);
    }
    if Hash(a, n) == Hash(b, n) {
      MixInjective(Hash(a, n - 1), Hash(b, n - 1), Counted(a, n - 1), Counted(b, n - 1));
    }
  }
}
