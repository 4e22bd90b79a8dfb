/** The Internet checksum: ones-complement sums of 16-bit words, by arithmetic modulo 65535. */
module InternetChecksum {
  import opened SequenceNumbers

  function Word(high: Byte, low: Byte): U16 { high * 256 + low }

  /** Big-endian encodings. */
  function Be16(v: U16): seq<Byte> { [v / 256, v % 256] }

  function Be32(v: U32): seq<Byte> { Be16(v / 0x1_0000) + Be16(v % 0x1_0000) }

  function FromBe32(b: seq<Byte>): U32
    requires |b| == 4
  {
    Word(b[0], b[1]) * 0x1_0000 + Word(b[2], b[3])
  }

  /** Sum of the big-endian words; an odd last byte counts as the high half of a word. */
  function WordSum(bytes: seq<Byte>): nat {
    if bytes == [] then 0
    else if |bytes| == 1 then bytes[0] * 256
    else Word(bytes[0], bytes[1]) + WordSum(bytes[2..])
  }

  /** End-around carry to 16 bits. */
  function Fold(sum: nat): U16 {
    if sum == 0 then 0 else (sum - 1) % 65535 + 1
  }

  /** The sum is kept in a wrapping 32-bit accumulator. */
  function ChecksumOf(bytes: seq<Byte>): U16 { 65535 - Fold(Wrap(WordSum(bytes))) }

  lemma {:induction false} WordSumBound(bytes: seq<Byte>)
    ensures WordSum(bytes) <= (|bytes| + 1) / 2 * 65535
  {
    if |bytes| >= 2 { WordSumBound(bytes[2..]); }
  }

  /** No packet is long enough to wrap the accumulator. */
  lemma NoWrap(bytes: seq<Byte>)
    requires |bytes| <= 0x1_FFFE
    ensures WordSum(bytes) < 0x1_0000_0000 && ChecksumOf(bytes) == 65535 - Fold(WordSum(bytes))
  {
    WordSumBound(bytes);
  }

  lemma {:induction false} WordSumConcat(a: seq<Byte>, b: seq<Byte>)
    requires |a| % 2 == 0
    ensures WordSum(a + b) == WordSum(a) + WordSum(b)
  {
    if a == [] {
      assert a + b == b;
    } else {
      assert (a + b)[2..] == a[2..] + b;
      WordSumConcat(a[2..], b);
    }
  }

  lemma WordSumPair(v: U16)
    ensures WordSum(Be16(v)) == v
  {
    assert Be16(v)[2..] == [];
  }

  /** A zero field at an even offset filled with `v` adds exactly `v` to the sum. */
  lemma WordSumFill(a: seq<Byte>, b: seq<Byte>, v: U16)
    requires |a| % 2 == 0
    ensures WordSum(a + Be16(v) + b) == WordSum(a + Be16(0) + b) + v
  {
    forall x: U16 ensures WordSum(a + Be16(x) + b) == WordSum(a) + x + WordSum(b) {
      assert a + Be16(x) + b == a + (Be16(x) + b);
      WordSumConcat(a, Be16(x) + b);
      WordSumConcat(Be16(x), b);
      WordSumPair(x);
    }
  }

  /** Adding the complement of a sum makes the folded total all ones. */
  lemma ComplementFolds(sum: nat)
    ensures Fold(sum + (65535 - Fold(sum))) == 65535
  {
    if sum != 0 {
      var q, r := (sum - 1) / 65535, (sum - 1) % 65535;
      assert sum == 65535 * q + r + 1;
      assert sum + (65535 - (r + 1)) - 1 == 65535 * q + 65534;
    }
  }

  /** One carry step keeps the folded value. */
  lemma FoldStep(sum: nat)
    ensures Fold(sum % 0x1_0000 + sum / 0x1_0000) == Fold(sum)
  {
    var high, low := sum / 0x1_0000, sum % 0x1_0000;
    assert sum == high * 65535 + (high + low);
    if high + low != 0 {
      FoldMultiple(high, high + low);
    }
  }

  lemma FoldMultiple(k: nat, x: nat)
    requires 0 < x
    ensures Fold(k * 65535 + x) == Fold(x)
  {
    var r := (x - 1) % 65535;
    var q := (x - 1) / 65535;
    assert k * 65535 + x - 1 == (k + q) * 65535 + r;
    assert ((k + q) * 65535 + r) % 65535 == r;
  }

  /** The carry loop. */
  method FoldCarries(start: U32) returns (folded: U16)
    ensures folded == Fold(start)
  {
    var sum := start;
    while sum / 0x1_0000 != 0
      invariant 0 <= sum < 0x1_0000_0000 && Fold(sum) == Fold(start)
      decreases sum
    {
      FoldStep(sum);
      sum := sum % 0x1_0000 + sum / 0x1_0000;
    }
    folded := sum;
  }

  lemma WrapAbsorbs(a: int, b: int)
    ensures Wrap(Wrap(a) + b) == Wrap(a + b)
  {
  }

  /** The word loop, on the wrapping accumulator. */
  method AddWords(start: U32, bytes: seq<Byte>) returns (sum: U32)
    ensures sum == Wrap(start + WordSum(bytes))
  {
    hide Wrap, Word;
    sum := start;
    var i := 0;
    while i + 1 < |bytes|
      invariant 0 <= i <= |bytes| && i % 2 == 0
      invariant Wrap(sum + WordSum(bytes[i..])) == Wrap(start + WordSum(bytes))
    {
      assert bytes[i..][2..] == bytes[i + 2..];
      WrapAbsorbs(sum + Word(bytes[i], bytes[i + 1]), WordSum(bytes[i + 2..]));
      sum := WrapAdd(sum, Word(bytes[i], bytes[i + 1]));
      i := i + 2;
    }
    if i < |bytes| {
      assert bytes[i..] == [bytes[i]];
      LastWord(bytes[i]);
      sum := WrapAdd(sum, Word(bytes[i], 0));
    } else {
      WrapSmall(sum);
    }
  }

  lemma LastWord(b: Byte)
    ensures WordSum([b]) == Word(b, 0)
  {
  }

  lemma WrapSmall(sum: U32)
    ensures Wrap(sum) == sum
  {
  }

  method Checksum(bytes: seq<Byte>) returns (sum: U16)
    ensures sum == ChecksumOf(bytes)
  {
    var total := AddWords(0, bytes);
    var folded := FoldCarries(total);
    return 65535 - folded;
  }

  lemma Be32RoundTrip(v: U32)
    ensures |Be32(v)| == 4 && FromBe32(Be32(v)) == v
  {
    var h, l := v / 0x1_0000, v % 0x1_0000;
    assert Be32(v) == [h / 256, h % 256, l / 256, l % 256];
  }
}
