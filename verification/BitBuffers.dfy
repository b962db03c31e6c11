/** MSB-first framed bit sources and collectors. */
module BitBuffers {
  import opened Wrappers
  import opened Bits

  // ----- bytes as bits

  /** `(v >> shift) & 1`. */
  function ShiftedBit(v: nat, shift: nat): Bit {
    if shift == 0 then v % 2 else ShiftedBit(v / 2, shift - 1)
  }

  /** `v | 1 << shift`. */
  function SetShifted(v: nat, shift: nat): nat {
    if shift == 0 then v / 2 * 2 + 1 else 2 * SetShifted(v / 2, shift - 1) + v % 2
  }

  lemma {:induction false} SetShiftedBits(v: nat, shift: nat, at: nat)
    ensures ShiftedBit(SetShifted(v, shift), at) == if at == shift then 1 else ShiftedBit(v, at)
  {
    if shift == 0 || at == 0 {
      if 0 < at { assert SetShifted(v, 0) / 2 == v / 2; }
    } else {
      SetShiftedBits(v / 2, shift - 1, at - 1);
      assert SetShifted(v, shift) / 2 == SetShifted(v / 2, shift - 1);
    }
  }

  lemma {:induction false} SetShiftedBound(v: nat, shift: nat, n: nat)
    requires v < Pow2(n) && shift < n
    ensures SetShifted(v, shift) < Pow2(n)
  {
    assert v / 2 < Pow2(n - 1);
    if shift == 0 {
    } else {
      SetShiftedBound(v / 2, shift - 1, n - 1);
    }
  }

  /** The bits of a number spelt by a bit string are that string. */
  lemma {:induction false} BitsOfValue(bits: seq<Bit>, k: nat)
    requires k < |bits|
    ensures ShiftedBit(Value(bits), |bits| - 1 - k) == bits[k]
  {
    var n := |bits| - 1;
    if k == n {
    } else {
      BitsOfValue(bits[..n], k);
      assert Value(bits) / 2 == Value(bits[..n]);
    }
  }

  /** A number with as many bits is determined by them. */
  lemma {:induction false} ValueOfBits(v: nat, bits: seq<Bit>)
    requires v < Pow2(|bits|)
    requires forall k | 0 <= k < |bits| :: ShiftedBit(v, |bits| - 1 - k) == bits[k]
    ensures Value(bits) == v
  {
    var n := |bits| - 1;
    if |bits| == 0 {
    } else {
      forall k | 0 <= k < n ensures ShiftedBit(v / 2, n - 1 - k) == bits[..n][k] {
        assert ShiftedBit(v, n - k) == bits[k];
      }
      ValueOfBits(v / 2, bits[..n]);
      assert ShiftedBit(v, 0) == bits[n];
    }
  }

  /** Bit `k` of a byte, most significant first. */
  function BitOf(byte: Byte, k: nat): Bit
    requires k < 8
  {
    ShiftedBit(byte, 7 - k)
  }

  /** A number is the sum of its low bits, bit `k` at weight 2^k, and 2^n times what is above them. */
  function LowBits(v: nat, n: nat): nat {
    if n == 0 then 0 else ShiftedBit(v, n - 1) * Pow2(n - 1) + LowBits(v, n - 1)
  }

  lemma {:induction false} ShiftedHalf(v: nat, n: nat)
    requires 0 < n
    ensures LowBits(v, n) == 2 * LowBits(v / 2, n - 1) + v % 2
  {
    if n == 1 {
      assert LowBits(v, 0) == 0 && LowBits(v / 2, 0) == 0;
    } else {
      ShiftedHalf(v, n - 1);
      assert ShiftedBit(v, n - 1) == ShiftedBit(v / 2, n - 2) && Pow2(n - 1) == 2 * Pow2(n - 2);
    }
  }

  lemma {:induction false} LowBitsAll(v: nat, n: nat)
    requires v < Pow2(n)
    ensures LowBits(v, n) == v
  {
    if n == 0 {
    } else {
      ShiftedHalf(v, n);
      assert v / 2 < Pow2(n - 1);
      LowBitsAll(v / 2, n - 1);
    }
  }

  /** A byte is the sum of its bits, the first at 128. */
  lemma BitsWeigh(byte: Byte)
    ensures byte == 128 * BitOf(byte, 0) + 64 * BitOf(byte, 1) + 32 * BitOf(byte, 2) + 16 * BitOf(byte, 3)
                    + 8 * BitOf(byte, 4) + 4 * BitOf(byte, 5) + 2 * BitOf(byte, 6) + BitOf(byte, 7)
  {
    hide ShiftedBit;
    assert Pow2(8) == 256;
    LowBitsAll(byte, 8);
    LowBitsOfByte(byte);
  }

  lemma LowBitsOfByte(v: nat)
    ensures LowBits(v, 8) == 128 * ShiftedBit(v, 7) + 64 * ShiftedBit(v, 6) + 32 * ShiftedBit(v, 5) + 16 * ShiftedBit(v, 4)
                             + 8 * ShiftedBit(v, 3) + 4 * ShiftedBit(v, 2) + 2 * ShiftedBit(v, 1) + ShiftedBit(v, 0)
  {
    hide ShiftedBit;
    assert Pow2(0) == 1 && Pow2(1) == 2 && Pow2(2) == 4 && Pow2(3) == 8 && Pow2(4) == 16;
    assert Pow2(5) == 32 && Pow2(6) == 64 && Pow2(7) == 128;
    assert LowBits(v, 0) == 0;
    assert LowBits(v, 1) == ShiftedBit(v, 0) * Pow2(0) + LowBits(v, 0);
    assert LowBits(v, 2) == 2 * ShiftedBit(v, 1) + ShiftedBit(v, 0);
    assert LowBits(v, 4) == 8 * ShiftedBit(v, 3) + 4 * ShiftedBit(v, 2) + 2 * ShiftedBit(v, 1) + ShiftedBit(v, 0);
    assert LowBits(v, 6) == 32 * ShiftedBit(v, 5) + 16 * ShiftedBit(v, 4) + LowBits(v, 4);
    assert LowBits(v, 8) == 128 * ShiftedBit(v, 7) + 64 * ShiftedBit(v, 6) + LowBits(v, 6);
  }

  function SetBit(byte: Byte, k: nat): Byte
    requires k < 8
  {
    Pow2Values();
    SetShiftedBound(byte, 7 - k, 8);
    SetShifted(byte, 7 - k)
  }

  /** The byte that eight bits spell. */
  function ByteOf(bits: seq<Bit>): Byte
    requires |bits| == 8
  {
    Pow2Values();
    ValueBound(bits);
    Value(bits)
  }

  function BitsOf(data: seq<Byte>): (r: seq<Bit>)
    ensures |r| == 8 * |data|
  {
    seq(8 * |data|, i requires 0 <= i < 8 * |data| => BitOf(data[i / 8], i % 8))
  }

  /** The whole bytes at the front of a bit string; a partial last byte is withheld. */
  function CompleteBytes(bits: seq<Bit>): (r: seq<Byte>)
    ensures |r| == |bits| / 8
  {
    seq(|bits| / 8, i requires 0 <= i < |bits| / 8 => ByteOf(bits[8 * i..8 * i + 8]))
  }

  lemma ByteAt(bits: seq<Bit>, i: nat, byte: Byte)
    requires i < |bits| / 8
    requires forall k | 0 <= k < 8 :: BitOf(byte, k) == bits[8 * i + k]
    ensures CompleteBytes(bits)[i] == byte
  {
    var chunk := bits[8 * i..8 * i + 8];
    assert byte < Pow2(8) by { Pow2Values(); }
    forall k | 0 <= k < 8 ensures ShiftedBit(byte, 7 - k) == chunk[k] {
      assert BitOf(byte, k) == bits[8 * i + k];
    }
    ValueOfBits(byte, chunk);
  }

  /** Packing undoes unpacking, whatever follows. */
  lemma CompleteBytesOfBits(data: seq<Byte>, rest: seq<Bit>)
    ensures |data| <= |CompleteBytes(BitsOf(data) + rest)|
    ensures CompleteBytes(BitsOf(data) + rest)[..|data|] == data
  {
    var bits := BitsOf(data) + rest;
    forall i | 0 <= i < |data| ensures CompleteBytes(bits)[i] == data[i] {
      forall k | 0 <= k < 8 ensures BitOf(data[i], k) == bits[8 * i + k] {
        assert (8 * i + k) / 8 == i && (8 * i + k) % 8 == k;
      }
      ByteAt(bits, i, data[i]);
    }
  }

  /** Unpacking undoes packing of whole bytes. */
  lemma BitsOfCompleteBytes(bits: seq<Bit>)
    ensures BitsOf(CompleteBytes(bits)) == bits[..8 * (|bits| / 8)]
  {
    var bytes := CompleteBytes(bits);
    forall i | 0 <= i < 8 * |bytes| ensures BitsOf(bytes)[i] == bits[i] {
      var chunk := bits[8 * (i / 8)..8 * (i / 8) + 8];
      BitsOfValue(chunk, i % 8);
      assert chunk[i % 8] == bits[8 * (i / 8) + i % 8];
    }
  }

  /** The sender's infinite stream: the data bits, then the suffix. */
  function Framed(data: seq<Byte>, suffix: Stream): Stream {
    (i: nat) => FramedBit(data, suffix, i)
  }

  function FramedBit(data: seq<Byte>, suffix: Stream, i: nat): Bit {
    if i < 8 * |data| then BitsOf(data)[i] else suffix(i - 8 * |data|)
  }

  /** Bit `k` of byte `i` stands at 8i + k, and the suffix after the bytes. */
  lemma FramedParts(data: seq<Byte>, suffix: Stream, i: nat, k: nat)
    requires k < 8
    ensures i < |data| ==> Framed(data, suffix)(8 * i + k) == BitOf(data[i], k)
    ensures Framed(data, suffix)(8 * |data| + i) == suffix(i)
  {
    assert (8 * i + k) / 8 == i && (8 * i + k) % 8 == k;
    assert Framed(data, suffix)(8 * i + k) == FramedBit(data, suffix, 8 * i + k);
  }

  // ----- the source

  datatype SourceError = NegativeOffset | NonBit

  /** The default suffix alternates, starting with one. */
  function AlternatingSuffix(offset: nat): int {
    if offset % 2 == 0 then 1 else 0
  }

  lemma AlternatesFromOne(offset: nat)
    ensures AlternatingSuffix(0) == 1 && AlternatingSuffix(offset + 1) == 1 - AlternatingSuffix(offset)
  {
  }

  /** Real bytes followed by a cached infinite suffix, each suffix bit drawn once and in order. */
  class FramedBitSource {
    const data: seq<Byte>
    const suffixBit: nat -> int
    var suffix: seq<Bit>
    ghost var calls: seq<nat>  // the arguments of every call of suffixBit, in order

    ghost predicate Valid()
      reads this
    {
      forall i | 0 <= i < |suffix| :: suffix[i] == suffixBit(i)
    }

    constructor (data: seq<Byte>, suffixBit: nat -> int := AlternatingSuffix)
      ensures Valid() && this.data == data && this.suffixBit == suffixBit && suffix == [] && calls == []
    {
      this.data, this.suffixBit := data, suffixBit;
      suffix, calls := [], [];
    }

    /** Consecutive arguments. */
    static ghost function Upto(from: nat, to: nat): (r: seq<nat>)
      requires from <= to
      ensures |r| == to - from && forall i | 0 <= i < |r| :: r[i] == from + i
    {
      seq(to - from, i => from + i)
    }

    function RealBits(): nat { 8 * |data| }

    /** The bit at `offset` of the infinite sequence, a suffix entry not necessarily a bit. */
    function Content(offset: nat): int {
      if offset < RealBits() then BitOf(data[offset / 8], offset % 8) else suffixBit(offset - RealBits())
    }

    /** Reads one bit; the cache grows only as far as the offset asked for. */
    method BitAt(offset: int) returns (r: Result<Bit, SourceError>)
      requires Valid()
      modifies this
      ensures Valid() && old(suffix) <= suffix
      ensures offset < 0 ==> r == Failure(NegativeOffset) && suffix == old(suffix)
      ensures 0 <= offset && r.Success? ==> r.value == Content(offset)
      ensures 0 <= offset && r.Success? ==>
        r.value == if offset < 8 * |data| then BitOf(data[offset / 8], offset % 8) else suffixBit(offset - 8 * |data|)
      ensures 0 <= offset && r.Success? ==>
        |suffix| == if |old(suffix)| <= offset - RealBits() then offset - RealBits() + 1 else |old(suffix)|
      ensures 0 <= offset && r.Failure? ==>
        r.error == NonBit && |suffix| <= offset - RealBits() && suffixBit(|suffix|) !in {0, 1}
      ensures calls == old(calls) + Upto(|old(suffix)|, |suffix| + if r == Failure(NonBit) then 1 else 0)
    {
      if offset < 0 {
        return Failure(NegativeOffset);
      }
      if offset < RealBits() {
        return Success(BitOf(data[offset / 8], offset % 8));
      }
      var suffixOffset := offset - RealBits();
      while |suffix| <= suffixOffset
        invariant Valid() && old(suffix) <= suffix
        invariant |suffix| <= suffixOffset + 1 || suffix == old(suffix)
        invariant calls == old(calls) + Upto(|old(suffix)|, |suffix|)
        decreases suffixOffset - |suffix|
      {
        var bit := suffixBit(|suffix|);
        calls := calls + [|suffix|];
        if bit != 0 && bit != 1 {
          return Failure(NonBit);
        }
        suffix := suffix + [bit];
      }
      return Success(suffix[suffixOffset]);
    }
  }

  // ----- the collector

  lemma ZeroBits()
    ensures forall k | 0 <= k < 8 :: BitOf(0, k) == 0
  {
    forall k | 0 <= k < 8 ensures BitOf(0, k) == 0 {
      ZeroShifted(7 - k);
    }
  }

  lemma {:induction false} ZeroShifted(shift: nat)
    ensures ShiftedBit(0, shift) == 0
  {
    if shift == 0 {
    } else {
      ZeroShifted(shift - 1);
    }
  }

  /** Setting the clear bit at position `at` changes that bit only. */
  lemma SetBitAt(data: seq<Byte>, at: nat, bit: Bit)
    requires at < 8 * |data| && BitOf(data[at / 8], at % 8) == 0
    ensures var r := if bit == 1 then data[at / 8 := SetBit(data[at / 8], at % 8)] else data;
      forall i | 0 <= i < 8 * |data| :: BitOf(r[i / 8], i % 8) == if i == at then bit else BitOf(data[i / 8], i % 8)
  {
    var r := if bit == 1 then data[at / 8 := SetBit(data[at / 8], at % 8)] else data;
    forall i | 0 <= i < 8 * |data|
      ensures BitOf(r[i / 8], i % 8) == if i == at then bit else BitOf(data[i / 8], i % 8)
    {
      if i / 8 == at / 8 {
        SetShiftedBits(data[at / 8], 7 - at % 8, 7 - i % 8);
      }
    }
  }

  /** The bytes hold the bits, most significant first, and zeros after them. */
  predicate Spells(data: seq<Byte>, bits: seq<Bit>) {
    && |bits| <= 8 * |data|
    && forall i | 0 <= i < 8 * |data| :: BitOf(data[i / 8], i % 8) == if i < |bits| then bits[i] else 0
  }

  lemma ZeroByteSpells(data: seq<Byte>, bits: seq<Bit>)
    requires Spells(data, bits)
    ensures Spells(data + [0], bits)
  {
    hide BitOf;
    ZeroBits();
    var grown := data + [0];
    forall i | 0 <= i < 8 * |grown| ensures BitOf(grown[i / 8], i % 8) == if i < |bits| then bits[i] else 0 {
      assert i < 8 * |data| ==> grown[i / 8] == data[i / 8];
    }
  }

  lemma NextBitSpells(data: seq<Byte>, bits: seq<Bit>, bit: Bit)
    requires Spells(data, bits) && |bits| < 8 * |data|
    ensures Spells(if bit == 1 then data[|bits| / 8 := SetBit(data[|bits| / 8], |bits| % 8)] else data, bits + [bit])
  {
    hide BitOf, SetBit;
    SetBitAt(data, |bits|, bit);
  }

  /** Collects bits MSB-first while retaining a partial final byte. */
  class BitCollector {
    var data: seq<Byte>
    var count: nat
    ghost var bits: seq<Bit>  // the bits appended so far

    ghost predicate Valid()
      reads this
    {
      count == |bits| && |data| == (count + 7) / 8 && Spells(data, bits)
    }

    constructor ()
      ensures Valid() && bits == []
    {
      data, count, bits := [], 0, [];
    }

    method Append(bit: int) returns (ok: bool)
      requires Valid()
      modifies this
      ensures Valid()
      ensures ok <==> bit in {0, 1}
      ensures bits == if ok then old(bits) + [bit] else old(bits)
    {
      if bit != 0 && bit != 1 {
        return false;
      }
      hide Spells, BitOf, SetBit;
      ok := true;
      if count % 8 == 0 {
        ZeroByteSpells(data, bits);
        data := data + [0];
      }
      NextBitSpells(data, bits, bit);
      if bit == 1 {
        data := data[count / 8 := SetBit(data[count / 8], count % 8)];
      }
      count := count + 1;
      bits := bits + [bit];
    }

    method BitAt(offset: int) returns (r: Option<Bit>)
      requires Valid()
      ensures r == if 0 <= offset < |bits| then Some(bits[offset]) else None
    {
      if 0 <= offset < count {
        r := Some(BitOf(data[offset / 8], offset % 8));
      } else {
        r := None;
      }
    }

    method Bytes() returns (r: seq<Byte>)
      requires Valid()
      ensures r == CompleteBytes(bits)
    {
      r := data[..count / 8];
      forall i | 0 <= i < count / 8 ensures r[i] == CompleteBytes(bits)[i] {
        forall k | 0 <= k < 8 ensures BitOf(r[i], k) == bits[8 * i + k] {
          assert (8 * i + k) / 8 == i && (8 * i + k) % 8 == k;
        }
        ByteAt(bits, i, r[i]);
      }
    }
  }
}
