/** Canonical unsigned LEB128 lengths. */
module Varint {
  import opened Wrappers
  import opened Bits

  datatype VarintError = Negative | OffsetOutside | BadLimit | Incomplete | NonCanonical | TooLong

  /** Base-128 digits, least significant first, the continuation bit on all but the last. */
  function Encoding(value: nat): (r: seq<Byte>)
    ensures r != []
  {
    if value < 0x80 then [value] else [value % 0x80 + 0x80] + Encoding(value / 0x80)
  }

  /** The number that base-128 digits spell, continuation bits ignored. */
  function Groups(bytes: seq<Byte>): nat {
    if bytes == [] then 0 else bytes[0] % 0x80 + 0x80 * Groups(bytes[1..])
  }

  /** How many of the first `limit` bytes carry the continuation bit, up to the first that does not. */
  function Continuations(bytes: seq<Byte>, limit: nat): (r: nat)
    ensures r <= limit && r <= |bytes|
    ensures forall i | 0 <= i < r :: 0x80 <= bytes[i]
    ensures r < limit && r < |bytes| ==> bytes[r] < 0x80
  {
    if limit == 0 || bytes == [] || bytes[0] < 0x80 then 0 else 1 + Continuations(bytes[1..], limit - 1)
  }

  /** Decoding at an offset: the digits up to the first without a continuation bit, if they are canonical. */
  function Decoding(data: seq<Byte>, offset: int, maxBytes: int): (r: Result<(nat, nat), VarintError>)
    ensures r.Success? ==> 0 < r.value.1 <= maxBytes && 0 <= offset && offset + r.value.1 <= |data|
  {
    if offset < 0 || |data| < offset then Failure(OffsetOutside)
    else if maxBytes < 1 then Failure(BadLimit)
    else
      var rest := data[offset..];
      var k := Continuations(rest, maxBytes);
      if k == maxBytes then Failure(TooLong)
      else if k == |rest| then Failure(Incomplete)
      else
        var value := Groups(rest[..k + 1]);
        if rest[..k + 1] != Encoding(value) then Failure(NonCanonical) else Success((value, k + 1))
  }

  // ----- the loops

  method EncodeUvarint(value: int) returns (r: Result<seq<Byte>, VarintError>)
    ensures r == if value < 0 then Failure(Negative) else Success(Encoding(value))
  {
    if value < 0 {
      return Failure(Negative);
    }
    var rest, out := value, [];
    while 0x80 <= rest
      invariant 0 <= rest && out + Encoding(rest) == Encoding(value)
    {
      out := out + [rest % 0x80 + 0x80];
      rest := rest / 0x80;
    }
    out := out + [rest];
    r := Success(out);
  }

  method DecodeUvarint(data: seq<Byte>, offset: int, maxBytes: int) returns (r: Result<(nat, nat), VarintError>)
    ensures r == Decoding(data, offset, maxBytes)
  {
    hide Groups, Encoding, Continuations, Pow2;
    if offset < 0 || |data| < offset {
      return Failure(OffsetOutside);
    }
    if maxBytes < 1 {
      return Failure(BadLimit);
    }
    ghost var rest := data[offset..];
    var value: nat, weight: nat := 0, 1;
    NoDigits(rest);
    for index := 0 to maxBytes
      invariant index <= |rest| && forall i | 0 <= i < index :: 0x80 <= rest[i]
      invariant value == Groups(rest[..index]) && weight == Pow2(7 * index)
    {
      ContinuationsFrom(rest, maxBytes, index);
      var position := offset + index;
      if |data| <= position {
        return Failure(Incomplete);
      }
      var byte := data[position];
      assert byte == rest[index];
      GroupsAppend(rest[..index], byte);
      assert rest[..index] + [byte] == rest[..index + 1];
      GroupsBound(rest[..index]);
      assert value < weight;  // so `value |= (byte & 0x7F) << shift` is a sum
      value := value + byte % 0x80 * weight;
      if byte < 0x80 {
        var consumed := index + 1;
        assert rest[..consumed] == data[offset..offset + consumed];
        var canonical := EncodeUvarint(value);
        if data[offset..offset + consumed] != canonical.value {
          return Failure(NonCanonical);
        }
        return Success((value, consumed));
      }
      weight := weight * 0x80;
      Pow2Seven(7 * index);
    }
    ContinuationsFrom(rest, maxBytes, maxBytes);
    r := Failure(TooLong);
  }

  lemma NoDigits(bytes: seq<Byte>)
    ensures Groups(bytes[..0]) == 0 && Pow2(7 * 0) == 1
  {
  }

  lemma Pow2Seven(n: nat)
    ensures Pow2(n + 7) == Pow2(n) * 0x80
  {
    assert Pow2(7) == 0x80;
    Pow2Sum(n, 7);
  }

  /** After `done` continuation bytes the count is settled by the next byte. */
  lemma {:induction false} ContinuationsFrom(bytes: seq<Byte>, limit: nat, done: nat)
    requires done <= |bytes| && done <= limit && forall i | 0 <= i < done :: 0x80 <= bytes[i]
    ensures Continuations(bytes, limit) >= done
    ensures done == limit || done == |bytes| || bytes[done] < 0x80 ==> Continuations(bytes, limit) == done
  {
    if done == 0 {
    } else {
      ContinuationsFrom(bytes[1..], limit - 1, done - 1);
    }
  }

  lemma Reassociate(x: int, y: int)
    ensures 0x80 * (x * y) == x * (y * 0x80)
  {
  }

  /** One more digit adds its seven bits at the next weight. */
  lemma {:induction false} GroupsAppend(bytes: seq<Byte>, byte: Byte)
    ensures Groups(bytes + [byte]) == Groups(bytes) + byte % 0x80 * Pow2(7 * |bytes|)
  {
    if bytes == [] {
      assert [] + [byte] == [byte];
      assert Groups([byte][1..]) == 0;
    } else {
      var n := |bytes| - 1;
      assert (bytes + [byte])[1..] == bytes[1..] + [byte];
      GroupsAppend(bytes[1..], byte);
      Pow2Seven(7 * n);
      Reassociate(byte % 0x80, Pow2(7 * n));
    }
  }

  lemma {:induction false} GroupsBound(bytes: seq<Byte>)
    ensures Groups(bytes) < Pow2(7 * |bytes|)
  {
    if bytes == [] {
    } else {
      GroupsBound(bytes[1..]);
      Pow2Seven(7 * (|bytes| - 1));
    }
  }

  // ----- canonical form

  /** An encoding ends at its first byte without a continuation bit and spells its value. */
  lemma {:induction false} EncodingShape(value: nat)
    ensures Groups(Encoding(value)) == value
    ensures Encoding(value)[|Encoding(value)| - 1] < 0x80
    ensures forall i | 0 <= i < |Encoding(value)| - 1 :: 0x80 <= Encoding(value)[i]
  {
    if value < 0x80 {
      assert Groups([value][1..]) == 0;
    } else {
      EncodingShape(value / 0x80);
      assert Encoding(value)[1..] == Encoding(value / 0x80);
    }
  }

  /** Decoding succeeds with `value` exactly when its encoding, within the limit, is what stands at the offset. */
  lemma DecodesIffEncoded(data: seq<Byte>, offset: nat, maxBytes: nat, value: nat, consumed: nat)
    requires offset <= |data| && 1 <= maxBytes
    ensures Decoding(data, offset, maxBytes) == Success((value, consumed))
       <==> consumed == |Encoding(value)| <= maxBytes && Encoding(value) <= data[offset..]
  {
    var code, rest := Encoding(value), data[offset..];
    EncodingShape(value);
    if code <= rest && |code| <= maxBytes {
      assert forall i | 0 <= i < |code| :: rest[i] == code[i];
      ContinuationsFrom(rest, maxBytes, |code| - 1);
      assert rest[..|code|] == code;
    }
  }

  /** No encoding begins another. */
  lemma EncodingPrefixFree(x: nat, y: nat)
    requires Encoding(x) <= Encoding(y)
    ensures x == y
  {
    var n := |Encoding(y)|;
    DecodesIffEncoded(Encoding(y), 0, n, x, |Encoding(x)|);
    DecodesIffEncoded(Encoding(y), 0, n, y, n);
  }

  /** A strict prefix of an encoding is incomplete, whatever the limit allows beyond it. */
  lemma StrictPrefixIncomplete(value: nat, data: seq<Byte>, maxBytes: nat)
    requires data < Encoding(value) && |Encoding(value)| <= maxBytes
    ensures Decoding(data, 0, maxBytes) == Failure(Incomplete)
  {
    EncodingShape(value);
    assert forall i | 0 <= i < |data| :: data[i] == Encoding(value)[i];
    ContinuationsFrom(data, maxBytes, |data|);
    assert data[0..] == data;
  }

  /** Values below 2^7, 2^14 and 2^21 take one, two and three bytes. */
  lemma EncodingLength(value: nat)
    requires value < 0x20_0000
    ensures |Encoding(value)| == if value < 0x80 then 1 else if value < 0x4000 then 2 else 3
  {
    assert value / 0x80 < 0x80 <==> value < 0x4000;
    assert value / 0x80 / 0x80 < 0x80;
  }

  /**
   The refusals, in order: an offset outside, a limit below one, as many continuation bytes as the limit, the
   data ending before a last byte, or digits that end but are not an encoding.
   */
  lemma DecodingRefusals(data: seq<Byte>, offset: int, maxBytes: int)
    ensures Decoding(data, offset, maxBytes) == Failure(OffsetOutside) <==> offset < 0 || |data| < offset
    ensures 0 <= offset <= |data| ==> (Decoding(data, offset, maxBytes) == Failure(BadLimit) <==> maxBytes < 1)
    ensures 0 <= offset <= |data| && 1 <= maxBytes ==>
      (Decoding(data, offset, maxBytes) == Failure(TooLong) <==>
        offset + maxBytes <= |data| && forall i | offset <= i < offset + maxBytes :: 0x80 <= data[i])
    ensures 0 <= offset <= |data| && 1 <= maxBytes ==>
      (Decoding(data, offset, maxBytes) == Failure(Incomplete) <==>
        |data| < offset + maxBytes && forall i | offset <= i < |data| :: 0x80 <= data[i])
    ensures Decoding(data, offset, maxBytes) != Failure(Negative)
  {
    hide Groups, Encoding;
    if 0 <= offset <= |data| && 1 <= maxBytes {
      var rest := data[offset..];
      assert forall i | offset <= i < |data| :: data[i] == rest[i - offset];
      if |rest| < maxBytes {
        if forall i | offset <= i < |data| :: 0x80 <= data[i] {
          ContinuationsFrom(rest, maxBytes, |rest|);
        }
      } else if forall i | offset <= i < offset + maxBytes :: 0x80 <= data[i] {
        ContinuationsFrom(rest, maxBytes, maxBytes);
      }
    }
  }

  /** Digits that end within the limit and the data are decoded or refused as non-canonical. */
  lemma EndedDigits(data: seq<Byte>, offset: nat, maxBytes: nat, n: nat)
    requires n < maxBytes && offset + n < |data| && data[offset + n] < 0x80
    requires forall i | offset <= i < offset + n :: 0x80 <= data[i]
    ensures var value := Groups(data[offset..offset + n + 1]);
      Decoding(data, offset, maxBytes) == if data[offset..offset + n + 1] == Encoding(value) then Success((value, n + 1)) else Failure(NonCanonical)
  {
    hide Groups, Encoding;
    var rest := data[offset..];
    assert forall i | 0 <= i < |rest| :: rest[i] == data[offset + i];
    ContinuationsFrom(rest, maxBytes, n);
    assert rest[..n + 1] == data[offset..offset + n + 1];
  }
}
