/** Bits, bytes and MSB-first windows of an unbounded bit stream. */
module Bits {
  type Bit = b: int | 0 <= b <= 1
  type Byte = b: int | 0 <= b < 256

  /** An unbounded source of bits, addressed by offset. */
  type Stream = nat -> Bit

  function Pow2(n: nat): (r: nat)
    ensures 1 <= r
  {
    if n == 0 then 1 else 2 * Pow2(n - 1)
  }

  lemma {:induction false} Pow2Sum(m: nat, n: nat)
    ensures Pow2(m + n) == Pow2(m) * Pow2(n)
  {
    if n == 0 {
    } else {
      Pow2Sum(m, n - 1);
      assert Pow2(m) * (2 * Pow2(n - 1)) == 2 * (Pow2(m) * Pow2(n - 1));
    }
  }

  lemma Pow2Values()
    ensures Pow2(8) == 0x100 && Pow2(15) == 0x8000 && Pow2(16) == 0x1_0000
    ensures Pow2(30) == 0x4000_0000 && Pow2(31) == 0x8000_0000 && Pow2(32) == 0x1_0000_0000
  {
    assert Pow2(4) == 16;
    Pow2Sum(4, 4);
    Pow2Sum(8, 8);
    Pow2Sum(16, 15);
    Pow2Sum(15, 15);
    Pow2Sum(15, 1);
  }

  /** The number spelt by `n` stream bits from offset `from`, most significant first. */
  function Window(s: Stream, from: nat, n: nat): nat
    decreases n, s
  {
    if n == 0 then 0 else 2 * Window(s, from, n - 1) + s(from + n - 1)
  }

  lemma {:induction false} WindowBound(s: Stream, from: nat, n: nat)
    ensures Window(s, from, n) < Pow2(n)
  {
    if n == 0 {
    } else {
      WindowBound(s, from, n - 1);
    }
  }

  /** A window splits into its leading bits and the window after them. */
  lemma {:induction false} WindowSplit(s: Stream, from: nat, m: nat, n: nat)
    ensures Window(s, from, m + n) == Window(s, from, m) * Pow2(n) + Window(s, from + m, n)
  {
    if n == 0 {
    } else {
      var head, last := Window(s, from, m), s(from + m + n - 1);
      WindowSplit(s, from, m, n - 1);
      SplitDouble(head, Pow2(n - 1), Window(s, from + m, n - 1), last);
      assert Window(s, from, m + n) == 2 * Window(s, from, m + (n - 1)) + last;
    }
  }

  lemma SplitDouble(head: int, weight: int, rest: int, last: int)
    ensures 2 * (head * weight + rest) + last == head * (2 * weight) + (2 * rest + last)
  {
  }

  /** What a bit contributes at the given weight. */
  function Weighted(bit: Bit, weight: int): int {
    if bit == 1 then weight else 0
  }

  lemma WindowHead(s: Stream, from: nat, n: nat)
    ensures Window(s, from, n + 1) == Weighted(s(from), Pow2(n)) + Window(s, from + 1, n)
  {
    WindowSplit(s, from, 1, n);
    assert Window(s, from, 1) == 2 * Window(s, from, 0) + s(from);
    WeightedProduct(s(from), Window(s, from, 1), Pow2(n));
  }

  lemma WeightedProduct(bit: Bit, x: int, weight: int)
    requires x == bit
    ensures x * weight == Weighted(bit, weight)
  {
  }

  /** The number spelt by a finite bit string. */
  function Value(bits: seq<Bit>): nat {
    if |bits| == 0 then 0 else 2 * Value(bits[..|bits| - 1]) + bits[|bits| - 1]
  }

  lemma {:induction false} ValueBound(bits: seq<Bit>)
    ensures Value(bits) < Pow2(|bits|)
  {
    if |bits| == 0 {
    } else {
      ValueBound(bits[..|bits| - 1]);
    }
  }

  /** `bits` are the first bits of `s`. */
  predicate StartsWith(s: Stream, bits: seq<Bit>) {
    forall i | 0 <= i < |bits| :: bits[i] == s(i)
  }

  /** Binary notation is unique: equal length and equal value is equal bits. */
  lemma {:induction false} ValueDeterminesBits(s: Stream, bits: seq<Bit>)
    ensures StartsWith(s, bits) <==> Value(bits) == Window(s, 0, |bits|)
  {
    var n := |bits|;
    if n == 0 {
    } else {
      ValueDeterminesBits(s, bits[..n - 1]);
      assert forall i | 0 <= i < n - 1 :: bits[..n - 1][i] == bits[i];
      if StartsWith(s, bits) {
        assert StartsWith(s, bits[..n - 1]);
      }
      if Value(bits) == Window(s, 0, n) {
        assert bits[n - 1] == s(n - 1);
      }
    }
  }

  /** A window has its extreme value exactly when all its bits agree. */
  lemma {:induction false} WindowExtremes(s: Stream, from: nat, n: nat)
    ensures Window(s, from, n) == 0 <==> forall i | from <= i < from + n :: s(i) == 0
    ensures Window(s, from, n) == Pow2(n) - 1 <==> forall i | from <= i < from + n :: s(i) == 1
  {
    if n == 0 {
    } else {
      WindowExtremes(s, from, n - 1);
      WindowBound(s, from, n - 1);
      assert Window(s, from, n) == 2 * Window(s, from, n - 1) + s(from + n - 1);
    }
  }
}
