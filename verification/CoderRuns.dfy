/**
 Whole runs of the two coders, under a table that may change at every symbol.
 */
module CoderRuns {
  import opened Bits
  import opened Frequencies
  import opened ArithmeticCoding
  import Floors

  ghost predicate Codable(tables: seq<seq<int>>, symbols: seq<nat>) {
    |tables| == |symbols| &&
    forall i | 0 <= i < |tables| :: IsCumulative(tables[i]) && symbols[i] + 1 < |tables[i]|
  }

  ghost predicate Tables(tables: seq<seq<int>>) {
    forall i | 0 <= i < |tables| :: IsCumulative(tables[i])
  }

  /** The receiver's encoder after consuming `symbols` from state `e`. */
  function EncodeFrom(e: Encoder, tables: seq<seq<int>>, symbols: seq<nat>): (r: Encoder)
    requires e.Ready() && Codable(tables, symbols)
    ensures r.Ready() && e.emitted <= r.emitted && e.Shifts() <= r.Shifts()
  {
    var n := |symbols|;
    if n == 0 then e else Step(EncodeFrom(e, tables[..n - 1], symbols[..n - 1]), tables[n - 1], symbols[n - 1])
  }

  function Encode(tables: seq<seq<int>>, symbols: seq<nat>): Encoder
    requires Codable(tables, symbols)
  {
    EncodeFrom(INITIAL, tables, symbols)
  }

  /** The sender's inverse decoder: the symbols that `s` spells under `tables`, and the state reached. */
  function Decode(tables: seq<seq<int>>, s: Stream): (r: (seq<nat>, Decoder))
    requires Tables(tables)
    ensures Codable(tables, r.0) && r.1.Ready()
  {
    var n := |tables|;
    if n == 0 then ([], Load(s)) else
      var (symbols, d) := Decode(tables[..n - 1], s);
      var (symbol, next) := DecoderStep(d, tables[n - 1], s);
      (symbols + [symbol], next)
  }

  /**
   The encoder's interval after any symbol string is exactly the set of streams that decode to that
   string, and on those streams the decoder's registers are the encoder's.
   */
  lemma {:induction false} EnclosedIffDecodes(tables: seq<seq<int>>, symbols: seq<nat>, s: Stream)
    requires Codable(tables, symbols)
    ensures Encloses(Encode(tables, symbols), s) <==> Decode(tables, s).0 == symbols
    ensures Decode(tables, s).0 == symbols ==> Decode(tables, s).1 == Track(Encode(tables, symbols), s)
  {
    hide Step, DecoderStep, Encloses, Track, IsCumulative;
    var n := |symbols|;
    if n == 0 {
      InitialEncloses(s);
    } else {
      var ts, ys, c, y := tables[..n - 1], symbols[..n - 1], tables[n - 1], symbols[n - 1];
      EnclosedIffDecodes(ts, ys, s);
      StepEncloses(Encode(ts, ys), c, y, s);
      assert symbols == ys + [y];
      assert Decode(tables, s).0 == symbols <==> Decode(ts, s).0 == ys && DecoderStep(Decode(ts, s).1, c, s).0 == y;
    }
  }

  /**
   Lockstep: beside the mirror encoder of its own symbols the decoder has the same interval, has read
   exactly the confirmed, pending and 32 register bits, and every confirmed bit is the stream's.
   */
  lemma Lockstep(tables: seq<seq<int>>, s: Stream)
    requires Tables(tables)
    ensures var (symbols, d) := Decode(tables, s);
      var e := Encode(tables, symbols);
      && d.low == e.low && d.high == e.high
      && d.offset == |e.emitted| + e.pending + 32
      && StartsWith(s, e.emitted) && Encloses(e, s)
  {
    EnclosedIffDecodes(tables, Decode(tables, s).0, s);
  }

  /** The intervals of two different strings of symbols have no stream in common. */
  lemma IntervalsDisjoint(tables: seq<seq<int>>, x: seq<nat>, y: seq<nat>, s: Stream)
    requires Codable(tables, x) && Codable(tables, y) && x != y
    ensures !(Encloses(Encode(tables, x), s) && Encloses(Encode(tables, y), s))
  {
    EnclosedIffDecodes(tables, x, s);
    EnclosedIffDecodes(tables, y, s);
  }

  // ----- the interval as a range of numbers

  /** The least number of `Shifts() + 32` bits in the encoder's interval. */
  function AbsoluteLow(e: Encoder): int {
    Value(e.emitted) * Pow2(e.pending + 32) + (Pow2(e.pending + 31) - HALF) + e.low
  }

  function AbsoluteHigh(e: Encoder): int {
    AbsoluteLow(e) + (e.high - e.low)
  }

  lemma Pow2Register(p: nat)
    ensures Pow2(p + 31) == Pow2(p) * 0x8000_0000
  {
    Pow2Values();
    Pow2Sum(p, 31);
  }

  lemma RegisterSplit(s: Stream, from: nat, p: nat)
    ensures Window(s, from, p + 31) == Window(s, from, p) * 0x8000_0000 + Window(s, from + p, 31)
    ensures Window(s, from + p, 31) < HALF
  {
    assert Pow2(31) == HALF by { Pow2Values(); }
    WindowSplit(s, from, p, 31);
    WindowBound(s, from + p, 31);
  }

  /** The straddle run as a number: all ones after a zero, all zeros after a one. */
  lemma RunValue(e: Encoder, s: Stream)
    ensures PendingRun(e, s)
       <==> Window(s, |e.emitted| + 1, e.pending) == if s(|e.emitted|) == 1 then 0 else Pow2(e.pending) - 1
  {
    WindowExtremes(s, |e.emitted| + 1, e.pending);
  }

  /** After the confirmed bits come the next bit, the straddle run and 31 register bits. */
  lemma TailParts(s: Stream, n: nat, p: nat)
    ensures Window(s, n, p + 32) == Weighted(s(n), Pow2(p + 31)) + Window(s, n + 1, p + 31)
    ensures Window(s, n + 1, p + 31) == Window(s, n + 1, p) * 0x8000_0000 + Window(s, n + 1 + p, 31)
    ensures Window(s, n + 1 + p, 31) < HALF
  {
    WindowHead(s, n, p + 31);
    RegisterSplit(s, n + 1, p);
  }

  /** The tail's distance from the straddle run's offset, when the run has its value and only then. */
  lemma TailValue(s: Stream, n: nat, p: nat)
    ensures var offset := Window(s, n, p + 32) - (Pow2(p + 31) - HALF);
      var runs := Window(s, n + 1, p) == if s(n) == 1 then 0 else Pow2(p) - 1;
      && (runs ==> offset == Weighted(s(n), HALF) + Window(s, n + 1 + p, 31))
      && (0 <= offset < FULL ==> runs)
  {
    TailParts(s, n, p);
    Pow2Register(p);
    WindowBound(s, n + 1, p);
    RunRange(Window(s, n, p + 32), Window(s, n + 1, p + 31), Window(s, n + 1, p), Window(s, n + 1 + p, 31),
             Pow2(p), Pow2(p + 31), s(n));
  }

  /** As a number, what follows the confirmed bits is the straddle run's offset plus the code, and only then. */
  lemma TailRange(e: Encoder, s: Stream)
    ensures var offset := Window(s, |e.emitted|, e.pending + 32) - (Pow2(e.pending + 31) - HALF);
      && (PendingRun(e, s) ==> offset == Code(e, s))
      && (0 <= offset < FULL ==> PendingRun(e, s))
  {
    TailValue(s, |e.emitted|, e.pending);
    RunValue(e, s);
  }

  lemma RunRange(tail: int, w1: int, run: int, rest: int, size: int, top: int, bit: Bit)
    requires tail == Weighted(bit, top) + w1 && w1 == run * 0x8000_0000 + rest && top == size * 0x8000_0000
    requires 0 <= run < size && 0 <= rest < HALF
    ensures run == (if bit == 1 then 0 else size - 1) ==> tail - (top - HALF) == Weighted(bit, HALF) + rest
    ensures 0 <= tail - (top - HALF) < FULL ==> run == if bit == 1 then 0 else size - 1
  {
  }

  /** Enclosure is numeric: the stream's first bits, read as a number, lie in the encoder's absolute interval. */
  lemma EnclosedIffInRange(e: Encoder, s: Stream)
    requires e.Ordered()
    ensures Encloses(e, s) <==> AbsoluteLow(e) <= Window(s, 0, e.Shifts() + 32) <= AbsoluteHigh(e)
  {
    var n, p := |e.emitted|, e.pending;
    assert n + (p + 32) == e.Shifts() + 32;
    WindowSplit(s, 0, n, p + 32);
    assert 0 <= Pow2(p + 31) - HALF && Pow2(p + 31) - HALF + FULL <= Pow2(p + 32) by {
      Pow2Register(p);
    }
    WindowBound(s, n, p + 32);
    SplitRange(Window(s, 0, n), Window(s, n, p + 32), Value(e.emitted), Pow2(p + 31) - HALF, e.low, e.high, Pow2(p + 32));
    assert StartsWith(s, e.emitted) <==> Value(e.emitted) == Window(s, 0, n) by { ValueDeterminesBits(s, e.emitted); }
    TailRange(e, s);
  }

  lemma SplitRange(q: int, r: int, q': int, base: int, low: int, high: int, d: int)
    requires 0 <= r < d && 0 <= base && 0 <= low <= high < FULL && base + FULL <= d
    ensures q' * d + base + low <= q * d + r <= q' * d + base + low + (high - low)
       <==> q == q' && low <= r - base <= high
  {
    Floors.MulLess(q, q', d);
    Floors.MulLess(q', q, d);
  }

  // ----- progress

  /** At most seventeen shifts follow one symbol. */
  lemma StepShifts(e: Encoder, c: seq<int>, symbol: nat)
    requires e.Ready() && IsCumulative(c) && symbol + 1 < |c|
    ensures Step(e, c, symbol).Shifts() <= e.Shifts() + 17
  {
    var n := Narrow(e, c, symbol);
    BoundsTile(e.low, e.high, c, symbol);
    RenormalizeDoubles(n);
    var k := Renormalize(n).Shifts() - n.Shifts();
    if 18 <= k {
      Pow2Values();
      Pow2Sum(15, 3);
      Pow2Sum(18, k - 18);
      assert Pow2(k) >= 0x4_0000 by { Floors.MulLess(1, Pow2(k - 18), Pow2(18)); }
      Floors.MulLess(0x8000, n.Range(), Pow2(k));
      assert false;
    }
  }

  /** A run of symbols confirms or holds pending at most seventeen bits each. */
  lemma {:induction false} RunShiftsAtMost(e: Encoder, tables: seq<seq<int>>, symbols: seq<nat>)
    requires e.Ready() && Codable(tables, symbols)
    ensures EncodeFrom(e, tables, symbols).Shifts() <= e.Shifts() + 17 * |symbols|
  {
    var n := |symbols|;
    if n == 0 {
    } else {
      RunShiftsAtMost(e, tables[..n - 1], symbols[..n - 1]);
      StepShifts(EncodeFrom(e, tables[..n - 1], symbols[..n - 1]), tables[n - 1], symbols[n - 1]);
    }
  }

  /** A symbol that causes no shift costs the range at least 2^15, its neighbours' share. */
  lemma StalledStep(e: Encoder, c: seq<int>, symbol: nat)
    requires e.Ready() && IsCumulative(c) && symbol + 1 < |c|
    requires Step(e, c, symbol).Shifts() == e.Shifts()
    ensures Step(e, c, symbol).Range() + 0x8000 <= e.Range()
  {
    var n := Narrow(e, c, symbol);
    var other := if symbol == 0 then 1 else symbol - 1;
    BoundsTile(e.low, e.high, c, symbol);
    BoundsTile(e.low, e.high, c, other);
    assert n.Ready();
  }

  lemma {:induction false} StalledRun(e: Encoder, tables: seq<seq<int>>, symbols: seq<nat>)
    requires e.Ready() && Codable(tables, symbols)
    requires EncodeFrom(e, tables, symbols).Shifts() == e.Shifts()
    ensures EncodeFrom(e, tables, symbols).Range() + 0x8000 * |symbols| <= e.Range()
  {
    var n := |symbols|;
    if n == 0 {
    } else {
      var before := EncodeFrom(e, tables[..n - 1], symbols[..n - 1]);
      StalledRun(e, tables[..n - 1], symbols[..n - 1]);
      StalledStep(before, tables[n - 1], symbols[n - 1]);
    }
  }

  /** Any 98304 consecutive symbols, under any tables, cause at least one shift. */
  lemma StallBound(e: Encoder, tables: seq<seq<int>>, symbols: seq<nat>)
    requires e.Ready() && Codable(tables, symbols) && 98304 <= |symbols|
    ensures e.Shifts() < EncodeFrom(e, tables, symbols).Shifts()
  {
    if EncodeFrom(e, tables, symbols).Shifts() == e.Shifts() {
      StalledRun(e, tables, symbols);
      BoundsTile(e.low, e.high, tables[0], 0);
      var r := EncodeFrom(e, tables, symbols);
      BoundsTile(r.low, r.high, tables[0], 0);
      assert false;
    }
  }
}
