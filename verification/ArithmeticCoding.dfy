/**
 The two arithmetic coders, one symbol at a time, as functions of their state.

 An encoder state stands for a set of bit streams: those from which an inverse decoder would still
 pick the symbols consumed so far (`Encloses`). What sender and receiver rely on follows from the fact
 that narrowing and every renormalisation shift change this set exactly as they should.
 */
module ArithmeticCoding {
  import opened Bits
  import opened Frequencies
  import Floors

  const FULL := 0x1_0000_0000
  const HALF := 0x8000_0000
  const QUARTER := 0x4000_0000
  const THREE_QUARTERS := 0xC000_0000

  /** No renormalisation shift applies to the interval. */
  predicate Settled(low: int, high: int) {
    0 <= low < HALF <= high < FULL && (low < QUARTER || THREE_QUARTERS <= high)
  }

  /** `emitted` are the confirmed bits; `pending` straddle bits wait for the next confirmed one. */
  datatype Encoder = Encoder(low: int, high: int, pending: nat, emitted: seq<Bit>) {
    function Range(): int { high - low + 1 }

    predicate Ordered() { 0 <= low <= high < FULL }

    predicate Ready() { Settled(low, high) }

    /** Each renormalisation shift adds one to this count. */
    function Shifts(): nat { |emitted| + pending }
  }

  /** `offset` is how many bits of the stream have been read. */
  datatype Decoder = Decoder(low: int, high: int, code: int, offset: nat) {
    predicate Ordered() { 0 <= low <= code <= high < FULL }

    predicate Ready() { Ordered() && Settled(low, high) }
  }

  const INITIAL := Encoder(0, FULL - 1, 0, [])

  function Repeat(bit: Bit, n: nat): (r: seq<Bit>)
    ensures |r| == n && forall i | 0 <= i < n :: r[i] == bit
  {
    seq(n, i => bit)
  }

  // ----- narrowing

  /** Where the cumulative count `k` falls in the interval. */
  function Bound(low: int, high: int, k: int): int {
    low + (high - low + 1) * k / FREQUENCY_TOTAL
  }

  function Narrow(e: Encoder, c: seq<int>, symbol: nat): Encoder
    requires symbol + 1 < |c|
  {
    e.(low := Bound(e.low, e.high, c[symbol]), high := Bound(e.low, e.high, c[symbol + 1]) - 1)
  }

  /** A settled interval gives every symbol of every table at least 2^15 codes; the subintervals tile it. */
  lemma BoundsTile(low: int, high: int, c: seq<int>, symbol: nat)
    requires Settled(low, high) && IsCumulative(c) && symbol + 1 < |c|
    ensures QUARTER + 2 <= high - low + 1 <= FULL
    ensures Bound(low, high, c[0]) == low && Bound(low, high, c[|c| - 1]) == high + 1
    ensures low <= Bound(low, high, c[symbol])
    ensures Bound(low, high, c[symbol]) + 0x8000 <= Bound(low, high, c[symbol + 1]) <= high + 1
  {
    var range := high - low + 1;
    CumulativeBounds(c, symbol);
    CumulativeBounds(c, symbol + 1);
    Floors.ScaledEnds(range, FREQUENCY_TOTAL);
    Floors.ScaledStep(range, c[symbol], c[symbol + 1], FREQUENCY_TOTAL);
    Floors.ScaledOrder(range, 0, c[symbol], FREQUENCY_TOTAL);
    Floors.ScaledOrder(range, c[symbol + 1], FREQUENCY_TOTAL, FREQUENCY_TOTAL);
  }

  /** The bound is the exact share of the range, rounded down. */
  lemma BoundIsShare(low: int, high: int, k: int)
    ensures 32768 * (Bound(low, high, k) - low) <= (high - low + 1) * k < 32768 * (Bound(low, high, k) - low + 1)
  {
    Floors.DivBounds((high - low + 1) * k, FREQUENCY_TOTAL);
  }

  // ----- renormalisation

  /** One pass of the encoder's renormalisation loop. */
  function Shift(e: Encoder): (r: Encoder)
    requires e.Ordered() && !e.Ready()
    ensures r.Ordered() && r.Range() == 2 * e.Range() && r.Shifts() == e.Shifts() + 1
  {
    if e.high < HALF then
      Encoder(2 * e.low, 2 * e.high + 1, 0, e.emitted + [0] + Repeat(1, e.pending))
    else if HALF <= e.low then
      Encoder(2 * (e.low - HALF), 2 * (e.high - HALF) + 1, 0, e.emitted + [1] + Repeat(0, e.pending))
    else
      Encoder(2 * (e.low - QUARTER), 2 * (e.high - QUARTER) + 1, e.pending + 1, e.emitted)
  }

  function Renormalize(e: Encoder): (r: Encoder)
    requires e.Ordered()
    ensures r.Ready() && e.emitted <= r.emitted && e.Shifts() <= r.Shifts()
    decreases FULL - e.Range()
  {
    if e.Ready() then e else Renormalize(Shift(e))
  }

  lemma RenormalizePass(e: Encoder)
    requires e.Ordered()
    ensures Renormalize(e) == if e.Ready() then e else Renormalize(Shift(e))
  {
  }

  /** Renormalising doubles the range once per shift. */
  lemma {:induction false} RenormalizeDoubles(e: Encoder)
    requires e.Ordered()
    ensures Renormalize(e).Range() == e.Range() * Pow2(Renormalize(e).Shifts() - e.Shifts())
    decreases FULL - e.Range()
  {
    if e.Ready() {
    } else {
      var next, r := Shift(e), Renormalize(e);
      RenormalizeDoubles(next);
      assert r == Renormalize(next);
      MulPow2Successor(e.Range(), r.Shifts() - next.Shifts());
    }
  }

  lemma MulPow2Successor(x: int, n: nat)
    ensures x * Pow2(n + 1) == 2 * x * Pow2(n)
  {
    assert Pow2(n + 1) == 2 * Pow2(n);
    assert x * (2 * Pow2(n)) == (2 * x) * Pow2(n);
  }

  /** One pass of the decoder's renormalisation loop. */
  function DecoderShift(d: Decoder, s: Stream): (r: Decoder)
    requires d.Ordered() && !d.Ready()
    ensures r.Ordered() && r.high - r.low > d.high - d.low
  {
    var base := if d.high < HALF then 0 else if HALF <= d.low then HALF else QUARTER;
    Decoder(2 * (d.low - base), 2 * (d.high - base) + 1, 2 * (d.code - base) + s(d.offset), d.offset + 1)
  }

  function DecoderRenormalize(d: Decoder, s: Stream): (r: Decoder)
    requires d.Ordered()
    ensures r.Ready()
    decreases FULL - (d.high - d.low)
  {
    if d.Ready() then d else DecoderRenormalize(DecoderShift(d, s), s)
  }

  // ----- the symbol search

  /** `bisect_right` on an ascending sequence: how many of its elements are at most `x`. */
  function BisectRight(a: seq<int>, x: int, lo: nat, hi: nat): (r: nat)
    requires lo <= hi <= |a| && forall i, j | 0 <= i < j < |a| :: a[i] <= a[j]
    ensures lo <= r <= hi
    ensures forall i | lo <= i < r :: a[i] <= x
    ensures forall i | r <= i < hi :: x < a[i]
    decreases hi - lo
  {
    if lo == hi then lo else
      var mid := (lo + hi) / 2;
      if x < a[mid] then BisectRight(a, x, lo, mid) else BisectRight(a, x, mid + 1, hi)
  }

  function Scaled(d: Decoder): int
    requires d.Ordered()
  {
    ((d.code - d.low + 1) * FREQUENCY_TOTAL - 1) / (d.high - d.low + 1)
  }

  /** The table position that the code selects; -1 or |c| - 1 would be outside the table. */
  function Pick(d: Decoder, c: seq<int>): (symbol: int)
    requires d.Ordered() && IsCumulative(c)
    ensures -1 <= symbol < |c|
  {
    CumulativeAscends(c);
    BisectRight(c, Scaled(d), 0, |c|) - 1
  }

  /** The search never leaves the table, and picks a symbol exactly when the code lies in its subinterval. */
  lemma PickIsInterval(d: Decoder, c: seq<int>, symbol: nat)
    requires d.Ordered() && IsCumulative(c) && symbol + 1 < |c|
    ensures 0 <= Pick(d, c) && Pick(d, c) + 1 < |c|
    ensures Pick(d, c) == symbol
       <==> Bound(d.low, d.high, c[symbol]) <= d.code < Bound(d.low, d.high, c[symbol + 1])
  {
    CumulativeAscends(c);
    var range, offset := d.high - d.low + 1, d.code - d.low;
    Floors.ScaledAtLeast(range, offset, c[symbol], FREQUENCY_TOTAL);
    Floors.ScaledAtLeast(range, offset, c[symbol + 1], FREQUENCY_TOTAL);
    Floors.ScaledAtLeast(range, offset, 0, FREQUENCY_TOTAL);
    Floors.ScaledAtLeast(range, offset, FREQUENCY_TOTAL, FREQUENCY_TOTAL);
    Floors.ScaledEnds(range, FREQUENCY_TOTAL);
    assert 0 <= Scaled(d) < FREQUENCY_TOTAL;
    assert c[symbol] <= Scaled(d) < c[symbol + 1] <==> Pick(d, c) == symbol;
  }

  // ----- one symbol

  function Step(e: Encoder, c: seq<int>, symbol: nat): (r: Encoder)
    requires e.Ready() && IsCumulative(c) && symbol + 1 < |c|
    ensures r.Ready() && e.emitted <= r.emitted && e.Shifts() <= r.Shifts()
  {
    BoundsTile(e.low, e.high, c, symbol);
    Renormalize(Narrow(e, c, symbol))
  }

  function DecoderNarrow(d: Decoder, c: seq<int>): (r: Decoder)
    requires d.Ready() && IsCumulative(c)
    ensures 0 <= Pick(d, c) && Pick(d, c) + 1 < |c| && r.Ordered()
  {
    PickIsInterval(d, c, 0);
    var symbol := Pick(d, c);
    PickIsInterval(d, c, symbol);
    BoundsTile(d.low, d.high, c, symbol);
    d.(low := Bound(d.low, d.high, c[symbol]), high := Bound(d.low, d.high, c[symbol + 1]) - 1)
  }

  /** The symbol picked and the decoder after it. */
  function DecoderStep(d: Decoder, c: seq<int>, s: Stream): (r: (nat, Decoder))
    requires d.Ready() && IsCumulative(c)
    ensures r.0 + 1 < |c| && r.1.Ready()
  {
    var narrowed := DecoderNarrow(d, c);
    (Pick(d, c), DecoderRenormalize(narrowed, s))
  }

  // ----- streams inside an encoder's interval

  /** The decoder's code register beside `e`: the next unconfirmed bit, then the 31 after the pending ones. */
  function Code(e: Encoder, s: Stream): int {
    Weighted(s(|e.emitted|), HALF) + Window(s, |e.emitted| + e.pending + 1, 31)
  }

  /** The straddle run: every pending bit is the complement of the next unconfirmed one. */
  ghost predicate PendingRun(e: Encoder, s: Stream) {
    forall i | |e.emitted| < i <= |e.emitted| + e.pending :: s(i) == 1 - s(|e.emitted|)
  }

  /** Confirmed bits agree with the stream, pending bits are its straddle run, and the code is in range. */
  ghost predicate Encloses(e: Encoder, s: Stream) {
    StartsWith(s, e.emitted) && PendingRun(e, s) && e.low <= Code(e, s) <= e.high
  }

  /** The decoder that reads `s` beside encoder `e`. */
  function Track(e: Encoder, s: Stream): Decoder {
    Decoder(e.low, e.high, Code(e, s), |e.emitted| + e.pending + 32)
  }

  /** The register bits, from both ends. */
  lemma CodeParts(s: Stream, after: nat)
    ensures Window(s, after, 31) < HALF
    ensures Window(s, after, 31) == Weighted(s(after), QUARTER) + Window(s, after + 1, 30)
    ensures Window(s, after + 1, 30) < QUARTER
    ensures Window(s, after + 1, 31) == 2 * Window(s, after + 1, 30) + s(after + 31)
  {
    Pow2Values();
    WindowHead(s, after, 30);
    WindowBound(s, after, 31);
    WindowBound(s, after + 1, 30);
  }

  lemma ConfirmedRun(e: Encoder, s: Stream, bit: Bit)
    ensures StartsWith(s, e.emitted + [bit] + Repeat(1 - bit, e.pending))
       <==> StartsWith(s, e.emitted) && s(|e.emitted|) == bit && PendingRun(e, s)
  {
    var n, next := |e.emitted|, e.emitted + [bit] + Repeat(1 - bit, e.pending);
    if StartsWith(s, next) {
      assert forall i | 0 <= i < n :: e.emitted[i] == next[i];
      assert next[n] == bit;
      assert forall i | n < i <= n + e.pending :: next[i] == 1 - bit;
    }
  }

  /** A confirming shift drops the register's top bit. */
  lemma ConfirmingCode(e: Encoder, s: Stream)
    requires e.Ordered() && !e.Ready() && (e.high < HALF || HALF <= e.low)
    ensures s(|e.emitted|) == 1 <==> HALF <= Code(e, s)
    ensures Code(Shift(e), s) == 2 * (Code(e, s) - Weighted(s(|e.emitted|), HALF)) + s(|e.emitted| + e.pending + 32)
  {
    CodeParts(s, |e.emitted| + e.pending + 1);
    assert |Shift(e).emitted| == |e.emitted| + e.pending + 1;
  }

  /** A confirming shift keeps exactly the streams whose next bit is the one emitted. */
  lemma ConfirmingShift(e: Encoder, s: Stream, bit: Bit)
    requires e.Ordered() && !e.Ready()
    requires if bit == 0 then e.high < HALF else HALF <= e.low
    ensures Encloses(e, s) <==> Encloses(Shift(e), s)
    ensures Encloses(e, s) ==> Track(Shift(e), s) == DecoderShift(Track(e, s), s)
  {
    var next := Shift(e);
    ConfirmedRun(e, s, bit);
    ConfirmingCode(e, s);
    assert next.emitted == e.emitted + [bit] + Repeat(1 - bit, e.pending);
    assert Encloses(next, s) <==> StartsWith(s, next.emitted) && next.low <= Code(next, s) <= next.high;
  }

  /** A straddle shift drops the register's second bit, which differs from the top one. */
  lemma StraddleCode(e: Encoder, s: Stream)
    requires e.Ordered() && QUARTER <= e.low < HALF <= e.high < THREE_QUARTERS
    ensures QUARTER <= Code(e, s) < THREE_QUARTERS <==> s(|e.emitted| + e.pending + 1) == 1 - s(|e.emitted|)
    ensures s(|e.emitted| + e.pending + 1) == 1 - s(|e.emitted|)
        ==> Code(Shift(e), s) == 2 * (Code(e, s) - QUARTER) + s(|e.emitted| + e.pending + 32)
  {
    CodeParts(s, |e.emitted| + e.pending + 1);
  }

  /** A straddle shift keeps exactly the streams whose bit after the run continues it. */
  lemma StraddleShift(e: Encoder, s: Stream)
    requires e.Ordered() && QUARTER <= e.low < HALF <= e.high < THREE_QUARTERS
    ensures Encloses(e, s) <==> Encloses(Shift(e), s)
    ensures Encloses(e, s) ==> Track(Shift(e), s) == DecoderShift(Track(e, s), s)
  {
    StraddleCode(e, s);
    assert PendingRun(Shift(e), s) <==> PendingRun(e, s) && s(|e.emitted| + e.pending + 1) == 1 - s(|e.emitted|);
  }

  lemma ShiftEncloses(e: Encoder, s: Stream)
    requires e.Ordered() && !e.Ready()
    ensures Encloses(e, s) <==> Encloses(Shift(e), s)
    ensures Encloses(e, s) ==> Track(Shift(e), s) == DecoderShift(Track(e, s), s)
  {
    if e.high < HALF {
      ConfirmingShift(e, s, 0);
    } else if HALF <= e.low {
      ConfirmingShift(e, s, 1);
    } else {
      StraddleShift(e, s);
    }
  }

  /** Renormalisation changes neither the set of enclosed streams nor the agreement of the two coders. */
  lemma {:induction false} RenormalizeEncloses(e: Encoder, s: Stream)
    requires e.Ordered()
    ensures Encloses(e, s) <==> Encloses(Renormalize(e), s)
    ensures Encloses(e, s) ==> Track(Renormalize(e), s) == DecoderRenormalize(Track(e, s), s)
    decreases FULL - e.Range()
  {
    if e.Ready() {
    } else {
      ShiftEncloses(e, s);
      RenormalizeEncloses(Shift(e), s);
    }
  }

  /** Narrowing to `symbol` keeps exactly the enclosed streams whose code picks it. */
  lemma NarrowEncloses(e: Encoder, c: seq<int>, symbol: nat, s: Stream)
    requires e.Ready() && IsCumulative(c) && symbol + 1 < |c|
    ensures Encloses(Narrow(e, c, symbol), s) <==> Encloses(e, s) && Pick(Track(e, s), c) == symbol
    ensures Encloses(Narrow(e, c, symbol), s) ==> Track(Narrow(e, c, symbol), s) == DecoderNarrow(Track(e, s), c)
  {
    var n := Narrow(e, c, symbol);
    BoundsTile(e.low, e.high, c, symbol);
    assert Code(n, s) == Code(e, s);
    if e.low <= Code(e, s) <= e.high {
      PickIsInterval(Track(e, s), c, symbol);
    }
  }

  /**
   One symbol: the encoder that consumes `symbol` keeps exactly the enclosed streams from which the
   decoder would have picked `symbol`, and on those the two coders stay in step.
   */
  lemma StepEncloses(e: Encoder, c: seq<int>, symbol: nat, s: Stream)
    requires e.Ready() && IsCumulative(c) && symbol + 1 < |c|
    ensures Encloses(Step(e, c, symbol), s) <==> Encloses(e, s) && DecoderStep(Track(e, s), c, s).0 == symbol
    ensures Encloses(e, s) && DecoderStep(Track(e, s), c, s).0 == symbol
        ==> Track(Step(e, c, symbol), s) == DecoderStep(Track(e, s), c, s).1
  {
    BoundsTile(e.low, e.high, c, symbol);
    RenormalizeEncloses(Narrow(e, c, symbol), s);
    NarrowEncloses(e, c, symbol, s);
  }

  // ----- the starting states

  /** The decoder loads its code register with the first 32 bits. */
  function Load(s: Stream): (d: Decoder)
    ensures d.Ready()
  {
    Pow2Values();
    WindowBound(s, 0, 32);
    Decoder(0, FULL - 1, Window(s, 0, 32), 32)
  }

  lemma InitialEncloses(s: Stream)
    ensures Encloses(INITIAL, s) && Track(INITIAL, s) == Load(s)
  {
    Pow2Values();
    WindowHead(s, 0, 31);
    WindowBound(s, 1, 31);
  }
}
