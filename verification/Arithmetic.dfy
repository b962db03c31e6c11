/** The 32-bit coders as objects: registers updated in place, one symbol per call. */
module Arithmetic {
  import opened Wrappers
  import opened Bits
  import opened BitBuffers
  import opened Frequencies
  import opened ArithmeticCoding

  const PRECISION: nat := 32

  datatype CoderError = BadTable | BadSymbol

  /** `v & MASK` for a non-negative value; it drops nothing that fits 32 bits. */
  function Mask(v: int): (r: int)
    ensures 0 <= v < FULL ==> r == v
  {
    v % 0x1_0000_0000
  }

  /** The sender's `read_bit`: consecutive bits of one framed source. */
  class SourceReader {
    const source: FramedBitSource
    ghost const stream: Stream
    var offset: nat

    ghost predicate Valid()
      reads this, source
    {
      && source.Valid()
      && (forall i: nat {:trigger source.Content(i)} :: source.Content(i) == stream(i))
      && |source.suffix| == if offset <= source.RealBits() then 0 else offset - source.RealBits()
    }

    constructor (source: FramedBitSource, ghost stream: Stream)
      requires source.Valid() && source.suffix == [] && forall i: nat {:trigger source.Content(i)} :: source.Content(i) == stream(i)
      ensures Valid() && offset == 0 && this.source == source && this.stream == stream
    {
      this.source, this.stream, offset := source, stream, 0;
    }

    method ReadBit() returns (bit: Bit)
      requires Valid()
      modifies this, source
      ensures Valid() && bit == stream(old(offset)) && offset == old(offset) + 1
    {
      var r := source.BitAt(offset);
      assert source.Content(|source.suffix| + source.RealBits()) == stream(|source.suffix| + source.RealBits());
      bit := r.value;
      offset := offset + 1;
    }
  }

  /** Consumes source bits and selects symbols. */
  class ArithmeticSymbolDecoder {
    var low: int
    var high: int
    var code: int
    const reader: SourceReader

    ghost function State(): Decoder
      reads this, reader
    {
      Decoder(low, high, code, reader.offset)
    }

    ghost predicate Valid()
      reads this, reader, reader.source
    {
      reader.Valid() && State().Ready()
    }

    constructor (reader: SourceReader)
      requires reader.Valid()
      modifies reader, reader.source
      ensures Valid() && this.reader == reader
      ensures State() == Decoder(0, FULL - 1, Window(reader.stream, old(reader.offset), 32), old(reader.offset) + 32)
    {
      this.reader := reader;
      low, high, code := 0, FULL - 1, 0;
      new;
      var i := 0;
      while i < PRECISION
        invariant 0 <= i <= PRECISION
        invariant reader.Valid() && reader.offset == old(reader.offset) + i
        invariant low == 0 && high == FULL - 1 && code == Window(reader.stream, old(reader.offset), i)
      {
        var bit := reader.ReadBit();
        LoadedCode(reader.stream, old(reader.offset), i);
        code := Mask(2 * code + bit);
        i := i + 1;
      }
      LoadedCode(reader.stream, old(reader.offset), 31);
    }

    method Symbol(cumulative: seq<int>) returns (r: Result<nat, CoderError>)
      requires Valid()
      modifies this, reader, reader.source
      ensures Valid()
      ensures !IsCumulative(cumulative) ==>
        r == Failure(BadTable) && State() == old(State()) && reader.source.suffix == old(reader.source.suffix)
      ensures IsCumulative(cumulative) ==>
        var (symbol, next) := DecoderStep(old(State()), cumulative, reader.stream);
        r == Success(symbol) && State() == next
    {
      if TableCounts(cumulative).Failure? {
        return Failure(BadTable);
      }
      var symbol := Select(cumulative);
      var settled := false;
      while !settled
        invariant reader.Valid() && State().Ordered() && (settled ==> State().Ready())
        invariant DecoderRenormalize(State(), reader.stream)
               == DecoderRenormalize(DecoderNarrow(old(State()), cumulative), reader.stream)
        decreases !settled, FULL - (high - low)
      {
        settled := Pass();
      }
      r := Success(symbol);
    }

    /** Narrows to the symbol that holds the code. */
    method Select(cumulative: seq<int>) returns (symbol: nat)
      requires Valid() && IsCumulative(cumulative)
      modifies this
      ensures reader.Valid() && State() == DecoderNarrow(old(State()), cumulative)
      ensures symbol == Pick(old(State()), cumulative)
    {
      CumulativeAscends(cumulative);
      ghost var narrowed := DecoderNarrow(State(), cumulative);
      var range := high - low + 1;
      var scaled := ((code - low + 1) * FREQUENCY_TOTAL - 1) / range;
      var found := BisectRight(cumulative, scaled, 0, |cumulative|) - 1;
      assert found == Pick(State(), cumulative);  // in particular never outside the table
      symbol := found;
      var oldLow := low;
      high := oldLow + range * cumulative[symbol + 1] / FREQUENCY_TOTAL - 1;
      low := oldLow + range * cumulative[symbol] / FREQUENCY_TOTAL;
    }

    /** One pass of the renormalisation loop. */
    method Pass() returns (settled: bool)
      requires reader.Valid() && State().Ordered()
      modifies this, reader, reader.source
      ensures reader.Valid() && settled == old(State()).Ready()
      ensures State() == if settled then old(State()) else DecoderShift(old(State()), reader.stream)
    {
      if high < HALF {
      } else if HALF <= low {
        low := low - HALF;
        high := high - HALF;
        code := code - HALF;
      } else if QUARTER <= low && high < THREE_QUARTERS {
        low := low - QUARTER;
        high := high - QUARTER;
        code := code - QUARTER;
      } else {
        return true;
      }
      low := Mask(2 * low);
      high := Mask(2 * high + 1);
      var bit := reader.ReadBit();
      code := Mask(2 * code + bit);
      settled := false;
    }
  }

  /** A register that has taken `i < 32` bits has room for one more. */
  lemma LoadedCode(s: Stream, from: nat, i: nat)
    requires i < 32
    ensures Window(s, from, i + 1) == 2 * Window(s, from, i) + s(from + i) < FULL
  {
    assert Pow2(32) == FULL by { Pow2Values(); }
    WindowBound(s, from, i + 1);
    Pow2Grows(i + 1, 32);
  }

  lemma {:induction false} Pow2Grows(m: nat, n: nat)
    requires m <= n
    ensures Pow2(m) <= Pow2(n)
  {
    if m < n {
      Pow2Grows(m, n - 1);
    }
  }

  /** Consumes symbols and emits only confirmed prefix bits. */
  class ArithmeticBitEncoder {
    var low: int
    var high: int
    var pending: nat
    ghost var emitted: seq<Bit>  // every bit passed to emit_bit so far

    ghost function State(): Encoder
      reads this
    {
      Encoder(low, high, pending, emitted)
    }

    ghost predicate Valid()
      reads this
    {
      State().Ready()
    }

    constructor ()
      ensures Valid() && State() == INITIAL
    {
      low, high, pending, emitted := 0, FULL - 1, 0, [];
    }

    /** Emits a confirmed bit and the straddle run it resolves. */
    method Output(bit: Bit) returns (bits: seq<Bit>)
      modifies `pending, `emitted
      ensures bits == [bit] + Repeat(1 - bit, old(pending))
      ensures pending == 0 && emitted == old(emitted) + bits
    {
      bits := [bit];
      emitted := emitted + [bit];
      while 0 < pending
        invariant pending <= old(pending)
        invariant bits == [bit] + Repeat(1 - bit, old(pending) - pending)
        invariant emitted == old(emitted) + bits
      {
        bits := bits + [1 - bit];
        emitted := emitted + [1 - bit];
        pending := pending - 1;
      }
    }

    /** Consumes one symbol; `r.value` are the bits passed to `emit_bit`, in order. */
    method Symbol(symbol: int, cumulative: seq<int>) returns (r: Result<seq<Bit>, CoderError>)
      requires Valid()
      modifies this
      ensures Valid()
      ensures !IsCumulative(cumulative) ==> r == Failure(BadTable)
      ensures IsCumulative(cumulative) && !(0 <= symbol < |cumulative| - 1) ==> r == Failure(BadSymbol)
      ensures r.Failure? ==> State() == old(State())
      ensures IsCumulative(cumulative) && 0 <= symbol < |cumulative| - 1 ==>
        && State() == Step(old(State()), cumulative, symbol)
        && r.Success? && emitted == old(emitted) + r.value
    {
      if TableCounts(cumulative).Failure? {
        return Failure(BadTable);
      }
      if symbol < 0 || |cumulative| <= symbol + 1 {
        return Failure(BadSymbol);
      }
      hide Renormalize, Shift, Narrow, Settled;
      NarrowTo(symbol, cumulative);
      ghost var narrowed := State();
      var bits, settled := [], false;
      while !settled
        invariant State().Ordered() && (settled ==> Valid())
        invariant Renormalize(State()) == Renormalize(narrowed)
        invariant emitted == old(emitted) + bits
        decreases !settled, FULL - (high - low)
      {
        RenormalizePass(State());
        var out;
        out, settled := Pass();
        bits := bits + out;
      }
      r := Success(bits);
    }

    method NarrowTo(symbol: nat, cumulative: seq<int>)
      requires Valid() && IsCumulative(cumulative) && symbol + 1 < |cumulative|
      modifies `low, `high
      ensures State() == Narrow(old(State()), cumulative, symbol) && State().Ordered()
    {
      BoundsTile(low, high, cumulative, symbol);
      var range := high - low + 1;
      var oldLow := low;
      high := oldLow + range * cumulative[symbol + 1] / FREQUENCY_TOTAL - 1;
      low := oldLow + range * cumulative[symbol] / FREQUENCY_TOTAL;
    }

    /** One pass of the renormalisation loop. */
    method Pass() returns (bits: seq<Bit>, settled: bool)
      requires State().Ordered()
      modifies this
      ensures settled == old(State()).Ready()
      ensures State() == if settled then old(State()) else Shift(old(State()))
      ensures emitted == old(emitted) + bits
    {
      bits := [];
      if high < HALF {
        bits := Output(0);
      } else if HALF <= low {
        bits := Output(1);
        low := low - HALF;
        high := high - HALF;
      } else if QUARTER <= low && high < THREE_QUARTERS {
        pending := pending + 1;
        low := low - QUARTER;
        high := high - QUARTER;
      } else {
        return bits, true;
      }
      low := Mask(2 * low);
      high := Mask(2 * high + 1);
      settled := false;
    }
  }
}
