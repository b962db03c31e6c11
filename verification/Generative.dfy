/** A/B/C/D token orchestration: prefix sampling, payload coding with live coder objects, local finish. */
module Generative {
  import opened Wrappers
  import opened Errors
  import opened Bits
  import opened BitBuffers
  import opened Frequencies
  import opened ArithmeticCoding
  import opened Arithmetic
  import opened Candidates
  import opened Payload
  import opened Sections

  // ----- the payload, with coder objects

  /** The mirror's `confirm` for each emitted bit; it reads back only bits the decoder has read. */
  method Confirm(reader: SourceReader, bits: seq<Bit>, confirmed: nat) returns (total: nat, desynchronized: bool)
    requires reader.Valid() && confirmed + |bits| <= reader.offset
    modifies reader.source
    ensures reader.Valid() && reader.source.suffix == old(reader.source.suffix)
    ensures reader.source.calls == old(reader.source.calls)
    ensures total == confirmed + |bits|
    ensures desynchronized <==> exists i | 0 <= i < |bits| :: bits[i] != reader.stream(confirmed + i)
  {
    total, desynchronized := confirmed, false;
    var k := 0;
    while k < |bits|
      invariant 0 <= k <= |bits| && total == confirmed + k
      invariant reader.Valid() && reader.source.suffix == old(reader.source.suffix)
      invariant reader.source.calls == old(reader.source.calls)
      invariant desynchronized <==> exists i | 0 <= i < k :: bits[i] != reader.stream(confirmed + i)
    {
      var r := reader.source.BitAt(total);
      assert reader.source.Content(total) == reader.stream(total);
      assert reader.source.Content(|reader.source.suffix| + reader.source.RealBits()) in {0, 1};
      if bits[k] != r.value {
        desynchronized := true;
      }
      total := total + 1;
      k := k + 1;
    }
  }

  /** The mirror consumes a symbol and its bits are confirmed against the source. */
  method MirrorSymbol(mirror: ArithmeticBitEncoder, reader: SourceReader, symbol: nat, cumulative: seq<int>, confirmed: nat)
      returns (total: nat, desynchronized: bool)
    requires mirror.Valid() && reader.Valid() && confirmed == |mirror.emitted|
    requires IsCumulative(cumulative) && symbol + 1 < |cumulative|
    requires var next := Step(mirror.State(), cumulative, symbol);
      StartsWith(reader.stream, next.emitted) && |next.emitted| <= reader.offset
    modifies mirror, reader.source
    ensures mirror.Valid() && reader.Valid() && mirror.State() == Step(old(mirror.State()), cumulative, symbol)
    ensures total == |mirror.emitted| && !desynchronized
    ensures reader.source.suffix == old(reader.source.suffix) && reader.source.calls == old(reader.source.calls)
  {
    hide Step, StartsWith;
    ghost var before := mirror.emitted;
    var out := mirror.Symbol(symbol, cumulative);
    ConfirmedMatch(before, out.value, reader.stream);
    total, desynchronized := Confirm(reader, out.value, confirmed);
  }

  /** One payload token: the decoder picks the symbol and the mirror follows, never out of step. */
  method EncodeSymbol(decoder: ArithmeticSymbolDecoder, mirror: ArithmeticBitEncoder, table: CandidateTable, confirmed: nat)
      returns (symbol: nat, total: nat, desynchronized: bool)
    requires decoder.Valid() && mirror.Valid() && Encloses(mirror.State(), decoder.reader.stream)
    requires decoder.State() == Track(mirror.State(), decoder.reader.stream) && confirmed == |mirror.emitted|
    modifies decoder, mirror, decoder.reader, decoder.reader.source
    ensures decoder.Valid() && mirror.Valid() && Encloses(mirror.State(), decoder.reader.stream)
    ensures decoder.State() == Track(mirror.State(), decoder.reader.stream) && total == |mirror.emitted|
    ensures symbol == Choose(old(mirror.State()), table, decoder.reader.stream)
    ensures mirror.State() == Step(old(mirror.State()), table.cumulative, symbol)
    ensures !desynchronized
  {
    hide Track, DecoderStep, Step, Encloses, StartsWith, Choose;
    ghost var before, s := mirror.State(), decoder.reader.stream;
    var picked := decoder.Symbol(table.cumulative);
    symbol := picked.value;
    ChoiceKeepsStep(before, table, s, symbol);
    ghost var next := Step(before, table.cumulative, symbol);
    EnclosesStarts(next, s);
    ReadAhead(next, s);
    total, desynchronized := MirrorSymbol(mirror, decoder.reader, symbol, table.cumulative, confirmed);
  }

  lemma ChoiceKeepsStep(e: Encoder, t: CandidateTable, s: Stream, symbol: nat)
    requires e.Ready() && Encloses(e, s) && symbol == DecoderStep(Track(e, s), t.cumulative, s).0
    ensures symbol == Choose(e, t, s) && symbol < |t.candidates| && Encloses(Step(e, t.cumulative, symbol), s)
    ensures DecoderStep(Track(e, s), t.cumulative, s).1 == Track(Step(e, t.cumulative, symbol), s)
  {
    StepEncloses(e, t.cumulative, symbol, s);
  }

  /** The decoder has read every confirmed bit, and 32 more besides the pending ones. */
  lemma ReadAhead(e: Encoder, s: Stream)
    ensures Track(e, s).offset == |e.emitted| + e.pending + 32
  {
  }

  lemma ConfirmedMatch(before: seq<Bit>, bits: seq<Bit>, s: Stream)
    requires StartsWith(s, before + bits)
    ensures forall i | 0 <= i < |bits| :: bits[i] == s(|before| + i)
  {
    assert forall i | 0 <= i < |bits| :: bits[i] == (before + bits)[|before| + i];
  }

  /** The payload loop: tokens until every real bit is confirmed. Desynchronisation never happens. */
  method EncodeTokens(decoder: ArithmeticSymbolDecoder, mirror: ArithmeticBitEncoder, model: TokenModel,
                      realBits: nat, tokenGuard: nat, tokenIds: seq<int>)
      returns (r: Result<nat, Error>, tokens: seq<int>)
    requires decoder.Valid() && mirror.Valid() && Encloses(mirror.State(), decoder.reader.stream)
    requires decoder.State() == Track(mirror.State(), decoder.reader.stream) && mirror.emitted == []
    modifies decoder, mirror, decoder.reader, decoder.reader.source
    ensures match Send(model, decoder.reader.stream, realBits, tokenGuard, old(mirror.State()), tokenIds, 0)
      case Success((out, sent)) => r == Success(sent) && tokens == out
      case Failure(error) => r == Failure(error)
  {
    hide Track, Step, Encloses, Choose;
    ghost var s := decoder.reader.stream;
    tokens := tokenIds;
    var confirmed, desynchronized, sectionTokens := 0, false, 0;
    while confirmed < realBits
      invariant decoder.Valid() && mirror.Valid() && sectionTokens <= tokenGuard
      invariant Encloses(mirror.State(), s) && decoder.State() == Track(mirror.State(), s)
      invariant confirmed == |mirror.emitted|
      invariant Send(model, s, realBits, tokenGuard, mirror.State(), tokens, sectionTokens)
             == Send(model, s, realBits, tokenGuard, old(mirror.State()), tokenIds, 0)
      decreases tokenGuard - sectionTokens
    {
      var next := model.nextTable(tokens);
      if next.Failure? {
        return Failure(next.error), tokens;
      }
      var table := next.value;
      var symbol;
      symbol, confirmed, desynchronized := EncodeSymbol(decoder, mirror, table, confirmed);
      if desynchronized {
        return Failure(Desynchronized), tokens;
      }
      tokens := tokens + [table.candidates[symbol].tokenId];
      sectionTokens := sectionTokens + 1;
      if tokenGuard < sectionTokens {
        return Failure(NoProgress), tokens;
      }
    }
    r := Success(sectionTokens);
  }

  /** Inverse-decodes header and capsule into tokens appended to `tokenIds`. */
  method EncodePayload(header: seq<Byte>, capsule: seq<Byte>, model: TokenModel, suffix: Stream, tokenIds: seq<int>)
      returns (r: Result<nat, Error>, tokens: seq<int>)
    ensures match Payload.EncodePayload(model, header, capsule, suffix, tokenIds)
      case Success((out, sent)) => r == Success(sent) && tokens == out
      case Failure(error) => r == Failure(error)
  {
    hide Track, Step, Encloses, Send;
    if header == [] || capsule == [] {
      return Failure(EmptySection), tokenIds;
    }
    var data := header + capsule;
    ghost var s := Framed(data, suffix);
    var source := new FramedBitSource(data, (i: nat) => suffix(i));
    FramedContent(source, suffix);
    var reader := new SourceReader(source, s);
    var decoder := new ArithmeticSymbolDecoder(reader);
    var mirror := new ArithmeticBitEncoder();
    InitialEncloses(s);
    r, tokens := EncodeTokens(decoder, mirror, model, source.RealBits(), TokenGuard(|data|), tokenIds);
  }

  lemma FramedContent(source: FramedBitSource, suffix: Stream)
    requires forall i: nat :: source.suffixBit(i) == suffix(i)
    ensures forall i: nat {:trigger source.Content(i)} :: source.Content(i) == Framed(source.data, suffix)(i)
  {
    forall i: nat ensures source.Content(i) == Framed(source.data, suffix)(i) {
      assert Framed(source.data, suffix)(i) == FramedBit(source.data, suffix, i);
      if i < 8 * |source.data| {
        assert BitsOf(source.data)[i] == BitOf(source.data[i / 8], i % 8);
      }
    }
  }

  /** The receiver's `emit` for each confirmed bit. */
  method Collect(collector: BitCollector, bits: seq<Bit>)
    requires collector.Valid()
    modifies collector
    ensures collector.Valid() && collector.bits == old(collector.bits) + bits
  {
    hide Spells;
    for k := 0 to |bits|
      invariant collector.Valid() && collector.bits == old(collector.bits) + bits[..k]
    {
      var ok := collector.Append(bits[k]);
      assert bits[..k + 1] == bits[..k] + [bits[k]];
    }
    assert bits[..|bits|] == bits;
  }

  /** Asks the resolver for the layout once a whole byte has been collected. */
  method ResolveLayout(collector: BitCollector, resolver: Resolver, prefix: seq<int>, layout: Option<Layout>)
      returns (r: Result<Option<Layout>, Error>)
    requires collector.Valid()
    ensures r == Resolve(resolver, collector.bits, prefix, layout)
  {
    if layout.None? && 8 <= collector.count {
      var available := collector.Bytes();
      match resolver(available, prefix)
      case Failure(error) => return Failure(error);
      case Success(None) => return Success(None);
      case Success(Some(found)) =>
        if found.header <= 0 || found.capsule <= 0 {
          return Failure(InvalidSectionLength);
        }
        return Success(Some(found));
    }
    r := Success(layout);
  }

  /** The element at a Python index; a negative one counts from the end. */
  function At(observed: seq<int>, index: int): int
    requires -|observed| <= index < |observed|
  {
    if index < 0 then observed[|observed| + index] else observed[index]
  }

  lemma AtWrapped(observed: seq<int>, start: int, index: int)
    requires -|observed| <= start <= index < |observed|
    ensures index + Behind(start) < |Wrapped(observed, start)|
    ensures At(observed, index) == Wrapped(observed, start)[index + Behind(start)]
  {
  }

  /** Re-encodes the observed tokens from `start` and cuts the packet out of the confirmed bits. */
  method DecodePayload(observed: seq<int>, start: int, model: TokenModel, visiblePrefix: seq<int>,
                       resolver: Resolver, prefix: seq<int>)
      returns (r: Result<(seq<Byte>, seq<Byte>, int), Error>)
    ensures r == DecodeFrom(model, resolver, observed, start, visiblePrefix, prefix)
  {
    hide Step, Resolve, CompleteBytes, Spells, Settled, Wrapped, At;
    var layout, visible := None, visiblePrefix;
    var collector := new BitCollector();
    var encoder := new ArithmeticBitEncoder();
    if |observed| <= start {
      return Failure(CarrierEnded);
    }
    if start < -|observed| {
      return Failure(IndexOutOfRange);  // at the first token read
    }
    ghost var wrapped := Wrapped(observed, start);
    WrappedSize(observed, start);
    for index := start to |observed|
      invariant collector.Valid() && encoder.Valid() && collector.bits == encoder.emitted
      invariant Receive(model, resolver, wrapped, prefix, index + Behind(start), visible, encoder.State(), layout)
             == Receive(model, resolver, wrapped, prefix, start + Behind(start), visiblePrefix, INITIAL, None)
    {
      AtWrapped(observed, start, index);
      var tokenId := At(observed, index);
      var next := model.nextTable(visible);
      if next.Failure? {
        return Failure(next.error);
      }
      var table := next.value;
      var candidateIndex := IndexOf(table, tokenId);
      if candidateIndex.None? {
        return Failure(TokenOutsideTable);
      }
      var out := encoder.Symbol(candidateIndex.value, table.cumulative);
      Collect(collector, out.value);
      visible := visible + [tokenId];
      var known := ResolveLayout(collector, resolver, prefix, layout);
      if known.Failure? {
        return Failure(known.error);
      }
      layout := known.value;
      if Complete(layout, collector.count) {
        var bytes := collector.Bytes();
        var complete := bytes[..layout.value.header + layout.value.capsule];
        return Success((complete[..layout.value.header], complete[layout.value.header..], index + 1));
      }
    }
    r := Failure(CarrierEnded);
  }

  lemma WrappedSize(observed: seq<int>, start: int)
    requires -|observed| <= start
    ensures |Wrapped(observed, start)| == |observed| + Behind(start)
  {
  }

  // ----- A and D

  method GeneratePrefixTokens(model: TokenModel, count: int, random: RandomBelow) returns (r: Result<seq<int>, Error>)
    ensures r == GeneratePrefix(model, random, count)
  {
    if count <= 0 {
      return Failure(ValueError);
    }
    var tokenIds := [];
    while |tokenIds| < count
      invariant |tokenIds| <= count
      invariant SamplePrefix(model, random, count, tokenIds) == SamplePrefix(model, random, count, [])
    {
      var next := model.nextTable(tokenIds);
      if next.Failure? {
        return Failure(next.error);
      }
      var table := next.value;
      var total := table.cumulative[|table.cumulative| - 1];
      var draw := random(|tokenIds|, total);
      if !(0 <= draw < total) {
        return Failure(ValueError);
      }
      CumulativeAscends(table.cumulative);
      var symbol := BisectRight(table.cumulative, draw, 0, |table.cumulative|) - 1;
      tokenIds := tokenIds + [table.candidates[symbol].tokenId];
    }
    r := Success(tokenIds);
  }

  /**
   The carrier's tokens are the payload's and then the finisher's own answers, one by one, until the budget is used
   up or the finisher ends the text; and its text is theirs and tokenizes back.
   */
  ghost predicate MadeOf(prefix: seq<int>, header: seq<Byte>, capsule: seq<Byte>, payload: TokenModel, finish: GreedyModel,
                         finishTokens: int, suffix: Stream, c: Carrier) {
    && c.prefix == prefix && c.finishTokens <= |c.tokens| && c.finishTokens <= finishTokens
    && Payload.EncodePayload(payload, header, capsule, suffix, prefix) == Success((c.tokens[..|c.tokens| - c.finishTokens], c.payloadTokens))
    && (forall k | |c.tokens| - c.finishTokens <= k < |c.tokens| :: finish(c.tokens[..k]) == Success(Some(c.tokens[k])))
    && (c.finishTokens == finishTokens || finish(c.tokens) == Success(None))
    && payload.detokenize(c.tokens) == Success(c.text) && payload.tokenize(c.text) == Success(c.tokens)
  }

  /** Encodes header and capsule after the prefix, appends the finish, and renders the text. */
  method EncodeCarrierSections(prefix: seq<int>, header: seq<Byte>, capsule: seq<Byte>, payload: TokenModel, finish: GreedyModel,
                               finishTokens: int, maximumCharacters: int, suffix: Stream)
      returns (r: Result<Carrier, Error>)
    ensures r == EncodeSections(prefix, header, capsule, payload, finish, finishTokens, maximumCharacters, suffix)
    ensures r.Success? ==> MadeOf(prefix, header, capsule, payload, finish, finishTokens, suffix, r.value)
  {
    hide Send, Payload.EncodePayload, Render, MadeOf;
    if finishTokens < 0 {
      return Failure(ValueError);
    }
    var sent, tokenIds := EncodePayload(header, capsule, payload, suffix, prefix);
    if sent.Failure? {
      return Failure(sent.error);
    }
    ghost var sentTokens := tokenIds;
    var addedFinish := 0;
    while addedFinish < finishTokens
      invariant 0 <= addedFinish <= finishTokens
      invariant Finish(finish, finishTokens, tokenIds, addedFinish) == Finish(finish, finishTokens, sentTokens, 0)
    {
      var selected := finish(tokenIds);
      if selected.Failure? {
        return Failure(selected.error);
      }
      if selected.value.None? {
        break;
      }
      tokenIds := tokenIds + [selected.value.value];
      addedFinish := addedFinish + 1;
    }
    r := Render(payload, prefix, tokenIds, sent.value, addedFinish, maximumCharacters);
    if r.Success? {
      EncodedParts(prefix, header, capsule, payload, finish, finishTokens, maximumCharacters, suffix, r.value);
    }
  }

  lemma EncodedParts(prefix: seq<int>, header: seq<Byte>, capsule: seq<Byte>, payload: TokenModel, finish: GreedyModel,
                     finishTokens: int, maximumCharacters: int, suffix: Stream, c: Carrier)
    requires EncodeSections(prefix, header, capsule, payload, finish, finishTokens, maximumCharacters, suffix) == Success(c)
    ensures MadeOf(prefix, header, capsule, payload, finish, finishTokens, suffix, c)
  {
    hide Payload.EncodePayload, EncodeSections;
    SectionsEncoded(prefix, header, capsule, payload, finish, finishTokens, maximumCharacters, suffix, c);
    var (sentTokens, sent) := Payload.EncodePayload(payload, header, capsule, suffix, prefix).value;
    assert sentTokens == c.tokens[..|sentTokens|];
  }

  /** Recovers header and capsule from the text and ignores the finish. */
  method DecodeCarrierSections(text: string, payload: TokenModel, prefixTokens: int, resolver: Resolver, maximumCharacters: int)
      returns (r: Result<Decoded, Error>)
    ensures r == DecodeSections(text, payload, prefixTokens, resolver, maximumCharacters)
  {
    var structure := ValidateStructure(text, maximumCharacters);
    if structure.Failure? {
      return Failure(structure.error);
    }
    var tokenized := payload.tokenize(text);
    if tokenized.Failure? {
      return Failure(tokenized.error);
    }
    var observed := tokenized.value;
    var again := payload.detokenize(observed);
    if again.Failure? {
      return Failure(again.error);
    }
    if again.value != text {
      return Failure(RoundTripChanged);
    }
    if |observed| <= prefixTokens {
      return Failure(EndsInsidePrefix);
    }
    var prefix := FirstTokens(observed, prefixTokens);
    var packet := DecodePayload(observed, prefixTokens, payload, prefix, resolver, prefix);
    if packet.Failure? {
      return Failure(packet.error);
    }
    var (header, capsule, packetEnd) := packet.value;
    r := Success(Decoded(prefix, header, capsule, packetEnd, |observed|));
  }
}
