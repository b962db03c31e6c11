/**
 The smallest model: two tokens of equal frequency at every step, spelt '0' and '1'. Under it every packet
 has an encoding, so the theorems about encoded payloads and carriers speak of something.
 */
module HalvesModel {
  import opened Wrappers
  import opened Errors
  import opened Bits
  import opened BitBuffers
  import opened ArithmeticCoding
  import opened Candidates
  import opened PacketHeader
  import opened Payload
  import opened Sections

  const HALVES: seq<int> := [0, 16384, 32768]

  function EvenTable(): CandidateTable {
    Table([Candidate(0, "0", 0), Candidate(1, "1", 0)], HALVES)
  }

  predicate Binary(tokens: seq<int>) {
    forall i | 0 <= i < |tokens| :: tokens[i] == 0 || tokens[i] == 1
  }

  predicate Spelt(text: string) {
    forall i | 0 <= i < |text| :: text[i] == '0' || text[i] == '1'
  }

  function Spell(tokens: seq<int>): (r: string)
    ensures |r| == |tokens| && forall i | 0 <= i < |r| :: r[i] == if tokens[i] == 0 then '0' else '1'
  {
    seq(|tokens|, i requires 0 <= i < |tokens| => if tokens[i] == 0 then '0' else '1')
  }

  function Read(text: string): (r: seq<int>)
    ensures |r| == |text| && forall i | 0 <= i < |r| :: r[i] == if text[i] == '0' then 0 else 1
  {
    seq(|text|, i requires 0 <= i < |text| => if text[i] == '0' then 0 else 1)
  }

  function Halves(): TokenModel {
    TokenModel(
      prefix => if Binary(prefix) then Success(EvenTable()) else Failure(UnknownToken),
      text => if Spelt(text) then Success(Read(text)) else Failure(UnknownText),
      tokens => if Binary(tokens) then Success(Spell(tokens)) else Failure(UnknownToken))
  }

  /** A symbol of the halved range is confirmed at once, and the range is whole again. */
  lemma SymbolConfirmed(bits: seq<Bit>, symbol: Bit)
    ensures Step(INITIAL.(emitted := bits), HALVES, symbol) == INITIAL.(emitted := bits + [symbol])
  {
    var e := INITIAL.(emitted := bits);
    var narrow := Narrow(e, HALVES, symbol);
    assert narrow == if symbol == 0 then e.(high := HALF - 1) else e.(low := HALF);
    assert Shift(narrow) == INITIAL.(emitted := bits + [symbol] + Repeat(1 - symbol, 0));
    assert bits + [symbol] + Repeat(1 - symbol, 0) == bits + [symbol];
    assert Renormalize(narrow) == Renormalize(Shift(narrow)) == Shift(narrow);
  }

  /** From a whole range every further token is the stream's next bit. */
  lemma {:induction false} SendsNextBits(s: Stream, realBits: nat, guard: nat, prefix: seq<int>, bits: seq<Bit>) returns (all: seq<Bit>)
    requires Binary(prefix) && |bits| <= realBits <= guard && Encloses(INITIAL.(emitted := bits), s)
    ensures |all| == realBits && StartsWith(s, all)
    ensures Send(Halves(), s, realBits, guard, INITIAL.(emitted := bits), prefix + bits, |bits|) == Success((prefix + all, realBits))
    decreases realBits - |bits|
  {
    hide Encloses, Step, StartsWith;
    var e := INITIAL.(emitted := bits);
    EnclosesStarts(e, s);
    all := bits;
    if |bits| < realBits {
      var symbol := Choose(e, EvenTable(), s);
      SymbolConfirmed(bits, symbol);
      assert (prefix + bits) + [symbol] == prefix + (bits + [symbol]);
      all := SendsNextBits(s, realBits, guard, prefix, bits + [symbol]);
    }
  }

  /** Every packet has an encoding, one token a bit: the bits of its bytes. */
  lemma EveryPacketEncodes(header: seq<Byte>, capsule: seq<Byte>, suffix: Stream, prefix: seq<int>)
    requires header != [] && capsule != [] && Binary(prefix)
    ensures EncodePayload(Halves(), header, capsule, suffix, prefix)
         == Success((prefix + BitsOf(header + capsule), 8 * |header + capsule|))
  {
    hide Send, Encloses, StartsWith, Framed, BitsOf, Halves;
    var data := header + capsule;
    var s := Framed(data, suffix);
    InitialEncloses(s);
    assert 8 * |data| <= TokenGuard(|data|);
    assert prefix + [] == prefix;
    var all := SendsNextBits(s, 8 * |data|, TokenGuard(|data|), prefix, []);
    FramedStart(data, suffix, all);
  }

  lemma FramedStart(data: seq<Byte>, suffix: Stream, bits: seq<Bit>)
    requires |bits| == 8 * |data| && StartsWith(Framed(data, suffix), bits)
    ensures bits == BitsOf(data)
  {
    forall i | 0 <= i < |bits| ensures bits[i] == BitsOf(data)[i] {
      assert bits[i] == Framed(data, suffix)(i);
    }
  }

  /** In particular every real packet is encoded, and decoded again. */
  lemma EveryPacketDecodes(header: seq<Byte>, capsule: seq<Byte>, suffix: Stream, prefix: seq<int>)
    requires PackHeader(|capsule|) == Success(header) && Binary(prefix)
    ensures EncodePayload(Halves(), header, capsule, suffix, prefix).Success?
    ensures var tokens := prefix + BitsOf(header + capsule);
      DecodePayload(Halves(), PacketLayout, tokens, |prefix|, prefix) == Success(Packet(header, capsule, |tokens|))
  {
    hide EncodePayload, DecodePayload, PacketLayout;
    PackHeaderTotal(|capsule|);
    EveryPacketEncodes(header, capsule, suffix, prefix);
    PacketAnnounced(header, capsule, prefix);
    PayloadRoundTrip(Halves(), PacketLayout, header, capsule, suffix, prefix, []);
    var tokens := prefix + BitsOf(header + capsule);
    assert tokens + [] == tokens;
  }

  lemma ReadSpelt(tokens: seq<int>)
    requires Binary(tokens)
    ensures Spelt(Spell(tokens)) && Read(Spell(tokens)) == tokens && Clean(Spell(tokens))
  {
  }

  /** Its tokens are offerable. */
  lemma TokensOfferable()
    ensures SafeTables(Halves(), Halves())
  {
    var model := Halves();
    forall prefix: seq<int>, i: nat | Binary(prefix) && i < 2 ensures Offerable(model, prefix, i) {
      ReadSpelt([i]);
      ReadSpelt(prefix + [i]);
      assert Spell(prefix + [i]) == Spell(prefix) + Spell([i]);
    }
  }

  /** So every packet becomes a carrier text, unless that is longer than allowed. */
  lemma EveryPacketRenders(prefix: seq<int>, header: seq<Byte>, capsule: seq<Byte>, finishTokens: nat, maximumCharacters: int, suffix: Stream)
    requires header != [] && capsule != [] && Binary(prefix)
    ensures var tokens := prefix + BitsOf(header + capsule);
      EncodeSections(prefix, header, capsule, Halves(), _ => Success(None), finishTokens, maximumCharacters, suffix)
        == if maximumCharacters < |tokens| then Failure(CarrierTooLong)
           else Success(Carrier(Spell(tokens), tokens, prefix, 8 * |header + capsule|, 0))
  {
    hide EncodePayload, EncodeSections;
    var tokens := prefix + BitsOf(header + capsule);
    TokensOfferable();
    EveryPacketEncodes(header, capsule, suffix, prefix);
    ReadSpelt(prefix);
    assert Binary(tokens);
    CopySafeRenders(prefix, header, capsule, Halves(), _ => Success(None), finishTokens, maximumCharacters, suffix);
  }
}
