/**
 The payload codec: tokens chosen by inverse-decoding the packet bits, and the packet recovered from
 the tokens, as functions, with the theorems that connect the two directions.
 */
module Payload {
  import opened Wrappers
  import opened Errors
  import opened Bits
  import opened BitBuffers
  import opened Frequencies
  import opened ArithmeticCoding
  import opened CoderRuns
  import opened Candidates

  datatype Layout = Layout(header: int, capsule: int)

  /** What the receiver can say about a packet from its first bytes; `Success(None)` asks for more. */
  type Resolver = (seq<Byte>, seq<int>) -> Result<Option<Layout>, Error>

  datatype Packet = Packet(header: seq<Byte>, capsule: seq<Byte>, consumed: nat)

  // ----- the sender

  function Choose(e: Encoder, t: CandidateTable, s: Stream): (symbol: nat)
    requires e.Ready() && Encloses(e, s)
    ensures symbol < |t.candidates|
    ensures Encloses(Step(e, t.cumulative, symbol), s)
  {
    var symbol := DecoderStep(Track(e, s), t.cumulative, s).0;
    StepEncloses(e, t.cumulative, symbol, s);
    symbol
  }

  /** Chooses tokens until `realBits` bits are confirmed, or the guard trips. */
  function Send(model: TokenModel, s: Stream, realBits: nat, guard: nat, e: Encoder, tokens: seq<int>, sent: nat)
    : Result<(seq<int>, nat), Error>
    requires e.Ready() && Encloses(e, s) && sent <= guard
    decreases guard - sent
  {
    if realBits <= |e.emitted| then Success((tokens, sent)) else
      match model.nextTable(tokens)
      case Failure(error) => Failure(error)
      case Success(t) =>
        var symbol := Choose(e, t, s);
        if guard < sent + 1 then Failure(NoProgress) else
          Send(model, s, realBits, guard, Step(e, t.cumulative, symbol),
               tokens + [t.candidates[symbol].tokenId], sent + 1)
  }

  /** The larger of 1024 and 64 tokens a byte plus 1024. */
  function TokenGuard(bytes: nat): nat {
    64 * bytes + 1024
  }

  /** The sender's whole payload: the tokens after `tokens`, and how many were added. */
  function EncodePayload(model: TokenModel, header: seq<Byte>, capsule: seq<Byte>, suffix: Stream, tokens: seq<int>)
    : Result<(seq<int>, nat), Error>
  {
    if header == [] || capsule == [] then Failure(EmptySection) else
      var s := Framed(header + capsule, suffix);
      InitialEncloses(s);
      Send(model, s, 8 * |header + capsule|, TokenGuard(|header + capsule|), INITIAL, tokens, 0)
  }

  // ----- the receiver

  /** Asks for the layout once a whole byte is there and until it is known. */
  function Resolve(resolver: Resolver, bits: seq<Bit>, prefix: seq<int>, layout: Option<Layout>): Result<Option<Layout>, Error> {
    if layout.None? && 8 <= |bits| then
      match resolver(CompleteBytes(bits), prefix)
      case Failure(error) => Failure(error)
      case Success(None) => Success(None)
      case Success(Some(found)) =>
        if found.header <= 0 || found.capsule <= 0 then Failure(InvalidSectionLength) else Success(Some(found))
    else Success(layout)
  }

  predicate Complete(layout: Option<Layout>, count: nat) {
    layout.Some? && 0 < layout.value.header && 0 < layout.value.capsule
    && 8 * (layout.value.header + layout.value.capsule) <= count
  }

  function Cut(layout: Layout, bits: seq<Bit>, consumed: nat): Packet
    requires Complete(Some(layout), |bits|)
  {
    var complete := CompleteBytes(bits)[..layout.header + layout.capsule];
    Packet(complete[..layout.header], complete[layout.header..], consumed)
  }

  /** Consumes observed tokens from `index` until the packet is complete. */
  function Receive(model: TokenModel, resolver: Resolver, observed: seq<int>, prefix: seq<int>,
                   index: nat, visible: seq<int>, e: Encoder, layout: Option<Layout>): Result<Packet, Error>
    requires index <= |observed| && e.Ready()
    decreases |observed| - index
  {
    if index == |observed| then Failure(CarrierEnded) else
      match model.nextTable(visible)
      case Failure(error) => Failure(error)
      case Success(t) =>
        match IndexOf(t, observed[index])
        case None => Failure(TokenOutsideTable)
        case Some(symbol) =>
          var next := Step(e, t.cumulative, symbol);
          match Resolve(resolver, next.emitted, prefix, layout)
          case Failure(error) => Failure(error)
          case Success(known) =>
            if Complete(known, |next.emitted|) then Success(Cut(known.value, next.emitted, index + 1))
            else Receive(model, resolver, observed, prefix, index + 1, visible + [observed[index]], next, known)
  }

  function DecodePayload(model: TokenModel, resolver: Resolver, observed: seq<int>, start: nat, prefix: seq<int>): Result<Packet, Error>
    requires start <= |observed|
  {
    Receive(model, resolver, observed, prefix, start, observed[..start], INITIAL, None)
  }

  // ----- what the receiver sees is the sender's packet

  /** One byte string begins with the other. */
  predicate Comparable<T(==)>(x: seq<T>, y: seq<T>) {
    x <= y || y <= x
  }

  /** The resolver's answers on prefixes and extensions of one packet: unknown or right, and known at the end. */
  ghost predicate Announces(resolver: Resolver, prefix: seq<int>, header: seq<Byte>, capsule: seq<Byte>) {
    var layout := Success(Some(Layout(|header|, |capsule|)));
    forall x: seq<Byte> | x != [] && Comparable(x, header + capsule) ::
      var answer := resolver(x, prefix);
      answer == layout || (answer == Success(None) && |x| < |header + capsule|)
  }

  /** Confirmed bits of the framed stream pack to bytes comparable with the data. */
  lemma ConfirmedBytes(data: seq<Byte>, suffix: Stream, bits: seq<Bit>)
    requires StartsWith(Framed(data, suffix), bits)
    ensures Comparable(CompleteBytes(bits), data)
    ensures 8 * |data| <= |bits| ==> data <= CompleteBytes(bits)
  {
    var bytes, n := CompleteBytes(bits), |data|;
    var both := if |bytes| <= n then |bytes| else n;
    forall i | 0 <= i < both ensures bytes[i] == data[i] {
      forall k | 0 <= k < 8 ensures BitOf(data[i], k) == bits[8 * i + k] {
        assert bits[8 * i + k] == Framed(data, suffix)(8 * i + k) == BitsOf(data)[8 * i + k];
        assert (8 * i + k) / 8 == i && (8 * i + k) % 8 == k;
      }
      ByteAt(bits, i, data[i]);
    }
    assert bytes[..both] == data[..both];
  }

  lemma EnclosesStarts(e: Encoder, s: Stream)
    requires Encloses(e, s)
    ensures StartsWith(s, e.emitted)
  {
  }

  /** At a state that encloses the sender's stream the receiver learns nothing wrong, and everything at the end. */
  lemma ResolveAnnounced(resolver: Resolver, bits: seq<Bit>, prefix: seq<int>, layout: Option<Layout>,
                         header: seq<Byte>, capsule: seq<Byte>, suffix: Stream)
    requires header != [] && capsule != [] && Announces(resolver, prefix, header, capsule)
    requires StartsWith(Framed(header + capsule, suffix), bits)
    requires layout.Some? ==> layout.value == Layout(|header|, |capsule|)
    ensures var r := Resolve(resolver, bits, prefix, layout);
      && r.Success?
      && (r.value.Some? ==> r.value.value == Layout(|header|, |capsule|))
      && (8 * |header + capsule| <= |bits| ==> r.value.Some?)
  {
    ConfirmedBytes(header + capsule, suffix, bits);
    assert 2 <= |header + capsule|;
    if layout.None? && 8 <= |bits| {
      assert CompleteBytes(bits) != [];
    }
  }

  lemma CutAnnounced(bits: seq<Bit>, consumed: nat, header: seq<Byte>, capsule: seq<Byte>, suffix: Stream)
    requires header != [] && capsule != [] && 8 * |header + capsule| <= |bits|
    requires StartsWith(Framed(header + capsule, suffix), bits)
    ensures Cut(Layout(|header|, |capsule|), bits, consumed) == Packet(header, capsule, consumed)
  {
    ConfirmedBytes(header + capsule, suffix, bits);
    assert CompleteBytes(bits)[..|header| + |capsule|] == header + capsule;
  }

  lemma {:induction false} SendAppends(model: TokenModel, s: Stream, realBits: nat, guard: nat, e: Encoder, tokens: seq<int>, sent: nat)
    requires e.Ready() && Encloses(e, s) && sent <= guard
    ensures var r := Send(model, s, realBits, guard, e, tokens, sent);
      r.Success? ==>
        && tokens <= r.value.0 && |r.value.0| == |tokens| + (r.value.1 - sent) && sent <= r.value.1 <= guard
        && (|e.emitted| < realBits ==> sent < r.value.1)
    decreases guard - sent
  {
    if |e.emitted| < realBits {
      match model.nextTable(tokens)
      case Failure(_) =>
      case Success(t) =>
        var symbol := Choose(e, t, s);
        if sent + 1 <= guard {
          SendAppends(model, s, realBits, guard, Step(e, t.cumulative, symbol), tokens + [t.candidates[symbol].tokenId], sent + 1);
        }
    }
  }

  /**
   The receiver replays the sender: on tokens that extend the sender's it finds the packet at exactly
   the sender's last token, and on tokens cut short of them it fails.
   */
  lemma {:induction false} ReceiveReplays(
      model: TokenModel, resolver: Resolver, header: seq<Byte>, capsule: seq<Byte>, suffix: Stream, guard: nat,
      e: Encoder, tokens: seq<int>, sent: nat, observed: seq<int>, prefix: seq<int>, layout: Option<Layout>)
    requires header != [] && capsule != [] && Announces(resolver, prefix, header, capsule)
    requires e.Ready() && Encloses(e, Framed(header + capsule, suffix)) && sent <= guard
    requires |e.emitted| < 8 * |header + capsule|
    requires layout.Some? ==> layout.value == Layout(|header|, |capsule|)
    requires tokens <= observed
    requires var sending := Send(model, Framed(header + capsule, suffix), 8 * |header + capsule|, guard, e, tokens, sent);
      sending.Success? && Comparable(observed, sending.value.0)
    ensures var final := Send(model, Framed(header + capsule, suffix), 8 * |header + capsule|, guard, e, tokens, sent).value.0;
      Receive(model, resolver, observed, prefix, |tokens|, tokens, e, layout)
        == if final <= observed then Success(Packet(header, capsule, |final|)) else Failure(CarrierEnded)
    decreases guard - sent
  {
    hide Step, Track, Framed, DecoderStep, Encloses, StartsWith, Announces, Resolve, CompleteBytes, Cut;
    var s, n := Framed(header + capsule, suffix), |tokens|;
    var t := model.nextTable(tokens).value;
    var symbol := Choose(e, t, s);
    var next, chosen := Step(e, t.cumulative, symbol), t.candidates[symbol].tokenId;
    var final := Send(model, s, 8 * |header + capsule|, guard, e, tokens, sent).value.0;
    assert final == Send(model, s, 8 * |header + capsule|, guard, next, tokens + [chosen], sent + 1).value.0;
    SendAppends(model, s, 8 * |header + capsule|, guard, next, tokens + [chosen], sent + 1);
    if n < |observed| {
      assert observed[n] == final[n] == chosen;
      assert tokens + [observed[n]] <= observed;
      IndexOfCandidate(t, symbol);
      EnclosesStarts(next, s);
      ResolveAnnounced(resolver, next.emitted, prefix, layout, header, capsule, suffix);
      if 8 * |header + capsule| <= |next.emitted| {
        CutAnnounced(next.emitted, n + 1, header, capsule, suffix);
      } else {
        ReceiveReplays(model, resolver, header, capsule, suffix, guard, next, tokens + [chosen], sent + 1,
                       observed, prefix, Resolve(resolver, next.emitted, prefix, layout).value);
      }
    }
  }

  /**
   The round trip: whatever the model, the random suffix and the tokens that follow, a payload that was
   encoded decodes to its header and capsule, and the receiver stops at exactly the sender's last token.
   */
  lemma PayloadRoundTrip(model: TokenModel, resolver: Resolver, header: seq<Byte>, capsule: seq<Byte>,
                         suffix: Stream, prefix: seq<int>, tail: seq<int>)
    requires EncodePayload(model, header, capsule, suffix, prefix).Success?
    requires Announces(resolver, prefix, header, capsule)
    ensures var (tokens, sent) := EncodePayload(model, header, capsule, suffix, prefix).value;
      && prefix <= tokens && |tokens| == |prefix| + sent && 0 < sent
      && DecodePayload(model, resolver, tokens + tail, |prefix|, prefix) == Success(Packet(header, capsule, |tokens|))
  {
    hide Step, Track, Framed, DecoderStep, Encloses, StartsWith, Announces, Resolve, CompleteBytes, Cut;
    var s, guard := Framed(header + capsule, suffix), TokenGuard(|header + capsule|);
    var (tokens, sent) := EncodePayload(model, header, capsule, suffix, prefix).value;
    InitialEncloses(s);
    SendAppends(model, s, 8 * |header + capsule|, guard, INITIAL, prefix, 0);
    assert (tokens + tail)[..|prefix|] == prefix;
    ReceiveReplays(model, resolver, header, capsule, suffix, guard, INITIAL, prefix, 0, tokens + tail, prefix, None);
  }

  /** Every strict truncation of an encoded payload is refused: the carrier ends before the packet. */
  lemma TruncationFails(model: TokenModel, resolver: Resolver, header: seq<Byte>, capsule: seq<Byte>,
                        suffix: Stream, prefix: seq<int>, kept: nat)
    requires EncodePayload(model, header, capsule, suffix, prefix).Success?
    requires Announces(resolver, prefix, header, capsule)
    requires |prefix| <= kept < |EncodePayload(model, header, capsule, suffix, prefix).value.0|
    ensures DecodePayload(model, resolver, EncodePayload(model, header, capsule, suffix, prefix).value.0[..kept], |prefix|, prefix)
         == Failure(CarrierEnded)
  {
    hide Step, Track, Framed, DecoderStep, Encloses, StartsWith, Announces, Resolve, CompleteBytes, Cut;
    var s, guard := Framed(header + capsule, suffix), TokenGuard(|header + capsule|);
    var (tokens, sent) := EncodePayload(model, header, capsule, suffix, prefix).value;
    InitialEncloses(s);
    SendAppends(model, s, 8 * |header + capsule|, guard, INITIAL, prefix, 0);
    assert tokens[..kept][..|prefix|] == prefix;
    ReceiveReplays(model, resolver, header, capsule, suffix, guard, INITIAL, prefix, 0, tokens[..kept], prefix, None);
  }

  /** Payloads are prefix-free: one that begins another is the other, with the same packet. */
  lemma PayloadsPrefixFree(model: TokenModel, resolver: Resolver, prefix: seq<int>,
                           header: seq<Byte>, capsule: seq<Byte>, suffix: Stream,
                           header': seq<Byte>, capsule': seq<Byte>, suffix': Stream)
    requires EncodePayload(model, header, capsule, suffix, prefix).Success?
    requires EncodePayload(model, header', capsule', suffix', prefix).Success?
    requires Announces(resolver, prefix, header, capsule) && Announces(resolver, prefix, header', capsule')
    requires EncodePayload(model, header, capsule, suffix, prefix).value.0
          <= EncodePayload(model, header', capsule', suffix', prefix).value.0
    ensures header == header' && capsule == capsule'
    ensures EncodePayload(model, header, capsule, suffix, prefix).value
         == EncodePayload(model, header', capsule', suffix', prefix).value
  {
    hide Step, Track, Framed, DecoderStep, Encloses, StartsWith, Announces, Resolve, CompleteBytes, Cut;
    var x := EncodePayload(model, header, capsule, suffix, prefix).value.0;
    var y := EncodePayload(model, header', capsule', suffix', prefix).value.0;
    assert x + y[|x|..] == y + [] == y;
    PayloadRoundTrip(model, resolver, header, capsule, suffix, prefix, y[|x|..]);
    PayloadRoundTrip(model, resolver, header', capsule', suffix', prefix, []);
  }

  // ----- what the receiver accepts, a sender could have sent

  /** A layout found once is found on every byte string that shares the header it was found in. */
  ghost predicate SelfDelimiting(resolver: Resolver, prefix: seq<int>) {
    forall x: seq<Byte>, y: seq<Byte>, layout: Layout |
      resolver(x, prefix) == Success(Some(layout)) && 0 < layout.header ::
      layout.header <= |x| &&
      (layout.header <= |y| && x[..layout.header] == y[..layout.header] ==> resolver(y, prefix) == Success(Some(layout)))
  }

  /** A settled state encloses every stream that continues its bits with a one and then zeros. */
  lemma OneThenZerosEnclosed(e: Encoder, s: Stream)
    requires e.Ready() && StartsWith(s, e.emitted) && s(|e.emitted|) == 1
    requires forall i | |e.emitted| < i :: s(i) == 0
    ensures Encloses(e, s)
  {
    WindowExtremes(s, |e.emitted| + e.pending + 1, 31);
  }

  function ContinuationBit(bits: seq<Bit>, i: nat): Bit {
    if i < |bits| then bits[i] else if i == |bits| then 1 else 0
  }

  /** The encoder state in which a successful receiver stops. */
  function FinalState(model: TokenModel, resolver: Resolver, observed: seq<int>, prefix: seq<int>,
                      index: nat, visible: seq<int>, e: Encoder, layout: Option<Layout>): (r: Encoder)
    requires index <= |observed| && e.Ready()
    requires Receive(model, resolver, observed, prefix, index, visible, e, layout).Success?
    ensures r.Ready()
    decreases |observed| - index
  {
    var t := model.nextTable(visible).value;
    var next := Step(e, t.cumulative, IndexOf(t, observed[index]).value);
    var known := Resolve(resolver, next.emitted, prefix, layout).value;
    if Complete(known, |next.emitted|) then next
    else FinalState(model, resolver, observed, prefix, index + 1, visible + [observed[index]], next, known)
  }

  /** One token of a receiver that succeeds: its symbol, and either the packet or the rest of the run. */
  lemma ReceiveOne(model: TokenModel, resolver: Resolver, observed: seq<int>, prefix: seq<int>,
                   index: nat, visible: seq<int>, e: Encoder, layout: Option<Layout>)
      returns (symbol: nat, next: Encoder, known: Option<Layout>)
    requires index <= |observed| && e.Ready()
    requires Receive(model, resolver, observed, prefix, index, visible, e, layout).Success?
    ensures index < |observed| && model.nextTable(visible).Success?
    ensures var t := model.nextTable(visible).value;
      symbol < |t.candidates| && t.candidates[symbol].tokenId == observed[index] && next == Step(e, t.cumulative, symbol)
    ensures Resolve(resolver, next.emitted, prefix, layout) == Success(known)
    ensures var r := Receive(model, resolver, observed, prefix, index, visible, e, layout);
      var final := FinalState(model, resolver, observed, prefix, index, visible, e, layout);
      if Complete(known, |next.emitted|) then
        && r.value == Cut(known.value, next.emitted, index + 1) && r.value.consumed == index + 1 && final == next
        && known.value == Layout(|r.value.header|, |r.value.capsule|)
      else
        && r == Receive(model, resolver, observed, prefix, index + 1, visible + [observed[index]], next, known)
        && final == FinalState(model, resolver, observed, prefix, index + 1, visible + [observed[index]], next, known)
  {
    hide Step, CompleteBytes;
    var t := model.nextTable(visible).value;
    symbol := IndexOf(t, observed[index]).value;
    next := Step(e, t.cumulative, symbol);
    known := Resolve(resolver, next.emitted, prefix, layout).value;
  }

  /** The packet is cut from the final state's bits, at the layout known at the time or found later. */
  lemma {:induction false} ReceivedPacket(model: TokenModel, resolver: Resolver, observed: seq<int>, prefix: seq<int>,
                                          index: nat, visible: seq<int>, e: Encoder, layout: Option<Layout>)
    requires index <= |observed| && e.Ready()
    requires Receive(model, resolver, observed, prefix, index, visible, e, layout).Success?
    ensures var p := Receive(model, resolver, observed, prefix, index, visible, e, layout).value;
      var final := FinalState(model, resolver, observed, prefix, index, visible, e, layout);
      && p.header != [] && p.capsule != [] && index < p.consumed <= |observed|
      && 8 * |p.header + p.capsule| <= |final.emitted|
      && p.header + p.capsule == CompleteBytes(final.emitted)[..|p.header + p.capsule|]
      && e.emitted <= final.emitted
      && (layout.Some? ==> layout.value == Layout(|p.header|, |p.capsule|))
    decreases |observed| - index
  {
    hide Step, CompleteBytes, Receive, FinalState;
    var _, next, known := ReceiveOne(model, resolver, observed, prefix, index, visible, e, layout);
    if Complete(known, |next.emitted|) {
      var p := Cut(known.value, next.emitted, index + 1);
      assert p.header + p.capsule == CompleteBytes(next.emitted)[..known.value.header + known.value.capsule];
    } else {
      ReceivedPacket(model, resolver, observed, prefix, index + 1, visible + [observed[index]], next, known);
    }
  }

  lemma CompleteBytesPrefix(x: seq<Bit>, y: seq<Bit>)
    requires x <= y
    ensures CompleteBytes(x) <= CompleteBytes(y)
  {
    forall i | 0 <= i < |x| / 8 ensures CompleteBytes(x)[i] == CompleteBytes(y)[i] {
      assert x[8 * i..8 * i + 8] == y[8 * i..8 * i + 8];
    }
  }

  lemma AnnouncedEarlier(resolver: Resolver, prefix: seq<int>, x: seq<Byte>, y: seq<Byte>, layout: Layout)
    requires SelfDelimiting(resolver, prefix) && resolver(x, prefix) == Success(Some(layout))
    requires y <= x && 0 < layout.header <= |y|
    ensures resolver(y, prefix) == Success(Some(layout))
  {
    assert x[..layout.header] == y[..layout.header];
  }

  /** With a self-delimiting resolver a packet already complete has already been announced. */
  lemma {:induction false} AnnouncedOnceComplete(model: TokenModel, resolver: Resolver, observed: seq<int>, prefix: seq<int>,
                                                 index: nat, visible: seq<int>, e: Encoder)
    requires index <= |observed| && e.Ready() && SelfDelimiting(resolver, prefix)
    requires Receive(model, resolver, observed, prefix, index, visible, e, None).Success?
    requires var p := Receive(model, resolver, observed, prefix, index, visible, e, None).value;
      8 * |p.header + p.capsule| <= |e.emitted|
    ensures var p := Receive(model, resolver, observed, prefix, index, visible, e, None).value;
      resolver(CompleteBytes(e.emitted), prefix) == Success(Some(Layout(|p.header|, |p.capsule|)))
    decreases |observed| - index
  {
    hide Step, CompleteBytes, Receive, FinalState, Cut, SelfDelimiting;
    ReceivedPacket(model, resolver, observed, prefix, index, visible, e, None);
    var p := Receive(model, resolver, observed, prefix, index, visible, e, None).value;
    var _, next, known := ReceiveOne(model, resolver, observed, prefix, index, visible, e, None);
    CompleteBytesPrefix(e.emitted, next.emitted);
    if known.None? {
      AnnouncedOnceComplete(model, resolver, observed, prefix, index + 1, visible + [observed[index]], next);
      assert false;
    } else {
      if !Complete(known, |next.emitted|) {
        ReceivedPacket(model, resolver, observed, prefix, index + 1, visible + [observed[index]], next, known);
      }
      assert known.value == Layout(|p.header|, |p.capsule|);
      AnnouncedEarlier(resolver, prefix, CompleteBytes(next.emitted), CompleteBytes(e.emitted), known.value);
    }
  }

  /** A receiver that has not stopped has confirmed less than the packet it will return. */
  lemma NotYetComplete(model: TokenModel, resolver: Resolver, observed: seq<int>, prefix: seq<int>,
                       index: nat, visible: seq<int>, e: Encoder, asked: Option<Layout>, known: Option<Layout>)
    requires index <= |observed| && e.Ready() && SelfDelimiting(resolver, prefix)
    requires Resolve(resolver, e.emitted, prefix, asked) == Success(known) && !Complete(known, |e.emitted|)
    requires Receive(model, resolver, observed, prefix, index, visible, e, known).Success?
    ensures var p := Receive(model, resolver, observed, prefix, index, visible, e, known).value;
      |e.emitted| < 8 * |p.header + p.capsule|
  {
    hide CompleteBytes, Receive;
    ReceivedPacket(model, resolver, observed, prefix, index, visible, e, known);
    var p := Receive(model, resolver, observed, prefix, index, visible, e, known).value;
    if known.None? && 8 * |p.header + p.capsule| <= |e.emitted| {
      AnnouncedOnceComplete(model, resolver, observed, prefix, index, visible, e);
      assert false;
    }
  }

  /** The layout a packet is cut by is what the resolver says of the final state's bytes. */
  lemma {:induction false} FinalAnnounced(model: TokenModel, resolver: Resolver, observed: seq<int>, prefix: seq<int>,
                                          index: nat, visible: seq<int>, e: Encoder, layout: Option<Layout>)
    requires index <= |observed| && e.Ready() && SelfDelimiting(resolver, prefix)
    requires Receive(model, resolver, observed, prefix, index, visible, e, layout).Success?
    requires layout.Some? ==> 0 < layout.value.header && resolver(CompleteBytes(e.emitted), prefix) == Success(layout)
    ensures var p := Receive(model, resolver, observed, prefix, index, visible, e, layout).value;
      var final := FinalState(model, resolver, observed, prefix, index, visible, e, layout);
      resolver(CompleteBytes(final.emitted), prefix) == Success(Some(Layout(|p.header|, |p.capsule|)))
    decreases |observed| - index
  {
    hide Step, CompleteBytes, Receive, FinalState, Cut, SelfDelimiting;
    var _, next, known := ReceiveOne(model, resolver, observed, prefix, index, visible, e, layout);
    CompleteBytesPrefix(e.emitted, next.emitted);
    if layout.Some? {
      AnnouncedLater(resolver, prefix, CompleteBytes(e.emitted), CompleteBytes(next.emitted), layout.value);
    }
    if !Complete(known, |next.emitted|) {
      FinalAnnounced(model, resolver, observed, prefix, index + 1, visible + [observed[index]], next, known);
    }
  }

  lemma AnnouncedLater(resolver: Resolver, prefix: seq<int>, x: seq<Byte>, y: seq<Byte>, layout: Layout)
    requires SelfDelimiting(resolver, prefix) && resolver(x, prefix) == Success(Some(layout))
    requires x <= y && 0 < layout.header
    ensures resolver(y, prefix) == Success(Some(layout))
  {
    assert layout.header <= |x| && x[..layout.header] == y[..layout.header];
  }

  /** One token of a sender that picks `symbol`. */
  lemma SendOne(model: TokenModel, s: Stream, realBits: nat, guard: nat, e: Encoder, tokens: seq<int>, sent: nat, symbol: nat)
    requires e.Ready() && |e.emitted| < realBits && sent < guard && model.nextTable(tokens).Success?
    requires symbol < |model.nextTable(tokens).value.candidates|
    requires Encloses(Step(e, model.nextTable(tokens).value.cumulative, symbol), s)
    ensures Encloses(e, s)
    ensures Send(model, s, realBits, guard, e, tokens, sent)
         == Send(model, s, realBits, guard, Step(e, model.nextTable(tokens).value.cumulative, symbol),
                 tokens + [model.nextTable(tokens).value.candidates[symbol].tokenId], sent + 1)
  {
    hide Track, DecoderStep, Encloses, Step;
    ChooseRetraces(e, model.nextTable(tokens).value, s, symbol);
  }

  /** The sender retraces the receiver on every stream enclosed by the receiver's final state. */
  lemma {:induction false} SendRetraces(model: TokenModel, resolver: Resolver, observed: seq<int>, prefix: seq<int>,
                                        index: nat, e: Encoder, layout: Option<Layout>, s: Stream, guard: nat, sent: nat)
    requires index <= |observed| && e.Ready() && SelfDelimiting(resolver, prefix)
    requires Receive(model, resolver, observed, prefix, index, observed[..index], e, layout).Success?
    requires Encloses(FinalState(model, resolver, observed, prefix, index, observed[..index], e, layout), s)
    requires var p := Receive(model, resolver, observed, prefix, index, observed[..index], e, layout).value;
      |e.emitted| < 8 * |p.header + p.capsule| && sent + p.consumed <= guard + index
    ensures var p := Receive(model, resolver, observed, prefix, index, observed[..index], e, layout).value;
      p.consumed <= |observed| && Encloses(e, s) && sent <= guard &&
      Send(model, s, 8 * |p.header + p.capsule|, guard, e, observed[..index], sent)
        == Success((observed[..p.consumed], sent + p.consumed - index))
    decreases |observed| - index
  {
    hide Step, CompleteBytes, Encloses, Send, Resolve, Receive, FinalState, SelfDelimiting, Cut, IsCumulative;
    ReceivedPacket(model, resolver, observed, prefix, index, observed[..index], e, layout);
    var p := Receive(model, resolver, observed, prefix, index, observed[..index], e, layout).value;
    var symbol, next, known := ReceiveOne(model, resolver, observed, prefix, index, observed[..index], e, layout);
    assert observed[..index] + [observed[index]] == observed[..index + 1];
    if Complete(known, |next.emitted|) {
      SendDone(model, s, 8 * |p.header + p.capsule|, guard, next, observed[..index + 1], sent + 1);
    } else {
      NotYetComplete(model, resolver, observed, prefix, index + 1, observed[..index + 1], next, layout, known);
      SendRetraces(model, resolver, observed, prefix, index + 1, next, known, s, guard, sent + 1);
    }
    SendOne(model, s, 8 * |p.header + p.capsule|, guard, e, observed[..index], sent, symbol);
  }

  lemma SendDone(model: TokenModel, s: Stream, realBits: nat, guard: nat, e: Encoder, tokens: seq<int>, sent: nat)
    requires e.Ready() && Encloses(e, s) && sent <= guard && realBits <= |e.emitted|
    ensures Send(model, s, realBits, guard, e, tokens, sent) == Success((tokens, sent))
  {
  }

  lemma ChooseRetraces(e: Encoder, t: CandidateTable, s: Stream, symbol: nat)
    requires e.Ready() && symbol < |t.candidates| && Encloses(Step(e, t.cumulative, symbol), s)
    ensures Encloses(e, s) && Choose(e, t, s) == symbol
  {
    StepEncloses(e, t.cumulative, symbol, s);
  }

  /** The suffix with which the sender of `data` reads the continuation of `bits`. */
  function SuffixAfter(bits: seq<Bit>, bytes: nat): Stream {
    (i: nat) => ContinuationBit(bits, 8 * bytes + i)
  }

  /** Framing the bytes that open a bit string, with what follows them as suffix, gives the string back. */
  lemma FramedContinuation(bits: seq<Bit>, bytes: nat)
    requires 8 * bytes <= |bits|
    ensures var s := Framed(CompleteBytes(bits)[..bytes], SuffixAfter(bits, bytes));
      forall i: nat :: s(i) == ContinuationBit(bits, i)
  {
    var data := CompleteBytes(bits)[..bytes];
    var s := Framed(data, SuffixAfter(bits, bytes));
    BitsOfCompleteBytes(bits);
    forall i: nat ensures s(i) == ContinuationBit(bits, i) {
      if i < 8 * bytes {
        assert BitsOf(data)[i] == BitsOf(CompleteBytes(bits))[i] == bits[i];
      } else {
        assert s(i) == ContinuationBit(bits, 8 * bytes + (i - 8 * bytes));
      }
    }
  }

  /** What a receiver accepts within the token guard, some random suffix would have made a sender choose. */
  lemma AcceptedIsEncodable(model: TokenModel, resolver: Resolver, observed: seq<int>, prefix: seq<int>)
      returns (suffix: Stream)
    requires prefix <= observed && SelfDelimiting(resolver, prefix)
    requires DecodePayload(model, resolver, observed, |prefix|, prefix).Success?
    requires var p := DecodePayload(model, resolver, observed, |prefix|, prefix).value;
      p.consumed - |prefix| <= TokenGuard(|p.header + p.capsule|)
    ensures var p := DecodePayload(model, resolver, observed, |prefix|, prefix).value;
      p.consumed <= |observed| &&
      EncodePayload(model, p.header, p.capsule, suffix, prefix) == Success((observed[..p.consumed], p.consumed - |prefix|))
  {
    hide Receive, Send, FinalState, Encloses, CompleteBytes, Framed, SelfDelimiting;
    var n := |prefix|;
    assert observed[..n] == prefix;
    var p := DecodePayload(model, resolver, observed, n, prefix).value;
    var final := FinalState(model, resolver, observed, prefix, n, prefix, INITIAL, None);
    ReceivedPacket(model, resolver, observed, prefix, n, prefix, INITIAL, None);
    suffix := SuffixAfter(final.emitted, |p.header + p.capsule|);
    var s := Framed(p.header + p.capsule, suffix);
    FramedContinuation(final.emitted, |p.header + p.capsule|);
    OneThenZerosEnclosed(final, s);
    SendRetraces(model, resolver, observed, prefix, n, INITIAL, None, s, TokenGuard(|p.header + p.capsule|), 0);
  }

  // ----- how many tokens a payload takes

  lemma {:induction false} SendShifts(model: TokenModel, s: Stream, realBits: nat, guard: nat, e: Encoder, tokens: seq<int>, sent: nat)
    requires e.Ready() && Encloses(e, s) && sent <= guard
    requires Send(model, s, realBits, guard, e, tokens, sent).Success?
    ensures realBits <= e.Shifts() + 17 * (Send(model, s, realBits, guard, e, tokens, sent).value.1 - sent)
    decreases guard - sent
  {
    if |e.emitted| < realBits {
      var t := model.nextTable(tokens).value;
      var symbol := Choose(e, t, s);
      StepShifts(e, t.cumulative, symbol);
      SendShifts(model, s, realBits, guard, Step(e, t.cumulative, symbol), tokens + [t.candidates[symbol].tokenId], sent + 1);
    }
  }

  /** A payload of n bytes takes at least 8n/17 tokens, and never more than the guard. */
  lemma PayloadTokens(model: TokenModel, header: seq<Byte>, capsule: seq<Byte>, suffix: Stream, tokens: seq<int>)
    requires EncodePayload(model, header, capsule, suffix, tokens).Success?
    ensures var sent := EncodePayload(model, header, capsule, suffix, tokens).value.1;
      8 * |header + capsule| <= 17 * sent && sent <= 64 * |header + capsule| + 1024
  {
    hide Send;
    var s, n := Framed(header + capsule, suffix), |header + capsule|;
    InitialEncloses(s);
    SendShifts(model, s, 8 * n, TokenGuard(n), INITIAL, tokens, 0);
    SendAppends(model, s, 8 * n, TokenGuard(n), INITIAL, tokens, 0);
  }

  // ----- the two directions together

  /**
   For a self-delimiting resolver that announces the packet: some random suffix makes the sender choose
   exactly these tokens for the packet if and only if they are within the sender's guard and decode to
   the packet, ending at the last of them.
   */
  lemma DecodesIffEncodable(model: TokenModel, resolver: Resolver, prefix: seq<int>, payload: seq<int>,
                            header: seq<Byte>, capsule: seq<Byte>)
    requires SelfDelimiting(resolver, prefix) && Announces(resolver, prefix, header, capsule)
    ensures (exists suffix: Stream :: EncodePayload(model, header, capsule, suffix, prefix) == Success((prefix + payload, |payload|)))
       <==> |payload| <= 64 * |header + capsule| + 1024 &&
            DecodePayload(model, resolver, prefix + payload, |prefix|, prefix) == Success(Packet(header, capsule, |prefix + payload|))
  {
    hide DecodePayload, EncodePayload, SelfDelimiting, Announces;
    if |payload| <= TokenGuard(|header + capsule|) &&
       DecodePayload(model, resolver, prefix + payload, |prefix|, prefix) == Success(Packet(header, capsule, |prefix + payload|)) {
      var suffix := AcceptedIsEncodable(model, resolver, prefix + payload, prefix);
      assert (prefix + payload)[..|prefix + payload|] == prefix + payload;
    }
    forall suffix: Stream | EncodePayload(model, header, capsule, suffix, prefix) == Success((prefix + payload, |payload|))
      ensures |payload| <= TokenGuard(|header + capsule|)
      ensures DecodePayload(model, resolver, prefix + payload, |prefix|, prefix) == Success(Packet(header, capsule, |prefix + payload|))
    {
      PayloadTokens(model, header, capsule, suffix, prefix);
      PayloadRoundTrip(model, resolver, header, capsule, suffix, prefix, []);
      assert prefix + payload + [] == prefix + payload;
    }
  }
}
