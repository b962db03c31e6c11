/**
 What the payload coder does, told token by token without its loops: when the sender stops and why, and when
 the receiver asks for the layout, cuts the packet, or fails.
 */
module PayloadRuns {
  import opened Wrappers
  import opened Errors
  import opened Bits
  import opened BitBuffers
  import opened ArithmeticCoding
  import opened Candidates
  import opened Payload

  // ----- the sender

  /** The sender without a guard: tokens and mirror after `count` tokens, or the model's first failure on the way. */
  function Unguarded(model: TokenModel, s: Stream, tokens: seq<int>, count: nat): (r: Result<(seq<int>, Encoder), Error>)
    ensures r.Success? ==> r.value.1.Ready() && Encloses(r.value.1, s)
  {
    if count == 0 then
      InitialEncloses(s);
      Success((tokens, INITIAL))
    else
      match Unguarded(model, s, tokens, count - 1)
      case Failure(error) => Failure(error)
      case Success((chosen, e)) =>
        match model.nextTable(chosen)
        case Failure(error) => Failure(error)
        case Success(t) =>
          var symbol := Choose(e, t, s);
          Success((chosen + [t.candidates[symbol].tokenId], Step(e, t.cumulative, symbol)))
  }

  /** After `count` tokens the sender wants another one. */
  predicate Unfinished(model: TokenModel, s: Stream, tokens: seq<int>, realBits: nat, count: nat) {
    var r := Unguarded(model, s, tokens, count);
    r.Success? && |r.value.1.emitted| < realBits
  }

  /** `r` is what a sender that stops after `count` tokens gives: done, refused by the model, or one token too many. */
  predicate StopsAt(model: TokenModel, s: Stream, tokens: seq<int>, realBits: nat, guard: nat, count: nat, r: Result<(seq<int>, nat), Error>) {
    var run := Unguarded(model, s, tokens, count);
    && count <= guard && run.Success?
    && var (chosen, e) := run.value;
    if realBits <= |e.emitted| then r == Success((chosen, count))
    else if model.nextTable(chosen).Failure? then r == Failure(model.nextTable(chosen).error)
    else count == guard && r == Failure(NoProgress)
  }

  lemma {:induction false} SendStops(model: TokenModel, s: Stream, tokens: seq<int>, realBits: nat, guard: nat, from: nat)
      returns (count: nat)
    requires from <= guard && Unguarded(model, s, tokens, from).Success?
    ensures from <= count && (forall k | from <= k < count :: Unfinished(model, s, tokens, realBits, k))
    ensures var (chosen, e) := Unguarded(model, s, tokens, from).value;
      StopsAt(model, s, tokens, realBits, guard, count, Send(model, s, realBits, guard, e, chosen, from))
    decreases guard - from
  {
    hide Encloses, Step, Choose;
    var (chosen, e) := Unguarded(model, s, tokens, from).value;
    count := from;
    if |e.emitted| < realBits && model.nextTable(chosen).Success? && from < guard {
      count := SendStops(model, s, tokens, realBits, guard, from + 1);
    }
  }

  lemma UnguardedStart(model: TokenModel, s: Stream, tokens: seq<int>)
    ensures Unguarded(model, s, tokens, 0) == Success((tokens, INITIAL))
  {
  }

  /**
   Exactly what encoding a payload of n bytes gives: the unguarded sender is followed as long as it has not
   confirmed 8n bits, and it stops done, or at the model's failure, or because after 64n + 1024 tokens it
   still wants another and the model has one.
   */
  lemma EncodeStops(model: TokenModel, header: seq<Byte>, capsule: seq<Byte>, suffix: Stream, tokens: seq<int>) returns (count: nat)
    ensures header == [] || capsule == [] ==> EncodePayload(model, header, capsule, suffix, tokens) == Failure(EmptySection)
    ensures header != [] && capsule != [] ==>
      var s, n := Framed(header + capsule, suffix), |header| + |capsule|;
      && (forall k | 0 <= k < count :: Unfinished(model, s, tokens, 8 * n, k))
      && StopsAt(model, s, tokens, 8 * n, 64 * n + 1024, count, EncodePayload(model, header, capsule, suffix, tokens))
  {
    hide Encloses, Send, StopsAt, Unfinished, Unguarded, Framed;
    var s, n := Framed(header + capsule, suffix), |header| + |capsule|;
    InitialEncloses(s);
    UnguardedStart(model, s, tokens);
    assert |header + capsule| == n;
    count := SendStops(model, s, tokens, 8 * n, 64 * n + 1024, 0);
  }

  /** Confirmed bits are never lost. */
  lemma {:induction false} UnguardedGrows(model: TokenModel, s: Stream, tokens: seq<int>, from: nat, count: nat)
    requires from <= count && Unguarded(model, s, tokens, count).Success?
    ensures Unguarded(model, s, tokens, from).Success?
    ensures Unguarded(model, s, tokens, from).value.1.emitted <= Unguarded(model, s, tokens, count).value.1.emitted
  {
    hide Encloses, Choose;
    if from < count {
      UnguardedGrows(model, s, tokens, from, count - 1);
    }
  }

  /** A payload the unguarded sender completes within 64n + 1024 tokens is encoded, and as that sender does it. */
  lemma WithinGuard(model: TokenModel, header: seq<Byte>, capsule: seq<Byte>, suffix: Stream, tokens: seq<int>, count: nat)
    requires header != [] && capsule != [] && count <= 64 * (|header| + |capsule|) + 1024
    requires var s, realBits := Framed(header + capsule, suffix), 8 * (|header| + |capsule|);
      && Unguarded(model, s, tokens, count).Success? && !Unfinished(model, s, tokens, realBits, count)
      && forall k | 0 <= k < count :: Unfinished(model, s, tokens, realBits, k)
    ensures EncodePayload(model, header, capsule, suffix, tokens)
         == Success((Unguarded(model, Framed(header + capsule, suffix), tokens, count).value.0, count))
  {
    hide EncodePayload, Framed, Unguarded, Encloses;
    var s, realBits := Framed(header + capsule, suffix), 8 * (|header| + |capsule|);
    var stopped := EncodeStops(model, header, capsule, suffix, tokens);
    assert stopped <= count;
    if stopped < count {
      NextAnswered(model, s, tokens, stopped, count);
    }
  }

  /** Where the unguarded sender goes on, the model has answered. */
  lemma NextAnswered(model: TokenModel, s: Stream, tokens: seq<int>, at: nat, count: nat)
    requires at < count && Unguarded(model, s, tokens, count).Success?
    ensures Unguarded(model, s, tokens, at).Success? && model.nextTable(Unguarded(model, s, tokens, at).value.0).Success?
  {
    UnguardedGrows(model, s, tokens, at + 1, count);
    UnguardedGrows(model, s, tokens, at, at + 1);
  }

  /** Under a model that does not itself report it, "no progress" means exactly this. */
  lemma NoProgressIff(model: TokenModel, header: seq<Byte>, capsule: seq<Byte>, suffix: Stream, tokens: seq<int>)
    requires header != [] && capsule != []
    requires forall visible: seq<int> :: model.nextTable(visible) != Failure(NoProgress)
    ensures EncodePayload(model, header, capsule, suffix, tokens) == Failure(NoProgress) <==>
      var s, n := Framed(header + capsule, suffix), |header| + |capsule|;
      Unfinished(model, s, tokens, 8 * n, 64 * n + 1024) && model.nextTable(Unguarded(model, s, tokens, 64 * n + 1024).value.0).Success?
  {
    hide EncodePayload, Framed, Unguarded;
    var s, n := Framed(header + capsule, suffix), |header| + |capsule|;
    var stopped := EncodeStops(model, header, capsule, suffix, tokens);
    if Unfinished(model, s, tokens, 8 * n, 64 * n + 1024) && stopped < 64 * n + 1024 {
      NextAnswered(model, s, tokens, stopped, 64 * n + 1024);
      UnguardedGrows(model, s, tokens, stopped, 64 * n + 1024);
    }
  }

  // ----- the receiver

  /** One reception: what is read, from where, and after which visible tokens. */
  datatype Reception = Reception(model: TokenModel, resolver: Resolver, observed: seq<int>, start: nat, visible: seq<int>, prefix: seq<int>) {
    predicate Valid() { start <= |observed| }

    /** How many tokens there are to read. */
    function Length(): nat
      requires Valid()
    {
      |observed| - start
    }
  }

  /** The encoder after re-reading `count` tokens, or why one of them cannot be read. */
  function Reread(run: Reception, count: nat): (r: Result<Encoder, Error>)
    requires run.Valid() && count <= run.Length()
    ensures r.Success? ==> r.value.Ready()
  {
    if count == 0 then Success(INITIAL) else
      match Reread(run, count - 1)
      case Failure(error) => Failure(error)
      case Success(e) =>
        match run.model.nextTable(run.visible + run.observed[run.start..run.start + count - 1])
        case Failure(error) => Failure(error)
        case Success(t) =>
          match IndexOf(t, run.observed[run.start + count - 1])
          case None => Failure(TokenOutsideTable)
          case Some(symbol) => Success(Step(e, t.cumulative, symbol))
  }

  /** A whole byte is confirmed, so the resolver can be asked. */
  predicate HasByte(run: Reception, count: nat)
    requires run.Valid() && count <= run.Length()
  {
    1 <= count && Reread(run, count).Success? && 8 <= |Reread(run, count).value.emitted|
  }

  function Answer(run: Reception, count: nat): Result<Option<Layout>, Error>
    requires run.Valid() && count <= run.Length() && Reread(run, count).Success?
  {
    run.resolver(CompleteBytes(Reread(run, count).value.emitted), run.prefix)
  }

  /** The resolver has asked for more every time up to here. */
  predicate AskedInVain(run: Reception, count: nat)
    requires run.Valid() && count <= run.Length()
  {
    forall i | 1 <= i <= count :: HasByte(run, i) ==> Answer(run, i) == Success(None)
  }

  /** Here the resolver gives its first other answer. */
  predicate FirstAnswer(run: Reception, count: nat)
    requires run.Valid() && count <= run.Length()
  {
    HasByte(run, count) && Answer(run, count) != Success(None) && AskedInVain(run, count - 1)
  }

  /** The layout known after `count` tokens is the first answer so far. */
  ghost predicate KnownBy(run: Reception, count: nat, layout: Option<Layout>)
    requires run.Valid() && count <= run.Length()
  {
    match layout
    case None => AskedInVain(run, count)
    case Some(found) =>
      0 < found.header && 0 < found.capsule &&
      exists j | 1 <= j <= count :: FirstAnswer(run, j) && Answer(run, j) == Success(Some(found))
  }

  /** After `count` tokens the packet is not complete and nothing has gone wrong. */
  ghost predicate Waits(run: Reception, count: nat)
    requires run.Valid() && count <= run.Length()
  {
    && Reread(run, count).Success?
    && exists layout :: KnownBy(run, count, layout) &&
         (layout.Some? ==> |Reread(run, count).value.emitted| < 8 * (layout.value.header + layout.value.capsule))
  }

  /** `p` is cut after `count` tokens, at the announced layout, from the bits confirmed by then. */
  ghost predicate CutAt(run: Reception, count: nat, p: Packet)
    requires run.Valid() && count <= run.Length()
  {
    var layout := Layout(|p.header|, |p.capsule|);
    && KnownBy(run, count, Some(layout)) && Reread(run, count).Success?
    && |p.header| + |p.capsule| <= |CompleteBytes(Reread(run, count).value.emitted)|
    && p.header + p.capsule == CompleteBytes(Reread(run, count).value.emitted)[..|p.header| + |p.capsule|]
    && p.consumed == run.start + count
  }

  /** Why the receiver fails after `count` tokens: none is left, the next cannot be read, or the first answer is bad. */
  ghost predicate FailsAt(run: Reception, count: nat, error: Error)
    requires run.Valid() && count <= run.Length()
  {
    || (Waits(run, count) && count == run.Length() && error == CarrierEnded)
    || (Waits(run, count) && count < run.Length() && Reread(run, count + 1) == Failure(error))
    || (FirstAnswer(run, count) && Answer(run, count) == Failure(error))
    || (FirstAnswer(run, count) && Answer(run, count).Success? && error == InvalidSectionLength
        && (Answer(run, count).value.value.header <= 0 || Answer(run, count).value.value.capsule <= 0))
  }

  ghost predicate EndsAt(run: Reception, count: nat, r: Result<Packet, Error>)
    requires run.Valid() && count <= run.Length()
  {
    match r
    case Success(p) => CutAt(run, count, p)
    case Failure(error) => FailsAt(run, count, error)
  }

  lemma KnownNext(run: Reception, count: nat, layout: Option<Layout>)
    requires run.Valid() && count < run.Length() && KnownBy(run, count, layout) && Reread(run, count + 1).Success?
    ensures var resolved := Resolve(run.resolver, Reread(run, count + 1).value.emitted, run.prefix, layout);
      match resolved
      case Success(known) => KnownBy(run, count + 1, known)
      case Failure(error) => FailsAt(run, count + 1, error)
  {
    hide Reread, CompleteBytes, Waits;
    if layout.None? {
      assert HasByte(run, count + 1) ==> Answer(run, count + 1) != Success(None) ==> FirstAnswer(run, count + 1);
    } else {
      var j :| 1 <= j <= count && FirstAnswer(run, j) && Answer(run, j) == Success(layout);
      assert 1 <= j <= count + 1;
    }
  }

  lemma RereadNext(run: Reception, count: nat)
    requires run.Valid() && count < run.Length() && Reread(run, count).Success?
    ensures var e := Reread(run, count).value;
      Reread(run, count + 1) ==
        match run.model.nextTable(run.visible + run.observed[run.start..run.start + count])
        case Failure(error) => Failure(error)
        case Success(t) =>
          match IndexOf(t, run.observed[run.start + count])
          case None => Failure(TokenOutsideTable)
          case Some(symbol) => Success(Step(e, t.cumulative, symbol))
  {
  }

  lemma CutComplete(run: Reception, count: nat, layout: Layout)
    requires run.Valid() && count <= run.Length() && Reread(run, count).Success? && KnownBy(run, count, Some(layout))
    requires Complete(Some(layout), |Reread(run, count).value.emitted|)
    ensures CutAt(run, count, Cut(layout, Reread(run, count).value.emitted, run.start + count))
  {
    hide KnownBy, Reread, CompleteBytes;
  }

  lemma {:induction false} ReceiveEnds(run: Reception, from: nat, layout: Option<Layout>) returns (count: nat)
    requires run.Valid() && from <= run.Length() && Reread(run, from).Success? && KnownBy(run, from, layout)
    requires layout.Some? ==> |Reread(run, from).value.emitted| < 8 * (layout.value.header + layout.value.capsule)
    ensures from <= count <= run.Length() && forall k | from <= k < count :: Waits(run, k)
    ensures EndsAt(run, count, Receive(run.model, run.resolver, run.observed, run.prefix, run.start + from,
                                       run.visible + run.observed[run.start..run.start + from], Reread(run, from).value, layout))
    decreases run.Length() - from
  {
    hide KnownBy, Reread, CompleteBytes, Resolve, Cut, Step;
    assert Waits(run, from);
    count := from;
    if from < run.Length() {
      RereadNext(run, from);
      if Reread(run, from + 1).Success? {
        var next := Reread(run, from + 1).value;
        KnownNext(run, from, layout);
        assert run.observed[run.start..run.start + from] + [run.observed[run.start + from]] == run.observed[run.start..run.start + from + 1];
        assert run.visible + run.observed[run.start..run.start + from] + [run.observed[run.start + from]]
            == run.visible + run.observed[run.start..run.start + from + 1];
        var known := Resolve(run.resolver, next.emitted, run.prefix, layout);
        count := from + 1;
        if known.Success? {
          if Complete(known.value, |next.emitted|) {
            CutComplete(run, from + 1, known.value.value);
          } else {
            KnownPositive(run, from + 1, known.value);
            count := ReceiveEnds(run, from + 1, known.value);
          }
        }
      }
    }
  }

  lemma KnownPositive(run: Reception, count: nat, layout: Option<Layout>)
    requires run.Valid() && count <= run.Length() && KnownBy(run, count, layout)
    ensures layout.Some? ==> 0 < layout.value.header && 0 < layout.value.capsule
  {
  }

  /**
   Exactly what the receiver gives: it reads on while nothing is known or the announced packet is not
   complete; the layout is the resolver's first answer once a byte is there; and it ends with the packet cut
   from the bits confirmed by then, or at a token it cannot read, at a bad first answer, or at the last token.
   */
  lemma DecodeEnds(model: TokenModel, resolver: Resolver, observed: seq<int>, start: nat, prefix: seq<int>) returns (count: nat)
    requires start <= |observed|
    ensures var run := Reception(model, resolver, observed, start, observed[..start], prefix);
      && start + count <= |observed| && (forall k | 0 <= k < count :: Waits(run, k))
      && EndsAt(run, count, DecodePayload(model, resolver, observed, start, prefix))
  {
    hide EndsAt, Waits, Receive;
    var run := Reception(model, resolver, observed, start, observed[..start], prefix);
    assert observed[..start] + observed[start..start] == observed[..start];
    count := ReceiveEnds(run, 0, None);
  }
}
