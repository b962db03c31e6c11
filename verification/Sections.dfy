/** The whole carrier around a payload: sampled prefix A, payload B/C, local finish D, and its text. */
module Sections {
  import opened Wrappers
  import opened Errors
  import opened Bits
  import opened BitBuffers
  import opened Frequencies
  import opened ArithmeticCoding
  import opened Candidates
  import opened Payload

  /** The `k`-th call of the random source for a number below `total`. */
  type RandomBelow = (nat, int) -> int

  datatype Carrier = Carrier(text: string, tokens: seq<int>, prefix: seq<int>, payloadTokens: nat, finishTokens: nat)

  datatype Decoded = Decoded(prefix: seq<int>, header: seq<Byte>, capsule: seq<Byte>, consumed: int, total: nat)

  // ----- A: the sampled prefix

  /** The candidate whose share of the total holds the draw. */
  function Drawn(t: CandidateTable, draw: int): (symbol: nat)
    requires 0 <= draw < FREQUENCY_TOTAL
    ensures symbol < |t.candidates| && t.cumulative[symbol] <= draw < t.cumulative[symbol + 1]
  {
    CumulativeAscends(t.cumulative);
    BisectRight(t.cumulative, draw, 0, |t.cumulative|) - 1
  }

  function SamplePrefix(model: TokenModel, random: RandomBelow, count: nat, tokens: seq<int>): Result<seq<int>, Error>
    requires |tokens| <= count
    decreases count - |tokens|
  {
    if |tokens| == count then Success(tokens) else
      match model.nextTable(tokens)
      case Failure(error) => Failure(error)
      case Success(t) =>
        var draw := random(|tokens|, FREQUENCY_TOTAL);
        if !(0 <= draw < FREQUENCY_TOTAL) then Failure(ValueError) else
          SamplePrefix(model, random, count, tokens + [t.candidates[Drawn(t, draw)].tokenId])
  }

  function GeneratePrefix(model: TokenModel, random: RandomBelow, count: int): Result<seq<int>, Error> {
    if count <= 0 then Failure(ValueError) else SamplePrefix(model, random, count, [])
  }

  /** A sampled prefix has the length asked for, and every token is the one whose share holds its draw. */
  lemma {:induction false} PrefixSampled(model: TokenModel, random: RandomBelow, count: nat, tokens: seq<int>)
    requires |tokens| <= count && SamplePrefix(model, random, count, tokens).Success?
    ensures var r := SamplePrefix(model, random, count, tokens).value;
      && |r| == count && tokens <= r
      && forall k | |tokens| <= k < count ::
           var t := model.nextTable(r[..k]);
           var draw := random(k, FREQUENCY_TOTAL);
           t.Success? && 0 <= draw < FREQUENCY_TOTAL && r[k] == t.value.candidates[Drawn(t.value, draw)].tokenId
    decreases count - |tokens|
  {
    if |tokens| < count {
      var t := model.nextTable(tokens).value;
      var next := tokens + [t.candidates[Drawn(t, random(|tokens|, FREQUENCY_TOTAL))].tokenId];
      PrefixSampled(model, random, count, next);
      assert SamplePrefix(model, random, count, tokens).value[..|tokens|] == tokens;
    }
  }

  // ----- D: the local finish

  function Finish(finish: GreedyModel, budget: nat, tokens: seq<int>, added: nat): Result<(seq<int>, nat), Error>
    requires added <= budget
    decreases budget - added
  {
    if added == budget then Success((tokens, added)) else
      match finish(tokens)
      case Failure(error) => Failure(error)
      case Success(None) => Success((tokens, added))
      case Success(Some(token)) => Finish(finish, budget, tokens + [token], added + 1)
  }

  lemma {:induction false} FinishAppends(finish: GreedyModel, budget: nat, tokens: seq<int>, added: nat)
    requires added <= budget && Finish(finish, budget, tokens, added).Success?
    ensures tokens <= Finish(finish, budget, tokens, added).value.0
    decreases budget - added
  {
    if added < budget && finish(tokens).value.Some? {
      FinishAppends(finish, budget, tokens + [finish(tokens).value.value], added + 1);
    }
  }

  /** What follows `tokens` in `out` is the finisher's own, token by token. */
  ghost predicate Follows(finish: GreedyModel, tokens: seq<int>, out: seq<int>) {
    tokens <= out && forall k | |tokens| <= k < |out| :: finish(out[..k]) == Success(Some(out[k]))
  }

  /**
   A finish adds the finisher's answers one by one, and ends with the budget used up, with the finisher's
   end of text, or with its first failure.
   */
  lemma {:induction false} FinishFollows(finish: GreedyModel, budget: nat, tokens: seq<int>, added: nat) returns (out: seq<int>)
    requires added <= budget
    ensures Follows(finish, tokens, out) && |out| - |tokens| + added <= budget
    ensures Finish(finish, budget, tokens, added) ==
      if |out| - |tokens| + added == budget then Success((out, budget))
      else match finish(out)
           case Failure(error) => Failure(error)
           case Success(_) => Success((out, |out| - |tokens| + added))
    ensures |out| - |tokens| + added < budget ==> finish(out).Failure? || finish(out).value.None?
    decreases budget - added
  {
    out := tokens;
    if added < budget && finish(tokens).Success? && finish(tokens).value.Some? {
      var next := tokens + [finish(tokens).value.value];
      out := FinishFollows(finish, budget, next, added + 1);
      forall k | |tokens| <= k < |out| ensures finish(out[..k]) == Success(Some(out[k])) {
        if k == |tokens| {
          assert out[..k] == tokens && out[k] == next[k];
        }
      }
    }
  }

  /** Such a finish is the only one. */
  lemma {:induction false} FollowsUnique(finish: GreedyModel, tokens: seq<int>, x: seq<int>, y: seq<int>, k: nat)
    requires Follows(finish, tokens, x) && Follows(finish, tokens, y) && k <= |x| && k <= |y|
    ensures x[..k] == y[..k]
  {
    if k <= |tokens| {
      assert x[..k] == tokens[..k] == y[..k];
    } else {
      FollowsUnique(finish, tokens, x, y, k - 1);
      assert x[k - 1] == y[k - 1];
    }
  }

  // ----- the carrier text

  function ValidateStructure(text: string, maximumCharacters: int): Result<(), Error> {
    if text == "" then Failure(EmptyCarrier)
    else if maximumCharacters < |text| then Failure(CarrierTooLong)
    else if !Clean(text) then Failure(NonCanonicalControl)
    else Success(())
  }

  function EncodeSections(prefix: seq<int>, header: seq<Byte>, capsule: seq<Byte>, payload: TokenModel, finish: GreedyModel,
                          finishTokens: int, maximumCharacters: int, suffix: Stream): Result<Carrier, Error>
  {
    if finishTokens < 0 then Failure(ValueError) else
      match EncodePayload(payload, header, capsule, suffix, prefix)
      case Failure(error) => Failure(error)
      case Success((sentTokens, sent)) =>
        match Finish(finish, finishTokens, sentTokens, 0)
        case Failure(error) => Failure(error)
        case Success((tokens, added)) => Render(payload, prefix, tokens, sent, added, maximumCharacters)
  }

  /** Turns the tokens to text and checks that the text is canonical and gives the tokens back. */
  function Render(payload: TokenModel, prefix: seq<int>, tokens: seq<int>, sent: nat, added: nat, maximumCharacters: int)
    : Result<Carrier, Error>
  {
    match payload.detokenize(tokens)
    case Failure(error) => Failure(error)
    case Success(text) =>
      match payload.tokenize(text)
      case Failure(error) => Failure(error)
      case Success(again) =>
        if again != tokens then Failure(NotRetokenized) else
          match ValidateStructure(text, maximumCharacters)
          case Failure(error) => Failure(error)
          case Success(_) => Success(Carrier(text, tokens, prefix, sent, added))
  }

  /** `observed[:count]`: a negative count leaves that many tokens off the end. */
  function FirstTokens(observed: seq<int>, count: int): seq<int>
    requires count <= |observed|
  {
    if 0 <= count then observed[..count] else if -count <= |observed| then observed[..|observed| + count] else []
  }

  /** What `observed[index]` runs through for `index` from `start` on: a negative index counts from the end. */
  function Wrapped(observed: seq<int>, start: int): seq<int>
    requires -|observed| <= start
  {
    if 0 <= start then observed else observed[|observed| + start..] + observed
  }

  /** How far an index from `start` on lies behind its place in the wrapped tokens. */
  function Behind(start: int): nat {
    if start < 0 then -start else 0
  }

  /** The payload decoder from any start: header, capsule and the index after the packet's last token. */
  function DecodeFrom(model: TokenModel, resolver: Resolver, observed: seq<int>, start: int, visible: seq<int>, prefix: seq<int>)
    : Result<(seq<Byte>, seq<Byte>, int), Error>
  {
    if |observed| <= start then Failure(CarrierEnded)
    else if start < -|observed| then Failure(IndexOutOfRange)
    else
      match Receive(model, resolver, Wrapped(observed, start), prefix, start + Behind(start), visible, INITIAL, None)
      case Failure(error) => Failure(error)
      case Success(p) => Success((p.header, p.capsule, p.consumed - Behind(start)))
  }

  function DecodeSections(text: string, payload: TokenModel, prefixTokens: int, resolver: Resolver, maximumCharacters: int)
    : Result<Decoded, Error>
  {
    match ValidateStructure(text, maximumCharacters)
    case Failure(error) => Failure(error)
    case Success(_) =>
      match payload.tokenize(text)
      case Failure(error) => Failure(error)
      case Success(observed) =>
        match payload.detokenize(observed)
        case Failure(error) => Failure(error)
        case Success(again) =>
          if again != text then Failure(RoundTripChanged)
          else if |observed| <= prefixTokens then Failure(EndsInsidePrefix)
          else
            var prefix := FirstTokens(observed, prefixTokens);
            match DecodeFrom(payload, resolver, observed, prefixTokens, prefix, prefix)
            case Failure(error) => Failure(error)
            case Success((header, capsule, consumed)) => Success(Decoded(prefix, header, capsule, consumed, |observed|))
  }

  /** From a start inside the tokens this is the payload decoder over the tokens themselves. */
  lemma DecodeFromInside(model: TokenModel, resolver: Resolver, observed: seq<int>, start: nat, prefix: seq<int>, p: Packet)
    requires start < |observed| && DecodePayload(model, resolver, observed, start, prefix) == Success(p)
    ensures DecodeFrom(model, resolver, observed, start, observed[..start], prefix) == Success((p.header, p.capsule, p.consumed))
  {
    hide Receive;
  }

  // ----- what the checks mean

  /** A carrier is rendered exactly from tokens whose text tokenizes back, is not empty, keeps the limit and has no CR and no NUL. */
  lemma RenderedIff(payload: TokenModel, prefix: seq<int>, tokens: seq<int>, sent: nat, added: nat, maximumCharacters: int, c: Carrier)
    ensures Render(payload, prefix, tokens, sent, added, maximumCharacters) == Success(c) <==>
      && payload.detokenize(tokens) == Success(c.text) && payload.tokenize(c.text) == Success(tokens)
      && 0 < |c.text| <= maximumCharacters && (forall x | x in c.text :: x != '\r' && x != '\0')
      && c == Carrier(c.text, tokens, prefix, sent, added)
  {
  }

  /** Why tokens are not rendered, in the order of the checks. */
  lemma RenderRefusals(payload: TokenModel, prefix: seq<int>, tokens: seq<int>, sent: nat, added: nat, maximumCharacters: int)
    ensures var r, text := Render(payload, prefix, tokens, sent, added, maximumCharacters), payload.detokenize(tokens);
      match text
      case Failure(error) => r == Failure(error)
      case Success(written) =>
        match payload.tokenize(written)
        case Failure(error) => r == Failure(error)
        case Success(again) =>
          && (again != tokens ==> r == Failure(NotRetokenized))
          && (again == tokens ==> r.Failure? ==> TextRefused(written, maximumCharacters, r.error))
  {
  }

  /** What is wrong with a text: it is empty, or else too long, or else holds a CR or a NUL. */
  predicate TextRefused(text: string, maximumCharacters: int, error: Error) {
    || (|text| == 0 && error == EmptyCarrier)
    || (|text| > 0 && |text| > maximumCharacters && error == CarrierTooLong)
    || (0 < |text| <= maximumCharacters && (exists x | x in text :: x == '\r' || x == '\0') && error == NonCanonicalControl)
  }

  /** What every encoded carrier is: the payload's tokens, then the finisher's own, and their text. */
  lemma SectionsEncoded(prefix: seq<int>, header: seq<Byte>, capsule: seq<Byte>, payload: TokenModel, finish: GreedyModel,
                        finishTokens: int, maximumCharacters: int, suffix: Stream, c: Carrier)
    ensures EncodeSections(prefix, header, capsule, payload, finish, finishTokens, maximumCharacters, suffix) == Success(c) <==>
      var sending := EncodePayload(payload, header, capsule, suffix, prefix);
      && sending.Success? && c.prefix == prefix && c.payloadTokens == sending.value.1
      && |c.tokens| == |sending.value.0| + c.finishTokens && Follows(finish, sending.value.0, c.tokens)
      && c.finishTokens <= finishTokens && (c.finishTokens == finishTokens || finish(c.tokens) == Success(None))
      && payload.detokenize(c.tokens) == Success(c.text) && payload.tokenize(c.text) == Success(c.tokens)
      && 0 < |c.text| <= maximumCharacters && (forall x | x in c.text :: x != '\r' && x != '\0')
  {
    hide EncodePayload, Finish, Render, Follows;
    var sending := EncodePayload(payload, header, capsule, suffix, prefix);
    if 0 <= finishTokens && sending.Success? {
      var (sentTokens, sent) := sending.value;
      var out := FinishFollows(finish, finishTokens, sentTokens, 0);
      FinishedAs(finish, finishTokens, sentTokens, out, c.tokens);
      RenderedIff(payload, prefix, out, sent, |out| - |sentTokens|, maximumCharacters, c);
    }
  }

  /** The finish of a budget is the only sequence that follows and is done. */
  lemma FinishedAs(finish: GreedyModel, budget: nat, tokens: seq<int>, x: seq<int>, y: seq<int>)
    requires Follows(finish, tokens, x) && |x| - |tokens| <= budget
    requires |x| - |tokens| == budget || finish(x).Failure? || finish(x).value.None?
    ensures Follows(finish, tokens, y) && |y| - |tokens| <= budget ==>
      (|y| - |tokens| == budget || finish(y).Failure? || finish(y).value.None?) ==> y == x
  {
    if Follows(finish, tokens, y) && |y| - |tokens| <= budget && (|y| - |tokens| == budget || finish(y).Failure? || finish(y).value.None?) {
      var k := if |x| <= |y| then |x| else |y|;
      FollowsUnique(finish, tokens, x, y, k);
      assert x[..|x|] == x && y[..|y|] == y;
    }
  }

  /** Why sections are not encoded: a negative budget, the payload's failure, the finisher's first failure, or the text. */
  lemma SectionsNotEncoded(prefix: seq<int>, header: seq<Byte>, capsule: seq<Byte>, payload: TokenModel, finish: GreedyModel,
                           finishTokens: int, maximumCharacters: int, suffix: Stream) returns (tokens: seq<int>)
    ensures var r := EncodeSections(prefix, header, capsule, payload, finish, finishTokens, maximumCharacters, suffix);
      var sending := EncodePayload(payload, header, capsule, suffix, prefix);
      if finishTokens < 0 then r == Failure(ValueError)
      else if sending.Failure? then r == Failure(sending.error)
      else
        && Follows(finish, sending.value.0, tokens) && |tokens| - |sending.value.0| <= finishTokens
        && if |tokens| - |sending.value.0| < finishTokens && finish(tokens).Failure? then r == Failure(finish(tokens).error)
           else r == Render(payload, prefix, tokens, sending.value.1, |tokens| - |sending.value.0|, maximumCharacters)
  {
    hide EncodePayload, Finish, Render, Follows;
    var sending := EncodePayload(payload, header, capsule, suffix, prefix);
    tokens := [];
    if 0 <= finishTokens && sending.Success? {
      tokens := FinishFollows(finish, finishTokens, sending.value.0, 0);
    }
  }

  /** What every accepted text is: canonical and within the limit, the text of its own tokens, and longer than the prefix it is read after. */
  lemma AcceptedText(text: string, payload: TokenModel, prefixTokens: int, resolver: Resolver, maximumCharacters: int, d: Decoded)
    ensures DecodeSections(text, payload, prefixTokens, resolver, maximumCharacters) == Success(d) <==>
      && 0 < |text| <= maximumCharacters && (forall x | x in text :: x != '\r' && x != '\0')
      && payload.tokenize(text).Success?
      && var observed := payload.tokenize(text).value;
      && payload.detokenize(observed) == Success(text) && prefixTokens < |observed| && d.total == |observed|
      && d.prefix == FirstTokens(observed, prefixTokens)
      && DecodeFrom(payload, resolver, observed, prefixTokens, d.prefix, d.prefix) == Success((d.header, d.capsule, d.consumed))
  {
    hide DecodeFrom;
  }

  /** Why a text is refused before its payload is read, in the order of the checks. */
  lemma RefusedText(text: string, payload: TokenModel, prefixTokens: int, resolver: Resolver, maximumCharacters: int, error: Error)
    ensures var r, tokenized := DecodeSections(text, payload, prefixTokens, resolver, maximumCharacters), payload.tokenize(text);
      && (TextRefused(text, maximumCharacters, error) ==> r == Failure(error))
      && (0 < |text| <= maximumCharacters && (forall x | x in text :: x != '\r' && x != '\0') ==>
            match tokenized
            case Failure(e) => r == Failure(e)
            case Success(observed) =>
              && (payload.detokenize(observed).Failure? ==> r == Failure(payload.detokenize(observed).error))
              && (payload.detokenize(observed).Success? && payload.detokenize(observed).value != text ==> r == Failure(RoundTripChanged))
              && (payload.detokenize(observed) == Success(text) && |observed| <= prefixTokens ==> r == Failure(EndsInsidePrefix)))
  {
    hide DecodeFrom;
  }

  /** The slices of a Python index: counts from the start, and negative ones from the end. */
  lemma PythonSlices(observed: seq<int>, count: int)
    requires count <= |observed|
    ensures 0 <= count ==> FirstTokens(observed, count) == observed[..count]
    ensures -|observed| <= count < 0 ==> FirstTokens(observed, count) == observed[..|observed| + count]
    ensures count < -|observed| ==> FirstTokens(observed, count) == []
    ensures -|observed| <= count ==> Wrapped(observed, count) == if count < 0 then observed[|observed| + count..] + observed else observed
  {
  }

  /** Why no prefix is sampled: a bad count, or at the first table that fails or draw outside the total. */
  lemma {:induction false} SampleStops(model: TokenModel, random: RandomBelow, count: nat, tokens: seq<int>) returns (out: seq<int>)
    requires |tokens| <= count
    ensures tokens <= out && |out| <= count
    ensures forall k | |tokens| <= k < |out| ::
      var t, draw := model.nextTable(out[..k]), random(k, 32768);
      t.Success? && 0 <= draw < 32768 && out[k] == t.value.candidates[Drawn(t.value, draw)].tokenId
    ensures SamplePrefix(model, random, count, tokens) ==
      if |out| == count then Success(out)
      else if model.nextTable(out).Failure? then Failure(model.nextTable(out).error)
      else Failure(ValueError)
    ensures |out| < count && model.nextTable(out).Success? ==> !(0 <= random(|out|, 32768) < 32768)
    decreases count - |tokens|
  {
    hide Drawn;
    out := tokens;
    if |tokens| < count && model.nextTable(tokens).Success? && 0 <= random(|tokens|, 32768) < 32768 {
      var t := model.nextTable(tokens).value;
      var next := tokens + [t.candidates[Drawn(t, random(|tokens|, 32768))].tokenId];
      out := SampleStops(model, random, count, next);
      forall k | |tokens| <= k < |out|
        ensures var table, draw := model.nextTable(out[..k]), random(k, 32768);
          table.Success? && 0 <= draw < 32768 && out[k] == table.value.candidates[Drawn(table.value, draw)].tokenId
      {
        if k == |tokens| {
          assert out[..k] == tokens && out[k] == next[k];
        }
      }
    }
  }

  lemma PrefixCount(model: TokenModel, random: RandomBelow, count: int)
    ensures GeneratePrefix(model, random, count) == if count < 1 then Failure(ValueError) else SamplePrefix(model, random, count, [])
  {
  }

  // ----- copy-safe tokens render

  /** The tokens have a clean text that tokenizes back to them. */
  predicate Renders(model: TokenModel, tokens: seq<int>) {
    var text := model.detokenize(tokens);
    text.Success? && Clean(text.value) && (tokens != [] ==> text.value != "" && model.tokenize(text.value) == Success(tokens))
  }

  lemma NextRenders(model: TokenModel, tokens: seq<int>, tokenId: int)
    requires Renders(model, tokens) && Offerable(model, tokens, tokenId)
    ensures Renders(model, tokens + [tokenId])
  {
  }

  lemma RendersText(model: TokenModel, tokens: seq<int>)
    requires Renders(model, tokens)
    ensures model.detokenize(tokens).Success?
  {
  }

  lemma {:induction false} SampleRenders(source: TokenModel, model: TokenModel, random: RandomBelow, count: nat, tokens: seq<int>)
    requires SafeTables(source, model) && Renders(model, tokens)
    requires |tokens| <= count && SamplePrefix(source, random, count, tokens).Success?
    ensures Renders(model, SamplePrefix(source, random, count, tokens).value)
    decreases count - |tokens|
  {
    hide Renders, Offerable;
    if |tokens| < count {
      var t := source.nextTable(tokens).value;
      var symbol := Drawn(t, random(|tokens|, FREQUENCY_TOTAL));
      NextRenders(model, tokens, t.candidates[symbol].tokenId);
      SampleRenders(source, model, random, count, tokens + [t.candidates[symbol].tokenId]);
    }
  }

  lemma {:induction false} SendRenders(model: TokenModel, s: Stream, realBits: nat, guard: nat, e: Encoder, tokens: seq<int>, sent: nat)
    requires SafeTables(model, model) && Renders(model, tokens)
    requires e.Ready() && Encloses(e, s) && sent <= guard && Send(model, s, realBits, guard, e, tokens, sent).Success?
    ensures Renders(model, Send(model, s, realBits, guard, e, tokens, sent).value.0)
    decreases guard - sent
  {
    hide Renders, Offerable, Encloses, Step;
    if |e.emitted| < realBits {
      var t := model.nextTable(tokens).value;
      var symbol := Choose(e, t, s);
      NextRenders(model, tokens, t.candidates[symbol].tokenId);
      SendRenders(model, s, realBits, guard, Step(e, t.cumulative, symbol), tokens + [t.candidates[symbol].tokenId], sent + 1);
    }
  }

  lemma {:induction false} FinishRenders(model: TokenModel, finish: GreedyModel, budget: nat, tokens: seq<int>, added: nat)
    requires SafeFinish(finish, model) && Renders(model, tokens)
    requires added <= budget && Finish(finish, budget, tokens, added).Success?
    ensures Renders(model, Finish(finish, budget, tokens, added).value.0)
    decreases budget - added
  {
    hide Renders, Offerable;
    RendersText(model, tokens);
    if added < budget && finish(tokens).value.Some? {
      NextRenders(model, tokens, finish(tokens).value.value);
      FinishRenders(model, finish, budget, tokens + [finish(tokens).value.value], added + 1);
    }
  }

  /** A prefix sampled from copy-safe tables renders. */
  lemma PrefixRenders(source: TokenModel, model: TokenModel, random: RandomBelow, count: int)
    requires model.detokenize([]) == Success("") && SafeTables(source, model) && GeneratePrefix(source, random, count).Success?
    ensures Renders(model, GeneratePrefix(source, random, count).value)
  {
    hide SafeTables, SamplePrefix;
    SampleRenders(source, model, random, count, []);
  }

  /**
   The table's copy-safe filter is what the last checks of encoding rest on: when every token offered, and
   every finish token, is offerable, and the prefix renders, the text always tokenizes back
   and is never empty or non-canonical. Only its length can still be refused.
   */
  lemma CopySafeRenders(prefix: seq<int>, header: seq<Byte>, capsule: seq<Byte>, payload: TokenModel, finish: GreedyModel,
                        finishTokens: nat, maximumCharacters: int, suffix: Stream)
    requires SafeTables(payload, payload) && SafeFinish(finish, payload) && Renders(payload, prefix)
    requires EncodePayload(payload, header, capsule, suffix, prefix).Success?
    requires Finish(finish, finishTokens, EncodePayload(payload, header, capsule, suffix, prefix).value.0, 0).Success?
    ensures var (sentTokens, sent) := EncodePayload(payload, header, capsule, suffix, prefix).value;
      var (tokens, added) := Finish(finish, finishTokens, sentTokens, 0).value;
      var text := payload.detokenize(tokens);
      && text.Success?
      && EncodeSections(prefix, header, capsule, payload, finish, finishTokens, maximumCharacters, suffix)
           == if maximumCharacters < |text.value| then Failure(CarrierTooLong)
              else Success(Carrier(text.value, tokens, prefix, sent, added))
  {
    hide SafeTables, SafeFinish, Renders, Send, Finish, Render, Encloses;
    var s := Framed(header + capsule, suffix);
    var n := |header + capsule|;
    var (sentTokens, sent) := EncodePayload(payload, header, capsule, suffix, prefix).value;
    InitialEncloses(s);
    SendRenders(payload, s, 8 * n, TokenGuard(n), INITIAL, prefix, 0);
    SendAppends(payload, s, 8 * n, TokenGuard(n), INITIAL, prefix, 0);
    FinishRenders(payload, finish, finishTokens, sentTokens, 0);
    FinishAppends(finish, finishTokens, sentTokens, 0);
    var (tokens, added) := Finish(finish, finishTokens, sentTokens, 0).value;
    RenderLimit(payload, prefix, tokens, sent, added, maximumCharacters);
  }

  /** Tokens that render are refused for their length alone. */
  lemma RenderLimit(payload: TokenModel, prefix: seq<int>, tokens: seq<int>, sent: nat, added: nat, maximumCharacters: int)
    requires Renders(payload, tokens) && tokens != []
    ensures var text := payload.detokenize(tokens);
      && text.Success?
      && Render(payload, prefix, tokens, sent, added, maximumCharacters)
           == if maximumCharacters < |text.value| then Failure(CarrierTooLong) else Success(Carrier(text.value, tokens, prefix, sent, added))
  {
  }

  // ----- decoding what was encoded

  /** A payload has a token at least. */
  lemma SendsToken(model: TokenModel, header: seq<Byte>, capsule: seq<Byte>, suffix: Stream, prefix: seq<int>)
    requires EncodePayload(model, header, capsule, suffix, prefix).Success?
    ensures var (tokens, sent) := EncodePayload(model, header, capsule, suffix, prefix).value;
      prefix <= tokens && |prefix| < |tokens|
  {
    hide Send, Encloses;
    var s, n := Framed(header + capsule, suffix), |header + capsule|;
    InitialEncloses(s);
    SendAppends(model, s, 8 * n, TokenGuard(n), INITIAL, prefix, 0);
  }

  /** The text of a carrier that was encoded decodes to its prefix, header and capsule, stopping where B/C ended. */
  lemma SectionsRoundTrip(prefix: seq<int>, header: seq<Byte>, capsule: seq<Byte>, payload: TokenModel, finish: GreedyModel,
                          finishTokens: int, maximumCharacters: int, suffix: Stream, resolver: Resolver)
    requires EncodeSections(prefix, header, capsule, payload, finish, finishTokens, maximumCharacters, suffix).Success?
    requires Announces(resolver, prefix, header, capsule)
    ensures var c := EncodeSections(prefix, header, capsule, payload, finish, finishTokens, maximumCharacters, suffix).value;
      && ValidateStructure(c.text, maximumCharacters).Success? && prefix == c.prefix
      && DecodeSections(c.text, payload, |prefix|, resolver, maximumCharacters)
           == Success(Decoded(prefix, header, capsule, |prefix| + c.payloadTokens, |c.tokens|))
  {
    hide EncodePayload, DecodePayload, DecodeFrom, Finish, Announces;
    var c := EncodeSections(prefix, header, capsule, payload, finish, finishTokens, maximumCharacters, suffix).value;
    var (sentTokens, sent) := EncodePayload(payload, header, capsule, suffix, prefix).value;
    FinishAppends(finish, finishTokens, sentTokens, 0);
    PayloadRoundTrip(payload, resolver, header, capsule, suffix, prefix, c.tokens[|sentTokens|..]);
    assert sentTokens + c.tokens[|sentTokens|..] == c.tokens;
    assert c.tokens[..|prefix|] == prefix;
    SendsToken(payload, header, capsule, suffix, prefix);
    DecodeFromInside(payload, resolver, c.tokens, |prefix|, prefix, Packet(header, capsule, |sentTokens|));
  }

  /** The finish is ignored: any text whose tokens begin with A, B and C decodes to the same packet. */
  lemma FinishIgnored(prefix: seq<int>, header: seq<Byte>, capsule: seq<Byte>, payload: TokenModel, suffix: Stream,
                      resolver: Resolver, text: string, tail: seq<int>, maximumCharacters: int)
    requires EncodePayload(payload, header, capsule, suffix, prefix).Success?
    requires Announces(resolver, prefix, header, capsule)
    requires ValidateStructure(text, maximumCharacters).Success?
    requires var observed := EncodePayload(payload, header, capsule, suffix, prefix).value.0 + tail;
      payload.tokenize(text) == Success(observed) && payload.detokenize(observed) == Success(text)
    ensures var (sentTokens, sent) := EncodePayload(payload, header, capsule, suffix, prefix).value;
      DecodeSections(text, payload, |prefix|, resolver, maximumCharacters)
        == Success(Decoded(prefix, header, capsule, |prefix| + sent, |sentTokens| + |tail|))
  {
    hide EncodePayload, DecodePayload, DecodeFrom, Announces;
    var (sentTokens, sent) := EncodePayload(payload, header, capsule, suffix, prefix).value;
    PayloadRoundTrip(payload, resolver, header, capsule, suffix, prefix, tail);
    assert (sentTokens + tail)[..|prefix|] == prefix;
    SendsToken(payload, header, capsule, suffix, prefix);
    DecodeFromInside(payload, resolver, sentTokens + tail, |prefix|, prefix, Packet(header, capsule, |sentTokens|));
  }
}
