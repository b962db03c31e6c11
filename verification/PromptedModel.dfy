/**
 The prompted model over the direct-logit adapter: its pools come from the ranking of the whole vocabulary,
 its finisher offers only copy-safe tokens, and so a carrier made with it is refused for its length alone.
 */
module PromptedModel {
  import opened Wrappers
  import opened Collections
  import opened Errors
  import opened Bits
  import opened Ranking
  import opened Candidates
  import opened MlxAdapter
  import opened CandidateBuilder
  import opened InnerFrame
  import opened Payload
  import opened Sections
  import opened Service
  import opened CarrierCodec

  // ----- the adapter's pools

  function AsLogits(pairs: seq<(int, real)>): (r: seq<(int, Logit)>)
    ensures |r| == |pairs| && forall i | 0 <= i < |r| :: r[i] == (pairs[i].0, Finite(pairs[i].1))
  {
    seq(|pairs|, i requires 0 <= i < |pairs| => (pairs[i].0, Finite(pairs[i].1)))
  }

  /** When the adapter ranks: a positive limit, a context, finite logits, and enough of them. */
  predicate Rankable(logits: seq<Logit>, excluded: set<int>, context: seq<int>, limit: int) {
    0 < limit && context != [] && limit + |excluded| <= |logits| && AllFinite(logits)
  }

  /** The front of the whole vocabulary's ranking, or the adapter's refusal. */
  function ExactLogits(evaluate: seq<int> -> seq<Logit>, excluded: set<int>, context: seq<int>, limit: int): Result<seq<(int, Logit)>, Error> {
    if !Rankable(evaluate(context), excluded, context, limit) then Failure(ModelFailure) else
      EnoughRanked(Values(evaluate(context)), excluded, limit);
      Success(AsLogits(Pairs(FullRanking(Values(evaluate(context)), excluded)[..limit])))
  }

  /** The full ranking lacks at most the excluded ids. */
  lemma EnoughRanked(values: seq<real>, excluded: set<int>, limit: int)
    requires limit + |excluded| <= |values|
    ensures limit <= |FullRanking(values, excluded)|
  {
    EligibleCount(Scored(values, Range(|values|)), excluded);
  }

  /** `ranked_logits` and, with nothing excluded, `ranked_logits_including_specials`. */
  method RankedLogits(adapter: MlxLanguageModel, context: seq<int>, limit: int, excluded: set<int>)
      returns (r: Result<seq<(int, Logit)>, Error>)
    requires adapter.Valid()
    modifies adapter, adapter.cache
    ensures adapter.Valid() && (adapter.cache == old(adapter.cache) || fresh(adapter.cache))
    ensures r == ExactLogits(adapter.evaluate, excluded, context, limit)
  {
    hide FullRanking;
    var ranked := adapter.RankedLogits(context, limit, excluded);
    r := if ranked.Failure? then Failure(ranked.error) else Success(AsLogits(ranked.value));
  }

  /** The pool the adapter returns is usable, and ranking it again changes nothing. */
  lemma PoolIsFront(model: LogitModel, values: seq<real>, limit: nat)
    requires limit <= |FullRanking(values, model.specials)|
    ensures var front := FullRanking(values, model.specials)[..limit];
      Usable(model, AsLogits(Pairs(front))) && PoolRanking(AsLogits(Pairs(front))) == front
  {
    hide Sort, Eligible, Quantize;
    var full := FullRanking(values, model.specials);
    var front := full[..limit];
    RankingRanked(values, Range(|values|), model.specials);
    RankedPrefix(full, limit);
    forall x | x in front ensures 0 <= x.id && x.id !in model.specials && x.score == Quantize(x.value) {
      assert x in full;
      assert x in Scored(values, Range(|values|));
    }
    forall i, j | 0 <= i < j < |full| ensures full[i].id != full[j].id {
      RankingDistinct(values, model.specials, i, j);
    }
    assert PoolEntries(AsLogits(Pairs(front))) == front;
    SortedFixed(front);
  }

  lemma RankingDistinct(values: seq<real>, excluded: set<int>, i: nat, j: nat)
    requires i < j < |FullRanking(values, excluded)|
    ensures FullRanking(values, excluded)[i].id != FullRanking(values, excluded)[j].id
  {
    hide Sort, Eligible;
    EligibleDistinct(Scored(values, Range(|values|)), excluded);
    SortDistinct(Eligible(Scored(values, Range(|values|)), excluded));
  }

  /** Sorting what is ranked changes nothing. */
  lemma SortedFixed<T(!new)>(ranked: seq<Entry<T>>)
    requires Ranked(ranked) && DistinctIds(ranked)
    ensures Sort(ranked) == ranked
  {
    hide Sort, Before;
    SortRanked(ranked);
    RankedFront(ranked, Sort(ranked));
  }

  /**
   Over the adapter the candidates are the first `topK` copy-safe entries of the whole vocabulary's ranking,
   however small the pool multiplier.
   */
  lemma ExactCandidates(model: LogitModel, evaluate: seq<int> -> seq<Logit>, scaled: (int, int) -> real,
                        context: seq<int>, prefix: seq<int>, config: CandidateConfig, t: CandidateTable)
    requires forall limit: int :: model.rankedLogits(context, limit) == ExactLogits(evaluate, model.specials, context, limit)
    requires Built(model, scaled, context, prefix, config, t)
    ensures AllFinite(evaluate(context)) && model.detokenize(prefix).Success?
    ensures var kept := Kept(model, model.detokenize(prefix).value, prefix, FullRanking(Values(evaluate(context)), model.specials));
      config.topK <= |kept| && t.candidates == kept[..config.topK]
  {
    hide FullRanking, Kept, Usable, Fills, Shares, PoolRanking;
    var requested := config.topK * config.multiplier;
    var full := FullRanking(Values(evaluate(context)), model.specials);
    assert model.rankedLogits(context, requested).Success?;
    EnoughRanked(Values(evaluate(context)), model.specials, requested);
    PoolIsFront(model, Values(evaluate(context)), requested);
    KeptPrefix(model, model.detokenize(prefix).value, prefix, full, requested);
  }

  /**
   Over the adapter no pool is refused for its tokens, its logits or its size: a table fails because the
   adapter does not rank, or because of the tokenizer, or with too few copy-safe entries.
   */
  lemma ExactPoolAccepted(model: LogitModel, evaluate: seq<int> -> seq<Logit>, context: seq<int>, prefix: seq<int>,
                          config: CandidateConfig, error: Error)
    requires forall limit: int :: model.rankedLogits(context, limit) == ExactLogits(evaluate, model.specials, context, limit)
    requires Unbuildable(model, context, prefix, config, error)
    ensures var requested := config.topK * config.multiplier;
      if !Rankable(evaluate(context), model.specials, context, requested) then error == ModelFailure
      else if model.detokenize(prefix).Failure? then error == model.detokenize(prefix).error
      else
        var full := FullRanking(Values(evaluate(context)), model.specials);
        requested <= |full| && ScanFails(model, model.detokenize(prefix).value, prefix, full[..requested], config.topK, error)
  {
    hide FullRanking, Usable, ScanFails, PoolRefused, PoolRanking;
    var requested := config.topK * config.multiplier;
    assert model.rankedLogits(context, requested) == ExactLogits(evaluate, model.specials, context, requested);
    if Rankable(evaluate(context), model.specials, context, requested) {
      EnoughRanked(Values(evaluate(context)), model.specials, requested);
      PoolIsFront(model, Values(evaluate(context)), requested);
    }
  }

  // ----- the finisher

  /** What the finisher needs beyond the candidate tables. */
  datatype Finisher = Finisher(
    model: LogitModel,
    rankedWithSpecials: (seq<int>, int) -> Result<seq<(int, Logit)>, Error>,
    eos: set<int>,
    promptIds: seq<int>,
    config: CandidateConfig,
    contextLimit: Option<ContextLimit>)

  /** Limits of one token or more; others are refused when the model is made. */
  type ContextLimit = n: int | 0 < n witness 1

  function Context(f: Finisher, visible: seq<int>): seq<int> {
    f.promptIds + match f.contextLimit
                  case None => visible
                  case Some(limit) => if |visible| <= limit then visible else visible[|visible| - limit..]
  }

  /** What the scan does about one ranked token. */
  datatype Verdict = Stop | Skip | Take | Raise(error: Error)

  function Judge(f: Finisher, visible: seq<int>, tokenId: int): Verdict {
    if tokenId in f.eos then Stop
    else if tokenId in f.model.specials then Skip
    else
      match f.model.detokenize([tokenId])
      case Failure(error) => Raise(error)
      case Success(own) =>
        if !IsVisible(f.model, own) then Skip else
          match f.model.detokenize(visible + [tokenId])
          case Failure(error) => Raise(error)
          case Success(text) =>
            match f.model.tokenize(text)
            case Failure(error) => Raise(error)
            case Success(again) => if again == visible + [tokenId] then Take else Skip
  }

  /** What a verdict other than `Skip` ends the scan with. */
  function Outcome(verdict: Verdict, tokenId: int): Result<Option<int>, Error>
    requires !verdict.Skip?
  {
    match verdict
    case Stop => Success(None)
    case Take => Success(Some(tokenId))
    case Raise(error) => Failure(error)
  }

  function Scan(f: Finisher, visible: seq<int>, ranked: seq<(int, Logit)>): Result<Option<int>, Error> {
    if ranked == [] then Failure(NoGreedyToken) else
      var verdict := Judge(f, visible, ranked[0].0);
      if verdict.Skip? then Scan(f, visible, ranked[1..]) else Outcome(verdict, ranked[0].0)
  }

  function GreedyToken(f: Finisher, visible: seq<int>): Result<Option<int>, Error> {
    var requested := f.config.topK * f.config.multiplier;
    match f.rankedWithSpecials(Context(f, visible), requested)
    case Failure(error) => Failure(error)
    case Success(ranked) => if |ranked| != requested then Failure(WrongRankedCount) else Scan(f, visible, ranked)
  }

  /** The context ranked: the prompt, then the last `contextLimit` visible tokens, or all of them. */
  lemma ContextParts(f: Finisher, visible: seq<int>)
    ensures var kept := if f.contextLimit.Some? && f.contextLimit.value < |visible| then f.contextLimit.value else |visible|;
      Context(f, visible) == f.promptIds + visible[|visible| - kept..]
  {
  }

  /** The token's own text is not empty, has no CR and no NUL, and is encodable. */
  predicate Legible(model: LogitModel, text: string) {
    0 < |text| && (forall c | c in text :: c != '\r' && c != '\0') && model.encodable(text)
  }

  /** The token is no end of text, and is special, or not legible, or does not tokenize back behind the visible tokens. */
  predicate PassedOver(f: Finisher, visible: seq<int>, tokenId: int) {
    && tokenId !in f.eos
    && (tokenId in f.model.specials || (
        var own, text := f.model.detokenize([tokenId]), f.model.detokenize(visible + [tokenId]);
        && own.Success?
        && (!Legible(f.model, own.value) ||
            (text.Success? && f.model.tokenize(text.value).Success? && f.model.tokenize(text.value).value != visible + [tokenId]))))
  }

  /** What a token that is not passed over means: the end, the token itself, or the tokenizer's error. */
  predicate Decides(f: Finisher, visible: seq<int>, tokenId: int, r: Result<Option<int>, Error>) {
    var own, text := f.model.detokenize([tokenId]), f.model.detokenize(visible + [tokenId]);
    if tokenId in f.eos then r == Success(None)
    else if own.Failure? then r == Failure(own.error)
    else if text.Failure? then r == Failure(text.error)
    else if f.model.tokenize(text.value).Failure? then r == Failure(f.model.tokenize(text.value).error)
    else f.model.tokenize(text.value).value == visible + [tokenId] && r == Success(Some(tokenId))
  }

  /** The first `k` tokens are passed over, and the next, if there is one, decides. */
  predicate AnswersAt(f: Finisher, visible: seq<int>, ranked: seq<(int, Logit)>, k: nat, r: Result<Option<int>, Error>) {
    && k <= |ranked| && (forall i | 0 <= i < k :: PassedOver(f, visible, ranked[i].0))
    && if k == |ranked| then r == Failure(NoGreedyToken)
       else !PassedOver(f, visible, ranked[k].0) && Decides(f, visible, ranked[k].0, r)
  }

  /** The answer for a ranking: that of its first token not passed over, or none is left. */
  ghost predicate FirstAnswers(f: Finisher, visible: seq<int>, ranked: seq<(int, Logit)>, r: Result<Option<int>, Error>) {
    exists k: nat :: AnswersAt(f, visible, ranked, k, r)
  }

  /** The answer for the visible tokens, from the ranking of the prompt and the last of them. */
  ghost predicate Answers(f: Finisher, visible: seq<int>, r: Result<Option<int>, Error>) {
    var kept := if f.contextLimit.Some? && f.contextLimit.value < |visible| then f.contextLimit.value else |visible|;
    var requested := f.config.topK * f.config.multiplier;
    match f.rankedWithSpecials(f.promptIds + visible[|visible| - kept..], requested)
    case Failure(error) => r == Failure(error)
    case Success(ranked) => if |ranked| != requested then r == Failure(WrongRankedCount) else FirstAnswers(f, visible, ranked, r)
  }

  lemma JudgedPlainly(f: Finisher, visible: seq<int>, tokenId: int)
    ensures Judge(f, visible, tokenId).Skip? <==> PassedOver(f, visible, tokenId)
    ensures !Judge(f, visible, tokenId).Skip? ==> Decides(f, visible, tokenId, Outcome(Judge(f, visible, tokenId), tokenId))
  {
  }

  lemma {:induction false} ScanAnswers(f: Finisher, visible: seq<int>, ranked: seq<(int, Logit)>)
    ensures FirstAnswers(f, visible, ranked, Scan(f, visible, ranked))
  {
    hide Judge, Outcome, PassedOver, Decides;
    var r := Scan(f, visible, ranked);
    if ranked == [] {
      assert AnswersAt(f, visible, ranked, 0, r);
    } else {
      JudgedPlainly(f, visible, ranked[0].0);
      if Judge(f, visible, ranked[0].0).Skip? {
        ScanAnswers(f, visible, ranked[1..]);
        var k: nat :| AnswersAt(f, visible, ranked[1..], k, r);
        forall i | 0 <= i < k + 1 ensures PassedOver(f, visible, ranked[i].0) {
          assert 0 < i ==> ranked[i] == ranked[1..][i - 1];
        }
        assert k < |ranked[1..]| ==> ranked[k + 1] == ranked[1..][k];
        assert AnswersAt(f, visible, ranked, k + 1, r);
      } else {
        assert AnswersAt(f, visible, ranked, 0, r);
      }
    }
  }

  lemma GreedyAnswers(f: Finisher, visible: seq<int>)
    ensures Answers(f, visible, GreedyToken(f, visible))
  {
    hide FirstAnswers, Scan, Context;
    ContextParts(f, visible);
    var ranked := f.rankedWithSpecials(Context(f, visible), f.config.topK * f.config.multiplier);
    if ranked.Success? {
      ScanAnswers(f, visible, ranked.value);
    }
  }

  /** The first token that is not skipped decides. */
  lemma {:induction false} FirstDecides(f: Finisher, visible: seq<int>, ranked: seq<(int, Logit)>, k: nat)
    requires k <= |ranked| && forall i | 0 <= i < k :: Judge(f, visible, ranked[i].0).Skip?
    requires k < |ranked| ==> !Judge(f, visible, ranked[k].0).Skip?
    ensures Scan(f, visible, ranked)
         == if k < |ranked| then Outcome(Judge(f, visible, ranked[k].0), ranked[k].0) else Failure(NoGreedyToken)
  {
    hide Judge, Outcome;
    if k == 0 {
    } else {
      FirstDecides(f, visible, ranked[1..], k - 1);
    }
  }

  /** The next token of the finish: the scan of the ranking up to an end-of-text or copy-safe visible token. */
  method NextGreedyToken(f: Finisher, visible: seq<int>) returns (r: Result<Option<int>, Error>)
    ensures r == GreedyToken(f, visible)
    ensures Answers(f, visible, r)
  {
    GreedyAnswers(f, visible);
    hide Scan;
    var requested := f.config.topK * f.config.multiplier;
    var ranked := f.rankedWithSpecials(Context(f, visible), requested);
    if ranked.Failure? {
      return Failure(ranked.error);
    }
    if |ranked.value| != requested {
      return Failure(WrongRankedCount);
    }
    for k := 0 to |ranked.value|
      invariant forall i | 0 <= i < k :: Judge(f, visible, ranked.value[i].0).Skip?
    {
      var tokenId := ranked.value[k].0;
      if tokenId in f.eos {
        FirstDecides(f, visible, ranked.value, k);
        return Success(None);
      }
      if tokenId in f.model.specials {
        continue;
      }
      var own := f.model.detokenize([tokenId]);
      if own.Failure? {
        FirstDecides(f, visible, ranked.value, k);
        return Failure(own.error);
      }
      if IsVisible(f.model, own.value) {
        var text := f.model.detokenize(visible + [tokenId]);
        if text.Failure? {
          FirstDecides(f, visible, ranked.value, k);
          return Failure(text.error);
        }
        var again := f.model.tokenize(text.value);
        if again.Failure? {
          FirstDecides(f, visible, ranked.value, k);
          return Failure(again.error);
        }
        if again.value == visible + [tokenId] {
          FirstDecides(f, visible, ranked.value, k);
          return Success(Some(tokenId));
        }
      }
    }
    FirstDecides(f, visible, ranked.value, |ranked.value|);
    r := Failure(NoGreedyToken);
  }

  /** A token the finisher returns is ranked, not special, visible, and has the documented invariant. */
  lemma {:induction false} ScanTakes(f: Finisher, visible: seq<int>, ranked: seq<(int, Logit)>)
    requires Scan(f, visible, ranked).Success? && Scan(f, visible, ranked).value.Some?
    ensures var tokenId := Scan(f, visible, ranked).value.value;
      && (exists k :: 0 <= k < |ranked| && ranked[k].0 == tokenId)
      && tokenId !in f.eos && tokenId !in f.model.specials
      && f.model.detokenize([tokenId]).Success? && IsVisible(f.model, f.model.detokenize([tokenId]).value)
      && IsCopySafe(f.model, visible, tokenId)
  {
    if Judge(f, visible, ranked[0].0).Skip? {
      ScanTakes(f, visible, ranked[1..]);
      var k :| 0 <= k < |ranked[1..]| && ranked[1..][k].0 == Scan(f, visible, ranked).value.value;
      assert ranked[k + 1].0 == Scan(f, visible, ranked).value.value;
    }
  }

  /** The finisher as the encoder calls it. */
  function Greedy(f: Finisher): GreedyModel {
    visible => GreedyToken(f, visible)
  }

  /** When detokenizing goes token by token, everything the finisher returns is offerable. */
  lemma GreedySafe(f: Finisher, payload: TokenModel)
    requires payload.tokenize == f.model.tokenize && payload.detokenize == f.model.detokenize && Appends(f.model.detokenize)
    ensures SafeFinish(Greedy(f), payload)
  {
    hide Scan, Appends, Offerable, IsCopySafe, IsVisible;
    forall visible: seq<int> | payload.detokenize(visible).Success? && GreedyToken(f, visible).Success? && GreedyToken(f, visible).value.Some?
      ensures Offerable(payload, visible, GreedyToken(f, visible).value.value)
    {
      var ranked := f.rankedWithSpecials(Context(f, visible), f.config.topK * f.config.multiplier).value;
      ScanTakes(f, visible, ranked);
      VisibleOfferable(f.model, payload, visible, GreedyToken(f, visible).value.value);
    }
  }

  lemma VisibleOfferable(model: LogitModel, payload: TokenModel, prefix: seq<int>, tokenId: int)
    requires payload.tokenize == model.tokenize && payload.detokenize == model.detokenize && Appends(model.detokenize)
    requires model.detokenize(prefix).Success? && model.detokenize([tokenId]).Success?
    requires IsVisible(model, model.detokenize([tokenId]).value) && IsCopySafe(model, prefix, tokenId)
    ensures Offerable(payload, prefix, tokenId)
  {
  }

  // ----- end to end

  /** The model behind a prompt: the adapter's tokenizer, and no tables but built ones. */
  ghost predicate Prompted(source: TokenModel, model: LogitModel, scaled: (int, int) -> real, promptIds: seq<int>, config: CandidateConfig) {
    && source.tokenize == model.tokenize && source.detokenize == model.detokenize
    && forall prefix: seq<int> | source.nextTable(prefix).Success? ::
         Built(model, scaled, promptIds + prefix, prefix, config, source.nextTable(prefix).value)
  }

  /**
   With prompted models for prefix and payload and the greedy finisher, over a tokenizer that detokenizes
   token by token, a carrier whose sections could be made is refused for its length alone.
   */
  lemma PromptedCarrier(secret: string, prefixModel: TokenModel, payload: TokenModel, f: Finisher, scaled: (int, int) -> real,
                        prefixPrompt: seq<int>, prefixConfig: CandidateConfig, payloadPrompt: seq<int>, payloadConfig: CandidateConfig,
                        hpke: Hpke, codecs: Codecs,
                        prefixTokens: int, finishTokens: nat, maximumCharacters: int, random: RandomBelow, suffix: Stream)
    requires Appends(f.model.detokenize) && f.model.detokenize([]) == Success("")
    requires Prompted(prefixModel, f.model, scaled, prefixPrompt, prefixConfig)
    requires Prompted(payload, f.model, scaled, payloadPrompt, payloadConfig)
    requires var prefix := GeneratePrefix(prefixModel, random, prefixTokens);
      prefix.Success? && var packet := EncryptMessage(hpke, codecs, secret, prefix.value);
      packet.Success? && var sending := EncodePayload(payload, packet.value.header, packet.value.capsule, suffix, prefix.value);
      sending.Success? && Finish(Greedy(f), finishTokens, sending.value.0, 0).Success?
    ensures var r := EncodeCarrier(secret, prefixModel, payload, Greedy(f), hpke, codecs,
                                   prefixTokens, finishTokens, maximumCharacters, random, suffix);
      r.Success? || r == Failure(CarrierTooLong)
  {
    hide GeneratePrefix, EncryptMessage, EncodePayload, Finish, EncodeCarrier, Appends, Built, SafeTables, SafeFinish, Greedy;
    BuiltTablesSafe(f.model, scaled, prefixPrompt, prefixConfig, prefixModel, payload);
    BuiltTablesSafe(f.model, scaled, payloadPrompt, payloadConfig, payload, payload);
    GreedySafe(f, payload);
    OnlyLengthRefused(secret, prefixModel, payload, Greedy(f), hpke, codecs, prefixTokens, finishTokens, maximumCharacters, random, suffix);
  }
}
