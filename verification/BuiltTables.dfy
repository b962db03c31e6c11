/** Built candidate tables in plain terms: which entries are candidates, which pools are refused, what the shares are. */
module BuiltTables {
  import opened Wrappers
  import opened Errors
  import opened Rounding
  import opened Ranking
  import opened Frequencies
  import opened Apportionment
  import opened Weights
  import opened Candidates
  import opened MlxAdapter
  import opened CandidateBuilder

  // ----- the pool

  /** A pool is usable exactly when its ids are non-negative, ordinary and distinct and its logits finite. */
  lemma UsableIff(model: LogitModel, logits: seq<(int, Logit)>)
    ensures Usable(model, logits) <==>
      && (forall i | 0 <= i < |logits| :: 0 <= logits[i].0 && logits[i].0 !in model.specials && logits[i].1 != NonFinite)
      && (forall i, j | 0 <= i < |logits| && 0 <= j < |logits| && i != j :: logits[i].0 != logits[j].0)
  {
  }

  /** The error of a refused pool: that of its first entry with a bad id or else a bad logit, or that of its size. */
  lemma PoolRefusedAt(model: LogitModel, logits: seq<(int, Logit)>, requested: nat, error: Error) returns (k: nat)
    requires PoolRefused(model, logits, requested, error)
    ensures k <= |logits| && Usable(model, logits[..k])
    ensures if k == |logits| then error == WrongRankedCount && |logits| != requested
            else if logits[k].0 < 0 || logits[k].0 in model.specials || exists i | 0 <= i < k :: logits[i].0 == logits[k].0
            then error == InvalidRankedToken
            else logits[k].1 == NonFinite && error == NonFiniteLogit
  {
    if i: nat :| FirstFault(model, logits, i, error) {
      k := i;
    } else {
      k := |logits|;
      assert logits[..k] == logits;
    }
  }

  /** Ranked pools stand by descending score, which is 1024 times the logit rounded, and by ascending id. */
  lemma PoolRankedPlainly(model: LogitModel, logits: seq<(int, Logit)>)
    requires Usable(model, logits)
    ensures var ranking := PoolRanking(logits);
      && |ranking| == |logits|
      && (forall i | 0 <= i < |ranking| :: (ranking[i].id, Finite(ranking[i].value)) in logits && ranking[i].score == Quantize(ranking[i].value))
      && forall i, j | 0 <= i < j < |ranking| ::
           ranking[j].score < ranking[i].score || (ranking[j].score == ranking[i].score && ranking[i].id < ranking[j].id)
  {
    hide Quantize, Sort;
    UsableDistinct(model, logits);
    SortRanked(PoolEntries(logits));
    PoolQuantized(logits);
    var ranking := PoolRanking(logits);
    forall i | 0 <= i < |ranking| ensures (ranking[i].id, Finite(ranking[i].value)) in logits {
      assert ranking[i] in PoolEntries(logits);
      var k :| 0 <= k < |logits| && PoolEntries(logits)[k] == ranking[i];
      assert logits[k] == (ranking[i].id, Finite(ranking[i].value));
    }
    assert Ranked(ranking);
  }

  // ----- the candidates

  /** When an entry is a candidate, and which one: its text is not empty, has no CR or NUL, encodes, and tokenizes back behind the prefix. */
  lemma KeptAt(model: LogitModel, visibleText: string, prefix: seq<int>, ranked: seq<Entry<real>>, m: nat)
    requires m < |ranked|
    ensures var id, own, before := ranked[m].id, model.detokenize([ranked[m].id]), Kept(model, visibleText, prefix, ranked[..m]);
      Kept(model, visibleText, prefix, ranked[..m + 1]) ==
        if own.Success? && own.value != "" && '\r' !in own.value && '\0' !in own.value && model.encodable(own.value)
           && model.tokenize(visibleText + own.value) == Success(prefix + [id])
        then before + [Candidate(id, own.value, Quantize(ranked[m].value))] else before
  {
    hide Kept, Quantize;
    KeptNext(model, visibleText, prefix, ranked, m);
  }

  /** When the tokenizer raises on the way: on the token's text, or on the joined texts of a visible one. */
  lemma RaisedAtToken(model: LogitModel, visibleText: string, tokenId: int)
    ensures var raised, own := Raised(model, visibleText, tokenId), model.detokenize([tokenId]);
      match own
      case Failure(error) => raised == Some(error)
      case Success(text) =>
        if text == "" || '\r' in text || '\0' in text || !model.encodable(text) then raised == None
        else match model.tokenize(visibleText + text)
             case Failure(error) => raised == Some(error)
             case Success(_) => raised == None
  {
  }

  /** Every candidate of a built table is an ordinary token with its own visible text that tokenizes back, and with its rounded score. */
  lemma CandidatePlainly(model: LogitModel, scaled: (int, int) -> real, context: seq<int>, prefix: seq<int>, config: CandidateConfig,
                         t: CandidateTable, i: nat)
    requires Built(model, scaled, context, prefix, config, t) && i < |t.candidates|
    ensures |t.candidates| == config.topK && model.detokenize(prefix).Success?
    ensures var c, text := t.candidates[i], model.detokenize(prefix).value;
      && 0 <= c.tokenId && c.tokenId !in model.specials
      && model.detokenize([c.tokenId]) == Success(c.tokenText) && c.tokenText != "" && '\r' !in c.tokenText && '\0' !in c.tokenText
      && model.encodable(c.tokenText) && model.tokenize(text + c.tokenText) == Success(prefix + [c.tokenId])
  {
    hide Sort, Shares, Kept, Fills;
    BuiltCopySafe(model, scaled, context, prefix, config, t, i);
    var logits := model.rankedLogits(context, config.topK * config.multiplier).value;
    UsableFinite(model, logits);
    var m := KeptSource(model, model.detokenize(prefix).value, prefix, PoolRanking(logits), i);
    PoolIds(model, logits, m);
  }

  lemma PoolIds(model: LogitModel, logits: seq<(int, Logit)>, m: nat)
    requires Usable(model, logits) && m < |PoolRanking(logits)|
    ensures 0 <= PoolRanking(logits)[m].id && PoolRanking(logits)[m].id !in model.specials
  {
    assert PoolRanking(logits)[m] in PoolEntries(logits);
  }

  // ----- the shares

  /** The weights a built table is apportioned by: the scaled exponential of 1000(score - best) / (1024 T), rounded, and at least one. */
  lemma SharesPlainly(scaled: (int, int) -> real, candidates: seq<Candidate>, temperatureMilli: int, cumulative: seq<int>)
      returns (best: nat, weights: seq<int>)
    requires candidates != [] && Shares(scaled, candidates, temperatureMilli, cumulative)
    ensures best < |candidates| && forall i | 0 <= i < |candidates| :: candidates[i].adjustedScore <= candidates[best].adjustedScore
    ensures |weights| == |candidates| && |cumulative| == |candidates| + 1
    ensures forall i | 0 <= i < |weights| ::
      var rounded := RoundHalfEven(scaled(1000 * (candidates[i].adjustedScore - candidates[best].adjustedScore), 1024 * temperatureMilli));
      weights[i] == if rounded < 1 then 1 else rounded
    ensures Apportioned(weights, 32768, TableCounts(cumulative).value)
  {
    hide Apportioned, RoundHalfEven, Maximum;
    weights := CandidateWeights(scaled, candidates, temperatureMilli);
    ApportionedSize(weights, 32768, TableCounts(cumulative).value);
    best :| 0 <= best < |candidates| && Scores(candidates)[best] == Maximum(Scores(candidates));
    forall i | 0 <= i < |candidates| ensures candidates[i].adjustedScore <= candidates[best].adjustedScore {
      assert Scores(candidates)[i] <= Maximum(Scores(candidates));
    }
    forall i | 0 <= i < |weights|
      ensures
        var rounded := RoundHalfEven(scaled(1000 * (candidates[i].adjustedScore - candidates[best].adjustedScore), 1024 * temperatureMilli));
        weights[i] == if rounded < 1 then 1 else rounded
    {
      WeightPlainly(scaled, candidates[i].adjustedScore, candidates[best].adjustedScore, temperatureMilli);
    }
  }

  lemma WeightPlainly(scaled: (int, int) -> real, score: int, best: int, temperatureMilli: int)
    ensures var rounded := RoundHalfEven(scaled(1000 * (score - best), 1024 * temperatureMilli));
      WeightOf(scaled, score, best, temperatureMilli) == if rounded < 1 then 1 else rounded
  {
    hide RoundHalfEven;
    assert (score - best) * 1000 == 1000 * (score - best);
  }

  // ----- the scan

  /** While the tokenizer answers, the scan fills up exactly if the ranking has enough candidates, and else finds too few. */
  lemma FillsWhenAnswered(model: LogitModel, visibleText: string, prefix: seq<int>, ranked: seq<Entry<real>>, topK: nat, error: Error)
    requires Answers(model, visibleText, ranked)
    ensures Fills(model, visibleText, prefix, ranked, topK) <==> topK <= |Kept(model, visibleText, prefix, ranked)|
    ensures ScanFails(model, visibleText, prefix, ranked, topK, error)
       <==> |Kept(model, visibleText, prefix, ranked)| < topK && error == TooFewCandidates
  {
    hide Kept, Raised;
    var kept := Kept(model, visibleText, prefix, ranked);
    if topK <= |kept| {
      var k := ReachesCount(model, visibleText, prefix, ranked, topK);
      assert FilledAt(model, visibleText, prefix, ranked, topK, k);
      if ScanFails(model, visibleText, prefix, ranked, topK, error) {
        FailsUnfilled(model, visibleText, prefix, ranked, topK, error);
      }
    } else {
      Exhausted(model, visibleText, prefix, ranked, topK);
      assert forall k: nat | k < |ranked| :: Raised(model, visibleText, ranked[k].id).None?;
    }
  }

  lemma {:induction false} ReachesCount(model: LogitModel, visibleText: string, prefix: seq<int>, ranked: seq<Entry<real>>, topK: nat)
      returns (k: nat)
    requires topK <= |Kept(model, visibleText, prefix, ranked)|
    ensures k <= |ranked| && |Kept(model, visibleText, prefix, ranked[..k])| == topK
    decreases |ranked|
  {
    if topK == |Kept(model, visibleText, prefix, ranked)| {
      k := |ranked|;
      assert ranked[..k] == ranked;
    } else {
      var n := |ranked| - 1;
      k := ReachesCount(model, visibleText, prefix, ranked[..n], topK);
      assert ranked[..n][..k] == ranked[..k];
    }
  }
}
