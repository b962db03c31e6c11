/** Building one candidate table from ranked logits. */
module CandidateBuilder {
  import opened Wrappers
  import opened Errors
  import opened Ranking
  import opened Frequencies
  import opened Apportionment
  import opened Weights
  import opened Candidates
  import opened MlxAdapter

  const MAX_MODEL_CANDIDATES := 4096

  datatype Config = Config(topK: int, multiplier: int, temperatureMilli: int)

  /** The checks made when a configuration is constructed. */
  predicate Admissible(c: Config) {
    && 2 <= c.topK && c.topK * c.multiplier <= MAX_MODEL_CANDIDATES
    && 1 <= c.multiplier <= 16 && 100 <= c.temperatureMilli <= 2000
  }

  type CandidateConfig = c: Config | Admissible(c) witness Config(2, 1, 1000)

  datatype LogitModel = LogitModel(
    rankedLogits: (seq<int>, int) -> Result<seq<(int, Logit)>, Error>,
    specials: set<int>,
    tokenize: string -> Result<seq<int>, Error>,
    detokenize: seq<int> -> Result<string, Error>,
    encodable: string -> bool)

  predicate IsVisible(model: LogitModel, text: string) {
    text != "" && Clean(text) && model.encodable(text)
  }

  // ----- ranking the pool

  /** The pool is usable: fresh, non-special, non-negative ids with finite logits. */
  predicate Usable(model: LogitModel, logits: seq<(int, Logit)>) {
    && (forall i | 0 <= i < |logits| :: 0 <= logits[i].0 && logits[i].0 !in model.specials && logits[i].1.Finite?)
    && forall i, j | 0 <= i < j < |logits| :: logits[i].0 != logits[j].0
  }

  function PoolEntries(logits: seq<(int, Logit)>): (r: seq<Entry<real>>)
    requires forall i | 0 <= i < |logits| :: logits[i].1.Finite?
    ensures |r| == |logits|
    ensures forall i | 0 <= i < |r| :: r[i] == Entry(Quantize(logits[i].1.value), logits[i].0, logits[i].1.value)
  {
    seq(|logits|, i requires 0 <= i < |logits| => Entry(Quantize(logits[i].1.value), logits[i].0, logits[i].1.value))
  }

  /** The entry's id is an ordinary one that no earlier entry has. */
  predicate Fresh(model: LogitModel, logits: seq<(int, Logit)>, k: nat)
    requires k < |logits|
  {
    0 <= logits[k].0 && logits[k].0 !in model.specials && forall i | 0 <= i < k :: logits[i].0 != logits[k].0
  }

  /** Entry `k` is the first that cannot be used, and `error` is what is wrong with it. */
  predicate FirstFault(model: LogitModel, logits: seq<(int, Logit)>, k: nat, error: Error) {
    && k < |logits| && Usable(model, logits[..k])
    && if Fresh(model, logits, k) then logits[k].1.NonFinite? && error == NonFiniteLogit else error == InvalidRankedToken
  }

  /** Why a pool is refused: its first fault, or else its size. */
  ghost predicate PoolRefused(model: LogitModel, logits: seq<(int, Logit)>, requested: nat, error: Error) {
    || (exists k: nat :: FirstFault(model, logits, k, error))
    || (Usable(model, logits) && |logits| != requested && error == WrongRankedCount)
  }

  /** A pool with a fault is not usable. */
  lemma FaultRefused(model: LogitModel, logits: seq<(int, Logit)>, requested: nat, k: nat, error: Error)
    requires FirstFault(model, logits, k, error)
    ensures PoolRefused(model, logits, requested, error) && !Usable(model, logits)
  {
  }

  lemma UsableNothing(model: LogitModel)
    ensures Usable(model, [])
  {
  }

  lemma UsableNext(model: LogitModel, logits: seq<(int, Logit)>, k: nat)
    requires k < |logits| && Usable(model, logits[..k]) && Fresh(model, logits, k) && logits[k].1.Finite?
    ensures Usable(model, logits[..k + 1])
  {
    assert logits[..k + 1] == logits[..k] + [logits[k]];
  }

  lemma UsableDistinct(model: LogitModel, logits: seq<(int, Logit)>)
    requires Usable(model, logits)
    ensures DistinctIds(PoolEntries(logits))
  {
  }

  method RankPool(model: LogitModel, logits: seq<(int, Logit)>, requested: nat) returns (r: Result<seq<Entry<real>>, Error>)
    ensures r.Success? <==> Usable(model, logits) && |logits| == requested
    ensures r.Failure? ==> PoolRefused(model, logits, requested, r.error)
    ensures r.Success? ==> r.value == Sort(PoolEntries(logits)) && DistinctIds(r.value) && Ranked(r.value)
  {
    hide Usable, PoolEntries, Quantize, Sort;
    var ranked: seq<Entry<real>>, seen: set<int> := [], {};
    UsableNothing(model);
    for k := 0 to |logits|
      invariant Usable(model, logits[..k]) && |ranked| == k
      invariant forall i | 0 <= i < k :: logits[i].1.Finite? && ranked[i] == Entry(Quantize(logits[i].1.value), logits[i].0, logits[i].1.value)
      invariant forall id :: id in seen <==> exists i | 0 <= i < k :: logits[i].0 == id
    {
      var (tokenId, value) := logits[k];
      if tokenId < 0 || tokenId in seen || tokenId in model.specials {
        FaultRefused(model, logits, requested, k, InvalidRankedToken);
        return Failure(InvalidRankedToken);
      }
      seen := seen + {tokenId};
      if value.NonFinite? {
        FaultRefused(model, logits, requested, k, NonFiniteLogit);
        return Failure(NonFiniteLogit);
      }
      UsableNext(model, logits, k);
      ranked := ranked + [Entry(Quantize(value.value), tokenId, value.value)];
    }
    assert logits[..|logits|] == logits;
    if |ranked| != requested {
      return Failure(WrongRankedCount);
    }
    assert ranked == PoolEntries(logits);
    UsableDistinct(model, logits);
    SortRanked(PoolEntries(logits));
    SortDistinct(PoolEntries(logits));
    r := Success(Sort(ranked));
  }

  // ----- filtering

  /** The token is visible, and appending it to the prefix tokenizes back to exactly that. */
  predicate CopySafe(model: LogitModel, visibleText: string, prefix: seq<int>, tokenId: int) {
    var text := model.detokenize([tokenId]);
    text.Success? && IsVisible(model, text.value)
    && model.tokenize(visibleText + text.value) == Success(prefix + [tokenId])
  }

  /** The copy-safe entries, in rank order, as candidates. */
  function Kept(model: LogitModel, visibleText: string, prefix: seq<int>, ranked: seq<Entry<real>>): (r: seq<Candidate>)
    ensures |r| <= |ranked|
    ensures forall c | c in r :: exists i | 0 <= i < |ranked| :: c.tokenId == ranked[i].id
  {
    if ranked == [] then [] else
      var n := |ranked| - 1;
      Kept(model, visibleText, prefix, ranked[..n]) +
      if CopySafe(model, visibleText, prefix, ranked[n].id)
      then [Candidate(ranked[n].id, model.detokenize([ranked[n].id]).value, Quantize(ranked[n].value))] else []
  }

  lemma {:induction false} KeptPrefix(model: LogitModel, visibleText: string, prefix: seq<int>, ranked: seq<Entry<real>>, k: nat)
    requires k <= |ranked|
    ensures Kept(model, visibleText, prefix, ranked[..k]) <= Kept(model, visibleText, prefix, ranked)
  {
    if k == |ranked| {
      assert ranked[..k] == ranked;
    } else {
      assert ranked[..|ranked| - 1][..k] == ranked[..k];
      KeptPrefix(model, visibleText, prefix, ranked[..|ranked| - 1], k);
    }
  }

  /** Where in the ranking a kept candidate comes from. */
  lemma {:induction false} KeptSource(model: LogitModel, visibleText: string, prefix: seq<int>, ranked: seq<Entry<real>>, i: nat)
      returns (m: nat)
    requires i < |Kept(model, visibleText, prefix, ranked)|
    ensures m < |ranked| && CopySafe(model, visibleText, prefix, ranked[m].id)
    ensures var c := Kept(model, visibleText, prefix, ranked)[i];
      && c.tokenId == ranked[m].id && c.adjustedScore == Quantize(ranked[m].value)
      && c.tokenText == model.detokenize([c.tokenId]).value
  {
    var n := |ranked| - 1;
    if i < |Kept(model, visibleText, prefix, ranked[..n])| {
      m := KeptSource(model, visibleText, prefix, ranked[..n], i);
    } else {
      m := n;
    }
  }

  predicate Quantized(ranked: seq<Entry<real>>) {
    forall i | 0 <= i < |ranked| :: ranked[i].score == Quantize(ranked[i].value)
  }

  /** Kept candidates have distinct ids and non-increasing scores. */
  lemma {:induction false} KeptOrdered(model: LogitModel, visibleText: string, prefix: seq<int>, ranked: seq<Entry<real>>, i: nat, j: nat)
    requires Ranked(ranked) && DistinctIds(ranked) && Quantized(ranked)
    requires i < j < |Kept(model, visibleText, prefix, ranked)|
    ensures var kept := Kept(model, visibleText, prefix, ranked);
      kept[i].tokenId != kept[j].tokenId && kept[j].adjustedScore <= kept[i].adjustedScore
  {
    var n := |ranked| - 1;
    var front := Kept(model, visibleText, prefix, ranked[..n]);
    if j < |front| {
      KeptOrdered(model, visibleText, prefix, ranked[..n], i, j);
    } else {
      var m := KeptSource(model, visibleText, prefix, ranked[..n], i);
      assert Before(ranked[m], ranked[n]);
    }
  }

  /** What the tokenizer raises when the scan asks about a token. */
  function Raised(model: LogitModel, visibleText: string, tokenId: int): Option<Error> {
    var text := model.detokenize([tokenId]);
    if text.Failure? then Some(text.error)
    else if !IsVisible(model, text.value) then None
    else
      var again := model.tokenize(visibleText + text.value);
      if again.Failure? then Some(again.error) else None
  }

  /** The tokenizer answers for every token the scan may ask about. */
  predicate Answers(model: LogitModel, visibleText: string, ranked: seq<Entry<real>>) {
    forall i | 0 <= i < |ranked| :: Raised(model, visibleText, ranked[i].id).None?
  }

  /** The scan of the first `k` entries is answered throughout, and ends on the last candidate wanted. */
  predicate FilledAt(model: LogitModel, visibleText: string, prefix: seq<int>, ranked: seq<Entry<real>>, topK: nat, k: nat) {
    k <= |ranked| && Answers(model, visibleText, ranked[..k]) && |Kept(model, visibleText, prefix, ranked[..k])| == topK
  }

  ghost predicate Fills(model: LogitModel, visibleText: string, prefix: seq<int>, ranked: seq<Entry<real>>, topK: nat) {
    exists k: nat :: FilledAt(model, visibleText, prefix, ranked, topK, k)
  }

  /** The tokenizer raises at entry `k`, before enough candidates are found. */
  predicate RaisesAt(model: LogitModel, visibleText: string, prefix: seq<int>, ranked: seq<Entry<real>>, topK: nat, k: nat, error: Error) {
    && k < |ranked| && Answers(model, visibleText, ranked[..k])
    && |Kept(model, visibleText, prefix, ranked[..k])| < topK && Raised(model, visibleText, ranked[k].id) == Some(error)
  }

  /** Why a scan fails: the tokenizer raised on the way, or the whole ranking holds too few candidates. */
  ghost predicate ScanFails(model: LogitModel, visibleText: string, prefix: seq<int>, ranked: seq<Entry<real>>, topK: nat, error: Error) {
    || (exists k: nat :: RaisesAt(model, visibleText, prefix, ranked, topK, k, error))
    || (Answers(model, visibleText, ranked) && |Kept(model, visibleText, prefix, ranked)| < topK && error == TooFewCandidates)
  }

  /** Failing excludes filling up. */
  lemma FailsUnfilled(model: LogitModel, visibleText: string, prefix: seq<int>, ranked: seq<Entry<real>>, topK: nat, error: Error)
    requires ScanFails(model, visibleText, prefix, ranked, topK, error)
    ensures !Fills(model, visibleText, prefix, ranked, topK)
  {
    hide Kept, Raised, Answers, FilledAt, RaisesAt;
    if k: nat :| RaisesAt(model, visibleText, prefix, ranked, topK, k, error) {
      forall j: nat ensures !FilledAt(model, visibleText, prefix, ranked, topK, j) {
        RaisedUnfilled(model, visibleText, prefix, ranked, topK, k, error, j);
      }
    } else {
      forall j: nat ensures !FilledAt(model, visibleText, prefix, ranked, topK, j) {
        FewUnfilled(model, visibleText, prefix, ranked, topK, j);
      }
    }
  }

  lemma RaisedUnfilled(model: LogitModel, visibleText: string, prefix: seq<int>, ranked: seq<Entry<real>>, topK: nat, k: nat, error: Error,
                       j: nat)
    requires RaisesAt(model, visibleText, prefix, ranked, topK, k, error)
    ensures !FilledAt(model, visibleText, prefix, ranked, topK, j)
  {
    hide Kept, Raised;
    if j <= k {
      assert ranked[..k][..j] == ranked[..j];
      KeptPrefix(model, visibleText, prefix, ranked[..k], j);
    } else if j <= |ranked| {
      assert ranked[..j][k] == ranked[k];
    }
  }

  lemma FewUnfilled(model: LogitModel, visibleText: string, prefix: seq<int>, ranked: seq<Entry<real>>, topK: nat, j: nat)
    requires |Kept(model, visibleText, prefix, ranked)| < topK
    ensures !FilledAt(model, visibleText, prefix, ranked, topK, j)
  {
    hide Kept, Raised;
    if j <= |ranked| {
      KeptPrefix(model, visibleText, prefix, ranked, j);
    }
  }

  /** Scans the ranking for the first `topK` copy-safe visible tokens. */
  method Collect(model: LogitModel, visibleText: string, prefix: seq<int>, ranked: seq<Entry<real>>, topK: nat)
      returns (r: Result<seq<Candidate>, Error>)
    requires 0 < topK
    ensures r.Success? <==> Fills(model, visibleText, prefix, ranked, topK)
    ensures r.Success? ==> topK <= |Kept(model, visibleText, prefix, ranked)| && r.value == Kept(model, visibleText, prefix, ranked)[..topK]
    ensures r.Failure? ==> ScanFails(model, visibleText, prefix, ranked, topK, r.error)
  {
    hide Kept, IsVisible, Fills, ScanFails;
    var candidates := [];
    KeptNothing(model, visibleText, prefix);
    for k := 0 to |ranked|
      invariant candidates == Kept(model, visibleText, prefix, ranked[..k]) && |candidates| < topK
      invariant Answers(model, visibleText, ranked[..k])
    {
      var tokenId := ranked[k].id;
      KeptNext(model, visibleText, prefix, ranked, k);
      var text := model.detokenize([tokenId]);
      if text.Failure? {
        RaisedAt(model, visibleText, prefix, ranked, topK, k, text.error);
        return Failure(text.error);
      }
      if IsVisible(model, text.value) {
        var again := model.tokenize(visibleText + text.value);
        if again.Failure? {
          RaisedAt(model, visibleText, prefix, ranked, topK, k, again.error);
          return Failure(again.error);
        }
        if again.value == prefix + [tokenId] {
          candidates := candidates + [Candidate(tokenId, text.value, Quantize(ranked[k].value))];
        }
      }
      AnswersNext(model, visibleText, ranked, k);
      if |candidates| == topK {
        Filled(model, visibleText, prefix, ranked, topK, k + 1);
        return Success(candidates);
      }
    }
    assert ranked[..|ranked|] == ranked;
    Exhausted(model, visibleText, prefix, ranked, topK);
    r := Failure(TooFewCandidates);
  }

  lemma KeptNothing(model: LogitModel, visibleText: string, prefix: seq<int>)
    ensures Kept(model, visibleText, prefix, []) == []
  {
  }

  /** One entry more adds its candidate, if it is copy-safe. */
  lemma KeptNext(model: LogitModel, visibleText: string, prefix: seq<int>, ranked: seq<Entry<real>>, k: nat)
    requires k < |ranked|
    ensures var id := ranked[k].id;
      Kept(model, visibleText, prefix, ranked[..k + 1]) == Kept(model, visibleText, prefix, ranked[..k]) +
        if CopySafe(model, visibleText, prefix, id)
        then [Candidate(id, model.detokenize([id]).value, Quantize(ranked[k].value))] else []
  {
    assert ranked[..k + 1][..k] == ranked[..k];
  }

  lemma AnswersNext(model: LogitModel, visibleText: string, ranked: seq<Entry<real>>, k: nat)
    requires k < |ranked| && Answers(model, visibleText, ranked[..k]) && Raised(model, visibleText, ranked[k].id).None?
    ensures Answers(model, visibleText, ranked[..k + 1])
  {
    hide Raised;
    assert ranked[..k + 1] == ranked[..k] + [ranked[k]];
  }

  lemma RaisedAt(model: LogitModel, visibleText: string, prefix: seq<int>, ranked: seq<Entry<real>>, topK: nat, k: nat, error: Error)
    requires RaisesAt(model, visibleText, prefix, ranked, topK, k, error)
    ensures ScanFails(model, visibleText, prefix, ranked, topK, error) && !Fills(model, visibleText, prefix, ranked, topK)
  {
    hide Fills, Kept, Raised;
    FailsUnfilled(model, visibleText, prefix, ranked, topK, error);
  }

  lemma Filled(model: LogitModel, visibleText: string, prefix: seq<int>, ranked: seq<Entry<real>>, topK: nat, k: nat)
    requires FilledAt(model, visibleText, prefix, ranked, topK, k)
    ensures Fills(model, visibleText, prefix, ranked, topK) && topK <= |Kept(model, visibleText, prefix, ranked)|
    ensures Kept(model, visibleText, prefix, ranked[..k]) == Kept(model, visibleText, prefix, ranked)[..topK]
  {
    hide Kept, Answers;
    KeptPrefix(model, visibleText, prefix, ranked, k);
  }

  lemma Exhausted(model: LogitModel, visibleText: string, prefix: seq<int>, ranked: seq<Entry<real>>, topK: nat)
    requires Answers(model, visibleText, ranked) && |Kept(model, visibleText, prefix, ranked)| < topK
    ensures ScanFails(model, visibleText, prefix, ranked, topK, TooFewCandidates) && !Fills(model, visibleText, prefix, ranked, topK)
  {
    hide Fills, Kept, Answers;
    FailsUnfilled(model, visibleText, prefix, ranked, topK, TooFewCandidates);
  }

  // ----- the table

  /** The pool's ranking, for logits that are usable. */
  function PoolRanking(logits: seq<(int, Logit)>): seq<Entry<real>>
    requires forall i | 0 <= i < |logits| :: logits[i].1.Finite?
  {
    Sort(PoolEntries(logits))
  }

  /** The weights of candidates, relative to their best score. */
  function CandidateWeights(scaled: (int, int) -> real, candidates: seq<Candidate>, temperatureMilli: int): (r: seq<int>)
    requires candidates != []
    ensures |r| == |candidates| && forall i | 0 <= i < |r| ::
      r[i] == WeightOf(scaled, candidates[i].adjustedScore, Maximum(Scores(candidates)), temperatureMilli)
  {
    seq(|candidates|, i requires 0 <= i < |candidates| =>
      WeightOf(scaled, candidates[i].adjustedScore, Maximum(Scores(candidates)), temperatureMilli))
  }

  function Scores(candidates: seq<Candidate>): (r: seq<int>)
    ensures |r| == |candidates| && forall i | 0 <= i < |r| :: r[i] == candidates[i].adjustedScore
  {
    seq(|candidates|, i requires 0 <= i < |candidates| => candidates[i].adjustedScore)
  }

  ghost predicate Shares(scaled: (int, int) -> real, candidates: seq<Candidate>, temperatureMilli: int, cumulative: seq<int>)
    requires candidates != []
  {
    && IsCumulative(cumulative)
    && Apportioned(CandidateWeights(scaled, candidates, temperatureMilli), FREQUENCY_TOTAL, TableCounts(cumulative).value)
  }

  /** Everything the model is asked succeeds, the pool is usable, and enough of it is copy-safe. */
  ghost predicate Buildable(model: LogitModel, context: seq<int>, prefix: seq<int>, config: CandidateConfig) {
    var requested := config.topK * config.multiplier;
    var logits, text := model.rankedLogits(context, requested), model.detokenize(prefix);
    && logits.Success? && text.Success? && Usable(model, logits.value) && |logits.value| == requested
    && Fills(model, text.value, prefix, PoolRanking(logits.value), config.topK)
  }

  /** The table holds exactly the first copy-safe entries of the ranked pool, and their apportioned shares. */
  ghost predicate Built(model: LogitModel, scaled: (int, int) -> real, context: seq<int>, prefix: seq<int>, config: CandidateConfig, t: Table) {
    && Buildable(model, context, prefix, config)
    && var ranking := PoolRanking(model.rankedLogits(context, config.topK * config.multiplier).value);
    && var kept := Kept(model, model.detokenize(prefix).value, prefix, ranking);
    && config.topK <= |kept| && t.candidates == kept[..config.topK]
    && Shares(scaled, t.candidates, config.temperatureMilli, t.cumulative)
  }

  /** Why no table is built: the first question, in the source's order, that goes wrong. */
  ghost predicate Unbuildable(model: LogitModel, context: seq<int>, prefix: seq<int>, config: CandidateConfig, error: Error) {
    var requested := config.topK * config.multiplier;
    var logits, text := model.rankedLogits(context, requested), model.detokenize(prefix);
    if logits.Failure? then error == logits.error
    else if !(Usable(model, logits.value) && |logits.value| == requested) then PoolRefused(model, logits.value, requested, error)
    else if text.Failure? then error == text.error
    else ScanFails(model, text.value, prefix, PoolRanking(logits.value), config.topK, error)
  }

  /** No candidate has a smaller count than one after it. */
  predicate CountsDescend(t: Table)
    requires |t.cumulative| == |t.candidates| + 1
  {
    forall i, j | 0 <= i < j < |t.candidates| :: t.cumulative[j + 1] - t.cumulative[j] <= t.cumulative[i + 1] - t.cumulative[i]
  }

  method BuildCandidateTable(model: LogitModel, scaled: (int, int) -> real, context: seq<int>, prefix: seq<int>, config: CandidateConfig)
      returns (r: Result<CandidateTable, Error>)
    ensures r.Success? <==> Buildable(model, context, prefix, config)
    ensures r.Success? ==> Built(model, scaled, context, prefix, config, r.value)
    ensures r.Success? && KeepsOrder(scaled) ==> CountsDescend(r.value)
    ensures r.Failure? ==> Unbuildable(model, context, prefix, config, r.error)
  {
    hide Sort, Kept, Shares, WeightOf, KeepsOrder, CountsDescend, Usable, Fills, ScanFails, PoolRefused, Quantized;
    var requested := config.topK * config.multiplier;
    var logits := model.rankedLogits(context, requested);
    if logits.Failure? {
      return Failure(logits.error);
    }
    var pool := RankPool(model, logits.value, requested);
    if pool.Failure? {
      return Failure(pool.error);
    }
    var visible := model.detokenize(prefix);
    if visible.Failure? {
      return Failure(visible.error);
    }
    var collected := Collect(model, visible.value, prefix, pool.value, config.topK);
    if collected.Failure? {
      return Failure(collected.error);
    }
    var candidates := collected.value;
    var cumulative := ShareTable(scaled, candidates, config.temperatureMilli);
    UsableFinite(model, logits.value);
    PoolQuantized(logits.value);
    CandidatesOrdered(model, visible.value, prefix, pool.value, config.topK);
    r := Success(Table(candidates, cumulative));
    if KeepsOrder(scaled) {
      SharesDescend(scaled, r.value, config.temperatureMilli);
    }
  }

  lemma UsableFinite(model: LogitModel, logits: seq<(int, Logit)>)
    requires Usable(model, logits)
    ensures forall i | 0 <= i < |logits| :: logits[i].1.Finite?
  {
  }

  method ShareTable(scaled: (int, int) -> real, candidates: seq<Candidate>, temperatureMilli: int) returns (cumulative: seq<int>)
    requires 2 <= |candidates| <= MAX_MODEL_CANDIDATES && 100 <= temperatureMilli <= 2000
    ensures |cumulative| == |candidates| + 1 && IsCumulative(cumulative) && Shares(scaled, candidates, temperatureMilli, cumulative)
  {
    hide Apportioned, WeightOf;
    var weights := DeterministicWeights(scaled, Scores(candidates), temperatureMilli);
    assert weights.value == CandidateWeights(scaled, candidates, temperatureMilli);
    WeightsPositive(scaled, candidates, temperatureMilli);
    var counts := FrequencyCounts(weights.value, FREQUENCY_TOTAL);
    CountsPositive(weights.value, counts.value);
    var built := CumulativeCounts(counts.value);
    cumulative := built.value;
  }

  lemma WeightsPositive(scaled: (int, int) -> real, candidates: seq<Candidate>, temperatureMilli: int)
    requires candidates != []
    ensures var weights := CandidateWeights(scaled, candidates, temperatureMilli);
      forall i | 0 <= i < |weights| :: 0 < weights[i]
  {
  }

  lemma CountsPositive(weights: seq<int>, counts: seq<int>)
    requires Apportioned(weights, FREQUENCY_TOTAL, counts) && 2 <= |weights| < FREQUENCY_TOTAL
    requires forall i | 0 <= i < |weights| :: 0 < weights[i]
    ensures |counts| == |weights| && Sum(counts) == FREQUENCY_TOTAL && forall i | 0 <= i < |counts| :: 0 < counts[i]
  {
    forall i | 0 <= i < |counts| ensures 0 < counts[i] {
      CountPositive(weights, counts, i);
    }
  }

  lemma CountPositive(weights: seq<int>, counts: seq<int>, i: nat)
    requires Apportioned(weights, FREQUENCY_TOTAL, counts) && |weights| < FREQUENCY_TOTAL && i < |weights|
    requires forall i | 0 <= i < |weights| :: 0 < weights[i]
    ensures 0 < counts[i]
  {
    QuotientNonNegative(weights[i], FREQUENCY_TOTAL - |weights|, Sum(weights));
  }

  lemma PoolQuantized(logits: seq<(int, Logit)>)
    requires forall i | 0 <= i < |logits| :: logits[i].1.Finite?
    ensures Quantized(PoolRanking(logits))
  {
    var ranked := PoolRanking(logits);
    forall i | 0 <= i < |ranked| ensures ranked[i].score == Quantize(ranked[i].value) {
      assert ranked[i] in PoolEntries(logits);
    }
  }

  lemma SortDistinct(entries: seq<Entry<real>>)
    requires DistinctIds(entries)
    ensures DistinctIds(Sort(entries))
  {
    SortRanked(entries);
    var ranked := Sort(entries);
    forall i, j | 0 <= i < j < |ranked| ensures ranked[i].id != ranked[j].id {
      assert Before(ranked[i], ranked[j]);
      assert ranked[i] in entries && ranked[j] in entries;
      var p :| 0 <= p < |entries| && entries[p] == ranked[i];
      var q :| 0 <= q < |entries| && entries[q] == ranked[j];
      assert p != q;
    }
  }

  /** The candidates taken from a ranking have distinct ids and non-increasing scores. */
  lemma CandidatesOrdered(model: LogitModel, visibleText: string, prefix: seq<int>, ranked: seq<Entry<real>>, topK: nat)
    requires Ranked(ranked) && DistinctIds(ranked) && Quantized(ranked)
    requires topK <= |Kept(model, visibleText, prefix, ranked)|
    ensures var c := Kept(model, visibleText, prefix, ranked)[..topK];
      forall i, j | 0 <= i < j < topK :: c[i].tokenId != c[j].tokenId && c[j].adjustedScore <= c[i].adjustedScore
  {
    hide Kept;
    var c := Kept(model, visibleText, prefix, ranked)[..topK];
    forall i, j | 0 <= i < j < topK ensures c[i].tokenId != c[j].tokenId && c[j].adjustedScore <= c[i].adjustedScore {
      KeptOrdered(model, visibleText, prefix, ranked, i, j);
    }
  }

  /** Sender and receiver build the same shares: the frequency table is determined by the candidates. */
  lemma SharesUnique(scaled: (int, int) -> real, candidates: seq<Candidate>, temperatureMilli: int, x: seq<int>, y: seq<int>)
    requires candidates != []
    requires Shares(scaled, candidates, temperatureMilli, x) && Shares(scaled, candidates, temperatureMilli, y)
    ensures x == y
  {
    hide Apportioned, WeightOf;
    var weights := CandidateWeights(scaled, candidates, temperatureMilli);
    ApportionedUnique(weights, FREQUENCY_TOTAL, TableCounts(x).value, TableCounts(y).value);
    SameCumulative(x, y);
  }

  lemma SameCumulative(x: seq<int>, y: seq<int>)
    requires IsCumulative(x) && IsCumulative(y) && TableCounts(x).value == TableCounts(y).value
    ensures x == y
  {
    forall k | 0 <= k < |x| ensures x[k] == y[k] {
      SameEntry(x, y, k);
    }
  }

  lemma {:induction false} SameEntry(x: seq<int>, y: seq<int>, k: nat)
    requires IsCumulative(x) && IsCumulative(y) && TableCounts(x).value == TableCounts(y).value && k < |x|
    ensures k < |y| && x[k] == y[k]
  {
    if k == 0 {
    } else {
      SameEntry(x, y, k - 1);
      assert TableCounts(x).value[k - 1] == x[k] - x[k - 1];
      assert TableCounts(y).value[k - 1] == y[k] - y[k - 1];
    }
  }

  /** With an order-keeping exponential a candidate whose score is no worse, and that stands before, never has the smaller count. */
  lemma CountsFollowScores(scaled: (int, int) -> real, candidates: seq<Candidate>, temperatureMilli: int, cumulative: seq<int>, i: nat, j: nat)
    requires KeepsOrder(scaled) && 0 < temperatureMilli && i < j < |candidates| < FREQUENCY_TOTAL
    requires Shares(scaled, candidates, temperatureMilli, cumulative)
    requires candidates[j].adjustedScore <= candidates[i].adjustedScore
    ensures j + 1 < |cumulative| && 1 <= cumulative[j + 1] - cumulative[j] <= cumulative[i + 1] - cumulative[i]
  {
    hide Apportioned, WeightOf, KeepsOrder;
    var weights := CandidateWeights(scaled, candidates, temperatureMilli);
    WeightOrder(scaled, Maximum(Scores(candidates)), temperatureMilli, candidates[j].adjustedScore, candidates[i].adjustedScore);
    ApportionedSize(weights, FREQUENCY_TOTAL, TableCounts(cumulative).value);
    ApportionedMonotone(weights, FREQUENCY_TOTAL, TableCounts(cumulative).value, i, j);
  }

  lemma SharesDescend(scaled: (int, int) -> real, t: CandidateTable, temperatureMilli: int)
    requires KeepsOrder(scaled) && 0 < temperatureMilli && |t.candidates| < FREQUENCY_TOTAL
    requires Shares(scaled, t.candidates, temperatureMilli, t.cumulative)
    requires forall i, j | 0 <= i < j < |t.candidates| :: t.candidates[j].adjustedScore <= t.candidates[i].adjustedScore
    ensures CountsDescend(t)
  {
    hide Shares, KeepsOrder;
    forall i, j | 0 <= i < j < |t.candidates|
      ensures t.cumulative[j + 1] - t.cumulative[j] <= t.cumulative[i + 1] - t.cumulative[i]
    {
      CountsFollowScores(scaled, t.candidates, temperatureMilli, t.cumulative, i, j);
    }
  }

  lemma ApportionedSize(weights: seq<int>, total: int, counts: seq<int>)
    requires Apportioned(weights, total, counts)
    ensures |counts| == |weights|
  {
  }

  // ----- the prompted model

  /** A prompt in front of the visible prefix is the context; the table is built from both. */
  method NextTable(model: LogitModel, scaled: (int, int) -> real, promptIds: seq<int>, config: CandidateConfig, prefix: seq<int>)
      returns (r: Result<CandidateTable, Error>)
    ensures r.Success? <==> Buildable(model, promptIds + prefix, prefix, config)
    ensures r.Success? ==> Built(model, scaled, promptIds + prefix, prefix, config, r.value)
    ensures r.Success? && KeepsOrder(scaled) ==> CountsDescend(r.value)
    ensures r.Failure? ==> Unbuildable(model, promptIds + prefix, prefix, config, r.error)
  {
    r := BuildCandidateTable(model, scaled, promptIds + prefix, prefix, config);
  }

  /** Every candidate of a built table is visible and tokenizes back behind the prefix it was built for. */
  lemma BuiltCopySafe(model: LogitModel, scaled: (int, int) -> real, context: seq<int>, prefix: seq<int>, config: CandidateConfig,
                      t: CandidateTable, i: nat)
    requires Built(model, scaled, context, prefix, config, t) && i < |t.candidates|
    ensures |t.candidates| == config.topK && model.detokenize(prefix).Success?
    ensures CopySafe(model, model.detokenize(prefix).value, prefix, t.candidates[i].tokenId)
    ensures t.candidates[i].tokenText == model.detokenize([t.candidates[i].tokenId]).value
  {
    hide Sort, Shares, CopySafe, Kept, Fills, Usable;
    var logits := model.rankedLogits(context, config.topK * config.multiplier).value;
    UsableFinite(model, logits);
    var m := KeptSource(model, model.detokenize(prefix).value, prefix, PoolRanking(logits), i);
  }

  /**
   A model whose tables are all built here offers only offerable tokens, as long as detokenizing goes token
   by token or undoes tokenizing: the filter joins the texts of prefix and token, and only then is that the
   text of the tokens.
   */
  lemma BuiltTablesSafe(model: LogitModel, scaled: (int, int) -> real, promptIds: seq<int>, config: CandidateConfig,
                        source: TokenModel, payload: TokenModel)
    requires payload.tokenize == model.tokenize && payload.detokenize == model.detokenize
    requires Appends(model.detokenize) || Lossless(model.tokenize, model.detokenize)
    requires forall prefix: seq<int> | source.nextTable(prefix).Success? ::
      Built(model, scaled, promptIds + prefix, prefix, config, source.nextTable(prefix).value)
    ensures SafeTables(source, payload)
  {
    hide Built, Appends, Lossless, CopySafe, Offerable;
    forall prefix: seq<int>, i: nat | source.nextTable(prefix).Success? && i < |source.nextTable(prefix).value.candidates|
      ensures Offerable(payload, prefix, source.nextTable(prefix).value.candidates[i].tokenId)
    {
      var t := source.nextTable(prefix).value;
      BuiltCopySafe(model, scaled, promptIds + prefix, prefix, config, t, i);
      CopySafeOfferable(model, payload, prefix, t.candidates[i].tokenId);
    }
  }

  lemma CopySafeOfferable(model: LogitModel, payload: TokenModel, prefix: seq<int>, tokenId: int)
    requires payload.tokenize == model.tokenize && payload.detokenize == model.detokenize
    requires Appends(model.detokenize) || Lossless(model.tokenize, model.detokenize)
    requires model.detokenize(prefix).Success? && CopySafe(model, model.detokenize(prefix).value, prefix, tokenId)
    ensures Offerable(payload, prefix, tokenId)
  {
  }

  // ----- the documented invariant

  /** `is_copy_safe`: the text of prefix and token together tokenizes back to them. */
  predicate IsCopySafe(model: LogitModel, prefix: seq<int>, tokenId: int) {
    var text := model.detokenize(prefix + [tokenId]);
    text.Success? && model.tokenize(text.value) == Success(prefix + [tokenId])
  }

  /** The text of prefix and token together is the text of the prefix and then that of the token. */
  predicate Joins(model: LogitModel, prefix: seq<int>, tokenId: int) {
    var before, own, text := model.detokenize(prefix), model.detokenize([tokenId]), model.detokenize(prefix + [tokenId]);
    before.Success? && own.Success? && text == Success(before.value + own.value)
  }

  /**
   The filter joins the texts of prefix and token; the documented invariant is about the text of the tokens.
   A candidate of a built table has the invariant if the detokenizer joins them to the same text and, for a
   tokenizer that gives different texts different tokens, only if it does.
   */
  lemma InvariantIff(model: LogitModel, scaled: (int, int) -> real, context: seq<int>, prefix: seq<int>, config: CandidateConfig,
                     t: CandidateTable, i: nat)
    requires Built(model, scaled, context, prefix, config, t) && i < |t.candidates|
    ensures Joins(model, prefix, t.candidates[i].tokenId) ==> IsCopySafe(model, prefix, t.candidates[i].tokenId)
    ensures Distinguishes(model.tokenize) ==>
      (IsCopySafe(model, prefix, t.candidates[i].tokenId) <==> Joins(model, prefix, t.candidates[i].tokenId))
  {
    hide Built;
    BuiltCopySafe(model, scaled, context, prefix, config, t, i);
  }

  /** A tokenizer for texts over two letters that contracts "aa" to "b" when it detokenizes. */
  function Contracting(): LogitModel {
    LogitModel(
      (_, requested) => if requested == 2 then Success([(0, Finite(2.0)), (1, Finite(1.0))]) else Failure(ModelFailure),
      {},
      ContractingTokens,
      ContractingText,
      _ => true)
  }

  function ContractingTokens(text: string): Result<seq<int>, Error> {
    if text == "a" then Success([0])
    else if text == "b" then Success([1])
    else if text == "aa" then Success([0, 0])
    else if text == "ab" then Success([0, 1])
    else Failure(UnknownText)
  }

  function ContractingText(tokens: seq<int>): Result<string, Error> {
    if tokens == [0] then Success("a")
    else if tokens == [1] || tokens == [0, 0] then Success("b")
    else if tokens == [0, 1] then Success("ab")
    else Failure(UnknownToken)
  }

  /** Behind the prefix "a" its table is built, with a candidate that does not have the documented invariant. */
  lemma InvariantCanFail(scaled: (int, int) -> real, context: seq<int>, t: CandidateTable)
    ensures Distinguishes(Contracting().tokenize)
    ensures Buildable(Contracting(), context, [0], Config(2, 1, 1000))
    ensures Built(Contracting(), scaled, context, [0], Config(2, 1, 1000), t) ==>
      t.candidates[0].tokenId == 0 && !IsCopySafe(Contracting(), [0], 0)
  {
    hide Sort, Kept, Usable, PoolRanking, FilledAt, Shares, ContractingTokens;
    var logits := Contracting().rankedLogits(context, 2).value;
    ContractingUsable(logits);
    ContractingRanking(logits);
    ContractingKept(PoolRanking(logits));
    ContractingTokenizer();
  }

  lemma ContractingTokenizer()
    ensures Distinguishes(Contracting().tokenize)
    ensures !IsCopySafe(Contracting(), [0], 0)
  {
    assert [0] + [0] == [0, 0] && [1] != [0, 0];
  }

  lemma ContractingUsable(logits: seq<(int, Logit)>)
    requires logits == [(0, Finite(2.0)), (1, Finite(1.0))]
    ensures Usable(Contracting(), logits)
  {
  }

  lemma ContractingRanking(logits: seq<(int, Logit)>)
    requires logits == [(0, Finite(2.0)), (1, Finite(1.0))]
    ensures PoolRanking(logits) == [Entry(2048, 0, 2.0), Entry(1024, 1, 1.0)]
  {
    assert PoolEntries(logits) == [Entry(2048, 0, 2.0), Entry(1024, 1, 1.0)];
    assert PoolEntries(logits)[1..] == [Entry(1024, 1, 1.0)] && PoolEntries(logits)[1..][1..] == [];
    assert Sort(PoolEntries(logits)[1..]) == [Entry(1024, 1, 1.0)];
  }

  lemma ContractingKept(ranked: seq<Entry<real>>)
    requires ranked == [Entry(2048, 0, 2.0), Entry(1024, 1, 1.0)]
    ensures FilledAt(Contracting(), "a", [0], ranked, 2, 2)
    ensures Kept(Contracting(), "a", [0], ranked)[0].tokenId == 0
  {
    var model := Contracting();
    assert "a" + "a" == "aa" && "a" + "b" == "ab" && [0] + [0] == [0, 0] && [0] + [1] == [0, 1];
    KeptNothing(model, "a", [0]);
    KeptNext(model, "a", [0], ranked, 0);
    KeptNext(model, "a", [0], ranked, 1);
    assert ranked[..0] == [] && ranked[..2] == ranked;
  }
}
