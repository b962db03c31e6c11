/** The direct-logit adapter: exact top-k ranking from growing supersets, and the incremental context cache. */
module MlxAdapter {
  import opened Wrappers
  import opened Collections
  import opened Errors
  import opened Ranking
  import opened Rounding
  import opened Weights

  /** A float32 logit. */
  datatype Logit = Finite(value: real) | NonFinite

  function Quantize(value: real): int {
    RoundHalfEven(value * LOGIT_SCALE as real)
  }

  lemma QuantizeMonotone(x: real, y: real)
    requires x <= y
    ensures Quantize(x) <= Quantize(y)
  {
    RoundingMonotone(x * LOGIT_SCALE as real, y * LOGIT_SCALE as real);
  }

  /** A score is 1024 times the logit to the nearest integer, a tie going to the even one. */
  lemma QuantizeNearest(value: real)
    ensures -0.5 <= Quantize(value) as real - 1024.0 * value <= 0.5
    ensures Quantize(value) as real - 1024.0 * value == 0.5 || Quantize(value) as real - 1024.0 * value == -0.5 ==> Quantize(value) % 2 == 0
  {
    RoundingMonotone(value * LOGIT_SCALE as real, value * LOGIT_SCALE as real);
  }

  // ----- the exact ranking

  function Scored(values: seq<real>, ids: seq<nat>): (r: seq<Entry<real>>)
    requires forall i | 0 <= i < |ids| :: ids[i] < |values|
    ensures |r| == |ids| && forall i | 0 <= i < |ids| :: r[i] == Entry(Quantize(values[ids[i]]), ids[i], values[ids[i]])
  {
    seq(|ids|, i requires 0 <= i < |ids| => Entry(Quantize(values[ids[i]]), ids[i], values[ids[i]]))
  }

  function Eligible(scored: seq<Entry<real>>, excluded: set<int>): (r: seq<Entry<real>>)
    ensures forall x :: x in r <==> x in scored && x.id !in excluded
  {
    if scored == [] then [] else
      (if scored[0].id in excluded then [] else [scored[0]]) + Eligible(scored[1..], excluded)
  }

  /** The whole vocabulary, ranked: a full sort. */
  function FullRanking(values: seq<real>, excluded: set<int>): seq<Entry<real>> {
    Sort(Eligible(Scored(values, Range(|values|)), excluded))
  }

  /** What `argpartition` promises: all positions, with nothing before `k` above anything from `k` on. */
  predicate Partitions(ids: seq<nat>, values: seq<real>, k: nat) {
    && |ids| == |values| && k <= |ids| && Distinct(ids)
    && (forall i | 0 <= i < |ids| :: ids[i] < |values|)
    && forall i, j | 0 <= i < k <= j < |ids| :: values[ids[i]] <= values[ids[j]]
  }

  predicate Positions(ids: seq<nat>, n: nat) {
    Distinct(ids) && forall i | 0 <= i < |ids| :: ids[i] < n
  }

  /** No position left out has a higher raw logit than one that is in. */
  predicate Superset(ids: seq<nat>, values: seq<real>)
    requires Positions(ids, |values|)
  {
    forall v: nat, i | v < |values| && v !in ids && 0 <= i < |ids| :: values[v] <= values[ids[i]]
  }

  lemma {:induction false} EligibleDistinct(scored: seq<Entry<real>>, excluded: set<int>)
    requires DistinctIds(scored)
    ensures DistinctIds(Eligible(scored, excluded))
  {
    if scored == [] {
    } else {
      EligibleDistinct(scored[1..], excluded);
      forall x | x in Eligible(scored[1..], excluded) ensures x.id != scored[0].id {
        var j :| 0 <= j < |scored[1..]| && scored[1..][j] == x;
        assert scored[j + 1] == x;
      }
    }
  }

  /** Excluding ids removes at most as many entries as there are ids. */
  lemma {:induction false} EligibleCount(scored: seq<Entry<real>>, excluded: set<int>)
    requires DistinctIds(scored)
    ensures |scored| <= |Eligible(scored, excluded)| + |excluded|
  {
    if scored == [] {
    } else if scored[0].id in excluded {
      EligibleCount(scored[1..], excluded - {scored[0].id});
      EligibleSame(scored[1..], excluded, scored[0].id);
    } else {
      EligibleCount(scored[1..], excluded);
    }
  }

  lemma {:induction false} EligibleSame(scored: seq<Entry<real>>, excluded: set<int>, id: int)
    requires forall i | 0 <= i < |scored| :: scored[i].id != id
    ensures Eligible(scored, excluded - {id}) == Eligible(scored, excluded)
  {
    if scored == [] {
    } else {
      assert scored[0].id != id;
      EligibleSame(scored[1..], excluded, id);
    }
  }

  function LowestScore(scored: seq<Entry<real>>): (m: int)
    requires scored != []
    ensures forall x | x in scored :: m <= x.score
    ensures exists x | x in scored :: m == x.score
  {
    if |scored| == 1 then scored[0].score else
      var rest := LowestScore(scored[1..]);
      assert forall x | x in scored :: x == scored[0] || x in scored[1..];
      if scored[0].score < rest then scored[0].score else rest
  }

  /**
   If the last of the first `limit` entries of a superset's ranking beats the lowest fetched score, or the
   superset is everything, those entries are the first `limit` of the full sort.
   */
  lemma SupersetFront(values: seq<real>, ids: seq<nat>, excluded: set<int>, limit: nat)
    requires Positions(ids, |values|) && Superset(ids, values) && ids != []
    requires var ranked := Sort(Eligible(Scored(values, ids), excluded));
      1 <= limit <= |ranked| &&
      (|ids| == |values| || LowestScore(Scored(values, ids)) < ranked[limit - 1].score)
    ensures var full := FullRanking(values, excluded);
      limit <= |full| && Sort(Eligible(Scored(values, ids), excluded))[..limit] == full[..limit]
  {
    hide Sort, Eligible, Superset, Before, Ranked;
    var ranked, full := Sort(Eligible(Scored(values, ids), excluded)), FullRanking(values, excluded);
    RankingRanked(values, ids, excluded);
    RankingRanked(values, Range(|values|), excluded);
    var front := ranked[..limit];
    RankedPrefix(ranked, limit);
    forall x | x in front ensures x in full {
      assert x in ranked;
      InFullRanking(values, ids, excluded, x);
    }
    forall x | x in full && x !in front ensures Before(front[limit - 1], x) {
      OutsideFront(values, ids, excluded, limit, x);
    }
    RankedFront(front, full);
  }

  lemma RankedPrefix(ranked: seq<Entry<real>>, limit: nat)
    requires Ranked(ranked) && limit <= |ranked|
    ensures Ranked(ranked[..limit])
  {
  }

  lemma RankingRanked(values: seq<real>, ids: seq<nat>, excluded: set<int>)
    requires Positions(ids, |values|)
    ensures Ranked(Sort(Eligible(Scored(values, ids), excluded)))
  {
    EligibleDistinct(Scored(values, ids), excluded);
    SortRanked(Eligible(Scored(values, ids), excluded));
  }

  /** The full ranking holds the scored position of every id not excluded, and nothing else, by descending score and ascending id. */
  lemma FullRankingPlainly(values: seq<real>, excluded: set<int>)
    ensures var full := FullRanking(values, excluded);
      && (forall v: nat | v < |values| && v !in excluded :: Entry(Quantize(values[v]), v, values[v]) in full)
      && (forall i | 0 <= i < |full| ::
            0 <= full[i].id < |values| && full[i].id !in excluded
            && full[i].value == values[full[i].id] && full[i].score == Quantize(full[i].value))
      && forall i, j | 0 <= i < j < |full| ::
           full[j].score < full[i].score || (full[j].score == full[i].score && full[i].id < full[j].id)
  {
    hide Sort, Eligible, Quantize;
    var full, scored := FullRanking(values, excluded), Scored(values, Range(|values|));
    RankingRanked(values, Range(|values|), excluded);
    forall v: nat | v < |values| && v !in excluded ensures Entry(Quantize(values[v]), v, values[v]) in full {
      assert scored[v] == Entry(Quantize(values[v]), v, values[v]);
    }
    forall i | 0 <= i < |full|
      ensures 0 <= full[i].id < |values| && full[i].id !in excluded
      ensures full[i].value == values[full[i].id] && full[i].score == Quantize(full[i].value)
    {
      assert full[i] in full;
      assert full[i] in scored;
    }
    assert forall i, j | 0 <= i < j < |full| :: Before(full[i], full[j]);
  }

  lemma InFullRanking(values: seq<real>, ids: seq<nat>, excluded: set<int>, x: Entry<real>)
    requires forall i | 0 <= i < |ids| :: ids[i] < |values|
    requires x in Sort(Eligible(Scored(values, ids), excluded))
    ensures x in FullRanking(values, excluded)
  {
    assert x in Scored(values, ids);
    assert x == Scored(values, Range(|values|))[x.id];
  }

  lemma OutsideFront(values: seq<real>, ids: seq<nat>, excluded: set<int>, limit: nat, x: Entry<real>)
    requires Positions(ids, |values|) && Superset(ids, values) && ids != []
    requires var ranked := Sort(Eligible(Scored(values, ids), excluded));
      1 <= limit <= |ranked| && Ranked(ranked) && x !in ranked[..limit] &&
      (|ids| == |values| || LowestScore(Scored(values, ids)) < ranked[limit - 1].score)
    requires x in FullRanking(values, excluded)
    ensures Before(Sort(Eligible(Scored(values, ids), excluded))[limit - 1], x)
  {
    hide Sort, Quantize;
    var scored := Scored(values, ids);
    var ranked := Sort(Eligible(scored, excluded));
    assert x in Scored(values, Range(|values|)) && x.id !in excluded;
    var v: nat :| v < |values| && x == Entry(Quantize(values[v]), v, values[v]);
    if v in ids {
      var i :| 0 <= i < |ids| && ids[i] == v;
      assert scored[i] == x;
      assert x in ranked;
      AfterFront(ranked, limit, x);
    } else {
      DistinctCovers(ids, |values|, v);
      BelowFloor(values, ids, v);
    }
  }

  lemma AfterFront(ranked: seq<Entry<real>>, limit: nat, x: Entry<real>)
    requires 1 <= limit <= |ranked| && Ranked(ranked) && x in ranked && x !in ranked[..limit]
    ensures Before(ranked[limit - 1], x)
  {
    var p :| 0 <= p < |ranked| && ranked[p] == x;
    assert forall q | 0 <= q < limit :: ranked[..limit][q] == ranked[q];
    assert limit <= p;
  }

  /** A position left out scores no more than the lowest fetched score. */
  lemma BelowFloor(values: seq<real>, ids: seq<nat>, v: nat)
    requires Positions(ids, |values|) && Superset(ids, values) && ids != [] && v < |values| && v !in ids
    ensures Quantize(values[v]) <= LowestScore(Scored(values, ids))
  {
    var scored := Scored(values, ids);
    var low :| low in scored && low.score == LowestScore(scored);
    var i :| 0 <= i < |scored| && scored[i] == low;
    QuantizeMonotone(values[v], values[ids[i]]);
  }

  /** Distinct positions that miss one are fewer than the vocabulary. */
  lemma DistinctCovers(ids: seq<nat>, n: nat, v: nat)
    requires Positions(ids, n) && v < n && v !in ids
    ensures |ids| < n
  {
    DistinctSize(ids, Below(n) - {v});
  }

  // ----- the adapter

  /** A prompt cache: the tokens the model has evaluated into it. */
  class PromptCache {
    var content: seq<int>

    constructor ()
      ensures content == []
    {
      content := [];
    }
  }

  class MlxLanguageModel {
    const evaluate: seq<int> -> seq<Logit>            // last-position logits of a context in a fresh cache
    const argpartition: (seq<real>, nat) -> seq<nat>
    var cache: PromptCache?
    var lastContext: seq<int>
    ghost var fed: nat                                // how many tokens the model has been run on

    ghost predicate Valid()
      reads this, cache
    {
      && (cache != null ==> cache.content == lastContext)
      && forall values: seq<real>, k: nat {:trigger argpartition(values, k)} ::
           k <= |values| ==> Partitions(argpartition(values, k), values, k)
    }

    constructor (evaluate: seq<int> -> seq<Logit>, argpartition: (seq<real>, nat) -> seq<nat>)
      requires forall values: seq<real>, k: nat {:trigger argpartition(values, k)} ::
        k <= |values| ==> Partitions(argpartition(values, k), values, k)
      ensures Valid() && this.evaluate == evaluate && lastContext == []
    {
      this.evaluate, this.argpartition := evaluate, argpartition;
      cache, lastContext, fed := null, [], 0;
    }

    /** Runs the model on `inputs` after what the cache holds. */
    method Run(inputs: seq<int>) returns (logits: seq<Logit>)
      requires cache != null
      modifies cache, `fed
      ensures cache.content == old(cache.content) + inputs
      ensures logits == evaluate(cache.content) && fed == old(fed) + |inputs|
    {
      cache.content := cache.content + inputs;
      fed := fed + |inputs|;
      logits := evaluate(cache.content);
    }

    /** The logits after a context: always those of a full evaluation, at the cost of one token when the context grew by one. */
    method NextLogits(context: seq<int>) returns (r: Result<seq<Logit>, Error>)
      requires Valid()
      modifies this, cache
      ensures Valid() && (cache == old(cache) || fresh(cache))
      ensures context == [] ==> r == Failure(ModelFailure) && cache == old(cache) && lastContext == old(lastContext) && fed == old(fed)
      ensures context != [] ==> r == Success(evaluate(context)) && cache != null && lastContext == context
      ensures context != [] ==>
        fed == old(fed) + if old(cache) != null && context[..|context| - 1] == old(lastContext) then 1 else |context|
    {
      if context == [] {
        return Failure(ModelFailure);
      }
      var inputs;
      if cache != null && |context| == |lastContext| + 1 && context[..|context| - 1] == lastContext {
        inputs := [context[|context| - 1]];
        assert lastContext + inputs == context;
      } else {
        cache := new PromptCache();
        inputs := context;
        assert [] + inputs == context;
      }
      var logits := Run(inputs);
      lastContext := context;
      r := Success(logits);
    }

    /** The positions fetched: all of them, or the tail of a partition. */
    method Fetch(values: seq<real>, fetch: nat) returns (ids: seq<nat>)
      requires Valid() && fetch <= |values|
      ensures |ids| == fetch && Positions(ids, |values|) && Superset(ids, values)
    {
      if fetch == |values| {
        ids := Range(fetch);
        RangeCovers(fetch);
      } else {
        var cut := |values| - fetch;
        var partitioned := argpartition(values, cut);
        ids := partitioned[cut..];
        PartitionTail(partitioned, values, cut);
      }
    }

    /**
     Exactly the first `limit` entries of the full ranking without the excluded ids, found without sorting
     the vocabulary, however the partition breaks ties; there are never too few.
     */
    method RankedLogits(context: seq<int>, limit: int, excluded: set<int>) returns (r: Result<seq<(int, real)>, Error>)
      requires Valid()
      modifies this, cache
      ensures Valid() && (cache == old(cache) || fresh(cache))
      ensures r.Success? <==> 0 < limit && context != [] && limit + |excluded| <= |evaluate(context)| && AllFinite(evaluate(context))
      ensures r.Failure? ==> r.error == ModelFailure
      ensures r.Success? ==>
        var ranking := FullRanking(Values(evaluate(context)), excluded);
        limit <= |ranking| && r.value == Pairs(ranking[..limit])
    {
      if limit <= 0 {
        return Failure(ModelFailure);
      }
      var logits := NextLogits(context);
      if logits.Failure? {
        return Failure(logits.error);
      }
      if |logits.value| < limit + |excluded| || !AllFinite(logits.value) {
        return Failure(ModelFailure);
      }
      var ranked := TopOf(Values(logits.value), limit, excluded);
      r := Success(ranked);
    }

    method TopOf(values: seq<real>, limit: nat, excluded: set<int>) returns (r: seq<(int, real)>)
      requires Valid() && 0 < limit && limit + |excluded| <= |values|
      ensures limit <= |FullRanking(values, excluded)| && r == Pairs(FullRanking(values, excluded)[..limit])
    {
      var target := limit + |excluded|;
      var wanted := if target * 2 < target + 256 then target + 256 else target * 2;
      var fetch := if |values| < wanted then |values| else wanted;
      while true
        invariant target <= fetch <= |values|
        decreases |values| - fetch
      {
        var ids := Fetch(values, fetch);
        var complete;
        complete, r := Boundary(values, ids, limit, excluded);
        if complete {
          return;
        }
        fetch := if |values| < fetch * 2 then |values| else fetch * 2;
      }
    }

    /** Ranks the fetched positions and checks whether the requested boundary is provably complete. */
    method Boundary(values: seq<real>, ids: seq<nat>, limit: nat, excluded: set<int>) returns (complete: bool, r: seq<(int, real)>)
      requires Positions(ids, |values|) && Superset(ids, values)
      requires 0 < limit && limit + |excluded| <= |ids|
      ensures var ranked := Sort(Eligible(Scored(values, ids), excluded));
        && limit <= |ranked|
        && (complete <==> |ids| == |values| || LowestScore(Scored(values, ids)) < ranked[limit - 1].score)
      ensures complete ==> limit <= |FullRanking(values, excluded)| && r == Pairs(FullRanking(values, excluded)[..limit])
    {
      hide Sort, Eligible, Superset;
      var scored := Scored(values, ids);
      var eligible := Sort(Eligible(scored, excluded));
      EligibleCount(scored, excluded);
      assert limit <= |eligible|;  // never too few
      var cutoff := eligible[limit - 1].score;
      var fetchedFloor := LowestScore(scored);
      if |ids| == |values| || fetchedFloor < cutoff {
        SupersetFront(values, ids, excluded, limit);
        return true, Pairs(eligible[..limit]);
      }
      return false, [];
    }
  }

  /** The ids and raw values of ranked entries. */
  function Pairs(ranked: seq<Entry<real>>): (r: seq<(int, real)>)
    ensures |r| == |ranked| && forall i | 0 <= i < |r| :: r[i] == (ranked[i].id, ranked[i].value)
  {
    seq(|ranked|, i requires 0 <= i < |ranked| => (ranked[i].id, ranked[i].value))
  }

  predicate AllFinite(logits: seq<Logit>) {
    forall i | 0 <= i < |logits| :: logits[i].Finite?
  }

  function Values(logits: seq<Logit>): (r: seq<real>)
    requires AllFinite(logits)
    ensures |r| == |logits| && forall i | 0 <= i < |r| :: r[i] == logits[i].value
  {
    seq(|logits|, i requires 0 <= i < |logits| => logits[i].value)
  }

  lemma RangeCovers(n: nat)
    ensures forall v: nat | v < n :: v in Range(n)
  {
    forall v: nat | v < n ensures v in Range(n) {
      assert Range(n)[v] == v;
    }
  }

  lemma PartitionTail(ids: seq<nat>, values: seq<real>, k: nat)
    requires Partitions(ids, values, k)
    ensures Positions(ids[k..], |values|) && Superset(ids[k..], values)
  {
    forall v: nat, j | v < |values| && v !in ids[k..] && 0 <= j < |ids[k..]| ensures values[v] <= values[ids[k..][j]] {
      if v !in ids {
        DistinctCovers(ids, |values|, v);
      } else {
        var i :| 0 <= i < |ids| && ids[i] == v;
        assert forall q | k <= q < |ids| :: ids[k..][q - k] == ids[q];
        assert i < k;
        assert ids[k..][j] == ids[k + j];
      }
    }
  }
}
