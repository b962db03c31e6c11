/** Largest-remainder normalisation of weights to integer frequencies. */
module Apportionment {
  import opened Wrappers
  import opened Errors
  import opened Frequencies
  import opened Ranking
  import Floors

  function Sum(s: seq<int>): int {
    if s == [] then 0 else Sum(s[..|s| - 1]) + s[|s| - 1]
  }

  lemma {:induction false} SumUpdate(s: seq<int>, i: nat, v: int)
    requires i < |s|
    ensures Sum(s[i := v]) == Sum(s) - s[i] + v
  {
    var n := |s| - 1;
    assert s[i := v][..n] == if i < n then s[..n][i := v] else s[..n];
    if i < n {
      SumUpdate(s[..n], i, v);
    }
  }

  lemma {:induction false} SumPointwise(s: seq<int>, t: seq<int>)
    requires |s| == |t| && forall i | 0 <= i < |s| :: s[i] <= t[i]
    ensures Sum(s) <= Sum(t)
    ensures (exists i | 0 <= i < |s| :: s[i] < t[i]) ==> Sum(s) < Sum(t)
  {
    if s == [] {
    } else {
      SumPointwise(s[..|s| - 1], t[..|s| - 1]);
      if i :| 0 <= i < |s| && s[i] < t[i] && i < |s| - 1 {
        assert s[..|s| - 1][i] < t[..|s| - 1][i];
      }
    }
  }

  // ----- quotas

  function Quotient(weight: int, available: int, weightSum: int): int
    requires 0 < weightSum
  {
    weight * available / weightSum
  }

  function Remainder(weight: int, available: int, weightSum: int): int
    requires 0 < weightSum
  {
    weight * available % weightSum
  }

  /** Position `i` has a larger remainder than `j`, or the same one and an earlier index. */
  predicate Favoured(weights: seq<int>, available: int, i: nat, j: nat)
    requires i < |weights| && j < |weights| && 0 < Sum(weights)
  {
    var ri, rj := Remainder(weights[i], available, Sum(weights)), Remainder(weights[j], available, Sum(weights));
    rj < ri || (ri == rj && i < j)
  }

  /** Whether position `i` was given one of the missing units. */
  predicate Bonus(weights: seq<int>, available: int, counts: seq<int>, i: nat)
    requires i < |weights| == |counts| && 0 < Sum(weights)
  {
    counts[i] == 2 + Quotient(weights[i], available, Sum(weights))
  }

  /**
   The largest-remainder apportionment of `total`: every count is one plus its quota's floor, or one more;
   units go to favoured positions first; and the counts add up.
   */
  ghost predicate Apportioned(weights: seq<int>, total: int, counts: seq<int>) {
    var available := total - |weights|;
    && |counts| == |weights|
    && 0 < Sum(weights)
    && Sum(counts) == total
    && (forall i | 0 <= i < |weights| ::
          counts[i] == 1 + Quotient(weights[i], available, Sum(weights)) || Bonus(weights, available, counts, i))
    && (forall i, j | 0 <= i < |weights| && 0 <= j < |weights| ::
          Favoured(weights, available, i, j) && Bonus(weights, available, counts, j) ==> Bonus(weights, available, counts, i))
  }

  /** No apportionment gives a position less than another one does. */
  lemma ApportionedLeast(weights: seq<int>, total: int, x: seq<int>, y: seq<int>, i: nat)
    requires Apportioned(weights, total, x) && Apportioned(weights, total, y) && i < |x|
    ensures y[i] <= x[i]
  {
    hide Quotient, Remainder;
    var available := total - |weights|;
    if x[i] < y[i] {
      forall j | 0 <= j < |x| ensures x[j] <= y[j] {
        if Bonus(weights, available, x, j) {
          assert !Favoured(weights, available, i, j);
          assert Favoured(weights, available, j, i);
        }
      }
      SumPointwise(x, y);
      assert false;
    }
  }

  /** There is only one apportionment. */
  lemma ApportionedUnique(weights: seq<int>, total: int, x: seq<int>, y: seq<int>)
    requires Apportioned(weights, total, x) && Apportioned(weights, total, y)
    ensures x == y
  {
    forall i | 0 <= i < |x| ensures x[i] == y[i] {
      ApportionedLeast(weights, total, x, y, i);
      ApportionedLeast(weights, total, y, x, i);
    }
  }

  /** A larger weight, or an equal one at an earlier position, never gets a smaller count; and every count is positive. */
  lemma ApportionedMonotone(weights: seq<int>, total: int, counts: seq<int>, i: nat, j: nat)
    requires Apportioned(weights, total, counts) && i < |weights| && j < |weights| && |weights| < total
    requires weights[j] < weights[i] || (weights[j] == weights[i] && i < j)
    requires 0 <= weights[i] && 0 <= weights[j]
    ensures 1 <= counts[j] <= counts[i]
  {
    var available, w := total - |weights|, Sum(weights);
    Floors.MulLess(weights[j], weights[i], available);
    QuotientRemainder(weights[i] * available, weights[j] * available, w);
    QuotientNonNegative(weights[j], available, w);
    if Bonus(weights, available, counts, j) && counts[i] < counts[j] {
      assert Favoured(weights, available, i, j);
    }
  }

  lemma QuotientNonNegative(weight: int, available: int, d: int)
    requires 0 <= weight && 0 <= available && 0 < d
    ensures 0 <= Quotient(weight, available, d)
  {
    Floors.MulOrder(0, weight, available);
    Floors.QuotientAtLeast(weight * available, d, 0);
  }

  lemma QuotientRemainder(x: int, y: int, d: int)
    requires 0 < d && y <= x
    ensures y / d <= x / d
    ensures y / d == x / d ==> y % d <= x % d && (x == y <==> x % d == y % d)
  {
    Floors.QuotientAtLeast(x, d, y / d);
    Floors.DivBounds(y, d);
  }

  // ----- flooring

  function Floored(weights: seq<int>, available: int, weightSum: int): (r: seq<int>)
    requires 0 < weightSum
    ensures |r| == |weights| && forall i | 0 <= i < |r| :: r[i] == 1 + Quotient(weights[i], available, weightSum)
  {
    seq(|weights|, i requires 0 <= i < |weights| => 1 + Quotient(weights[i], available, weightSum))
  }

  function Remainders(weights: seq<int>, available: int, weightSum: int): (r: seq<int>)
    requires 0 < weightSum
    ensures |r| == |weights| && forall i | 0 <= i < |r| :: r[i] == Remainder(weights[i], available, weightSum)
  {
    seq(|weights|, i requires 0 <= i < |weights| => Remainder(weights[i], available, weightSum))
  }

  /** What flooring loses is what the remainders keep. */
  lemma {:induction false} DivisionSums(weights: seq<int>, available: int, d: int)
    requires 0 < d
    ensures d * (Sum(Floored(weights, available, d)) - |weights|) + Sum(Remainders(weights, available, d)) == available * Sum(weights)
    ensures 0 <= Sum(Remainders(weights, available, d))
    ensures weights != [] ==> Sum(Remainders(weights, available, d)) < |weights| * d
  {
    var n := |weights| - 1;
    if weights == [] {
    } else {
      var front, last := weights[..n], weights[n];
      DivisionSums(front, available, d);
      assert Floored(weights, available, d)[..n] == Floored(front, available, d);
      assert Remainders(weights, available, d)[..n] == Remainders(front, available, d);
      DivisionStep(Sum(Floored(front, available, d)) - n, Sum(Remainders(front, available, d)), Sum(front), last, available, d, n);
    }
  }

  lemma DivisionStep(quotients: int, remainders: int, sum: int, last: int, available: int, d: int, n: int)
    requires 0 < d && 0 <= n && d * quotients + remainders == available * sum && 0 <= remainders
    requires n == 0 ==> remainders == 0
    requires 0 < n ==> remainders < n * d
    ensures d * (quotients + Quotient(last, available, d)) + (remainders + Remainder(last, available, d)) == available * (sum + last)
    ensures 0 <= remainders + Remainder(last, available, d) < (n + 1) * d
  {
    var q, x := Quotient(last, available, d), last * available;
    Floors.DivBounds(x, d);
    assert x == d * q + x % d;
    assert d * (quotients + q) == d * quotients + d * q;
    assert available * (sum + last) == available * sum + x;
    assert (n + 1) * d == n * d + d;
  }

  /** The units missing after flooring: none or more, fewer than the positions, one per full share of remainder. */
  lemma MissingUnits(weights: seq<int>, total: int)
    requires weights != [] && 0 < Sum(weights)
    ensures var w := Sum(weights);
      var missing := total - Sum(Floored(weights, total - |weights|, w));
      0 <= missing < |weights| && w * missing == Sum(Remainders(weights, total - |weights|, w))
  {
    var available, w := total - |weights|, Sum(weights);
    var floored, kept := Sum(Floored(weights, available, w)) - |weights|, Sum(Remainders(weights, available, w));
    DivisionSums(weights, available, w);
    MissingShare(w, available, floored, kept, |weights|);
  }

  lemma MissingShare(w: int, available: int, floored: int, kept: int, n: int)
    requires 0 < w && w * floored + kept == available * w && 0 <= kept < n * w
    ensures w * (available - floored) == kept && 0 <= available - floored < n
  {
    assert w * (available - floored) == available * w - w * floored;
    Floors.MulLess(available - floored, 0, w);
    Floors.MulLess(n, available - floored, w);
  }

  // ----- the algorithm

  predicate Normalizable(weights: seq<int>, total: int) {
    2 <= |weights| < total && forall i | 0 <= i < |weights| :: 0 < weights[i]
  }

  lemma {:induction false} PositiveSum(weights: seq<int>)
    requires weights != [] && forall i | 0 <= i < |weights| :: 0 < weights[i]
    ensures 0 < Sum(weights)
  {
    if 1 < |weights| {
      PositiveSum(weights[..|weights| - 1]);
    } else {
      assert Sum(weights[..0]) == 0;
    }
  }

  function RemainderEntries(remainders: seq<int>): (r: seq<Entry<()>>)
    ensures DistinctIds(r) && |r| == |remainders|
    ensures forall i | 0 <= i < |r| :: r[i] == Entry(remainders[i], i, ())
  {
    seq(|remainders|, i requires 0 <= i < |remainders| => Entry(remainders[i], i, ()))
  }

  /** The first `k` positions of the order. */
  predicate Chosen(order: seq<Entry<()>>, k: nat, i: int)
    requires k <= |order|
  {
    exists m | 0 <= m < k :: order[m].id == i
  }

  method FrequencyCounts(weights: seq<int>, total: int) returns (r: Result<seq<int>, Error>)
    ensures r.Failure? <==> |weights| < 2 || total <= |weights| || exists i | 0 <= i < |weights| :: weights[i] <= 0
    ensures !Normalizable(weights, total) ==> r == Failure(ValueError)
    ensures Normalizable(weights, total) ==> r.Success? && Apportioned(weights, total, r.value)
  {
    var count := |weights|;
    if count < 2 || total <= count || exists i | 0 <= i < count :: weights[i] <= 0 {
      return Failure(ValueError);
    }
    hide Apportioned, Sort, Sum;
    PositiveSum(weights);
    var available, weightSum := total - count, Sum(weights);
    var counts, remainders := FloorQuotas(weights, available, weightSum);
    MissingUnits(weights, total);
    var missing := total - Sum(counts);
    SortRanked(RemainderEntries(remainders));
    var order := Sort(RemainderEntries(remainders));
    counts := AddUnits(counts, remainders, order, missing);
    ChosenApportioned(weights, total, order, missing, counts);
    r := Success(counts);
  }

  /** One plus the floor of every quota, and the remainders. */
  method FloorQuotas(weights: seq<int>, available: int, weightSum: int) returns (counts: seq<int>, remainders: seq<int>)
    requires 0 < weightSum
    ensures counts == Floored(weights, available, weightSum) && remainders == Remainders(weights, available, weightSum)
  {
    counts, remainders := [], [];
    for k := 0 to |weights|
      invariant |counts| == |remainders| == k
      invariant forall i | 0 <= i < k :: counts[i] == 1 + Quotient(weights[i], available, weightSum)
      invariant forall i | 0 <= i < k :: remainders[i] == Remainder(weights[i], available, weightSum)
    {
      var numerator := weights[k] * available;
      counts := counts + [1 + numerator / weightSum];
      remainders := remainders + [numerator % weightSum];
    }
  }

  /** One unit for each of the first `missing` positions of the order. */
  method AddUnits(floored: seq<int>, remainders: seq<int>, order: seq<Entry<()>>, missing: nat) returns (counts: seq<int>)
    requires |floored| == |remainders| && missing <= |order|
    requires order == Sort(RemainderEntries(remainders)) && Ranked(order)
    ensures |counts| == |floored| && Sum(counts) == Sum(floored) + missing
    ensures forall i | 0 <= i < |floored| :: counts[i] == floored[i] + if Chosen(order, missing, i) then 1 else 0
  {
    counts := floored;
    for k := 0 to missing
      invariant |counts| == |floored| && Sum(counts) == Sum(floored) + k
      invariant forall i | 0 <= i < |floored| :: counts[i] == floored[i] + if Chosen(order, k, i) then 1 else 0
    {
      var index := order[k].id;
      OrderIds(remainders, order, k);
      SumUpdate(counts, index, counts[index] + 1);
      counts := counts[index := counts[index] + 1];
    }
  }

  /** The order's ids are positions, and no position comes twice. */
  lemma OrderIds(remainders: seq<int>, order: seq<Entry<()>>, k: nat)
    requires order == Sort(RemainderEntries(remainders)) && Ranked(order) && k < |order|
    ensures 0 <= order[k].id < |remainders| && order[k].score == remainders[order[k].id]
    ensures !Chosen(order, k, order[k].id)
    ensures forall i :: Chosen(order, k + 1, i) <==> Chosen(order, k, i) || i == order[k].id
  {
    assert order[k] in RemainderEntries(remainders);
    forall m | 0 <= m < k ensures order[m].id != order[k].id {
      assert order[m] in RemainderEntries(remainders);
      assert Before(order[m], order[k]);
    }
    forall i ensures Chosen(order, k + 1, i) <==> Chosen(order, k, i) || i == order[k].id {
      if i == order[k].id { assert order[k].id == i; }
    }
  }

  lemma ChosenApportioned(weights: seq<int>, total: int, order: seq<Entry<()>>, missing: nat, counts: seq<int>)
    requires Normalizable(weights, total) && 0 < Sum(weights) && missing < |weights|
    requires order == Sort(RemainderEntries(Remainders(weights, total - |weights|, Sum(weights)))) && Ranked(order)
    requires |counts| == |weights| && Sum(counts) == total
    requires forall i | 0 <= i < |weights| ::
      counts[i] == Floored(weights, total - |weights|, Sum(weights))[i] + if Chosen(order, missing, i) then 1 else 0
    ensures Apportioned(weights, total, counts)
  {
    hide Quotient, Remainder, Sum, Sort;
    var available, w := total - |weights|, Sum(weights);
    var remainders := Remainders(weights, available, w);
    forall i, j | 0 <= i < |weights| && 0 <= j < |weights| && Favoured(weights, available, i, j) && Bonus(weights, available, counts, j)
      ensures Bonus(weights, available, counts, i)
    {
      var m :| 0 <= m < missing && order[m].id == j;
      assert RemainderEntries(remainders)[i] in order;
      var p :| 0 <= p < |order| && order[p] == RemainderEntries(remainders)[i];
      OrderIds(remainders, order, m);
      assert Before(order[p], order[m]);
      assert p < m;
    }
  }

  /** The units given, in shares of the weight sum. */
  function Given(counts: seq<int>, floored: seq<int>, w: int): (r: seq<int>)
    requires |counts| == |floored|
    ensures |r| == |counts| && forall j | 0 <= j < |r| :: r[j] == w * (counts[j] - floored[j])
  {
    seq(|counts|, j requires 0 <= j < |counts| => w * (counts[j] - floored[j]))
  }

  /** If a whole quota got a unit, then every position got at least its remainder's share. */
  lemma GivenCovers(weights: seq<int>, total: int, counts: seq<int>, i: nat, j: nat)
    requires Apportioned(weights, total, counts) && i < |weights| && j < |weights|
    requires Bonus(weights, total - |weights|, counts, i) && Remainder(weights[i], total - |weights|, Sum(weights)) == 0
    ensures var available, w := total - |weights|, Sum(weights);
      Remainder(weights[j], available, w) <= w * (counts[j] - Floored(weights, available, w)[j])
  {
    var available, w := total - |weights|, Sum(weights);
    RemainderBound(weights[j] * available, w);
    if 0 < Remainder(weights[j], available, w) {
      assert Favoured(weights, available, j, i);
    }
    ShareCovers(Remainder(weights[j], available, w), w, counts[j] - Floored(weights, available, w)[j]);
  }

  lemma ShareCovers(kept: int, w: int, units: int)
    requires 0 <= kept < w && (units == 1 || (units == 0 && kept == 0))
    ensures kept <= w * units
  {
  }

  /** A missing unit goes only to a position whose quota was not whole. */
  lemma BonusHasRemainder(weights: seq<int>, total: int, counts: seq<int>, i: nat)
    requires weights != [] && Apportioned(weights, total, counts) && i < |weights|
    requires Bonus(weights, total - |weights|, counts, i)
    ensures 0 < Remainder(weights[i], total - |weights|, Sum(weights))
  {
    hide Sum, Apportioned;
    var available, w := total - |weights|, Sum(weights);
    assert |counts| == |weights| && 0 < w && Sum(counts) == total by { ApportionedSums(weights, total, counts); }
    var kept, floored := Remainders(weights, available, w), Floored(weights, available, w);
    RemainderBound(weights[i] * available, w);
    if Remainder(weights[i], available, w) == 0 {
      var given := Given(counts, floored, w);
      forall j | 0 <= j < |weights| ensures kept[j] <= given[j] {
        GivenCovers(weights, total, counts, i, j);
      }
      assert kept[i] < given[i];
      SumPointwise(kept, given);
      SumScaled(counts, floored, w);
      MissingUnits(weights, total);
      assert false;
    }
  }

  lemma ApportionedSums(weights: seq<int>, total: int, counts: seq<int>)
    requires Apportioned(weights, total, counts)
    ensures |counts| == |weights| && 0 < Sum(weights) && Sum(counts) == total
  {
  }

  lemma RemainderBound(x: int, d: int)
    requires 0 < d
    ensures 0 <= x % d < d
  {
  }

  lemma {:induction false} SumScaled(x: seq<int>, y: seq<int>, w: int)
    requires |x| == |y|
    ensures Sum(Given(x, y, w)) == w * (Sum(x) - Sum(y))
  {
    var n := |x| - 1;
    if x == [] {
    } else {
      SumScaled(x[..n], y[..n], w);
      assert Given(x, y, w)[..n] == Given(x[..n], y[..n], w);
      Distribute(w, Sum(x[..n]) - Sum(y[..n]), x[n] - y[n]);
    }
  }

  lemma Distribute(w: int, a: int, b: int)
    ensures w * a + w * b == w * (a + b)
  {
  }

  // ----- cumulative tables

  lemma DifferencesCounted(c: seq<int>, counts: seq<int>)
    requires 2 <= |counts| && |c| == |counts| + 1 && c[0] == 0 && c[|c| - 1] == FREQUENCY_TOTAL
    requires forall i | 0 <= i < |counts| :: 0 < counts[i] == c[i + 1] - c[i]
    ensures IsCumulative(c) && TableCounts(c) == Success(counts)
  {
    forall i | 0 <= i < |c| - 1 ensures c[i] < c[i + 1] {
      assert 0 < counts[i];
    }
    assert TableCounts(c).value == counts;
  }

  method CumulativeCounts(counts: seq<int>) returns (r: Result<seq<int>, Error>)
    ensures r.Success? <==> 2 <= |counts| && (forall i | 0 <= i < |counts| :: 0 < counts[i]) && Sum(counts) == FREQUENCY_TOTAL
    ensures r.Failure? ==> r.error == ValueError
    ensures r.Success? ==> IsCumulative(r.value) && TableCounts(r.value) == Success(counts)
  {
    hide IsCumulative, TableCounts;
    if |counts| < 2 || exists i | 0 <= i < |counts| :: counts[i] <= 0 {
      return Failure(ValueError);
    }
    var cumulative := [0];
    for k := 0 to |counts|
      invariant |cumulative| == k + 1 && cumulative[0] == 0 && cumulative[k] == Sum(counts[..k])
      invariant forall i | 0 <= i < k :: cumulative[i + 1] - cumulative[i] == counts[i]
    {
      assert counts[..k + 1][..k] == counts[..k];
      cumulative := cumulative + [cumulative[|cumulative| - 1] + counts[k]];
    }
    assert counts[..|counts|] == counts;
    if cumulative[|cumulative| - 1] == FREQUENCY_TOTAL {
      DifferencesCounted(cumulative, counts);
    }
    if cumulative[|cumulative| - 1] != FREQUENCY_TOTAL {
      return Failure(ValueError);
    }
    r := Success(cumulative);
  }

  /**
   The apportionment in plain numbers: every count is one, its quota's floor, and a unit or not; a position with a
   unit has the larger remainder than one without, or the same one and the smaller index; the counts add up.
   */
  lemma ApportionedPlainly(weights: seq<int>, total: int, counts: seq<int>, i: nat, j: nat)
    requires Apportioned(weights, total, counts) && i < |weights| && j < |weights|
    ensures |counts| == |weights| && 0 < Sum(weights) && Sum(counts) == total
    ensures var available, w := total - |weights|, Sum(weights);
      var x, y := weights[i] * available, weights[j] * available;
      && (counts[i] == 1 + x / w || counts[i] == 1 + x / w + 1)
      && (counts[i] == 1 + x / w + 1 && counts[j] == 1 + y / w ==> y % w < x % w || (y % w == x % w && i < j))
  {
    hide Sum;
    var available, w := total - |weights|, Sum(weights);
    if counts[i] == 2 + Quotient(weights[i], available, w) && counts[j] == 1 + Quotient(weights[j], available, w) {
      UnitFavoured(weights, total, counts, i, j);
    }
  }

  lemma UnitFavoured(weights: seq<int>, total: int, counts: seq<int>, i: nat, j: nat)
    requires Apportioned(weights, total, counts) && i < |counts| && j < |counts|
    requires Bonus(weights, total - |weights|, counts, i) && counts[j] == 1 + Quotient(weights[j], total - |weights|, Sum(weights))
    ensures Favoured(weights, total - |weights|, i, j)
  {
    hide Quotient, Remainder, Sum;
    assert !Bonus(weights, total - |weights|, counts, j);
    assert !Favoured(weights, total - |weights|, j, i);
  }
}
