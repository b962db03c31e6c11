/** Integer frequency tables. */
module Frequencies {
  import opened Wrappers

  const FREQUENCY_TOTAL := 32768

  /** What `table_counts` accepts: a strictly increasing table from 0 to the total with two symbols or more. */
  predicate IsCumulative(c: seq<int>) {
    && 3 <= |c|
    && c[0] == 0
    && c[|c| - 1] == FREQUENCY_TOTAL
    && forall i | 0 <= i < |c| - 1 :: c[i] < c[i + 1]
  }

  lemma {:induction false} CumulativeIncreases(c: seq<int>, i: nat, j: nat)
    requires IsCumulative(c) && i <= j < |c|
    ensures c[i] + (j - i) <= c[j]
  {
    if i == j {
    } else {
      CumulativeIncreases(c, i, j - 1);
      assert c[j - 1] < c[j - 1 + 1];
    }
  }

  lemma CumulativeBounds(c: seq<int>, i: nat)
    requires IsCumulative(c) && i < |c|
    ensures 0 <= c[i] <= FREQUENCY_TOTAL
    ensures i < |c| - 1 ==> c[i] < c[i + 1]
  {
    CumulativeIncreases(c, 0, i);
    CumulativeIncreases(c, i, |c| - 1);
  }

  lemma CumulativeAscends(c: seq<int>)
    requires IsCumulative(c)
    ensures forall i, j | 0 <= i < j < |c| :: c[i] < c[j]
  {
    forall i, j | 0 <= i < j < |c| ensures c[i] < c[j] {
      CumulativeIncreases(c, i, j);
    }
  }

  datatype FrequencyError = InvalidTable | NotIncreasing

  /** The counts of a cumulative table, or why it is not one. */
  function TableCounts(c: seq<int>): (r: Result<seq<int>, FrequencyError>)
    ensures r.Success? <==> IsCumulative(c)
    ensures r.Success? ==> |r.value| == |c| - 1 && forall i | 0 <= i < |r.value| :: 1 <= r.value[i] == c[i + 1] - c[i]
  {
    if |c| < 3 || c[0] != 0 || c[|c| - 1] != FREQUENCY_TOTAL then Failure(InvalidTable) else
      var counts := seq(|c| - 1, i requires 0 <= i < |c| - 1 => c[i + 1] - c[i]);
      assert forall i | 0 <= i < |counts| :: counts[i] == c[i + 1] - c[i];
      if exists i | 0 <= i < |counts| :: counts[i] <= 0 then Failure(NotIncreasing) else Success(counts)
  }
}
