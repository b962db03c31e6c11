/** Ranking by descending score, then ascending id: the order every candidate selection uses. */
module Ranking {

  datatype Entry<T> = Entry(score: int, id: int, value: T)

  predicate Before<T>(a: Entry<T>, b: Entry<T>) {
    b.score < a.score || (a.score == b.score && a.id < b.id)
  }

  predicate DistinctIds<T>(s: seq<Entry<T>>) {
    forall i, j | 0 <= i < j < |s| :: s[i].id != s[j].id
  }

  predicate Ranked<T>(s: seq<Entry<T>>) {
    forall i, j | 0 <= i < j < |s| :: Before(s[i], s[j])
  }

  function Insert<T(==,!new)>(x: Entry<T>, s: seq<Entry<T>>): (r: seq<Entry<T>>)
    ensures |r| == |s| + 1 && forall y :: y in r <==> y == x || y in s
  {
    if s == [] || Before(x, s[0]) then [x] + s else [s[0]] + Insert(x, s[1..])
  }

  /** `sort` with key (-score, id). */
  function Sort<T(==,!new)>(s: seq<Entry<T>>): (r: seq<Entry<T>>)
    ensures |r| == |s| && forall y :: y in r <==> y in s
  {
    if s == [] then [] else Insert(s[0], Sort(s[1..]))
  }

  lemma {:induction false} InsertRanked<T(!new)>(x: Entry<T>, s: seq<Entry<T>>)
    requires Ranked(s) && forall y | y in s :: y.id != x.id
    ensures Ranked(Insert(x, s))
  {
    if s == [] || Before(x, s[0]) {
    } else {
      InsertRanked(x, s[1..]);
      var rest := Insert(x, s[1..]);
      forall j | 0 <= j < |rest| ensures Before(s[0], rest[j]) {
        assert rest[j] == x || rest[j] in s[1..];
      }
    }
  }

  /** Entries with distinct ids sort into strict rank order. */
  lemma {:induction false} SortRanked<T(!new)>(s: seq<Entry<T>>)
    requires DistinctIds(s)
    ensures Ranked(Sort(s))
  {
    if s == [] {
    } else {
      SortRanked(s[1..]);
      forall y | y in Sort(s[1..]) ensures y.id != s[0].id {
        var j :| 0 <= j < |s[1..]| && s[1..][j] == y;
        assert s[j + 1] == y;
      }
      InsertRanked(s[0], Sort(s[1..]));
    }
  }

  lemma FirstOfRanked<T>(s: seq<Entry<T>>, x: Entry<T>)
    requires Ranked(s) && x in s
    ensures x == s[0] || Before(s[0], x)
  {
    var i :| 0 <= i < |s| && s[i] == x;
  }

  lemma SameFirst<T(!new)>(front: seq<Entry<T>>, all: seq<Entry<T>>)
    requires Ranked(front) && Ranked(all) && front != [] && front[0] in all
    requires forall x | x in all && x !in front :: Before(front[|front| - 1], x)
    ensures front[0] == all[0]
  {
    FirstOfRanked(all, front[0]);
    FirstOfRanked(front, front[|front| - 1]);
    if all[0] in front {
      FirstOfRanked(front, all[0]);
    }
  }

  /**
   A ranked selection is the front of the whole ranking exactly because everything it leaves out ranks
   after its last entry.
   */
  lemma {:induction false} RankedFront<T(!new)>(front: seq<Entry<T>>, all: seq<Entry<T>>)
    requires Ranked(front) && Ranked(all) && forall x | x in front :: x in all
    requires front != [] ==> forall x | x in all && x !in front :: Before(front[|front| - 1], x)
    ensures |front| <= |all| && front == all[..|front|]
  {
    if front == [] {
    } else {
      var last := front[|front| - 1];
      assert front[0] in all;
      SameFirst(front, all);
      forall x | x in front[1..] ensures x in all[1..] {
        assert x in all && x != front[0];
      }
      forall x | x in all[1..] && x !in front[1..] ensures |front| > 1 ==> Before(last, x) {
        var j :| 0 <= j < |all[1..]| && all[1..][j] == x;
        assert Before(all[0], all[j + 1]);
        assert x !in front;
      }
      RankedFront(front[1..], all[1..]);
      assert front == [front[0]] + front[1..] && all == [all[0]] + all[1..];
    }
  }
}
