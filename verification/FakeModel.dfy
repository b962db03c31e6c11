/** The reversible tokenizer of the deterministic demo model: single characters and greedy merges. */
module FakeModel {
  import opened Wrappers
  import opened Errors
  import opened Candidates
  import opened Ranking

  /** Single characters numbered by position, merge tokens with their ids, and the text of every token. */
  datatype Vocabulary = Vocabulary(visible: string, merges: seq<(string, int)>, texts: map<int, string>)

  predicate Known(visible: string, text: string) {
    forall i | 0 <= i < |text| :: text[i] in visible
  }

  /** What construction establishes. */
  predicate Accepted(v: Vocabulary) {
    && (forall i | 0 <= i < |v.visible| :: i in v.texts && v.texts[i] == [v.visible[i]])
    && (forall k | 0 <= k < |v.merges| ::
          2 <= |v.merges[k].0| && Known(v.visible, v.merges[k].0) && v.merges[k].1 in v.texts && v.texts[v.merges[k].1] == v.merges[k].0)
    && forall j, k | 0 <= j < k < |v.merges| :: v.merges[j].1 != v.merges[k].1
  }

  lemma AddMerge(v: Vocabulary, text: string, tokenId: int)
    requires Accepted(v) && 2 <= |text| && tokenId !in v.texts && Known(v.visible, text)
    ensures Accepted(v.(merges := v.merges + [(text, tokenId)], texts := v.texts[tokenId := text]))
  {
    var r := v.(merges := v.merges + [(text, tokenId)], texts := v.texts[tokenId := text]);
    forall k | 0 <= k < |v.merges| ensures r.merges[k] == v.merges[k] && v.merges[k].1 != tokenId {
      assert v.merges[k].1 in v.texts;
    }
  }

  /** Merge `k` has two known characters or more, and an id that no single character and no earlier merge has. */
  predicate MergeableAt(visible: string, merges: seq<(string, int)>, k: nat)
    requires k < |merges|
  {
    var (text, tokenId) := merges[k];
    2 <= |text| && Known(visible, text) && |visible| <= tokenId && forall j | 0 <= j < k :: merges[j].1 != tokenId
  }

  predicate Mergeable(visible: string, merges: seq<(string, int)>) {
    forall k | 0 <= k < |merges| :: MergeableAt(visible, merges, k)
  }

  /** The ids taken by the single characters and the first `k` merges. */
  ghost predicate Taken(visible: string, merges: seq<(string, int)>, k: nat, texts: map<int, string>)
    requires k <= |merges|
  {
    forall id :: id in texts <==> 0 <= id < |visible| || exists j | 0 <= j < k :: merges[j].1 == id
  }

  lemma MergeableIff(visible: string, merges: seq<(string, int)>, k: nat, texts: map<int, string>)
    requires k < |merges| && Taken(visible, merges, k, texts)
    ensures MergeableAt(visible, merges, k) <==>
      2 <= |merges[k].0| && merges[k].1 !in texts && 0 <= merges[k].1 && Known(visible, merges[k].0)
    ensures Taken(visible, merges, k + 1, texts[merges[k].1 := merges[k].0])
  {
    hide Known;
    if merges[k].1 in texts && |visible| <= merges[k].1 {
      var j :| 0 <= j < k && merges[j].1 == merges[k].1;
    }
  }

  /** Adds the merge tokens to the single characters, refusing short, clashing or unknown ones. */
  method Build(visible: string, merges: seq<(string, int)>) returns (r: Result<Vocabulary, Error>)
    ensures r.Success? <==> Mergeable(visible, merges)
    ensures r.Success? ==> forall k | 0 <= k < |merges| ::
      && 2 <= |merges[k].0| && (forall c | c in merges[k].0 :: c in visible)
      && |visible| <= merges[k].1 && forall j | 0 <= j < k :: merges[j].1 != merges[k].1
    ensures r.Failure? ==> exists k | 0 <= k < |merges| ::
      || |merges[k].0| < 2 || (exists c | c in merges[k].0 :: c !in visible)
      || merges[k].1 < |visible| || exists j | 0 <= j < k :: merges[j].1 == merges[k].1
    ensures r.Success? ==> Accepted(r.value) && r.value.visible == visible && r.value.merges == merges
    ensures r.Failure? ==> r.error == ValueError
  {
    hide Accepted, Known, MergeableAt, Taken;
    var texts: map<int, string> := map i | 0 <= i < |visible| :: [visible[i]];
    SinglesTaken(visible, merges, texts);
    for k := 0 to |merges|
      invariant Accepted(Vocabulary(visible, merges[..k], texts)) && Taken(visible, merges, k, texts)
      invariant forall i | 0 <= i < k :: MergeableAt(visible, merges, i)
    {
      var (text, tokenId) := merges[k];
      MergeableIff(visible, merges, k, texts);
      if |text| < 2 || tokenId in texts || tokenId < 0 || !Known(visible, text) {
        NotMergeable(visible, merges, k);
        return Failure(ValueError);
      }
      AddMerge(Vocabulary(visible, merges[..k], texts), text, tokenId);
      assert merges[..k + 1] == merges[..k] + [(text, tokenId)];
      texts := texts[tokenId := text];
    }
    assert merges[..|merges|] == merges;
    AllMergeable(visible, merges);
    r := Success(Vocabulary(visible, merges, texts));
  }

  lemma AllMergeable(visible: string, merges: seq<(string, int)>)
    requires Mergeable(visible, merges)
    ensures forall k | 0 <= k < |merges| ::
      && 2 <= |merges[k].0| && (forall c | c in merges[k].0 :: c in visible)
      && |visible| <= merges[k].1 && forall j | 0 <= j < k :: merges[j].1 != merges[k].1
  {
    forall k | 0 <= k < |merges|
      ensures 2 <= |merges[k].0| && (forall c | c in merges[k].0 :: c in visible)
      ensures |visible| <= merges[k].1 && forall j | 0 <= j < k :: merges[j].1 != merges[k].1
    {
      assert MergeableAt(visible, merges, k);
    }
  }

  lemma NotMergeable(visible: string, merges: seq<(string, int)>, k: nat)
    requires k < |merges| && !MergeableAt(visible, merges, k)
    ensures || |merges[k].0| < 2 || (exists c | c in merges[k].0 :: c !in visible)
            || merges[k].1 < |visible| || exists j | 0 <= j < k :: merges[j].1 == merges[k].1
  {
    if !Known(visible, merges[k].0) {
      var i :| 0 <= i < |merges[k].0| && merges[k].0[i] !in visible;
      assert merges[k].0[i] in merges[k].0;
    }
  }

  lemma SinglesTaken(visible: string, merges: seq<(string, int)>, texts: map<int, string>)
    requires texts == map i | 0 <= i < |visible| :: [visible[i]]
    ensures Taken(visible, merges, 0, texts) && Accepted(Vocabulary(visible, merges[..0], texts))
  {
  }

  // ----- tokenizing

  function Entries(merges: seq<(string, int)>): (r: seq<Entry<string>>)
    ensures |r| == |merges| && forall k | 0 <= k < |r| :: r[k] == Entry(|merges[k].0|, merges[k].1, merges[k].0)
  {
    seq(|merges|, k requires 0 <= k < |merges| => Entry(|merges[k].0|, merges[k].1, merges[k].0))
  }

  /** The first item whose text begins the rest of the text. */
  function FirstMatch(items: seq<Entry<string>>, rest: string): (r: Option<Entry<string>>)
    ensures r.Some? ==> r.value in items && r.value.value <= rest
    ensures r.None? ==> forall x | x in items :: !(x.value <= rest)
  {
    if items == [] then None
    else if items[0].value <= rest then Some(items[0])
    else FirstMatch(items[1..], rest)
  }

  function PositionOf(visible: string, c: char): (i: nat)
    requires c in visible
    ensures i < |visible| && visible[i] == c
  {
    if visible[0] == c then 0 else 1 + PositionOf(visible[1..], c)
  }

  /** The token at the front of the rest of the text, and how many characters it takes. */
  function Token(v: Vocabulary, rest: string): (r: Result<(int, nat), Error>)
    requires rest != "" && Accepted(v)
    ensures r.Success? ==> 0 < r.value.1 <= |rest|
  {
    match FirstMatch(Sort(Entries(v.merges)), rest)
    case Some(item) =>
      assert item in Entries(v.merges);
      Success((item.id, |item.value|))
    case None => if rest[0] in v.visible then Success((PositionOf(v.visible, rest[0]), 1)) else Failure(UnknownText)
  }

  function Tokens(v: Vocabulary, rest: string): Result<seq<int>, Error>
    requires Accepted(v)
    decreases |rest|
  {
    if rest == "" then Success([]) else
      match Token(v, rest)
      case Failure(error) => Failure(error)
      case Success((id, length)) =>
        Follow([id], Tokens(v, rest[length..]))
  }

  /** Tokens found so far, then those of the rest. */
  function Follow(found: seq<int>, later: Result<seq<int>, Error>): Result<seq<int>, Error> {
    if later.Failure? then later else Success(found + later.value)
  }

  lemma FollowTwice(found: seq<int>, id: int, later: Result<seq<int>, Error>)
    ensures Follow(found, Follow([id], later)) == Follow(found + [id], later)
  {
    if later.Success? {
      assert found + ([id] + later.value) == (found + [id]) + later.value;
    }
  }

  lemma TokensFront(v: Vocabulary, rest: string)
    requires Accepted(v) && rest != ""
    ensures var token := Token(v, rest);
      Tokens(v, rest) == if token.Failure? then Failure(token.error)
                         else Follow([token.value.0], Tokens(v, rest[token.value.1..]))
  {
  }

  lemma TokensEnd(v: Vocabulary)
    requires Accepted(v)
    ensures Tokens(v, "") == Success([])
  {
  }

  lemma FollowNone(later: Result<seq<int>, Error>)
    ensures Follow([], later) == later
  {
    if later.Success? {
      assert [] + later.value == later.value;
    }
  }

  method Tokenize(v: Vocabulary, text: string) returns (r: Result<seq<int>, Error>)
    requires Accepted(v)
    ensures r == Tokens(v, text)
  {
    hide Token, Tokens;
    var result, offset := [], 0;
    assert text[0..] == text;
    FollowNone(Tokens(v, text));
    while offset < |text|
      invariant 0 <= offset <= |text|
      invariant Tokens(v, text) == Follow(result, Tokens(v, text[offset..]))
    {
      var token := Token(v, text[offset..]);
      TokensFront(v, text[offset..]);
      if token.Failure? {
        return Failure(token.error);
      }
      assert text[offset..][token.value.1..] == text[offset + token.value.1..];
      FollowTwice(result, token.value.0, Tokens(v, text[offset + token.value.1..]));
      result := result + [token.value.0];
      offset := offset + token.value.1;
    }
    assert text[offset..] == "";
    TokensEnd(v);
    assert result + [] == result;
    r := Success(result);
  }

  function Detokenize(v: Vocabulary, ids: seq<int>): Result<string, Error> {
    if ids == [] then Success("")
    else if ids[0] !in v.texts then Failure(UnknownToken)
    else
      var later := Detokenize(v, ids[1..]);
      if later.Failure? then later else Success(v.texts[ids[0]] + later.value)
  }

  /** A token stands for exactly the characters it takes. */
  lemma TokenText(v: Vocabulary, rest: string)
    requires Accepted(v) && rest != "" && Token(v, rest).Success?
    ensures var (id, length) := Token(v, rest).value; id in v.texts && v.texts[id] == rest[..length]
  {
    var item := FirstMatch(Sort(Entries(v.merges)), rest);
    if item.Some? {
      assert item.value in Entries(v.merges);
    }
  }

  /** Matching is greedy: no merge that begins the text is longer than the token chosen. */
  lemma LongestMatch(v: Vocabulary, rest: string, k: nat)
    requires Accepted(v) && rest != "" && k < |v.merges| && v.merges[k].0 <= rest
    ensures Token(v, rest).Success? && |v.merges[k].0| <= Token(v, rest).value.1
  {
    SortRanked(Entries(v.merges));
    assert Entries(v.merges)[k] in Sort(Entries(v.merges));
    FirstIsBest(Sort(Entries(v.merges)), rest, Entries(v.merges)[k]);
    assert FirstMatch(Sort(Entries(v.merges)), rest).value in Entries(v.merges);
  }

  lemma {:induction false} FirstIsBest(items: seq<Entry<string>>, rest: string, x: Entry<string>)
    requires Ranked(items) && x in items && x.value <= rest
    ensures FirstMatch(items, rest).Some? && x.score <= FirstMatch(items, rest).value.score
  {
    if items[0].value <= rest {
      var i :| 0 <= i < |items| && items[i] == x;
    } else {
      FirstIsBest(items[1..], rest, x);
    }
  }

  /** Tokenizing succeeds exactly on known characters, and detokenizing then gives the text back. */
  lemma {:induction false} TokenizeRoundTrip(v: Vocabulary, text: string)
    requires Accepted(v)
    ensures Tokens(v, text).Success? <==> Known(v.visible, text)
    ensures Tokens(v, text).Success? ==> Detokenize(v, Tokens(v, text).value) == Success(text)
    decreases |text|
  {
    hide Sort, FirstMatch;
    if text == "" {
    } else {
      var token := Token(v, text);
      if token.Success? {
        var (id, length) := token.value;
        TokenText(v, text);
        TokenizeRoundTrip(v, text[length..]);
        TokenKnown(v, text);
        KnownParts(v.visible, text, length);
        if Known(v.visible, text) {
          var ids := Tokens(v, text).value;
          assert ids[1..] == Tokens(v, text[length..]).value;
          assert text == text[..length] + text[length..];
        }
      } else {
        UnknownFront(v, text);
      }
    }
  }

  lemma UnknownFront(v: Vocabulary, rest: string)
    requires Accepted(v) && rest != "" && Token(v, rest).Failure?
    ensures rest[0] !in v.visible
  {
  }

  lemma TokenKnown(v: Vocabulary, rest: string)
    requires Accepted(v) && rest != "" && Token(v, rest).Success?
    ensures Known(v.visible, rest[..Token(v, rest).value.1])
  {
    var item := FirstMatch(Sort(Entries(v.merges)), rest);
    if item.Some? {
      assert item.value in Entries(v.merges);
    }
  }

  lemma KnownParts(visible: string, text: string, length: nat)
    requires length <= |text|
    ensures Known(visible, text) <==> Known(visible, text[..length]) && Known(visible, text[length..])
  {
    assert text == text[..length] + text[length..];
    if Known(visible, text[..length]) && Known(visible, text[length..]) {
      forall i | 0 <= i < |text| ensures text[i] in visible {
        if i < length {
          assert text[i] == text[..length][i];
        } else {
          assert text[i] == text[length..][i - length];
        }
      }
    }
  }

  /** Detokenizing goes token by token. */
  lemma {:induction false} DetokenizeAppends(v: Vocabulary, ids: seq<int>, id: int)
    requires Detokenize(v, ids).Success? && Detokenize(v, [id]).Success?
    ensures Detokenize(v, ids + [id]) == Success(Detokenize(v, ids).value + Detokenize(v, [id]).value)
  {
    if ids == [] {
      var last := Detokenize(v, [id]).value;
      assert [] + [id] == [id] && "" + last == last;
    } else {
      DetokenizeAppends(v, ids[1..], id);
      assert (ids + [id])[1..] == ids[1..] + [id];
      var own, rest, last := v.texts[ids[0]], Detokenize(v, ids[1..]).value, Detokenize(v, [id]).value;
      assert own + (rest + last) == (own + rest) + last;
    }
  }

  /** The demo tokenizer meets both conditions under which the copy-safe filter is sound. */
  lemma TokenizerLaws(v: Vocabulary)
    requires Accepted(v)
    ensures Appends(ids => Detokenize(v, ids))
    ensures Lossless((text: string) => Tokens(v, text), ids => Detokenize(v, ids))
  {
    forall ids: seq<int>, id: int | Detokenize(v, ids).Success? && Detokenize(v, [id]).Success?
      ensures Detokenize(v, ids + [id]) == Success(Detokenize(v, ids).value + Detokenize(v, [id]).value)
    {
      DetokenizeAppends(v, ids, id);
    }
    forall text: string | Tokens(v, text).Success? ensures Detokenize(v, Tokens(v, text).value) == Success(text) {
      TokenizeRoundTrip(v, text);
    }
  }

  /** Detokenizing succeeds exactly on known ids, and says so otherwise. */
  lemma {:induction false} DetokenizeKnown(v: Vocabulary, ids: seq<int>)
    ensures Detokenize(v, ids).Success? <==> forall i | 0 <= i < |ids| :: ids[i] in v.texts
    ensures Detokenize(v, ids).Failure? ==> Detokenize(v, ids).error == UnknownToken
  {
    if ids == [] {
    } else {
      DetokenizeKnown(v, ids[1..]);
      assert forall i | 0 < i < |ids| :: ids[i] == ids[1..][i - 1];
    }
  }

  lemma {:induction false} TokenizeRefusal(v: Vocabulary, text: string)
    requires Accepted(v)
    ensures Tokens(v, text).Failure? ==> Tokens(v, text).error == UnknownText
    decreases |text|
  {
    hide Sort, FirstMatch;
    if text != "" && Token(v, text).Success? {
      TokenizeRefusal(v, text[Token(v, text).value.1..]);
    }
  }
}
