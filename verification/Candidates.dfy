/** Candidate tables and the language-model interfaces built on them. */
module Candidates {
  import opened Wrappers
  import opened Errors
  import opened Frequencies

  datatype Candidate = Candidate(tokenId: int, tokenText: string, adjustedScore: int)

  datatype Table = Table(candidates: seq<Candidate>, cumulative: seq<int>)

  /** The checks made when a candidate table is constructed. */
  predicate WellFormed(t: Table) {
    && 2 <= |t.candidates|
    && |t.cumulative| == |t.candidates| + 1
    && IsCumulative(t.cumulative)
    && forall i, j | 0 <= i < j < |t.candidates| :: t.candidates[i].tokenId != t.candidates[j].tokenId
  }

  /** Tables that passed their construction checks; no others exist. */
  type CandidateTable = t: Table | WellFormed(t)
    witness Table([Candidate(0, "a", 0), Candidate(1, "b", 0)], [0, 1, 32768])

  /** A deterministic model: everything it offers is a function of the visible token prefix. */
  datatype TokenModel = TokenModel(
    nextTable: seq<int> -> Result<CandidateTable, Error>,
    tokenize: string -> Result<seq<int>, Error>,
    detokenize: seq<int> -> Result<string, Error>)

  /** The local finisher: the next greedy token, or nothing at the end of the text. */
  type GreedyModel = seq<int> -> Result<Option<int>, Error>

  // ----- what may be offered

  predicate Clean(text: string) {
    '\r' !in text && '\0' !in text
  }

  /**
   The token has a text of its own, without transport-breaking characters; this text is what the token adds
   to the prefix's text, and the two together tokenize back to exactly the prefix and the token.
   */
  predicate Offerable(model: TokenModel, prefix: seq<int>, tokenId: int) {
    var before, own := model.detokenize(prefix), model.detokenize([tokenId]);
    && before.Success? && own.Success? && own.value != "" && Clean(own.value)
    && model.detokenize(prefix + [tokenId]) == Success(before.value + own.value)
    && model.tokenize(before.value + own.value) == Success(prefix + [tokenId])
  }

  /** Detokenizing goes token by token: one more token appends its text. */
  ghost predicate Appends(detokenize: seq<int> -> Result<string, Error>) {
    forall tokens: seq<int>, tokenId: int | detokenize(tokens).Success? && detokenize([tokenId]).Success? ::
      detokenize(tokens + [tokenId]) == Success(detokenize(tokens).value + detokenize([tokenId]).value)
  }

  /** Detokenizing undoes tokenizing. */
  ghost predicate Lossless(tokenize: string -> Result<seq<int>, Error>, detokenize: seq<int> -> Result<string, Error>) {
    forall text: string | tokenize(text).Success? :: detokenize(tokenize(text).value) == Success(text)
  }

  /** Different texts have different tokens. */
  ghost predicate Distinguishes(tokenize: string -> Result<seq<int>, Error>) {
    forall x: string, y: string | tokenize(x).Success? && tokenize(x) == tokenize(y) :: x == y
  }

  lemma LosslessDistinguishes(tokenize: string -> Result<seq<int>, Error>, detokenize: seq<int> -> Result<string, Error>)
    requires Lossless(tokenize, detokenize)
    ensures Distinguishes(tokenize)
  {
    forall x: string, y: string | tokenize(x).Success? && tokenize(x) == tokenize(y) ensures x == y {
      assert detokenize(tokenize(x).value) == Success(x);
    }
  }

  /** Every token the source offers is offerable under the model's tokenizer. */
  ghost predicate SafeTables(source: TokenModel, model: TokenModel) {
    forall prefix: seq<int>, i: nat | source.nextTable(prefix).Success? && i < |source.nextTable(prefix).value.candidates| ::
      Offerable(model, prefix, source.nextTable(prefix).value.candidates[i].tokenId)
  }

  /** So is every token of the finish, after tokens that have a text. */
  ghost predicate SafeFinish(finish: GreedyModel, model: TokenModel) {
    forall prefix: seq<int> | model.detokenize(prefix).Success? && finish(prefix).Success? && finish(prefix).value.Some? ::
      Offerable(model, prefix, finish(prefix).value.value)
  }

  /** The first candidate with the given token id. */
  function IndexOf(t: CandidateTable, tokenId: int, from: nat := 0): (r: Option<nat>)
    requires from <= |t.candidates|
    ensures r.Some? ==> from <= r.value < |t.candidates| && t.candidates[r.value].tokenId == tokenId
    ensures r.None? ==> forall i | from <= i < |t.candidates| :: t.candidates[i].tokenId != tokenId
    decreases |t.candidates| - from
  {
    if from == |t.candidates| then None
    else if t.candidates[from].tokenId == tokenId then Some(from)
    else IndexOf(t, tokenId, from + 1)
  }

  /** Ids are unique, so looking up a candidate's id finds that candidate. */
  lemma IndexOfCandidate(t: CandidateTable, i: nat)
    requires i < |t.candidates|
    ensures IndexOf(t, t.candidates[i].tokenId) == Some(i)
  {
    var r := IndexOf(t, t.candidates[i].tokenId);
    assert r.Some?;
    if r.value < i {
    } else if i < r.value {
    }
  }
}
