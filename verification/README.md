# Covermail codec, proved

Covermail hides an encrypted packet in the token choices of a language model. The sender runs a 32-bit
arithmetic *decoder* over the packet bits to choose tokens and mirrors the receiver's arithmetic *encoder*
to know which bits are already confirmed. The receiver re-runs that encoder on the tokens it sees, reads a
self-delimiting length from the first recovered bytes without resetting the coder, and stops as soon as the
packet is complete. This project models that codec, the tables and framing around it, the exact ranking the
tables come from, and the job manager of the local application.

How the argument goes:

- An encoder state stands for the set of bit streams it still encloses (`ArithmeticCoding.Encloses`). Each
  shift and each narrowing changes this set exactly as the inverse decoder's choices do, so after any run,
  under tables that change at every symbol, the enclosed streams are exactly those that decode to the
  symbols consumed (`CoderRuns.EnclosedIffDecodes`). Lockstep of decoder and mirror, the tiling of
  subintervals and the unreachable error branches follow from this one equivalence.
- The payload codec is a pair of functions of the token prefix (`Payload.Send`, `Payload.Receive`). They are
  proved to be each other's inverse in both directions: what is sent is received, at the same last token and
  whatever follows; and what is received could have been sent (`Payload.DecodesIffEncodable`,
  `PacketHeader.PacketDecodesIffEncodable`).
- The tables' copy-safe filter is what encoding's last checks rest on (`Sections.CopySafeRenders`): with it only
  the text's length can still be refused, and `PromptedModel` shows that built tables and the greedy finisher
  supply it. A model of two equal tokens shows that every packet has an encoding (`HalvesModel`).
- The source's loops and objects are methods and classes (`Arithmetic`, `BitBuffers`, `Generative`, `Varint`,
  `Apportionment`, `CandidateBuilder`, `MlxAdapter`, `PromptedModel`, `FakeModel`) whose contracts equate them with these functions.
- What the functions behind these contracts do is said once more without them, in plain numbers and conditions
  and in both directions: when the sender stops and the receiver cuts (`PayloadRuns`), what a built table holds
  (`BuiltTables`), what a finish, a rendered or an accepted text is (`Sections`), and every refusal in its order.
- The job manager is a machine of interleaved steps (`Jobs`): the thread inside the lock, the worker thread
  and the executor each advance by one observable read or write at a time, and the claims hold for every run.
  `JobOutcomes` says how jobs end and `JobAdmission` which are admitted, evicted and started, in which order.

Modelling choices:

- A language model is a deterministic function of the visible prefix that returns a table or fails. Tables
  are values that passed their construction checks (`Candidates.CandidateTable`).
  The sender, the receiver and the sampler check a table again before use; that check cannot fail on such values.
- The random suffix, the prefix sampler's draws and the transport's line endings are parameters, so every
  claim is for all of them.
- `emit_bit` callbacks become the returned sequence of emitted bits; the caller passes them on in order.
- UTF-8, DEFLATE and HPKE are parameters with inverse-pair laws (`InnerFrame.Lawful`, `Service.Inverse`);
  `argpartition` is any function with the partition law. The scaled exponential e^(n/d) * 2^24, as 50-digit
  decimals give it, is any function of n and d that keeps order in n and is 2^24 at zero. Logits are reals
  that already have float32 values, or non-finite.
- Bit-ors with clear bits and masks that drop nothing are written as sums, next to the proof that they are.
- The copy-safe filter follows the code, which tokenizes the joined texts of prefix and token; docs/protocol.md,
  section 8, states the invariant for the text of the tokens. `CandidateBuilder.InvariantCanFail` gives a tokenizer
  under which a table is built that breaks the invariant, `InvariantIff` says exactly when a candidate has it, and
  `BuiltTablesSafe` gives two laws under which all have.
- The inner frame follows the code, which starts with a version byte that the prose of docs/protocol.md,
  section 6, does not list.

## Model

| member | source | states |
|---|---|---|
| ArithmeticCoding.BoundsTile | src/covermail/codec/arithmetic.py:37-45 | a settled range is at least 2^30 + 2, its subintervals lie in order inside it from end to end, and each holds at least 2^15 codes |
| ArithmeticCoding.BoundIsShare | src/covermail/codec/arithmetic.py:43-45 | every subinterval bound is the count's exact share of the range, out of 32768, rounded down |
| ArithmeticCoding.BisectRight | src/covermail/codec/arithmetic.py:39 | the bisection splits an ascending table into the entries at most x and those above it |
| ArithmeticCoding.PickIsInterval | src/covermail/codec/arithmetic.py:38-45 | the scaled search never leaves the table and picks a symbol exactly when the code lies in its subinterval |
| ArithmeticCoding.RenormalizeDoubles | src/covermail/codec/arithmetic.py:91-106 | renormalising doubles the range once for every bit confirmed or made pending |
| ArithmeticCoding.ConfirmingShift | src/covermail/codec/arithmetic.py:92-96 | a confirming shift keeps exactly the streams whose next bits are those emitted, and the decoder's shift agrees |
| ArithmeticCoding.StraddleShift | src/covermail/codec/arithmetic.py:98-101 | a straddle shift keeps exactly the streams that continue the pending run, and the decoder's shift agrees |
| ArithmeticCoding.RenormalizeEncloses | src/covermail/codec/arithmetic.py:91-106 | the renormalisation loop changes neither the enclosed streams nor the agreement of the two coders, for any pending count |
| ArithmeticCoding.NarrowEncloses | src/covermail/codec/arithmetic.py:86-89 | narrowing to a symbol keeps exactly the enclosed streams from which the decoder picks it |
| ArithmeticCoding.StepEncloses | src/covermail/codec/arithmetic.py:82-106 | consuming a symbol keeps exactly the enclosed streams whose decoder picks that symbol, and leaves both coders with the same registers |
| ArithmeticCoding.InitialEncloses | src/covermail/codec/arithmetic.py:21-27 | the initial encoder encloses every stream, beside a decoder loaded with its first 32 bits |
| CoderRuns.EnclosedIffDecodes | src/covermail/codec/arithmetic.py:35-106 | after any symbols under any tables the encoder encloses a stream if and only if the stream decodes to those symbols, and then the registers agree |
| CoderRuns.Lockstep | src/covermail/codec/generative.py:147-172 | decoder and mirror have equal low and high, bits read are confirmed plus pending plus 32, and every confirmed bit is the stream's |
| CoderRuns.IntervalsDisjoint | src/covermail/codec/arithmetic.py:86-89 | different symbol strings have no stream in common |
| CoderRuns.EnclosedIffInRange | src/covermail/codec/arithmetic.py:76-106 | enclosure is numeric: the stream's first bits as a number lie between the value of confirmed bits, straddle offset and low, and the same with high |
| CoderRuns.StepShifts | src/covermail/codec/arithmetic.py:91-106 | one symbol causes at most seventeen shifts |
| CoderRuns.RunShiftsAtMost | src/covermail/codec/arithmetic.py:91-106 | n symbols confirm or hold pending at most 17n bits |
| CoderRuns.StalledStep | src/covermail/codec/arithmetic.py:86-89 | a symbol without a shift shrinks the range by at least 2^15 |
| CoderRuns.StallBound | src/covermail/codec/arithmetic.py:82-106 | any 98304 consecutive symbols, under any tables, cause a shift |
| Arithmetic.Mask | src/covermail/codec/arithmetic.py:61-63 | the mask leaves every 32-bit value as it is |
| Arithmetic.LoadedCode | src/covermail/codec/arithmetic.py:26-27 | loading the register bit by bit never overflows 32 bits |
| Arithmetic.SourceReader.ReadBit | src/covermail/codec/generative.py:147-151 | each read returns the stream's bit at the offset and advances by one |
| Arithmetic.ArithmeticSymbolDecoder.constructor | src/covermail/codec/arithmetic.py:21-27 | the register holds the next 32 stream bits, most significant first |
| Arithmetic.ArithmeticSymbolDecoder.Symbol | src/covermail/codec/arithmetic.py:35-64 | a bad table fails and changes nothing; otherwise symbol and registers are those of the decoder step, with masks in place and no symbol outside the table |
| Arithmetic.ArithmeticSymbolDecoder.Select | src/covermail/codec/arithmetic.py:37-45 | picks the symbol that holds the code and narrows to it |
| Arithmetic.ArithmeticSymbolDecoder.Pass | src/covermail/codec/arithmetic.py:47-63 | one loop pass stops exactly on a settled interval and otherwise performs the shift with one stream bit |
| Arithmetic.ArithmeticBitEncoder.Output | src/covermail/codec/arithmetic.py:76-80 | emits the bit and then its complement once for each pending bit, which are then used up |
| Arithmetic.ArithmeticBitEncoder.Symbol | src/covermail/codec/arithmetic.py:82-106 | bad tables and symbols fail and change nothing; otherwise the registers are those of the encoder step and the returned bits are those emitted |
| Arithmetic.ArithmeticBitEncoder.Pass | src/covermail/codec/arithmetic.py:91-106 | one loop pass stops exactly on a settled interval and otherwise performs the shift |
| BitBuffers.SetShiftedBits | src/covermail/codec/bits.py:51-52 | or-ing one shifted bit sets that bit and no other |
| BitBuffers.BitsWeigh | src/covermail/codec/bits.py:24-29 | a byte is the sum of its bits, the first weighing 128 |
| BitBuffers.FramedParts | src/covermail/codec/bits.py:24-36 | bit k of byte i is bit 8i + k of the stream, and the suffix follows the bytes |
| BitBuffers.AlternatesFromOne | src/covermail/codec/bits.py:17 | the default suffix alternates and starts with one |
| BitBuffers.FramedBitSource.BitAt | src/covermail/codec/bits.py:24-36 | data bits MSB-first then cached suffix bits, at their offsets; each suffix offset is drawn once, in order, only as far as asked; negative offsets and non-bits fail |
| BitBuffers.BitCollector.Append | src/covermail/codec/bits.py:46-53 | appends one bit to the collected bits, or refuses a non-bit and changes nothing |
| BitBuffers.BitCollector.BitAt | src/covermail/codec/bits.py:55-58 | reads back the bit appended at that offset, and fails outside |
| BitBuffers.BitCollector.Bytes | src/covermail/codec/bits.py:60-61 | the whole bytes of the collected bits, a partial one withheld |
| BitBuffers.CompleteBytesOfBits | src/covermail/codec/bits.py:24-61 | packing the bits of some bytes, with any bits after them, gives those bytes back |
| BitBuffers.BitsOfCompleteBytes | src/covermail/codec/bits.py:24-61 | unpacking packed bytes gives the collected bits up to the last whole byte |
| Frequencies.TableCounts | src/covermail/codec/frequencies.py:69-75 | succeeds exactly on strictly increasing tables from 0 to 32768 with two symbols, with their differences |
| Apportionment.FrequencyCounts | src/covermail/codec/frequencies.py:31-55 | fails exactly on fewer than two weights, as many as the total, or a weight below one; otherwise the result is the largest-remainder apportionment and adds up to the total |
| Apportionment.FloorQuotas | src/covermail/codec/frequencies.py:38-46 | one plus the quota's floor, and the remainder, for every weight |
| Apportionment.AddUnits | src/covermail/codec/frequencies.py:49-51 | exactly the first missing positions of the order get one unit each |
| Apportionment.MissingUnits | src/covermail/codec/frequencies.py:48 | the missing units are none or more, fewer than the weights, and account exactly for the remainders |
| Apportionment.ApportionedUnique | src/covermail/codec/frequencies.py:31-55 | there is only one apportionment, so sender and receiver agree on it |
| Apportionment.ApportionedPlainly | src/covermail/codec/frequencies.py:38-51 | in plain numbers: each count is one, its quota's floor and a unit or none; a position with a unit has the larger remainder than one without, or the same and the smaller index; the sum is the total |
| Apportionment.ApportionedMonotone | src/covermail/codec/frequencies.py:31-55 | counts are positive, and a larger weight, or an equal one earlier, never gets the smaller count |
| Apportionment.BonusHasRemainder | src/covermail/codec/frequencies.py:48-51 | a missing unit never goes to a position whose quota was whole |
| Apportionment.CumulativeCounts | src/covermail/codec/frequencies.py:58-66 | succeeds exactly on two or more positive counts adding up to 32768, with a valid table whose counts are those |
| Weights.DeterministicWeights | src/covermail/codec/frequencies.py:12-28 | fails exactly on empty scores or a temperature outside 100..2000; otherwise each weight is the decimal exponential at 1000(score - best) over 1024 T, rounded half to even, and at least one |
| Weights.WeightOrder | src/covermail/codec/frequencies.py:23-27 | weights are positive, keep the order of the scores, and the best score weighs 2^24 |
| Weights.WeightOfExponent | src/covermail/codec/frequencies.py:22-27 | for an exponential of the ratio a weight is its nearest integer at 1000(score - best) / (1024 T), a tie going to the even one, and at least one |
| Weights.TemperatureScales | src/covermail/codec/frequencies.py:22-27 | a gap weighs at one temperature as k times the gap does at k times the temperature |
| Rounding.RoundingMonotone | src/covermail/codec/candidates.py:98-103 | half-even rounding moves by at most a half, by a half only to an even number, fixes integers and keeps order |
| Candidates.IndexOf | src/covermail/codec/generative.py:273-282 | finds a candidate with the token id, or there is none |
| Candidates.IndexOfCandidate | src/covermail/codec/candidates.py:42-44 | ids are unique, so the receiver's lookup of a chosen token gives the sender's symbol |
| Ranking.SortRanked | src/covermail/models/mlx_adapter.py:280 | sorting by (-score, id) puts distinct ids in strict rank order |
| Ranking.RankedFront | src/covermail/models/mlx_adapter.py:241-246 | a ranked selection that everything left out ranks after is the front of the full ranking |
| CandidateBuilder.RankPool | src/covermail/codec/candidates.py:146-163 | succeeds exactly on the requested number of fresh, non-special, finite entries, ranked; otherwise the error is that of the first entry that cannot be used, or else of the size |
| CandidateBuilder.Collect | src/covermail/codec/candidates.py:165-185 | succeeds exactly when the scan meets top-k visible copy-safe entries before the tokenizer raises, with the first of them in order; otherwise the error is the tokenizer's, or too few |
| CandidateBuilder.KeptSource | src/covermail/codec/candidates.py:167-180 | every candidate is a copy-safe entry of the ranking with its text and quantised score |
| CandidateBuilder.KeptOrdered | src/covermail/codec/candidates.py:163-182 | candidates have distinct ids and non-increasing scores |
| CandidateBuilder.ShareTable | src/covermail/codec/candidates.py:186-189 | the cumulative table holds the apportioned shares of the candidates' weights; no step fails |
| CandidateBuilder.BuildCandidateTable | src/covermail/codec/candidates.py:139-189 | a table is built exactly when the pool allows it, holds exactly the first top-k copy-safe entries and their apportioned shares, and its counts never rise along the ranking; otherwise the error is that of the first question that goes wrong |
| CandidateBuilder.SharesUnique | src/covermail/codec/candidates.py:186-189 | the frequency table is determined by the candidates |
| CandidateBuilder.CountsFollowScores | src/covermail/codec/candidates.py:186-189 | with an order-keeping exponential a candidate that stands before another and scores no less never has the smaller count |
| CandidateBuilder.NextTable | src/covermail/codec/candidates.py:216-218 | the prompted model's table is the one built for prompt and prefix joined, with that method's whole contract |
| CandidateBuilder.BuiltCopySafe | src/covermail/codec/candidates.py:167-182 | every candidate of a built table is visible, carries its own text, and tokenizes back behind the prefix |
| CandidateBuilder.BuiltTablesSafe | src/covermail/codec/candidates.py:165-182 | when detokenizing goes token by token or undoes tokenizing, every token of every built table adds its clean text to the prefix's and tokenizes back |
| CandidateBuilder.InvariantIff | docs/protocol.md:104-109 | a candidate of a built table has the documented invariant if detokenizing prefix and token gives the joined texts, and, for a tokenizer that gives different texts different tokens, only if it does |
| CandidateBuilder.InvariantCanFail | src/covermail/codec/candidates.py:165-180 | under a tokenizer that contracts "aa" to "b", behind the prefix "a" a table is built, and every such table offers a token that is not `is_copy_safe` |
| BuiltTables.UsableIff | src/covermail/codec/candidates.py:146-160 | a pool is usable exactly when its ids are non-negative, not special and distinct and its logits finite |
| BuiltTables.PoolRefusedAt | src/covermail/codec/candidates.py:150-162 | a refused pool names its first bad id or logit, or its size when all entries are good |
| BuiltTables.PoolRankedPlainly | src/covermail/codec/candidates.py:163 | the ranked pool has the pool's entries by descending score and ascending id |
| BuiltTables.KeptAt | src/covermail/codec/candidates.py:167-182 | an entry becomes a candidate exactly when its text is not empty, has no CR or NUL, encodes, and tokenizes back behind the prefix's text |
| BuiltTables.FillsWhenAnswered | src/covermail/codec/candidates.py:167-185 | while the tokenizer answers a table fills up exactly when the ranking holds top-k candidates, and otherwise too few are reported |
| BuiltTables.CandidatePlainly | src/covermail/codec/candidates.py:146-182 | every candidate of a built table is an ordinary token with its own visible text that tokenizes back |
| BuiltTables.SharesPlainly | src/covermail/codec/candidates.py:186-189 | the table's counts apportion 32768 by the weights of the scores relative to the best candidate at the configured temperature |
| MlxAdapter.QuantizeMonotone | src/covermail/codec/candidates.py:98-103 | quantised scores keep the order of raw logits |
| MlxAdapter.QuantizeNearest | src/covermail/codec/candidates.py:98-103 | a score is the integer nearest to 1024 times the logit, a tie going to the even one |
| MlxAdapter.EligibleCount | src/covermail/models/mlx_adapter.py:279-282 | excluding ids removes at most as many entries, so there are never too few |
| MlxAdapter.SupersetFront | src/covermail/models/mlx_adapter.py:275-286 | when the boundary score beats the fetched floor, or all is fetched, the fetched ranking's front is the full sort's |
| MlxAdapter.FullRankingPlainly | src/covermail/models/mlx_adapter.py:275-280 | the full sort holds every id not excluded once, with its logit and score, by descending score and ascending id |
| MlxAdapter.MlxLanguageModel.NextLogits | src/covermail/models/mlx_adapter.py:216-232 | over any sequence of returning calls the cache holds the last context and the logits are those of a full evaluation, at one token's cost when the context grew by one |
| MlxAdapter.MlxLanguageModel.Fetch | src/covermail/models/mlx_adapter.py:262-271 | the fetched positions are distinct and nothing left out has a higher raw logit |
| MlxAdapter.MlxLanguageModel.Boundary | src/covermail/models/mlx_adapter.py:275-286 | complete exactly when everything was fetched or the cutoff score is above the fetched floor, and then the front of the full ranking is returned |
| MlxAdapter.MlxLanguageModel.TopOf | src/covermail/models/mlx_adapter.py:259-287 | the growing loop ends with the first entries of the full ranking, however the partition breaks ties |
| MlxAdapter.MlxLanguageModel.RankedLogits | src/covermail/models/mlx_adapter.py:234-287 | fails exactly on a bad limit, an empty context, too small a vocabulary or a non-finite logit; otherwise exactly the first entries of the full sort without the excluded ids |
| PromptedModel.RankedLogits | src/covermail/models/mlx_adapter.py:289-302 | both ranking calls return the front of the whole vocabulary's ranking without the excluded ids, or the adapter's refusal |
| PromptedModel.PoolIsFront | src/covermail/codec/candidates.py:146-163 | that pool is always usable, and ranking it again gives the front of the vocabulary's ranking |
| PromptedModel.ExactCandidates | src/covermail/codec/candidates.py:139-189 | over the adapter a table's candidates are the first top-k copy-safe entries of the whole vocabulary's ranking, for every pool multiplier |
| PromptedModel.ExactPoolAccepted | src/covermail/codec/candidates.py:150-162 | over the adapter none of the three pool refusals occurs: a table fails because the adapter does not rank, the tokenizer raises, or too few entries are copy-safe |
| PromptedModel.NextGreedyToken | src/covermail/codec/candidates.py:220-240 | the answer is that of the first ranked token not passed over, in the ranking of the prompt and the last visible tokens within the context limit; or the adapter's failure, a wrong count, or none left |
| PromptedModel.ContextParts | src/covermail/codec/candidates.py:221-224 | the context is the prompt and then the whole visible prefix, or its last tokens up to the limit |
| PromptedModel.FirstDecides | src/covermail/codec/candidates.py:232-240 | the first ranked token that is not skipped decides: end of text, a token, or an error; none means failure |
| PromptedModel.ScanTakes | src/covermail/codec/candidates.py:232-240 | a token returned is ranked, no end or special token, visible, and has the documented invariant |
| PromptedModel.GreedySafe | src/covermail/codec/candidates.py:220-240 | when detokenizing goes token by token, every token the finisher returns adds its clean text and tokenizes back |
| PromptedModel.PromptedCarrier | src/covermail/codec/carrier.py:40-72 | with prompted models and the greedy finisher over such a tokenizer, a carrier whose sections could be made is refused for its length alone |
| Payload.Choose | src/covermail/codec/generative.py:169-170 | the symbol chosen keeps the source stream enclosed |
| Payload.ConfirmedBytes | src/covermail/codec/generative.py:285-286 | the bytes confirmed so far begin the packet, or the packet begins them |
| Payload.SendAppends | src/covermail/codec/generative.py:166-193 | a successful sender only appends, reports how many tokens, and stays within the guard |
| Payload.ReceiveReplays | src/covermail/codec/generative.py:269-312 | from any common state the receiver finds the sender's packet at the sender's last token, and fails on anything shorter |
| Payload.PayloadRoundTrip | src/covermail/codec/generative.py:134-312 | every encoded payload, followed by any tokens, decodes to its header and capsule and stops at exactly the sender's last token |
| Payload.TruncationFails | src/covermail/codec/generative.py:269-312 | every strict truncation of an encoded payload fails because the carrier ends |
| Payload.PayloadsPrefixFree | src/covermail/codec/generative.py:308-312 | a payload that begins another is that other, with the same packet |
| Payload.ReceivedPacket | src/covermail/codec/generative.py:308-311 | a received packet is cut from the front of the final confirmed bits and has two non-empty sections |
| Payload.AnnouncedOnceComplete | src/covermail/codec/generative.py:285-291 | with a self-delimiting header the receiver knows the layout no later than the packet is complete |
| Payload.FinalAnnounced | src/covermail/codec/generative.py:285-291 | the layout used is what the resolver says of the final bytes |
| Payload.SendRetraces | src/covermail/codec/generative.py:166-193 | on every stream the receiver's final state encloses, the sender chooses exactly the received tokens |
| Payload.AcceptedIsEncodable | src/covermail/codec/generative.py:134-312 | for whatever the receiver accepts within the guard there is a random suffix with which the sender chooses it |
| Payload.DecodesIffEncodable | src/covermail/codec/generative.py:134-312 | tokens are a possible encoding of a packet if and only if they are within the guard and decode to it, ending at the last |
| Payload.PayloadTokens | src/covermail/codec/generative.py:165-193 | a payload of n bytes takes at least 8n/17 tokens and at most 64n + 1024 |
| PayloadRuns.EncodeStops | src/covermail/codec/generative.py:134-193 | exactly what encoding n bytes gives: the unguarded sender, stopped when 8n bits are confirmed, at the model's failure, or with no progress when it wants another token after 64n + 1024 and the model has one |
| PayloadRuns.WithinGuard | src/covermail/codec/generative.py:165-193 | a payload the unguarded sender completes within 64n + 1024 tokens is encoded just so |
| PayloadRuns.NoProgressIff | src/covermail/codec/generative.py:165-192 | no progress is reported exactly when 64n + 1024 tokens leave bits unconfirmed and the model answers once more |
| PayloadRuns.DecodeEnds | src/covermail/codec/generative.py:250-312 | exactly what the receiver gives: the resolver is asked from one confirmed byte on until its first answer, and the run ends with the packet cut once complete, at a token it cannot read, at a bad answer, or at the last token |
| Generative.Confirm | src/covermail/codec/generative.py:156-160 | reading back confirmed bits never draws a new suffix bit, and reports exactly the mismatches |
| Generative.MirrorSymbol | src/covermail/codec/generative.py:170-172 | the mirror consumes a symbol and its bits agree with the source |
| Generative.EncodeSymbol | src/covermail/codec/generative.py:167-172 | decoder and mirror stay in step and desynchronisation is never reported |
| Generative.EncodeTokens | src/covermail/codec/generative.py:166-193 | the loop over live coder objects computes the sender function, and its desynchronisation error never occurs |
| Generative.EncodePayload | src/covermail/codec/generative.py:134-193 | the whole payload method computes the payload function, with its error cases |
| Generative.Collect | src/covermail/codec/generative.py:263-266 | appends the emitted bits in order |
| Generative.ResolveLayout | src/covermail/codec/generative.py:285-291 | asks from one whole byte on and until known, and refuses non-positive lengths |
| Generative.DecodePayload | src/covermail/codec/generative.py:250-312 | the loop over live encoder and collector computes the receiver function from any start, a negative one counting from the end, with its error cases |
| Generative.GeneratePrefixTokens | src/covermail/codec/generative.py:98-131 | computes the sampled prefix, refusing bad counts and draws |
| Generative.EncodeCarrierSections | src/covermail/codec/generative.py:196-247 | computes the carrier in the order of the source; its tokens are the payload's and then the finisher's own answers up to the budget or its end of text, and its text is theirs and tokenizes back |
| Generative.DecodeCarrierSections | src/covermail/codec/generative.py:315-344 | computes the decoded sections for any prefix count, with the structural and tokenizer checks in order |
| Sections.Drawn | src/covermail/codec/generative.py:112-117 | the sampled symbol is the one whose share holds the draw, so shares are exact probabilities |
| Sections.PrefixSampled | src/covermail/codec/generative.py:108-131 | the prefix has the length asked for and each token is the one its draw selects |
| Sections.FinishAppends | src/covermail/codec/generative.py:212-218 | the finish only appends |
| Sections.FinishFollows | src/covermail/codec/generative.py:212-218 | the finish adds the finisher's answers one by one and ends with the budget, with its end of text, or with its first failure |
| Sections.SectionsEncoded | src/covermail/codec/generative.py:196-247 | a carrier is encoded exactly when payload, finish, text and checks are as stated; both directions |
| Sections.SectionsNotEncoded | src/covermail/codec/generative.py:196-233 | otherwise the reason is the budget, the payload, the finisher's first failure, or the text, in this order |
| Sections.RenderedIff | src/covermail/codec/generative.py:231-233 | tokens render exactly when their text tokenizes back, is not empty, keeps the limit and has no CR or NUL |
| Sections.RenderRefusals | src/covermail/codec/generative.py:231-233 | the refusals of a text, in the order of the checks |
| Sections.AcceptedText | src/covermail/codec/generative.py:315-344 | a text decodes exactly when it is canonical, within the limit, the text of its own tokens, longer than the prefix, and its payload decodes |
| Sections.RefusedText | src/covermail/codec/generative.py:327-332 | the refusals before the payload is read, in the order of the checks |
| Sections.PythonSlices | src/covermail/codec/generative.py:269-333 | a prefix count slices from the front, a negative one from the end, and a negative start wraps |
| Sections.PrefixCount | src/covermail/codec/generative.py:106-107 | counts below one are refused, and otherwise the prefix is sampled from nothing |
| Sections.SampleStops | src/covermail/codec/generative.py:108-117 | sampling fails exactly at the first table that fails or draw outside the total |
| Sections.PrefixRenders | src/covermail/codec/generative.py:98-131 | a prefix sampled from copy-safe tables has a clean text that tokenizes back to it |
| Sections.CopySafeRenders | src/covermail/codec/generative.py:196-247 | when every offered and finish token is copy-safe and visible, the text always tokenizes back and is never empty or non-canonical: encoding succeeds exactly within the character limit |
| Sections.SectionsRoundTrip | src/covermail/codec/generative.py:196-344 | the text of an encoded carrier decodes to its prefix, header and capsule, stopping where B/C ended |
| Sections.FinishIgnored | src/covermail/codec/generative.py:326-344 | any text whose tokens begin with A, B and C decodes to the same packet |
| Varint.EncodeUvarint | src/covermail/protocol/varint.py:4-14 | refuses negatives and otherwise builds the LEB128 encoding |
| Varint.DecodeUvarint | src/covermail/protocol/varint.py:17-36 | decodes at an offset with the source's error cases; the accumulated bits never overlap |
| Varint.EncodingShape | src/covermail/protocol/varint.py:9-14 | an encoding spells its value and ends at its first byte without a continuation bit |
| Varint.DecodesIffEncoded | src/covermail/protocol/varint.py:17-36 | decoding gives (v, length) if and only if the encoding of v, within the limit, stands at the offset |
| Varint.EncodingPrefixFree | src/covermail/protocol/varint.py:4-14 | no encoding begins another |
| Varint.StrictPrefixIncomplete | src/covermail/protocol/varint.py:24-27 | a strict prefix of an encoding is incomplete, never wrong |
| Varint.EncodingLength | src/covermail/protocol/varint.py:4-14 | one, two or three bytes below 2^7, 2^14 and 2^21 |
| Varint.DecodingRefusals | src/covermail/protocol/varint.py:17-36 | each refusal exactly: offset outside, bad limit, continuation bytes up to the limit, or the data ending among them |
| Varint.EndedDigits | src/covermail/protocol/varint.py:28-33 | digits that end in time decode to their value exactly when they are its encoding, and are non-canonical otherwise |
| PacketHeader.PackHeaderTotal | src/covermail/protocol/packet.py:13-19 | packing fails only on the length bounds, and headers have one to three bytes |
| PacketHeader.ParsesIffPacked | src/covermail/protocol/packet.py:22-31 | parsing finds a length exactly when the bytes begin with its packed header |
| PacketHeader.ParseGrowingPrefix | src/covermail/protocol/packet.py:22-31 | on growing prefixes of a packet the answer is None until the header is complete, then one fixed answer, never an error |
| PacketHeader.ValidIffPacked | src/covermail/protocol/packet.py:34-46 | a packet validates exactly when its header is the packed length of its capsule |
| PacketHeader.ParseRefusals | src/covermail/protocol/packet.py:22-31 | more bytes are asked for exactly while fewer than three all continue, and lengths outside 51..131072 are refused as such |
| PacketHeader.ValidationRefusals | src/covermail/protocol/packet.py:34-46 | the refusals of a whole packet in order: header, incomplete, trailing bytes, length mismatch |
| PacketHeader.PackedLengths | src/covermail/protocol/packet.py:13-19 | exactly the lengths 51 to 131072 have a header |
| PacketHeader.PacketAnnounced | src/covermail/codec/carrier.py:85-93 | the resolver announces every packet with a packed header |
| PacketHeader.PacketSelfDelimiting | src/covermail/codec/carrier.py:85-93 | the resolver depends on the header bytes and nothing after them |
| PacketHeader.DecodedValidates | src/covermail/protocol/packet.py:44-46 | whatever the receiver accepts validates |
| PacketHeader.PacketDecodesIffEncodable | src/covermail/codec/generative.py:134-312 | for real packets: tokens within the guard decode to a packet, ending at the last, if and only if the header is packed and some suffix makes the sender choose them |
| InnerFrame.PackedSize | src/covermail/protocol/inner_frame.py:15-32 | packing fails exactly on unencodable or overlong text, and frames have 3 bytes to 5 plus the text's |
| InnerFrame.PackedForm | src/covermail/protocol/inner_frame.py:15-32 | the flag is set and the body deflated exactly when that is shorter; unencodable and overlong texts are told apart |
| InnerFrame.UnpackPacked | src/covermail/protocol/inner_frame.py:15-75 | every packed secret unpacks to itself, compressed or raw |
| InnerFrame.UnpackedForm | src/covermail/protocol/inner_frame.py:51-75 | a frame that unpacks is version, flag, the canonical length of the text's bytes, and a body for exactly them |
| InnerFrame.FormUnpacks | src/covermail/protocol/inner_frame.py:51-75 | conversely every frame of this form unpacks to its text |
| InnerFrame.InflatedIff | src/covermail/protocol/inner_frame.py:35-48 | inflating is accepted exactly when the stream gives no more than the length, ends, and leaves nothing over |
| InnerFrame.InflationRefusals | src/covermail/protocol/inner_frame.py:35-48 | a stream is too long exactly when it gives more than the length, and malformed otherwise |
| InnerFrame.UnpackRefusals | src/covermail/protocol/inner_frame.py:51-75 | the refusals of a frame, in the order of the checks |
| Service.EncryptedShape | src/covermail/service.py:28-40 | encryption fails only for address, secret or cipher; capsules have 51 to 65588 bytes, headers one to three, and packets validate |
| Service.EncryptedIff | src/covermail/service.py:28-40 | encryption gives a packet exactly when the address is valid, the secret packs, and sealing it under prefix and header gives the announced length |
| Service.UnexpectedLength | src/covermail/service.py:37-39 | a sealed capsule of another length is an error of its own |
| Service.DecryptEncrypted | src/covermail/service.py:28-59 | an encrypted secret decrypts under the same prefix to itself |
| Service.DecryptedIff | src/covermail/service.py:43-59 | decryption gives a secret exactly when address and packet are valid, the capsule opens under prefix and header, and what it holds unpacks; the id is the capsule's digest |
| Service.DecryptionRefusals | src/covermail/service.py:43-59 | its refusals in order: address, packet, cipher, frame |
| CarrierCodec.CanonicalAfterTransport | src/covermail/cover/transport.py:8-13 | canonical text comes back from a transport that keeps LF or turns it into CRLF or CR |
| CarrierCodec.CanonicalIff | src/covermail/cover/transport.py:8-13 | for any mixture every CRLF, CR and LF becomes one LF and nothing else changes; exactly the texts with a NUL are refused |
| CarrierCodec.CarrierRoundTrip | src/covermail/codec/carrier.py:40-109 | whenever encoding returns, decoding its text, with any of those line endings, returns the secret and the stopping point |
| CarrierCodec.OnlyLengthRefused | src/covermail/codec/carrier.py:40-72 | the same end to end: once prefix, packet, payload and finish are made, a carrier is refused for its length alone |
| HalvesModel.SymbolConfirmed | tests/test_arithmetic.py:34-39 | a half-interval symbol is confirmed at once as its own bit and leaves the coder's range whole |
| HalvesModel.EveryPacketEncodes | src/covermail/codec/generative.py:134-193 | under two equal tokens every non-empty header and capsule, with any suffix and prefix, encodes within the guard, as exactly the bits of its bytes |
| HalvesModel.EveryPacketDecodes | src/covermail/codec/generative.py:134-312 | every capsule with its packed header encodes and decodes again under that model |
| HalvesModel.EveryPacketRenders | src/covermail/codec/generative.py:196-247 | and becomes a carrier text, unless that is longer than allowed |
| FakeModel.Build | src/covermail/codec/fake_model.py:59-69 | accepts exactly the merges of two or more known characters whose ids no character and no earlier merge has, and then has the merges' texts |
| FakeModel.Tokenize | src/covermail/codec/fake_model.py:76-98 | the offset loop computes the greedy tokens |
| FakeModel.LongestMatch | src/covermail/codec/fake_model.py:77-88 | no merge that begins the rest is longer than the token chosen |
| FakeModel.TokenizeRoundTrip | src/covermail/codec/fake_model.py:76-104 | tokenizing succeeds exactly on known characters, and detokenizing gives the text back |
| FakeModel.TokenizerLaws | src/covermail/codec/fake_model.py:76-104 | the demo tokenizer detokenizes token by token and losslessly, so the copy-safe filter is sound for it |
| FakeModel.DetokenizeKnown | src/covermail/codec/fake_model.py:100-104 | detokenizing succeeds exactly on known ids |
| Jobs.StepKeeps | src/covermail/web/jobs.py:77-145 | every single step of any thread keeps the invariant; jobs only evolve and only finished ones leave the registry |
| Jobs.RunKeeps | src/covermail/web/jobs.py:30-139 | over any run logs are append-only, and terminal states, results and errors are never taken back |
| Jobs.BoundsAlways | src/covermail/web/jobs.py:77-89 | at every moment active jobs are within the pending bound, retained ones within the retention bound, event i has id i, and finished jobs show their outcome |
| Jobs.OnlyFinishedLeave | src/covermail/web/jobs.py:119-139 | a job that a step removes was already finished |
| Jobs.WithdrawnNeverRuns | src/covermail/web/jobs.py:109-117 | a job whose future was withdrawn in time is never run, and can only end cancelled |
| Jobs.DoneIsSettled | src/covermail/web/jobs.py:91-103 | when the worker is done with a job it is finished, its last event says so, and only the cancel flag can still change; which end it reached is said below |
| Jobs.HistoryNeverFull | src/covermail/web/jobs.py:130-139 | with no more pending than retained jobs the history is never full, in any interleaving |
| Jobs.HistoryFullIff | src/covermail/web/jobs.py:77-139 | some interleaving finds the history full if and only if more jobs may be pending than retained |
| Jobs.OutcomeVisible | src/covermail/web/jobs.py:55-61 | an observer that has read a terminal state finds the same state later, with its result or error |
| JobOutcomes.CancelledWasFlagged | src/covermail/web/jobs.py:91-117 | in every run a job is cancelled only if its flag was set |
| JobOutcomes.FlaggedNeverWorks | src/covermail/web/jobs.py:91-97 | a job flagged before its first check is never worked on, and stays queued or is cancelled |
| JobOutcomes.ReturnedEnds | src/covermail/web/jobs.py:94-97 | a job whose work returns ends complete with its result if its flag is unset at the second check, and cancelled otherwise, whatever is interleaved |
| JobOutcomes.RaisedEnds | src/covermail/web/jobs.py:100-103 | a job whose work raises ends failed with its error |
| JobOutcomes.WorkCancelledEnds | src/covermail/web/jobs.py:98-99 | a job whose work gives up on the flag ends cancelled |
| JobOutcomes.EndsAsDestined | src/covermail/web/jobs.py:91-103 | from the last check on nothing any thread does changes the end |
| JobOutcomes.LogTellsState | src/covermail/web/jobs.py:30-39 | in every run the last state a job's log speaks of is its state, but for the moment between setting and logging it |
| JobOutcomes.ShutdownFlagsAll | src/covermail/web/jobs.py:141-145 | when shutdown lets go of the lock every retained job is flagged |
| JobOutcomes.Completes | src/covermail/web/jobs.py:96-97 | a stored result comes before the complete state |
| JobOutcomes.Fails | src/covermail/web/jobs.py:101-103 | a stored error comes before the failed state |
| JobOutcomes.Announces | src/covermail/web/jobs.py:37-39 | the end is logged before the future is done and the worker free |
| JobOutcomes.WorkShows | src/covermail/web/jobs.py:30-39 | progress and phases are logged in order while a job works |
| JobAdmission.RefusedWhenFull | src/covermail/web/jobs.py:79-83 | a full queue is reported only if as many jobs as may be pending were active when the submission began |
| JobAdmission.HistoryFullWhenActive | src/covermail/web/jobs.py:130-139 | a full history is reported only if every retained job was active when the submission began |
| JobAdmission.EvictsOldestFinished | src/covermail/web/jobs.py:130-139 | a submission evicts only from a full history, only a finished job, and the oldest: every older one was active when it began |
| JobAdmission.UndisturbedSubmission | src/covermail/web/jobs.py:77-89 | undisturbed, a submission with room is admitted to the end of registry and queue, and one that finds the queue full is refused without effect |
| JobAdmission.CancelsWaiting | src/covermail/web/jobs.py:109-117 | cancelling a job that has not started withdraws it, flagged, cancelled and logged |
| JobAdmission.CancelsStarted | src/covermail/web/jobs.py:109-117 | cancelling one that has started or is done only sets its flag |
| JobAdmission.Discards | src/covermail/web/jobs.py:119-128 | discarding a finished job removes it, and discarding another only sets its flag |
| JobAdmission.NoneLost | src/covermail/web/jobs.py:88-89 | in every run a scheduled job whose future is pending is in the queue |
| JobAdmission.QueueRun | src/covermail/web/jobs.py:75-89 | in every run the queue is first in, first out |
| JobAdmission.StartsFirst | src/covermail/web/jobs.py:91-93 | an idle worker starts the first queued job and works on it unless it is already flagged |
| JobAdmission.RegistryInOrder | src/covermail/web/jobs.py:84-89 | in every run retained jobs stay in the order of their submission |
| JobAdmission.ShutsDown | src/covermail/web/jobs.py:141-145 | a shut-down executor takes no new job and withdraws the queued ones from the front |
| JobAdmission.DownStays | src/covermail/web/jobs.py:141-145 | a shutdown lasts, whatever any thread does |
| Jobs.StreamIsSlice | src/covermail/web/app.py:534-547 | a stream reader gets the log's contiguous slice from its cursor, in order, without gap or duplicate |

## Left out

- The neural model, prompts, profiles, artifact hashing and the MLX runtime: a model is a function here, and a run of it extends a cache.
- The digits of the decimal exponential, of which only order and the value at zero are used, and float32 packing of logits: scores are rounded from reals.
- HPKE, X25519, SHA-256, DEFLATE and UTF-8 internals: parameters with laws about inverses and lengths. No cryptographic claim is made.
- The decompressor's object: its first chunk, flushed rest and end-of-stream attributes are one value, and no memory bound is claimed for its flush.
- The arithmetic decoder's own check for a non-bit: its reader is typed to give bits; the source's check is modelled.
- Progress callbacks and carrier metrics other than token counts: they observe and change nothing.
- The demo model's candidate pool and closing sentence: scans over fixed lists.
- Payload termination without the guard: pending bits can grow while confirmed bits stall, so only the shift, stall and guard bounds are claimed.
- MlxAdapter.MlxLanguageModel.NextLogits: says nothing after a model call that raised, since the cache may then hold a partial context.
- Jobs as objects: jobs, threads, the lock and the executor are a value and its steps, so aliasing of job objects is not represented. Work is taken to set only unfinished phases, as in src/covermail/web/app.py:373-473, and job ids not to collide. Shutting the executor down is allowed at any moment.
- Jobs.StreamIsSlice: does not promise that a reader sees the final event, because a terminal state is set before it is logged and a reader may stop in between.
- Addresses, canonical JSON, base64url, key storage, manifests, the command line, HTTP routes, static files and qualification metrics: field checks, plumbing and heuristics.
