/** End to end: from a secret to visible text and back. */
module CarrierCodec {
  import opened Wrappers
  import opened Errors
  import opened Bits
  import opened Candidates
  import opened InnerFrame
  import opened PacketHeader
  import opened Payload
  import opened Sections
  import opened Service

  // ----- line endings

  /** `text.replace("\r\n", "\n")`. */
  function ReplaceCrLf(text: string): string {
    if text == "" then ""
    else if 2 <= |text| && text[0] == '\r' && text[1] == '\n' then "\n" + ReplaceCrLf(text[2..])
    else [text[0]] + ReplaceCrLf(text[1..])
  }

  /** `text.replace("\r", "\n")`. */
  function ReplaceCr(text: string): string {
    if text == "" then "" else [if text[0] == '\r' then '\n' else text[0]] + ReplaceCr(text[1..])
  }

  function CanonicalCarrier(carrier: string): Result<string, Error> {
    var canonical := ReplaceCr(ReplaceCrLf(carrier));
    if '\0' in canonical then Failure(NonCanonicalControl) else Success(canonical)
  }

  /** Every line end, CR LF, CR or LF, becomes one LF; nothing else changes. */
  function Lines(text: string): string {
    if text == "" then ""
    else if text[0] != '\r' then [text[0]] + Lines(text[1..])
    else if 2 <= |text| && text[1] == '\n' then "\n" + Lines(text[2..])
    else "\n" + Lines(text[1..])
  }

  lemma {:induction false} ReplacedLines(text: string)
    ensures ReplaceCr(ReplaceCrLf(text)) == Lines(text)
    ensures '\r' !in Lines(text) && ('\0' in Lines(text) <==> '\0' in text)
    decreases |text|
  {
    if text == "" {
    } else if 2 <= |text| && text[0] == '\r' && text[1] == '\n' {
      ReplacedLines(text[2..]);
      assert text == text[..2] + text[2..];
      var rest := ReplaceCrLf(text[2..]);
      assert ("\n" + rest)[1..] == rest;
    } else {
      ReplacedLines(text[1..]);
      assert text == text[..1] + text[1..];
      var rest := ReplaceCrLf(text[1..]);
      assert ([text[0]] + rest)[1..] == rest;
    }
  }

  /** The two replacements one after the other make every line end one LF; a NUL is refused, and nothing else. */
  lemma CanonicalIff(carrier: string)
    ensures CanonicalCarrier(carrier) == if '\0' in carrier then Failure(NonCanonicalControl) else Success(Lines(carrier))
    ensures '\r' !in Lines(carrier)
  {
    ReplacedLines(carrier);
  }

  /** How a transport may rewrite line ends: every LF becomes `ending`. */
  function WithLineEnd(text: string, ending: string): string {
    if text == "" then "" else (if text[0] == '\n' then ending else [text[0]]) + WithLineEnd(text[1..], ending)
  }

  lemma {:induction false} ReplaceUnchanged(text: string)
    requires '\r' !in text
    ensures ReplaceCrLf(text) == text && ReplaceCr(text) == text
  {
    if text == "" {
    } else {
      assert forall c | c in text[1..] :: c in text;
      ReplaceUnchanged(text[1..]);
    }
  }

  lemma {:induction false} ReplaceLineEnds(text: string)
    requires '\r' !in text
    ensures ReplaceCrLf(WithLineEnd(text, "\r\n")) == text
    ensures ReplaceCr(WithLineEnd(text, "\r")) == text && ReplaceCrLf(WithLineEnd(text, "\r")) == WithLineEnd(text, "\r")
  {
    if text == "" {
    } else {
      var rest := text[1..];
      assert forall c | c in rest :: c in text;
      ReplaceLineEnds(rest);
      var crlf, cr := WithLineEnd(text, "\r\n"), WithLineEnd(text, "\r");
      if text[0] == '\n' {
        assert crlf == "\r\n" + WithLineEnd(rest, "\r\n") && crlf[2..] == WithLineEnd(rest, "\r\n");
      } else {
        assert crlf[1..] == WithLineEnd(rest, "\r\n");
      }
      assert cr[1..] == WithLineEnd(rest, "\r");
      if 2 <= |cr| {
        assert cr[1] == WithLineEnd(rest, "\r")[0] != '\n';
      }
    }
  }

  /** Canonical text survives a transport that leaves LF, or turns it into CRLF or CR. */
  lemma CanonicalAfterTransport(text: string, ending: string)
    requires '\r' !in text && '\0' !in text && ending in {"\n", "\r\n", "\r"}
    ensures CanonicalCarrier(WithLineEnd(text, ending)) == Success(text)
  {
    ReplaceUnchanged(text);
    ReplaceLineEnds(text);
    if ending == "\n" {
      SameLineEnd(text);
    }
  }

  lemma {:induction false} SameLineEnd(text: string)
    ensures WithLineEnd(text, "\n") == text
  {
    if text == "" {
    } else {
      SameLineEnd(text[1..]);
    }
  }

  // ----- the carrier

  datatype DecodedMessage = DecodedMessage(messageId: seq<Byte>, secret: string, carrier: Decoded)

  function EncodeCarrier(secret: string, prefixModel: TokenModel, payload: TokenModel, finish: GreedyModel, hpke: Hpke, codecs: Codecs,
                         prefixTokens: int, finishTokens: int, maximumCharacters: int, random: RandomBelow, suffix: Stream)
    : Result<Carrier, Error>
  {
    match GeneratePrefix(prefixModel, random, prefixTokens)
    case Failure(error) => Failure(error)
    case Success(prefix) =>
      match EncryptMessage(hpke, codecs, secret, prefix)
      case Failure(error) => Failure(error)
      case Success(packet) =>
        EncodeSections(prefix, packet.header, packet.capsule, payload, finish, finishTokens, maximumCharacters, suffix)
  }

  function DecodeCarrier(carrier: string, payload: TokenModel, hpke: Hpke, codecs: Codecs, prefixTokens: int, maximumCharacters: int)
    : Result<DecodedMessage, Error>
  {
    match CanonicalCarrier(carrier)
    case Failure(error) => Failure(error)
    case Success(canonical) =>
      match DecodeSections(canonical, payload, prefixTokens, PacketLayout, maximumCharacters)
      case Failure(error) => Failure(error)
      case Success(decoded) =>
        match DecryptMessage(hpke, codecs, EncryptedPacket(decoded.header, decoded.capsule), decoded.prefix)
        case Failure(error) => Failure(error)
        case Success((messageId, secret)) => Success(DecodedMessage(messageId, secret, decoded))
  }

  /**
   The promise of the program: whenever a secret was encoded into a carrier, decoding the carrier's text
   with the same model, address and limits returns the secret, also after a transport changed its line ends.
   */
  lemma CarrierRoundTrip(secret: string, prefixModel: TokenModel, payload: TokenModel, finish: GreedyModel, hpke: Hpke, codecs: Codecs,
                         prefixTokens: int, finishTokens: int, maximumCharacters: int, random: RandomBelow, suffix: Stream,
                         ending: string)
    requires Inverse(hpke) && Lawful(codecs) && ending in {"\n", "\r\n", "\r"}
    requires EncodeCarrier(secret, prefixModel, payload, finish, hpke, codecs,
                           prefixTokens, finishTokens, maximumCharacters, random, suffix).Success?
    ensures var c := EncodeCarrier(secret, prefixModel, payload, finish, hpke, codecs,
                                   prefixTokens, finishTokens, maximumCharacters, random, suffix).value;
      && 0 < prefixTokens
      && var r := DecodeCarrier(WithLineEnd(c.text, ending), payload, hpke, codecs, prefixTokens, maximumCharacters);
      && r.Success? && r.value.secret == secret
      && r.value.carrier.prefix == c.prefix && r.value.carrier.total == |c.tokens|
      && r.value.carrier.consumed == prefixTokens + c.payloadTokens
  {
    hide EncodeSections, DecodeSections, EncryptMessage, DecryptMessage, SamplePrefix, CanonicalCarrier, WithLineEnd, Inverse, Lawful;
    var c := EncodeCarrier(secret, prefixModel, payload, finish, hpke, codecs,
                           prefixTokens, finishTokens, maximumCharacters, random, suffix).value;
    var prefix := GeneratePrefix(prefixModel, random, prefixTokens).value;
    PrefixSampled(prefixModel, random, prefixTokens, []);
    var packet := EncryptMessage(hpke, codecs, secret, prefix).value;
    PackedHeader(hpke, codecs, secret, prefix);
    PacketAnnounced(packet.header, packet.capsule, prefix);
    SectionsRoundTrip(prefix, packet.header, packet.capsule, payload, finish, finishTokens, maximumCharacters, suffix, PacketLayout);
    CanonicalAfterTransport(c.text, ending);
    DecryptEncrypted(hpke, codecs, secret, prefix);
  }

  /**
   With offerable tokens throughout, a carrier whose sections could be made is refused for its
   length alone; its text tokenizes back and is canonical.
   */
  lemma OnlyLengthRefused(secret: string, prefixModel: TokenModel, payload: TokenModel, finish: GreedyModel, hpke: Hpke, codecs: Codecs,
                          prefixTokens: int, finishTokens: nat, maximumCharacters: int, random: RandomBelow, suffix: Stream)
    requires payload.detokenize([]) == Success("")
    requires SafeTables(prefixModel, payload) && SafeTables(payload, payload) && SafeFinish(finish, payload)
    requires var prefix := GeneratePrefix(prefixModel, random, prefixTokens);
      prefix.Success? && var packet := EncryptMessage(hpke, codecs, secret, prefix.value);
      packet.Success? && var sending := EncodePayload(payload, packet.value.header, packet.value.capsule, suffix, prefix.value);
      sending.Success? && Finish(finish, finishTokens, sending.value.0, 0).Success?
    ensures var r := EncodeCarrier(secret, prefixModel, payload, finish, hpke, codecs,
                                   prefixTokens, finishTokens, maximumCharacters, random, suffix);
      r.Success? || r == Failure(CarrierTooLong)
  {
    hide GeneratePrefix, EncryptMessage, EncodePayload, Finish, EncodeSections, SafeTables, SafeFinish, Renders;
    var prefix := GeneratePrefix(prefixModel, random, prefixTokens).value;
    var packet := EncryptMessage(hpke, codecs, secret, prefix).value;
    PrefixRenders(prefixModel, payload, random, prefixTokens);
    CopySafeRenders(prefix, packet.header, packet.capsule, payload, finish, finishTokens, maximumCharacters, suffix);
  }

  lemma PackedHeader(hpke: Hpke, codecs: Codecs, secret: string, prefix: seq<int>)
    requires Inverse(hpke) && EncryptMessage(hpke, codecs, secret, prefix).Success?
    ensures var packet := EncryptMessage(hpke, codecs, secret, prefix).value;
      PackHeader(|packet.capsule|) == Success(packet.header)
  {
    EncryptedShape(hpke, codecs, secret, prefix);
  }
}
