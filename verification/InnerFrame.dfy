/** The authenticated secret-message frame, over abstract UTF-8 and DEFLATE. */
module InnerFrame {
  import opened Wrappers
  import opened Errors
  import opened Bits
  import opened Varint

  const INNER_VERSION: Byte := 1
  const FLAG_DEFLATE: Byte := 1
  const MAX_SECRET_UTF8_BYTES := 65535

  /**
   What a raw-DEFLATE decompressor does with a body and an output limit: the first chunk, what `flush`
   adds (or its zlib error), and its end-of-stream, unused and unconsumed attributes afterwards.
   */
  datatype Inflation =
    | ZlibError
    | Inflation(chunk: seq<Byte>, flushed: Option<seq<Byte>>, eof: bool, unusedData: seq<Byte>, unconsumedTail: seq<Byte>)

  /** The library codecs behind the frame. */
  datatype Codecs = Codecs(
    utf8Encode: string -> Option<seq<Byte>>,
    utf8Decode: seq<Byte> -> Option<string>,
    deflate: seq<Byte> -> seq<Byte>,
    inflate: (seq<Byte>, nat) -> Inflation)

  /** UTF-8 is an inverse pair both ways; inflating a deflated text with one byte to spare yields it and ends the stream. */
  ghost predicate Lawful(codecs: Codecs) {
    && (forall text: string, bytes: seq<Byte> :: codecs.utf8Encode(text) == Some(bytes) <==> codecs.utf8Decode(bytes) == Some(text))
    && (forall plain: seq<Byte> {:trigger codecs.deflate(plain)} :: Inflates(codecs.inflate(codecs.deflate(plain), |plain| + 1), plain))
  }

  predicate Inflates(r: Inflation, plain: seq<Byte>) {
    r.Inflation? && r.flushed.Some? && r.chunk + r.flushed.value == plain && r.eof && r.unusedData == [] && r.unconsumedTail == []
  }

  function PackInner(codecs: Codecs, text: string): Result<seq<Byte>, Error> {
    match codecs.utf8Encode(text)
    case None => Failure(InvalidUnicode)
    case Some(plaintext) =>
      if MAX_SECRET_UTF8_BYTES < |plaintext| then Failure(SecretTooLong) else
        var compressed := codecs.deflate(plaintext);
        var (flags, body) := if |compressed| < |plaintext| then (FLAG_DEFLATE, compressed) else (0, plaintext);
        Success([INNER_VERSION, flags] + Encoding(|plaintext|) + body)
  }

  function DecompressExact(codecs: Codecs, body: seq<Byte>, originalLen: nat): Result<seq<Byte>, Error> {
    var r := codecs.inflate(body, originalLen + 1);
    if r.ZlibError? then Failure(MalformedStream)
    else if originalLen < |r.chunk| then Failure(DecompressionExceeded)
    else if r.flushed.None? then Failure(MalformedStream)
    else
      var plaintext := r.chunk + r.flushed.value;
      if originalLen < |plaintext| then Failure(DecompressionExceeded)
      else if !r.eof || r.unusedData != [] || r.unconsumedTail != [] then Failure(MalformedStream)
      else Success(plaintext)
  }

  function UnpackInner(codecs: Codecs, frame: seq<Byte>): Result<string, Error> {
    if |frame| < 3 then Failure(InnerFrameTooShort)
    else if frame[0] != INNER_VERSION then Failure(UnsupportedVersion)
    else if 1 < frame[1] then Failure(ReservedFlags)
    else
      match Decoding(frame, 2, 3)
      case Failure(_) => Failure(InvalidInnerLength)
      case Success((originalLen, consumed)) =>
        if MAX_SECRET_UTF8_BYTES < originalLen then Failure(DeclaredTooLong) else
          UnpackBody(codecs, frame[1], originalLen, frame[2 + consumed..])
  }

  function UnpackBody(codecs: Codecs, flags: Byte, originalLen: nat, body: seq<Byte>): Result<string, Error> {
    var plaintext := if flags == FLAG_DEFLATE then DecompressExact(codecs, body, originalLen) else Success(body);
    if plaintext.Failure? then Failure(plaintext.error)
    else if |plaintext.value| != originalLen then Failure(PlaintextMismatch)
    else
      match codecs.utf8Decode(plaintext.value)
      case None => Failure(InvalidUtf8)
      case Some(text) => Success(text)
  }

  /** Packing fails exactly on unencodable or overlong text, and otherwise gives a frame of 3 to 65540 bytes. */
  lemma PackedSize(codecs: Codecs, text: string)
    ensures PackInner(codecs, text).Success?
       <==> codecs.utf8Encode(text).Some? && |codecs.utf8Encode(text).value| <= MAX_SECRET_UTF8_BYTES
    ensures PackInner(codecs, text).Success? ==>
      3 <= |PackInner(codecs, text).value| <= 5 + |codecs.utf8Encode(text).value|
  {
    if PackInner(codecs, text).Success? {
      EncodingLength(|codecs.utf8Encode(text).value|);
    }
  }

  /** A frame's head parses back to its flags, length and body. */
  lemma UnpackHead(codecs: Codecs, flags: Byte, n: nat, body: seq<Byte>)
    requires flags <= 1 && n <= MAX_SECRET_UTF8_BYTES
    ensures UnpackInner(codecs, [INNER_VERSION, flags] + Encoding(n) + body) == UnpackBody(codecs, flags, n, body)
  {
    var frame := [INNER_VERSION, flags] + Encoding(n) + body;
    EncodingLength(n);
    assert frame[2..] == Encoding(n) + body;
    DecodesIffEncoded(frame, 2, 3, n, |Encoding(n)|);
    assert frame[2 + |Encoding(n)|..] == body;
  }

  /** Every secret that packs unpacks to itself, compressed or not. */
  lemma UnpackPacked(codecs: Codecs, text: string)
    requires Lawful(codecs) && PackInner(codecs, text).Success?
    ensures UnpackInner(codecs, PackInner(codecs, text).value) == Success(text)
  {
    hide Encoding, Decoding, UnpackInner;
    var plain := codecs.utf8Encode(text).value;
    var compressed := codecs.deflate(plain);
    if |compressed| < |plain| {
      UnpackHead(codecs, FLAG_DEFLATE, |plain|, compressed);
      assert Inflates(codecs.inflate(compressed, |plain| + 1), plain);
    } else {
      UnpackHead(codecs, 0, |plain|, plain);
    }
  }

  /** A frame unpacks to `text` only if it is the version, a flag, the canonical length of the text's bytes, and a body for them. */
  lemma UnpackedForm(codecs: Codecs, frame: seq<Byte>, text: string) returns (plain: seq<Byte>, flags: Byte, body: seq<Byte>)
    requires Lawful(codecs) && UnpackInner(codecs, frame) == Success(text)
    ensures codecs.utf8Encode(text) == Some(plain) && |plain| <= MAX_SECRET_UTF8_BYTES
    ensures frame == [INNER_VERSION, flags] + Encoding(|plain|) + body
    ensures (flags == 0 && body == plain) || (flags == FLAG_DEFLATE && DecompressExact(codecs, body, |plain|) == Success(plain))
  {
    hide Encoding, Decoding, UnpackBody, DecompressExact;
    var (n, consumed) := Decoding(frame, 2, 3).value;
    DecodesIffEncoded(frame, 2, 3, n, consumed);
    flags, body := frame[1], frame[2 + consumed..];
    plain := BodyForm(codecs, flags, n, body, text);
    assert frame[2..] == Encoding(n) + body;
    assert frame == frame[..2] + frame[2..];
  }

  lemma BodyForm(codecs: Codecs, flags: Byte, n: nat, body: seq<Byte>, text: string) returns (plain: seq<Byte>)
    requires Lawful(codecs) && flags <= 1 && UnpackBody(codecs, flags, n, body) == Success(text)
    ensures codecs.utf8Encode(text) == Some(plain) && |plain| == n
    ensures (flags == 0 && body == plain) || (flags == FLAG_DEFLATE && DecompressExact(codecs, body, n) == Success(plain))
  {
    hide DecompressExact, Inflates;
    plain := if flags == FLAG_DEFLATE then DecompressExact(codecs, body, n).value else body;
    assert codecs.utf8Decode(plain) == Some(text);
  }

  /** A packed frame: version one, the flag set exactly when the deflated text is shorter, the text's length, and the shorter body. */
  lemma PackedForm(codecs: Codecs, text: string)
    ensures codecs.utf8Encode(text).None? ==> PackInner(codecs, text) == Failure(InvalidUnicode)
    ensures codecs.utf8Encode(text).Some? && 65535 < |codecs.utf8Encode(text).value| ==> PackInner(codecs, text) == Failure(SecretTooLong)
    ensures PackInner(codecs, text).Success? ==>
      var plain := codecs.utf8Encode(text).value;
      var compressed := codecs.deflate(plain);
      PackInner(codecs, text).value ==
        if |compressed| < |plain| then [1, 1] + Encoding(|plain|) + compressed else [1, 0] + Encoding(|plain|) + plain
  {
    hide Encoding;
  }

  /** Inflating is accepted exactly when the stream gives no more than the length, ends, and leaves nothing over. */
  lemma InflatedIff(codecs: Codecs, body: seq<Byte>, n: nat, plain: seq<Byte>)
    ensures DecompressExact(codecs, body, n) == Success(plain) <==>
      var r := codecs.inflate(body, n + 1);
      r.Inflation? && r.flushed.Some? && plain == r.chunk + r.flushed.value && |plain| <= n
      && r.eof && r.unusedData == [] && r.unconsumedTail == []
  {
  }

  /** What is wrong with a stream that is not accepted: it is malformed, or it gives more than the length. */
  lemma InflationRefusals(codecs: Codecs, body: seq<Byte>, n: nat)
    ensures var r := codecs.inflate(body, n + 1);
      DecompressExact(codecs, body, n) == Failure(DecompressionExceeded) <==>
        r.Inflation? && (n < |r.chunk| || (r.flushed.Some? && n < |r.chunk + r.flushed.value|))
    ensures DecompressExact(codecs, body, n).Failure? ==> DecompressExact(codecs, body, n).error in {DecompressionExceeded, MalformedStream}
  {
  }

  /** A frame of this form unpacks to its text. */
  lemma FormUnpacks(codecs: Codecs, flags: Byte, plain: seq<Byte>, body: seq<Byte>, text: string)
    requires codecs.utf8Decode(plain) == Some(text) && |plain| <= 65535
    requires (flags == 0 && body == plain) || (flags == 1 && DecompressExact(codecs, body, |plain|) == Success(plain))
    ensures UnpackInner(codecs, [1, flags] + Encoding(|plain|) + body) == Success(text)
  {
    hide Encoding, Decoding, DecompressExact;
    UnpackHead(codecs, flags, |plain|, body);
  }

  /** The refusals of a frame that does not unpack, in the order they are checked. */
  lemma UnpackRefusals(codecs: Codecs, frame: seq<Byte>)
    ensures var r := UnpackInner(codecs, frame);
      if |frame| < 3 then r == Failure(InnerFrameTooShort)
      else if frame[0] != 1 then r == Failure(UnsupportedVersion)
      else if frame[1] !in {0, 1} then r == Failure(ReservedFlags)
      else if !exists n: nat :: |Encoding(n)| <= 3 && Encoding(n) <= frame[2..] then r == Failure(InvalidInnerLength)
      else exists n: nat :: |Encoding(n)| <= 3 && Encoding(n) <= frame[2..] && RefusedBody(codecs, frame[1], n, frame[2 + |Encoding(n)|..], r)
  {
    hide Encoding, Decoding, DecompressExact, UnpackBody, RefusedBody;
    if 3 <= |frame| && frame[0] == 1 && frame[1] <= 1 {
      forall n: nat | |Encoding(n)| <= 3 && Encoding(n) <= frame[2..]
        ensures Decoding(frame, 2, 3) == Success((n, |Encoding(n)|))
      {
        DecodesIffEncoded(frame, 2, 3, n, |Encoding(n)|);
      }
      if Decoding(frame, 2, 3).Success? {
        var (n, consumed) := Decoding(frame, 2, 3).value;
        DecodesIffEncoded(frame, 2, 3, n, consumed);
        BodyRefused(codecs, frame[1], n, frame[2 + consumed..]);
      }
    }
  }

  /** What unpacking a body of declared length `n` gives. */
  predicate RefusedBody(codecs: Codecs, flags: Byte, n: nat, body: seq<Byte>, r: Result<string, Error>) {
    if 65535 < n then r == Failure(DeclaredTooLong)
    else if flags == 1 && DecompressExact(codecs, body, n).Failure? then r == Failure(DecompressExact(codecs, body, n).error)
    else
      var plain := if flags == 1 then DecompressExact(codecs, body, n).value else body;
      if |plain| != n then r == Failure(PlaintextMismatch)
      else if codecs.utf8Decode(plain).None? then r == Failure(InvalidUtf8)
      else r == Success(codecs.utf8Decode(plain).value)
  }

  lemma BodyRefused(codecs: Codecs, flags: Byte, n: nat, body: seq<Byte>)
    requires flags <= 1
    ensures RefusedBody(codecs, flags, n, body, if MAX_SECRET_UTF8_BYTES < n then Failure(DeclaredTooLong) else UnpackBody(codecs, flags, n, body))
  {
    hide DecompressExact;
  }
}
