/** The public length header of a packet's capsule. */
module PacketHeader {
  import opened Wrappers
  import opened Errors
  import opened ArithmeticCoding
  import opened Bits
  import opened BitBuffers
  import opened Candidates
  import opened Varint
  import opened Payload

  const MIN_CAPSULE_BYTES := 51
  const MAX_CAPSULE_BYTES := 131_072
  const MAX_HEADER_BYTES := 3

  predicate CapsuleLength(n: int) { MIN_CAPSULE_BYTES <= n <= MAX_CAPSULE_BYTES }

  function PackHeader(capsuleBytes: int): Result<seq<Byte>, Error> {
    if !CapsuleLength(capsuleBytes) then Failure(CapsuleLengthOutOfBounds) else
      var header := Encoding(capsuleBytes);
      if MAX_HEADER_BYTES < |header| then Failure(HeaderTooLarge) else Success(header)
  }

  /** The capsule length and header length once the header is complete; `None` while it is not. */
  function ParseHeader(data: seq<Byte>): Result<Option<(int, int)>, Error> {
    match Decoding(data, 0, MAX_HEADER_BYTES)
    case Failure(Incomplete) => Success(None)
    case Failure(_) => Failure(InvalidHeader)
    case Success((capsuleBytes, consumed)) =>
      if !CapsuleLength(capsuleBytes) then Failure(CapsuleLengthOutOfBounds) else Success(Some((capsuleBytes, consumed)))
  }

  function UnpackHeader(header: seq<Byte>): Result<int, Error> {
    match ParseHeader(header)
    case Failure(error) => Failure(error)
    case Success(None) => Failure(IncompleteHeader)
    case Success(Some((capsuleBytes, consumed))) =>
      if consumed != |header| then Failure(TrailingHeaderBytes) else Success(capsuleBytes)
  }

  function ValidatePacket(header: seq<Byte>, capsule: seq<Byte>): Result<(), Error> {
    match UnpackHeader(header)
    case Failure(error) => Failure(error)
    case Success(n) => if n != |capsule| then Failure(LengthMismatch) else Success(())
  }

  /** The receiver's resolver: header and capsule lengths from the parsed header. */
  function PacketLayout(available: seq<Byte>, prefix: seq<int>): Result<Option<Layout>, Error> {
    match ParseHeader(available)
    case Failure(error) => Failure(error)
    case Success(None) => Success(None)
    case Success(Some((capsuleBytes, headerBytes))) => Success(Some(Layout(headerBytes, capsuleBytes)))
  }

  /** Packing fails only on the bounds: every legal length has a header of one to three bytes. */
  lemma PackHeaderTotal(n: int)
    ensures CapsuleLength(n) ==> PackHeader(n) == Success(Encoding(n)) && 1 <= |Encoding(n)| <= 3
    ensures !CapsuleLength(n) ==> PackHeader(n) == Failure(CapsuleLengthOutOfBounds)
  {
    if CapsuleLength(n) {
      EncodingLength(n);
    }
  }

  /** Parsing finds a length exactly when the bytes begin with its packed header. */
  lemma ParsesIffPacked(data: seq<Byte>, n: int, consumed: int)
    ensures ParseHeader(data) == Success(Some((n, consumed)))
       <==> CapsuleLength(n) && consumed == |Encoding(n)| && Encoding(n) <= data
  {
    assert data[0..] == data;
    if CapsuleLength(n) && 0 <= consumed {
      PackHeaderTotal(n);
      DecodesIffEncoded(data, 0, MAX_HEADER_BYTES, n, consumed);
    }
  }

  /** On growing prefixes of a packet the header is unknown until complete, then one fixed answer, never an error. */
  lemma ParseGrowingPrefix(n: int, rest: seq<Byte>, seen: nat)
    requires CapsuleLength(n) && seen <= |Encoding(n) + rest|
    ensures ParseHeader((Encoding(n) + rest)[..seen])
         == Success(if seen < |Encoding(n)| then None else Some((n, |Encoding(n)|)))
  {
    var data := (Encoding(n) + rest)[..seen];
    PackHeaderTotal(n);
    if seen < |Encoding(n)| {
      assert data == Encoding(n)[..seen];
      StrictPrefixIncomplete(n, data, MAX_HEADER_BYTES);
    } else {
      assert Encoding(n) <= data;
      ParsesIffPacked(data, n, |Encoding(n)|);
    }
  }

  /** A packet validates exactly when its header is the packed length of its capsule. */
  lemma ValidIffPacked(header: seq<Byte>, capsule: seq<Byte>)
    ensures ValidatePacket(header, capsule).Success? <==> PackHeader(|capsule|) == Success(header)
  {
    PackHeaderTotal(|capsule|);
    ParsesIffPacked(header, |capsule|, |header|);
    if ValidatePacket(header, capsule).Success? {
      assert ParseHeader(header) == Success(Some((|capsule|, |header|)));
      assert Encoding(|capsule|) == header;
    }
  }

  /** The resolver announces every packet whose header was packed from its capsule. */
  lemma PacketAnnounced(header: seq<Byte>, capsule: seq<Byte>, prefix: seq<int>)
    requires PackHeader(|capsule|) == Success(header)
    ensures header != [] && capsule != [] && Announces(PacketLayout, prefix, header, capsule)
  {
    PackHeaderTotal(|capsule|);
    forall x: seq<Byte> | x != [] && Comparable(x, header + capsule)
      ensures var answer := PacketLayout(x, prefix);
        answer == Success(Some(Layout(|header|, |capsule|))) || (answer == Success(None) && |x| < |header + capsule|)
    {
      if x <= header + capsule {
        assert x == (header + capsule)[..|x|];
        ParseGrowingPrefix(|capsule|, capsule, |x|);
      } else {
        assert header <= x;
        ParsesIffPacked(x, |capsule|, |header|);
      }
    }
  }

  lemma LayoutFromHeader(x: seq<Byte>, prefix: seq<int>, layout: Layout)
    ensures PacketLayout(x, prefix) == Success(Some(layout))
       <==> CapsuleLength(layout.capsule) && layout.header == |Encoding(layout.capsule)| && Encoding(layout.capsule) <= x
  {
    ParsesIffPacked(x, layout.capsule, layout.header);
  }

  /** The resolver is self-delimiting: it reads the header and nothing after it. */
  lemma PacketSelfDelimiting(prefix: seq<int>)
    ensures SelfDelimiting(PacketLayout, prefix)
  {
    hide PacketLayout, Encoding;
    forall x: seq<Byte>, y: seq<Byte>, layout: Layout | PacketLayout(x, prefix) == Success(Some(layout)) && 0 < layout.header
      ensures layout.header <= |x|
      ensures layout.header <= |y| && x[..layout.header] == y[..layout.header] ==> PacketLayout(y, prefix) == Success(Some(layout))
    {
      LayoutFromHeader(x, prefix, layout);
      LayoutFromHeader(y, prefix, layout);
      if layout.header <= |y| && x[..layout.header] == y[..layout.header] {
        assert Encoding(layout.capsule) == x[..layout.header] <= y;
      }
    }
  }

  /** Whatever the receiver accepts carries the packed header of its own capsule: the later validation cannot fail. */
  lemma DecodedValidates(model: TokenModel, observed: seq<int>, start: nat, prefix: seq<int>)
    requires start <= |observed| && DecodePayload(model, PacketLayout, observed, start, prefix).Success?
    ensures var p := DecodePayload(model, PacketLayout, observed, start, prefix).value;
      PackHeader(|p.capsule|) == Success(p.header) && ValidatePacket(p.header, p.capsule).Success?
  {
    hide Receive, FinalState, SelfDelimiting, CompleteBytes, PacketLayout, Encoding;
    PacketSelfDelimiting(prefix);
    FinalAnnounced(model, PacketLayout, observed, prefix, start, observed[..start], INITIAL, None);
    ReceivedPacket(model, PacketLayout, observed, prefix, start, observed[..start], INITIAL, None);
    var p := DecodePayload(model, PacketLayout, observed, start, prefix).value;
    var bytes := CompleteBytes(FinalState(model, PacketLayout, observed, prefix, start, observed[..start], INITIAL, None).emitted);
    LayoutFromHeader(bytes, prefix, Layout(|p.header|, |p.capsule|));
    assert p.header == (p.header + p.capsule)[..|p.header|] == bytes[..|p.header|] == Encoding(|p.capsule|);
    PackHeaderTotal(|p.capsule|);
    ValidIffPacked(p.header, p.capsule);
  }

  /**
   For real packets the two directions need no assumption: tokens within the guard decode to a packet,
   ending at the last of them, if and only if its header is packed from its capsule and some random suffix
   makes the sender choose exactly those tokens.
   */
  lemma PacketDecodesIffEncodable(model: TokenModel, prefix: seq<int>, payload: seq<int>, header: seq<Byte>, capsule: seq<Byte>)
    ensures |payload| <= 64 * |header + capsule| + 1024 &&
            DecodePayload(model, PacketLayout, prefix + payload, |prefix|, prefix) == Success(Packet(header, capsule, |prefix + payload|))
       <==> PackHeader(|capsule|) == Success(header) &&
            exists suffix: Stream :: EncodePayload(model, header, capsule, suffix, prefix) == Success((prefix + payload, |payload|))
  {
    hide DecodePayload, EncodePayload, SelfDelimiting, Announces, PackHeader, ValidatePacket;
    PacketSelfDelimiting(prefix);
    if DecodePayload(model, PacketLayout, prefix + payload, |prefix|, prefix) == Success(Packet(header, capsule, |prefix + payload|)) {
      DecodedValidates(model, prefix + payload, |prefix|, prefix);
    }
    if PackHeader(|capsule|) == Success(header) {
      PacketAnnounced(header, capsule, prefix);
      DecodesIffEncodable(model, PacketLayout, prefix, payload, header, capsule);
    }
  }

  /**
   What parsing says of bytes that announce nothing: more are needed while at most two bytes all continue; three
   that do, or digits that are not an encoding, are invalid; an encoding of a length outside 51..131072 is refused as such.
   */
  lemma ParseRefusals(data: seq<Byte>)
    ensures ParseHeader(data) == Success(None) <==> |data| < 3 && forall i | 0 <= i < |data| :: 0x80 <= data[i]
    ensures ParseHeader(data) == Failure(CapsuleLengthOutOfBounds)
       <==> exists n: nat :: !(51 <= n <= 131072) && |Encoding(n)| <= 3 && Encoding(n) <= data
    ensures ParseHeader(data).Failure? ==> ParseHeader(data).error in {CapsuleLengthOutOfBounds, InvalidHeader}
    ensures ParseHeader(data).Success? && ParseHeader(data).value.Some? ==> 51 <= ParseHeader(data).value.value.0 <= 131072
  {
    hide Encoding, Decoding;
    assert data[0..] == data;
    DecodingRefusals(data, 0, 3);
    forall n: nat | !(51 <= n <= 131072) && |Encoding(n)| <= 3 && Encoding(n) <= data
      ensures ParseHeader(data) == Failure(CapsuleLengthOutOfBounds)
    {
      DecodesIffEncoded(data, 0, 3, n, |Encoding(n)|);
    }
    if ParseHeader(data) == Failure(CapsuleLengthOutOfBounds) {
      var (n, consumed) := Decoding(data, 0, 3).value;
      DecodesIffEncoded(data, 0, 3, n, consumed);
    }
  }

  /** The refusals of a whole packet, in the order they are checked. */
  lemma ValidationRefusals(header: seq<Byte>, capsule: seq<Byte>)
    ensures var parsed, r := ParseHeader(header), ValidatePacket(header, capsule);
      match parsed
      case Failure(error) => r == Failure(error)
      case Success(None) => r == Failure(IncompleteHeader)
      case Success(Some((n, consumed))) =>
        consumed == |Encoding(n)| <= |header| &&
        r == if consumed < |header| then Failure(TrailingHeaderBytes) else if n != |capsule| then Failure(LengthMismatch) else Success(())
  {
    hide Encoding;
    var parsed := ParseHeader(header);
    if parsed.Success? && parsed.value.Some? {
      ParsesIffPacked(header, parsed.value.value.0, parsed.value.value.1);
    }
  }

  /** Lengths from 51 to 131072, and no others, have a header. */
  lemma PackedLengths(n: int)
    ensures PackHeader(n).Success? <==> 51 <= n <= 131072
  {
    PackHeaderTotal(n);
  }
}
