/** Prefix-bound packets: the inner frame sealed under the recipient's address. */
module Service {
  import opened Wrappers
  import opened Errors
  import opened Bits
  import opened InnerFrame
  import opened PacketHeader
  import Varint

  const HPKE_ENCAPSULATED_KEY_BYTES := 32
  const HPKE_TAG_BYTES := 16

  /**
   HPKE for one address, its private key and one encapsulation: `seal` and `open` take the inner frame or
   capsule, the prefix token ids and the header they are bound to. `validAddress` is the schema check and
   `digest` the message id.
   */
  datatype Hpke = Hpke(
    validAddress: bool,
    seal: (seq<Byte>, seq<int>, seq<Byte>) -> Result<seq<Byte>, Error>,
    open: (seq<Byte>, seq<int>, seq<Byte>) -> Result<seq<Byte>, Error>,
    digest: seq<Byte> -> seq<Byte>)

  /** Sealing adds exactly the key and tag bytes, and opening under the same binding undoes it. */
  ghost predicate Inverse(hpke: Hpke) {
    forall inner: seq<Byte>, prefix: seq<int>, header: seq<Byte> {:trigger hpke.seal(inner, prefix, header)} ::
      var capsule := hpke.seal(inner, prefix, header);
      capsule.Success? ==>
        |capsule.value| == HPKE_ENCAPSULATED_KEY_BYTES + |inner| + HPKE_TAG_BYTES
        && hpke.open(capsule.value, prefix, header) == Success(inner)
  }

  datatype EncryptedPacket = EncryptedPacket(header: seq<Byte>, capsule: seq<Byte>)

  function EncryptMessage(hpke: Hpke, codecs: Codecs, secret: string, prefix: seq<int>): Result<EncryptedPacket, Error> {
    if !hpke.validAddress then Failure(InvalidAddress) else
      match PackInner(codecs, secret)
      case Failure(error) => Failure(error)
      case Success(inner) =>
        var capsuleBytes := HPKE_ENCAPSULATED_KEY_BYTES + |inner| + HPKE_TAG_BYTES;
        match PackHeader(capsuleBytes)
        case Failure(error) => Failure(error)
        case Success(header) =>
          match hpke.seal(inner, prefix, header)
          case Failure(error) => Failure(error)
          case Success(capsule) =>
            if |capsule| != capsuleBytes then Failure(UnexpectedCapsuleLength) else Success(EncryptedPacket(header, capsule))
  }

  function DecryptMessage(hpke: Hpke, codecs: Codecs, packet: EncryptedPacket, prefix: seq<int>)
    : Result<(seq<Byte>, string), Error>
  {
    if !hpke.validAddress then Failure(InvalidAddress) else
      match ValidatePacket(packet.header, packet.capsule)
      case Failure(error) => Failure(error)
      case Success(_) =>
        match hpke.open(packet.capsule, prefix, packet.header)
        case Failure(error) => Failure(error)
        case Success(inner) =>
          match UnpackInner(codecs, inner)
          case Failure(error) => Failure(error)
          case Success(text) => Success((hpke.digest(packet.capsule), text))
  }

  /**
   Encryption fails only for a bad address, an unencodable or overlong secret, or the cipher itself; its
   capsule has 51 to 65588 bytes, its header one to three, and the packet validates.
   */
  lemma EncryptedShape(hpke: Hpke, codecs: Codecs, secret: string, prefix: seq<int>)
    requires Inverse(hpke)
    ensures var r := EncryptMessage(hpke, codecs, secret, prefix);
      match PackInner(codecs, secret)
      case Failure(error) => r == Failure(if hpke.validAddress then error else InvalidAddress)
      case Success(inner) =>
        var sealed := hpke.seal(inner, prefix, Varint.Encoding(48 + |inner|));
        && (r.Success? <==> hpke.validAddress && sealed.Success?)
        && (hpke.validAddress && sealed.Failure? ==> r == Failure(sealed.error))
        && (r.Success? ==>
          && 51 <= |r.value.capsule| == 48 + |inner| <= 65588 && 1 <= |r.value.header| <= 3
          && PackHeader(|r.value.capsule|) == Success(r.value.header)
          && ValidatePacket(r.value.header, r.value.capsule).Success?)
  {
    PackedSize(codecs, secret);
    if PackInner(codecs, secret).Success? {
      PackHeaderTotal(48 + |PackInner(codecs, secret).value|);
      var r := EncryptMessage(hpke, codecs, secret, prefix);
      if r.Success? {
        ValidIffPacked(r.value.header, r.value.capsule);
      }
    }
  }

  /** Whatever was encrypted under a prefix decrypts under that prefix to the same secret. */
  lemma DecryptEncrypted(hpke: Hpke, codecs: Codecs, secret: string, prefix: seq<int>)
    requires Inverse(hpke) && Lawful(codecs) && EncryptMessage(hpke, codecs, secret, prefix).Success?
    ensures var packet := EncryptMessage(hpke, codecs, secret, prefix).value;
      DecryptMessage(hpke, codecs, packet, prefix) == Success((hpke.digest(packet.capsule), secret))
  {
    EncryptedShape(hpke, codecs, secret, prefix);
    UnpackPacked(codecs, secret);
  }

  /** Encryption succeeds exactly when the address is valid, the secret packs, and sealing it under prefix and header gives the length announced. */
  lemma EncryptedIff(hpke: Hpke, codecs: Codecs, secret: string, prefix: seq<int>, packet: EncryptedPacket)
    ensures EncryptMessage(hpke, codecs, secret, prefix) == Success(packet) <==>
      && hpke.validAddress && PackInner(codecs, secret).Success?
      && var inner := PackInner(codecs, secret).value;
      && packet.header == Varint.Encoding(48 + |inner|) && |packet.capsule| == 48 + |inner|
      && hpke.seal(inner, prefix, packet.header) == Success(packet.capsule)
  {
    hide PackInner;
    PackedSize(codecs, secret);
    if PackInner(codecs, secret).Success? {
      PackHeaderTotal(48 + |PackInner(codecs, secret).value|);
    }
  }

  /** A sealed capsule of another length is an error of its own. */
  lemma UnexpectedLength(hpke: Hpke, codecs: Codecs, secret: string, prefix: seq<int>)
    requires hpke.validAddress && PackInner(codecs, secret).Success?
    ensures var inner := PackInner(codecs, secret).value;
      var sealed := hpke.seal(inner, prefix, Varint.Encoding(48 + |inner|));
      sealed.Success? && |sealed.value| != 48 + |inner| ==> EncryptMessage(hpke, codecs, secret, prefix) == Failure(UnexpectedCapsuleLength)
  {
    hide PackInner;
    PackedSize(codecs, secret);
    PackHeaderTotal(48 + |PackInner(codecs, secret).value|);
  }

  /**
   Decryption succeeds exactly when the address is valid, the header is packed from the capsule's length, the
   capsule opens under prefix and header, and what it holds unpacks; the id is the capsule's digest.
   */
  lemma DecryptedIff(hpke: Hpke, codecs: Codecs, packet: EncryptedPacket, prefix: seq<int>, id: seq<Byte>, secret: string)
    ensures DecryptMessage(hpke, codecs, packet, prefix) == Success((id, secret)) <==>
      && hpke.validAddress && PackHeader(|packet.capsule|) == Success(packet.header)
      && hpke.open(packet.capsule, prefix, packet.header).Success?
      && UnpackInner(codecs, hpke.open(packet.capsule, prefix, packet.header).value) == Success(secret)
      && id == hpke.digest(packet.capsule)
  {
    hide UnpackInner;
    ValidIffPacked(packet.header, packet.capsule);
  }

  /** Its refusals, in the order they are checked: address, packet, cipher, frame. */
  lemma DecryptionRefusals(hpke: Hpke, codecs: Codecs, packet: EncryptedPacket, prefix: seq<int>)
    ensures var r, unsealed := DecryptMessage(hpke, codecs, packet, prefix), hpke.open(packet.capsule, prefix, packet.header);
      && (!hpke.validAddress ==> r == Failure(InvalidAddress))
      && (hpke.validAddress && PackHeader(|packet.capsule|) != Success(packet.header) ==>
            ValidatePacket(packet.header, packet.capsule).Failure? && r == Failure(ValidatePacket(packet.header, packet.capsule).error))
      && (hpke.validAddress && PackHeader(|packet.capsule|) == Success(packet.header) ==>
            match unsealed
            case Failure(error) => r == Failure(error)
            case Success(inner) => UnpackInner(codecs, inner).Failure? ==> r == Failure(UnpackInner(codecs, inner).error))
  {
    hide UnpackInner;
    ValidIffPacked(packet.header, packet.capsule);
  }
}
