/** The failures the codec and protocol report, one constructor per reason. */
module Errors {
  datatype Error =
    | ValueError
    // CarrierGenerationError
    | EmptySection | NoProgress | WrongRankedCount | InvalidRankedToken | NonFiniteLogit | TooFewCandidates | NoGreedyToken
    // CarrierArithmeticError
    | Desynchronized | TokenOutsideTable | InvalidSectionLength | CarrierEnded
    // CarrierStructureError
    | EmptyCarrier | CarrierTooLong | NonCanonicalControl | EndsInsidePrefix
    // CarrierTokenizationError
    | NotRetokenized | RoundTripChanged | UnknownText | UnknownToken
    // OuterFrameError
    | CapsuleLengthOutOfBounds | HeaderTooLarge | InvalidHeader | IncompleteHeader | TrailingHeaderBytes | LengthMismatch
    // InnerFrameError, DecryptionError
    | InvalidUnicode | SecretTooLong | InnerFrameTooShort | UnsupportedVersion | ReservedFlags | InvalidInnerLength
    | DeclaredTooLong | DecompressionExceeded | MalformedStream | PlaintextMismatch | InvalidUtf8
    // AddressValidationError, AssertionError, IndexError
    | InvalidAddress | UnexpectedCapsuleLength | IndexOutOfRange
    // ModelProfileError, and whatever a language model or its runtime raises
    | ModelFailure
}
