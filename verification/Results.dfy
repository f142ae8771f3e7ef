/** Failure-compatible results, shared by every module. */
module Results {

  datatype Option<+T> = None | Some(value: T)

  datatype Result<+T, +E> = Ok(value: T) | Err(error: E) {
    predicate IsFailure() {
      Err?
    }

    function PropagateFailure<U>(): (r: Result<U, E>)
      requires Err?
    {
      Err(error)
    }

    function Extract(): T
      requires Ok?
    {
      value
    }
  }
}

/** The errors of the Zstandard decoder. */
module ZstdErrors {

  datatype DecodeError =
    | DecoderPoisoned
    | InvalidMagic
    | InvalidFrameHeader
    | UnsupportedDictionary(id: nat)
    | WindowTooLarge
    | HistoryTooSmall(required: nat, provided: nat)
    | BlockScratchTooSmall(required: nat, provided: nat)
    | LiteralScratchTooSmall(required: nat, provided: nat)
    | InvalidBlock
    | InvalidEntropyTable
    | InvalidBitstream
    | InvalidOffset
    | ChecksumMismatch(expected: nat, actual: nat)
    | ContentSizeMismatch(expected: nat, actual: nat)
    | UnexpectedEof
    | ArithmeticOverflow
}
