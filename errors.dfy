/** The crate's error values and the Option/Result wrappers used throughout the model. */
module Errors {

  datatype Option<T> = None | Some(value: T)

  /** Errors raised by the modelled code, named after the crate's `Error` enum. */
  datatype Error =
    | ErrPacketRawTooSmall
    | ErrChecksumMismatch
    | ErrParseSctpChunkNotEnoughData
    | ErrUnmarshalUnknownChunkType
    | ErrSctpPacketSourcePortZero
    | ErrSctpPacketDestinationPortZero
    | ErrInitChunkBundled
    | ErrInitChunkVerifyTagNotZero
    | ErrShutdownNonEstablished
    | ErrHandleInitState
    | ErrInitAckNoCookie
    | ErrInflightQueueTsnPop
    | ErrTsnRequestNotExist
    | ErrPayloadDataStateNotExist
    | ErrInitNotStoredToSend
    | ErrCookieEchoNotStoredToSend
      /** An error reported by a per-chunk codec, which this model does not contain. */
    | ErrChunk(code: nat)
      /** The source panics at this point (an out-of-range read or slice). */
    | Panic

  datatype Result<T> = Ok(value: T) | Err(error: Error)
}
