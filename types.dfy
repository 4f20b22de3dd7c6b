/** Fixed-width integers, null-able values and the TSS2_RC vocabulary shared by every module. */
module Tss2Types {

  type byte = b: int | 0 <= b < 0x100
  type uint16 = x: int | 0 <= x < 0x1_0000
  type uint32 = x: int | 0 <= x < 0x1_0000_0000
  type uint64 = x: int | 0 <= x < 0x1_0000_0000_0000_0000

  /** A pointer argument that may be NULL: None is NULL, Some(v) points at v. */
  datatype Option<T> = None | Some(value: T)

  /** Success value or TSS2_RC error, for the pure parts of the model. */
  datatype Result<T> = Ok(value: T) | Err(error: Rc)

  /**
   * What a decoder finds at some offset of a byte string: the value and the offset just
   * past its bytes, or the error that stops it.
   */
  datatype Parsed<T> = Parsed(value: T, next: nat) | Failed(rc: Rc)

  /** The TSS2_RC values the modelled code returns, by their symbolic names. */
  datatype Rc =
    | Success                 // TSS2_RC_SUCCESS
    | MuBadReference          // TSS2_MU_RC_BAD_REFERENCE
    | MuInsufficientBuffer    // TSS2_MU_RC_INSUFFICIENT_BUFFER
    | MuBadSize               // TSS2_MU_RC_BAD_SIZE
    | SysBadValue             // TSS2_SYS_RC_BAD_VALUE
    | SysMalformedResponse    // TSS2_SYS_RC_MALFORMED_RESPONSE
    | TctiBadValue            // TSS2_TCTI_RC_BAD_VALUE
    | TctiBadReference        // TSS2_TCTI_RC_BAD_REFERENCE
    | TctiBadContext          // TSS2_TCTI_RC_BAD_CONTEXT
    | TctiBadSequence         // TSS2_TCTI_RC_BAD_SEQUENCE
    | TctiInsufficientBuffer  // TSS2_TCTI_RC_INSUFFICIENT_BUFFER
    | TctiNotImplemented      // TSS2_TCTI_RC_NOT_IMPLEMENTED
    | TctiAbiMismatch         // TSS2_TCTI_RC_ABI_MISMATCH
    | TctiIoError             // TSS2_TCTI_RC_IO_ERROR

  /** The return code of a computation: TSS2_RC_SUCCESS or its error. */
  function RcOf<T>(r: Result<T>): Rc {
    if r.Ok? then Success else r.error
  }

  /** `*offset` when the pointer is given, 0 otherwise (the marshalling functions' local_offset). */
  function OffsetOr0(offset: Option<nat>): nat {
    if offset.Some? then offset.value else 0
  }

  /** The value `*offset` holds after a successful call that consumed or produced n bytes. */
  function Advance(offset: Option<nat>, n: nat): (r: Option<nat>)
    ensures r.Some? <==> offset.Some?
    ensures r.Some? ==> r.value == offset.value + n
  {
    if offset.Some? then Some(offset.value + n) else None
  }

  /**
   * The space check of every marshalling function: n bytes fit at offset o of a buffer
   * whose declared size is bufferSize (C: !(buffer_size < o || buffer_size - o < n)).
   */
  predicate Fits(bufferSize: nat, o: nat, n: nat) {
    o <= bufferSize && bufferSize - o >= n
  }
}
