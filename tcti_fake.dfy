/**
 * The common TCTI dispatch rules (the Tss2_Tcti_* entry points of tss2_tcti.h) and the fake
 * TCTI of the Esys_Policy_AC_SendSelect unit test: a function table whose transmit checks the
 * command code and whose receive always yields the same 10-byte TPM_RC_YIELDED response.
 */
module TctiFake {
  import opened Tss2Types
  import opened Endian
  import TpmHeader

  /**
   * What a Tss2_Tcti_* call does before calling through the table: NULL context is
   * TSS2_TCTI_RC_BAD_CONTEXT, a table version below 1 TSS2_TCTI_RC_ABI_MISMATCH, an absent
   * entry TSS2_TCTI_RC_NOT_IMPLEMENTED; None means the entry is called.
   */
  function DispatchCheck(hasContext: bool, version: nat, hasEntry: bool): (r: Option<Rc>)
    ensures r.None? <==> hasContext && version >= 1 && hasEntry
  {
    if !hasContext then Some(TctiBadContext)
    else if version < 1 then Some(TctiAbiMismatch)
    else if !hasEntry then Some(TctiNotImplemented)
    else None
  }

  /** 'FAKE\0' in the top bytes of the magic field. */
  const TCTI_FAKE_MAGIC: uint64 := 0x46414b4500000000
  const TCTI_FAKE_VERSION: uint32 := 1

  /** TPM2_CC_Policy_AC_SendSelect */
  const TPM2_CC_Policy_AC_SendSelect: uint32 := 0x196

  /** The functions the fake table can point at. */
  datatype FakeEntry = FakeTransmit | FakeReceive | FakeFinalize

  /** The fixed response: TPM_ST_NO_SESSIONS, size 10, TPM_RC_YIELDED (0). */
  const YieldedResponse: seq<byte> := [0x80, 0x01, 0x00, 0x00, 0x00, 0x0A, 0x00, 0x00, 0x00, 0x00]

  /** TSS2_TCTI_CONTEXT_FAKE: the function table the fake initializer fills in place. */
  class FakeContext {
    var magic: uint64
    var version: uint32
    var transmit: Option<FakeEntry>
    var receive: Option<FakeEntry>
    var finalize: Option<FakeEntry>
    var cancel: Option<FakeEntry>
    var getPollHandles: Option<FakeEntry>
    var setLocality: Option<FakeEntry>

    /** A table as tcti_fake_initialize leaves it. */
    predicate Populated()
      reads this
    {
      && magic == TCTI_FAKE_MAGIC && version == TCTI_FAKE_VERSION
      && transmit == Some(FakeTransmit) && receive == Some(FakeReceive) && finalize == Some(FakeFinalize)
      && cancel.None? && getPollHandles.None? && setLocality.None?
    }

    /**
     * tcti_fake_initialize on this context: memset to zero, then magic, version and the
     * three entries the fake implements; cancel, getPollHandles and setLocality stay NULL.
     * The size argument is not looked at once a context is given.
     */
    method Initialize(contextSize: Option<nat>) returns (rc: Rc, newSize: Option<nat>)
      modifies this
      ensures rc == Success && newSize == contextSize && Populated()
    {
      magic, version := 0, 0;
      transmit, receive, finalize, cancel, getPollHandles, setLocality := None, None, None, None, None, None;
      magic := TCTI_FAKE_MAGIC;
      version := TCTI_FAKE_VERSION;
      transmit := Some(FakeTransmit);
      receive := Some(FakeReceive);
      finalize := Some(FakeFinalize);
      cancel := None;
      getPollHandles := None;
      setLocality := None;
      return Success, contextSize;
    }
  }

  /**
   * tcti_fake_initialize with a NULL context: the size query. Both pointers NULL is
   * TSS2_TCTI_RC_BAD_VALUE; otherwise *contextSize becomes the size of the fake context,
   * `fakeSize`, which is sizeof(TSS2_TCTI_CONTEXT_FAKE) and depends on the platform.
   * Nothing else is written.
   */
  method InitializeSize(contextSize: Option<nat>, fakeSize: nat) returns (rc: Rc, newSize: Option<nat>)
    ensures contextSize.None? ==> rc == TctiBadValue && newSize == contextSize
    ensures contextSize.Some? ==> rc == Success && newSize == Some(fakeSize)
  {
    if contextSize.None? {
      return TctiBadValue, contextSize;
    }
    return Success, Some(fakeSize);
  }

  /** How a call into the fake transmit ends: with a return code, or with a failed cmocka assertion. */
  datatype TransmitOutcome = Returned(rc: Rc) | AssertionFailure

  /**
   * tcti_fake_policy_ac_sendselect_transmit: the context and size are unused; a header that
   * does not parse returns its error, and any command code other than
   * TPM2_CC_Policy_AC_SendSelect fails the test.
   */
  function Transmit(size: nat, cmdBuf: Option<seq<byte>>): (r: TransmitOutcome)
    requires cmdBuf.Some? ==> |cmdBuf.value| >= TpmHeader.TPM_HEADER_SIZE
    ensures cmdBuf.None? ==> r == Returned(MuBadReference)
    ensures cmdBuf.Some? ==>
      (r == Returned(Success) <==> FromBE(cmdBuf.value, 6, 4) == TPM2_CC_Policy_AC_SendSelect)
    ensures cmdBuf.Some? && r != Returned(Success) ==> r == AssertionFailure
  {
    var header := TpmHeader.Parse(cmdBuf);
    if header.Err? then Returned(header.error)
    else if header.value.code != TPM2_CC_Policy_AC_SendSelect then AssertionFailure
    else Returned(Success)
  }

  /** A command whose header carries code X is accepted exactly when X is TPM2_CC_Policy_AC_SendSelect; the payload does not matter. */
  lemma TransmitAccepts(h: TpmHeader.Header, payload: seq<byte>, size: nat)
    ensures var cmd := TpmHeader.Encode(h) + payload;
      (Transmit(size, Some(cmd)) == Returned(Success) <==> h.code == TPM2_CC_Policy_AC_SendSelect) &&
      (Transmit(size, Some(cmd)) == AssertionFailure <==> h.code != TPM2_CC_Policy_AC_SendSelect)
  {
    TpmHeader.ParseEncode(h, payload);
  }

  /**
   * tcti_fake_policy_ac_sendselect_receive: *response_size is always 10; the response is
   * copied only when a buffer is given. The timeout is ignored.
   */
  method Receive(responseBuffer: array?<byte>, timeout: int) returns (rc: Rc, responseSize: nat)
    requires responseBuffer != null ==> responseBuffer.Length >= |YieldedResponse|
    modifies responseBuffer
    ensures rc == Success && responseSize == |YieldedResponse|
    ensures responseBuffer != null ==>
      responseBuffer[..] == YieldedResponse + old(responseBuffer[|YieldedResponse|..])
  {
    responseSize := |YieldedResponse|;
    if responseBuffer != null {
      var i := 0;
      while i < |YieldedResponse|
        invariant 0 <= i <= |YieldedResponse|
        invariant responseBuffer[..i] == YieldedResponse[..i]
        invariant responseBuffer[|YieldedResponse|..] == old(responseBuffer[|YieldedResponse|..])
      {
        responseBuffer[i] := YieldedResponse[i];
        i := i + 1;
      }
      assert responseBuffer[..] == responseBuffer[..|YieldedResponse|] + responseBuffer[|YieldedResponse|..];
    }
    return Success, responseSize;
  }

  /**
   * Through a populated table, Tss2_Tcti_Transmit, _Receive and _Finalize reach the fake's
   * functions, while _Cancel, _GetPollHandles and _SetLocality report TSS2_TCTI_RC_NOT_IMPLEMENTED.
   */
  lemma PopulatedDispatch(ctx: FakeContext)
    requires ctx.Populated()
    ensures DispatchCheck(true, ctx.version, ctx.transmit.Some?) == None
    ensures DispatchCheck(true, ctx.version, ctx.receive.Some?) == None
    ensures DispatchCheck(true, ctx.version, ctx.finalize.Some?) == None
    ensures DispatchCheck(true, ctx.version, ctx.cancel.Some?) == Some(TctiNotImplemented)
    ensures DispatchCheck(true, ctx.version, ctx.getPollHandles.Some?) == Some(TctiNotImplemented)
    ensures DispatchCheck(true, ctx.version, ctx.setLocality.Some?) == Some(TctiNotImplemented)
  {
  }

  /** tcti_fake_policy_ac_sendselect_finalize: nothing to release, nothing changes. */
  method Finalize(ctx: FakeContext?)
    ensures ctx != null ==> ctx.Populated() == old(ctx.Populated())
  {
  }

  /**
   * The fixed response is a well-formed header: TPM_ST_NO_SESSIONS, a size field equal to its
   * own length, and response code 0 (TPM_RC_YIELDED as this test uses it).
   */
  lemma YieldedIsHeader()
    ensures TpmHeader.Parse(Some(YieldedResponse)) ==
      Ok(TpmHeader.Header(TpmHeader.TPM2_ST_NO_SESSIONS, |YieldedResponse|, 0))
    ensures TpmHeader.Encode(TpmHeader.Header(TpmHeader.TPM2_ST_NO_SESSIONS, |YieldedResponse|, 0)) == YieldedResponse
  {
    Widths();
    var h := TpmHeader.Header(TpmHeader.TPM2_ST_NO_SESSIONS, |YieldedResponse|, 0);
    assert ToBE(0x8001, 2) == [0x80, 0x01];
    assert ToBE(10, 4) == [0, 0, 0, 0x0A];
    assert ToBE(0, 4) == [0, 0, 0, 0];
    TpmHeader.ParseEncode(h, []);
    assert YieldedResponse + [] == YieldedResponse;
  }
}
