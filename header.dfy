/**
 * The 10-byte header every TPM 2.0 command and response starts with (TPM 2.0 Library
 * Specification, Part 1, clause 18 "Command/Response Structure"): tag (2 bytes), size
 * (4 bytes), command or response code (4 bytes), all big-endian. header_unmarshal reads it
 * from the first TPM_HEADER_SIZE bytes of a buffer.
 */
module TpmHeader {
  import opened Tss2Types
  import opened Endian

  const TPM_HEADER_SIZE: nat := 10

  /** TPM_ST_NO_SESSIONS */
  const TPM2_ST_NO_SESSIONS: uint16 := 0x8001

  datatype Header = Header(tag: uint16, size: uint32, code: uint32)

  /** The wire form of a header. */
  function Encode(h: Header): (r: seq<byte>)
    ensures |r| == TPM_HEADER_SIZE
  {
    Widths();
    ToBE(h.tag, 2) + ToBE(h.size, 4) + ToBE(h.code, 4)
  }

  /**
   * header_unmarshal: the three fields at offsets 0, 2 and 6, each read with the MU
   * unmarshaller of its width, so a NULL buffer is TSS2_MU_RC_BAD_REFERENCE from the first
   * read. The function is given no buffer length and reads exactly TPM_HEADER_SIZE bytes, so
   * a buffer must hold at least that many.
   */
  function Parse(buf: Option<seq<byte>>): (r: Result<Header>)
    requires buf.Some? ==> |buf.value| >= TPM_HEADER_SIZE
    ensures r.Err? <==> buf.None?
    ensures r.Err? ==> r.error == MuBadReference
  {
    if buf.None? then Err(MuBadReference)
    else
      var s := buf.value;
      Widths();
      Ok(Header(FromBE(s, 0, 2), FromBE(s, 2, 4), FromBE(s, 6, 4)))
  }

  /** Parsing an encoded header gives it back, whatever follows it in the buffer. */
  lemma ParseEncode(h: Header, rest: seq<byte>)
    ensures Parse(Some(Encode(h) + rest)) == Ok(h)
  {
    Widths();
    var s := Encode(h) + rest;
    assert s[0..2] == ToBE(h.tag, 2);
    assert s[2..6] == ToBE(h.size, 4);
    assert s[6..10] == ToBE(h.code, 4);
    FromBEOf(s, 0, h.tag, 2);
    FromBEOf(s, 2, h.size, 4);
    FromBEOf(s, 6, h.code, 4);
  }

  /** Re-encoding a parsed header reproduces the first ten bytes of the buffer. */
  lemma EncodeParse(s: seq<byte>)
    requires |s| >= TPM_HEADER_SIZE
    ensures Parse(Some(s)).Ok? && Encode(Parse(Some(s)).value) == s[..TPM_HEADER_SIZE]
  {
    ToFromBE(s, 0, 2);
    ToFromBE(s, 2, 4);
    ToFromBE(s, 6, 4);
    assert s[..TPM_HEADER_SIZE] == s[0..2] + s[2..6] + s[6..10];
  }

  /** header_unmarshal looks at the first ten bytes only: payload bytes do not change the header. */
  lemma ParseHeaderOnly(s: seq<byte>, t: seq<byte>)
    requires |s| >= TPM_HEADER_SIZE && |t| >= TPM_HEADER_SIZE
    requires s[..TPM_HEADER_SIZE] == t[..TPM_HEADER_SIZE]
    ensures Parse(Some(s)) == Parse(Some(t))
  {
    EncodeParse(s);
    EncodeParse(t);
    var hs := Parse(Some(s)).value;
    var ht := Parse(Some(t)).value;
    Widths();
    assert Encode(hs)[0..2] == ToBE(hs.tag, 2) && Encode(ht)[0..2] == ToBE(ht.tag, 2);
    assert Encode(hs)[2..6] == ToBE(hs.size, 4) && Encode(ht)[2..6] == ToBE(ht.size, 4);
    assert Encode(hs)[6..10] == ToBE(hs.code, 4) && Encode(ht)[6..10] == ToBE(ht.code, 4);
    ToBEInjective(hs.tag, ht.tag, 2);
    ToBEInjective(hs.size, ht.size, 4);
    ToBEInjective(hs.code, ht.code, 4);
  }
}
