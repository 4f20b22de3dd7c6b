/**
 * The concrete expectations of the TPML marshalling unit tests, as facts about the model:
 * the byte layouts, the offsets and the return codes each test case checks.
 */
module TpmlVectors {
  import opened Tss2Types
  import opened Endian
  import TpmlUint32
  import TpmlPcr

  /** The two persistent handles the tests marshal, and their 12-byte wire form. */
  const Handles: TpmlUint32.Uint32List := TpmlUint32.Uint32List(2, [0x81000001, 0x81000002])
  const HandleBytes: seq<byte> := [0, 0, 0, 2, 0x81, 0, 0, 1, 0x81, 0, 0, 2]

  /** TPML_HANDLE {2, 0x81000001, 0x81000002} marshals to its count and handles, big-endian: 12 bytes. */
  lemma HandleLayout()
    ensures TpmlUint32.Encode(Handles) == HandleBytes
  {
    Widths();
    assert Handles.items[..2] == [0x81000001, 0x81000002];
    assert TpmlUint32.EncodeItems([0x81000001, 0x81000002][..1]) == ToBE(0x81000001, 4);
  }

  /** The two PCR selections the tests marshal: SHA-1 with 3 bitmap bytes, SHA-256 with 2. */
  const Sel0: TpmlPcr.PcrSelection := TpmlPcr.PcrSelection(0x0004, 3, [0xaa, 0xbb, 0xcc, 0])
  const Sel1: TpmlPcr.PcrSelection := TpmlPcr.PcrSelection(0x000b, 2, [0xdd, 0xee, 0, 0])
  const SelBytes: seq<byte> := [0, 0, 0, 2, 0, 0x04, 3, 0xaa, 0xbb, 0xcc, 0, 0x0b, 2, 0xdd, 0xee]

  /** A TPML_PCR_SELECTION as the tests fill it: count 2, the two selections first, the other banks whatever they hold. */
  predicate IsTestSels(l: TpmlPcr.PcrSelectionList) {
    && l.count == 2
    && |l.pcrSelections| == TpmlPcr.TPM2_NUM_PCR_BANKS
    && TpmlPcr.AllShaped(l.pcrSelections)
    && l.pcrSelections[0] == Sel0 && l.pcrSelections[1] == Sel1
  }

  lemma TestSelsLive(l: TpmlPcr.PcrSelectionList)
    requires IsTestSels(l)
    ensures l.pcrSelections[..2] == [Sel0, Sel1] && TpmlPcr.AllValid([Sel0, Sel1])
  {
  }

  /** Each test selection on its own: its wire bytes, and it is already in the zero-padded form unmarshalling produces. */
  lemma TestSelBytes()
    ensures TpmlPcr.Valid(Sel0) && TpmlPcr.EncodeSel(Sel0) == [0, 0x04, 3, 0xaa, 0xbb, 0xcc]
    ensures TpmlPcr.Valid(Sel1) && TpmlPcr.EncodeSel(Sel1) == [0, 0x0b, 2, 0xdd, 0xee]
    ensures TpmlPcr.NormSel(Sel0) == Sel0 && TpmlPcr.NormSel(Sel1) == Sel1
  {
    Widths();
    assert ToBE(0x0004, 2) == [0, 0x04];
    assert ToBE(0x000b, 2) == [0, 0x0b];
    assert TpmlPcr.ZeroBytes(1) == [0];
    assert TpmlPcr.ZeroBytes(2) == [0, 0];
  }

  /** The two test selections parse back to themselves: their unused bitmap bytes are already zero. */
  lemma TestSelsNormal()
    ensures TpmlPcr.AllValid([Sel0, Sel1]) && TpmlPcr.NormSels([Sel0, Sel1]) == [Sel0, Sel1]
  {
    TestSelBytes();
    assert [Sel0, Sel1][..1] == [Sel0] && [Sel0][..0] == [];
    assert TpmlPcr.NormSels([Sel0]) == [Sel0];
  }

  /** The two test selections back to back: 11 bytes, each element's hash, sizeofSelect and selected bitmap bytes. */
  lemma TestSelsEncoding()
    ensures TpmlPcr.AllValid([Sel0, Sel1])
    ensures TpmlPcr.EncodeSels([Sel0, Sel1]) == [0, 0x04, 3, 0xaa, 0xbb, 0xcc, 0, 0x0b, 2, 0xdd, 0xee]
  {
    TestSelBytes();
    TpmlPcr.EncodeSelsSnoc([], Sel0);
    TpmlPcr.EncodeSelsSnoc([Sel0], Sel1);
  }

  /**
   * The TPML_PCR_SELECTION of the tests marshals to 15 bytes: the count, then per element
   * its hash, its sizeofSelect and only that many bitmap bytes.
   */
  lemma SelLayout(l: TpmlPcr.PcrSelectionList)
    requires IsTestSels(l)
    ensures TpmlPcr.AllValid(l.pcrSelections[..2]) && TpmlPcr.Encode(l) == SelBytes
  {
    TestSelsLive(l);
    TestSelsEncoding();
    Widths();
    assert ToBE(2, 4) == [0, 0, 0, 2];
  }

  /** Where each of the two selections may fail, for any buffer and start offset of the element list. */
  lemma SelsRcTwo(hasBuffer: bool, bufferSize: nat, at: nat)
    ensures TpmlPcr.AllShaped([Sel0, Sel1])
    ensures TpmlPcr.SelsRc([Sel0, Sel1], hasBuffer, bufferSize, at) ==
      if hasBuffer && !Fits(bufferSize, at, 6) then MuInsufficientBuffer
      else if hasBuffer && !Fits(bufferSize, at + 6, 5) then MuInsufficientBuffer
      else Success
  {
    var a := [Sel0, Sel1];
    assert a[..1] == [Sel0] && a[|a| - 1] == Sel1 && [Sel0][..0] == [];
    TpmlPcr.EncodeSelsSnoc([], Sel0);
    assert TpmlPcr.SelsRc([Sel0], hasBuffer, bufferSize, at) == TpmlPcr.SelRc(Sel0, hasBuffer, bufferSize, at);
    assert |TpmlPcr.EncodeSels([Sel0])| == 6;
  }

  /**
   * The TPML_HANDLE cases of the marshalling tests: success at offset 10 of a large buffer,
   * size-only marshalling (no buffer) from offset 99, the NULL buffer and NULL offset
   * rejection, 12 bytes not enough from offset 10, and a count of TPM2_MAX_CAP_HANDLES + 2.
   */
  lemma HandleMarshalCases(bufferSize: nat)
    ensures TpmlUint32.TPM2_MAX_CAP_HANDLES == 254
    ensures bufferSize >= 10 + 12 ==>
      TpmlUint32.MarshalRc(2, TpmlUint32.TPM2_MAX_CAP_HANDLES, true, bufferSize, Some(10)) == Success
    ensures bufferSize >= 99 + 4 ==>
      TpmlUint32.MarshalRc(2, TpmlUint32.TPM2_MAX_CAP_HANDLES, false, bufferSize, Some(99)) == Success
    ensures |TpmlUint32.Encode(Handles)| == 12
    ensures TpmlUint32.MarshalRc(2, TpmlUint32.TPM2_MAX_CAP_HANDLES, false, bufferSize, None) == MuBadReference
    ensures TpmlUint32.MarshalRc(2, TpmlUint32.TPM2_MAX_CAP_HANDLES, true, 12, Some(10)) == MuInsufficientBuffer
    ensures bufferSize >= 4 ==>
      TpmlUint32.MarshalRc(TpmlUint32.TPM2_MAX_CAP_HANDLES + 2, TpmlUint32.TPM2_MAX_CAP_HANDLES, true, bufferSize, None) == SysBadValue
  {
  }

  /**
   * The TPML_PCR_SELECTION cases of the marshalling tests: success at offset 22 of a large
   * buffer, size-only marshalling from offset 111, NULL buffer and NULL offset, a 14-byte
   * buffer from offset 2 (the second element does not fit), and a count of
   * TPM2_NUM_PCR_BANKS + 2.
   */
  lemma SelMarshalCases(l: TpmlPcr.PcrSelectionList, bufferSize: nat)
    requires IsTestSels(l)
    ensures bufferSize >= 22 + 15 ==> TpmlPcr.MarshalRc(l, true, bufferSize, Some(22)) == Success
    ensures bufferSize >= 111 + 4 ==> TpmlPcr.MarshalRc(l, false, bufferSize, Some(111)) == Success
    ensures TpmlPcr.MarshalRc(l, false, bufferSize, None) == MuBadReference
    ensures TpmlPcr.MarshalRc(l, true, 14, Some(2)) == MuInsufficientBuffer
    ensures bufferSize >= 4 ==>
      TpmlPcr.MarshalRc(l.(count := TpmlPcr.TPM2_NUM_PCR_BANKS + 2), true, bufferSize, None) == SysBadValue
  {
    TestSelsLive(l);
    SelsRcTwo(true, bufferSize, 26);
    SelsRcTwo(false, bufferSize, 115);
    SelsRcTwo(true, 14, 6);
  }

  /** tpml_unmarshal_success, TPML_HANDLE half: the handles at offset 0 come back with count 2, and *offset becomes 12. */
  lemma HandleUnmarshalSuccess(s: seq<byte>)
    requires |s| >= 12 && s[..12] == HandleBytes
    ensures var r := TpmlUint32.Parse(s, 0, TpmlUint32.TPM2_MAX_CAP_HANDLES);
      r.Parsed? && r.next == 12 && r.value.count == 2 &&
      r.value.items[0] == 0x81000001 && r.value.items[1] == 0x81000002
  {
    Widths();
    assert s[0..4] == ToBE(2, 4);
    FromBEOf(s, 0, 2, 4);
    HandleLayout();
    assert s[4..12] == TpmlUint32.EncodeItems([0x81000001, 0x81000002]);
    TpmlUint32.DecodeEncodeItems(s, 4, [0x81000001, 0x81000002]);
  }

  /**
   * tpml_unmarshal_success, TPML_PCR_SELECTION half: the selections written at offset 12 come
   * back with count 2 and both elements, and *offset becomes 27.
   */
  lemma SelUnmarshalSuccess(l: TpmlPcr.PcrSelectionList, s: seq<byte>)
    requires IsTestSels(l)
    requires |s| >= 27 && s[12..27] == SelBytes
    ensures var r := TpmlPcr.Parse(s, 12);
      r.Parsed? && r.next == 27 && r.value.count == 2 &&
      r.value.pcrSelections[0] == Sel0 && r.value.pcrSelections[1] == Sel1
  {
    SelLayout(l);
    TpmlPcr.ParseEncode(l, s, 12);
    TestSelsLive(l);
    TestSelsNormal();
    var r := TpmlPcr.Parse(s, 12);
    assert r.value.pcrSelections == [Sel0, Sel1] + TpmlPcr.EmptySelections(TpmlPcr.TPM2_NUM_PCR_BANKS - 2);
  }

  /**
   * tpml_unmarshal_buffer_size_lt_data_nad_lt_offset, TPML_HANDLE half: in a 12-byte buffer the
   * count 2 at offset 2 fits but its two handles do not.
   */
  lemma HandleUnmarshalTooSmall(s: seq<byte>)
    requires |s| == 12 && s[2..6] == [0, 0, 0, 2]
    ensures TpmlUint32.Parse(s, 2, TpmlUint32.TPM2_MAX_CAP_HANDLES) == Failed(MuInsufficientBuffer)
  {
    Widths();
    assert ToBE(2, 4) == [0, 0, 0, 2];
    FromBEOf(s, 2, 2, 4);
  }

  /**
   * tpml_unmarshal_buffer_size_lt_data_nad_lt_offset, TPML_PCR_SELECTION half: in a 15-byte
   * buffer holding the selection bytes from offset 2, the first element fits and the second
   * one's bitmap does not.
   */
  lemma SelUnmarshalTooSmall(s: seq<byte>)
    requires |s| == 15 && s[2..] == SelBytes[..13]
    ensures TpmlPcr.Parse(s, 2) == Failed(MuInsufficientBuffer)
  {
    Widths();
    assert ToBE(2, 4) == [0, 0, 0, 2];
    assert s[2..6] == s[2..][..4] == SelBytes[..4];
    FromBEOf(s, 2, 2, 4);
    TestSelBytes();
    assert s[6..12] == s[2..][4..10] == SelBytes[4..10];
    assert SelBytes[4..10] == TpmlPcr.EncodeSel(Sel0);
    TpmlPcr.ParseSelEncode(Sel0, s, 6);
    TpmlPcr.ParseSelsStep(s, 6, 0, [], 6);
    TpmlPcr.ParseSelsStep(s, 6, 1, [Sel0], 12);
    assert s[14] == s[2..][12] == 2;
    assert TpmlPcr.ParseSel(s, 12) == Failed(MuInsufficientBuffer);
  }

  /** tpml_unmarshal_invalid_count: a count of 256 at the offset is a malformed response for both lists. */
  lemma UnmarshalInvalidCount(s: seq<byte>)
    requires |s| >= 4 && s[..4] == ToBE(TpmlUint32.TPM2_MAX_CAP_HANDLES + 2, 4)
    ensures TpmlUint32.Parse(s, 0, TpmlUint32.TPM2_MAX_CAP_HANDLES) == Failed(SysMalformedResponse)
    ensures TpmlPcr.Parse(s, 0) == Failed(SysMalformedResponse)
  {
    Widths();
    FromBEOf(s, 0, 256, 4);
  }

  /** The TPML_INTEL_PTT_PROPERTY bytes of the vendor test: one property, 3. */
  const PttBytes: seq<byte> := [0, 0, 0, 1, 0, 0, 0, 3]

  /** A buffer holding count 1 and then one element x unmarshals to that one-element list, zero-padded. */
  lemma ParseSingle(s: seq<byte>, o: nat, cap: nat, x: uint32)
    requires |s| == o + 8 && 1 <= cap
    requires FromBE(s, o, 4) == 1 && FromBE(s, o + 4, 4) == x
    ensures TpmlUint32.Parse(s, o, cap) == Parsed(TpmlUint32.Uint32List(1, [x] + TpmlUint32.Zeros(cap - 1)), o + 8)
  {
    Widths();
    assert Fits(|s|, o + 4, 4 * 1);
    assert TpmlUint32.DecodeItems(s, o + 4, 1) == TpmlUint32.DecodeItems(s, o + 4, 0) + [x];
    var r := TpmlUint32.Parse(s, o, cap);
    assert r.Parsed?;
    assert r.next == o + 8;
    assert r.value.count == 1;
    assert r.value.items == [x] + TpmlUint32.Zeros(cap - 1);
  }

  /** tpml_intel_ptt_marshal_unmarshal, first half: the 8 bytes unmarshal to count 1 and property 3, consuming all 8. */
  lemma PttUnmarshal(s: seq<byte>)
    requires s == PttBytes
    ensures var r := TpmlUint32.Parse(s, 0, TpmlUint32.TPM2_MAX_PTT_PROPERTIES);
      r.Parsed? && r.next == 8 && r.value.count == 1 && r.value.items[0] == 3
  {
    Widths();
    assert s[0..4] == [0, 0, 0, 1] == ToBE(1, 4);
    FromBEOf(s, 0, 1, 4);
    assert s[4..8] == [0, 0, 0, 3] == ToBE(3, 4);
    FromBEOf(s, 4, 3, 4);
    ParseSingle(s, 0, TpmlUint32.TPM2_MAX_PTT_PROPERTIES, 3);
  }

  /**
   * tpml_intel_ptt_marshal_unmarshal, second half: marshalling the unmarshalled list into a
   * zeroed 1024-byte buffer from offset 0 succeeds and writes back exactly the 8 bytes, so
   * *offset becomes 8.
   */
  lemma PttRemarshal(s: seq<byte>)
    requires s == PttBytes
    ensures var r := TpmlUint32.Parse(s, 0, TpmlUint32.TPM2_MAX_PTT_PROPERTIES);
      r.Parsed? &&
      TpmlUint32.MarshalRc(r.value.count, TpmlUint32.TPM2_MAX_PTT_PROPERTIES, true, 1024, Some(0)) == Success &&
      TpmlUint32.Encode(r.value) == s
  {
    PttUnmarshal(s);
    TpmlUint32.EncodeParse(s, 0, TpmlUint32.TPM2_MAX_PTT_PROPERTIES);
    assert s[0..8] == s;
  }
}
