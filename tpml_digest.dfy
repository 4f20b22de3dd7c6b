/**
 * The size-only ("buffer == NULL") paths of Tss2_MU_TPML_DIGEST_Marshal and
 * Tss2_MU_TPML_DIGEST_VALUES_Marshal: nothing is written, *offset advances by the size the
 * list would take on the wire.
 */
module TpmlDigest {
  import opened Tss2Types
  import opened Endian
  import ScalarMu
  import TpmlUint32

  const TPM2_ALG_SHA1: uint16 := 0x0004
  const TPM2_ALG_SHA512: uint16 := 0x000D
  const TPM2_SHA1_DIGEST_SIZE: nat := 20
  const TPM2_SHA512_DIGEST_SIZE: nat := 64

  /** Capacity of TPML_DIGEST.digests. */
  const TPML_DIGEST_MAX: nat := 8
  /** Capacity of TPML_DIGEST_VALUES.digests (TPM2_NUM_PCR_BANKS). */
  const TPML_DIGEST_VALUES_MAX: nat := 16

  /** TPM2B_DIGEST, by its size field: the size-only path never looks at the bytes. */
  datatype Digest = Digest(size: uint16)
  datatype DigestList = DigestList(count: uint32, digests: seq<Digest>)

  /** TPMT_HA, by its hashAlg selector: the digest it selects has a fixed size. */
  datatype Ha = Ha(hashAlg: uint16)
  datatype DigestValues = DigestValues(count: uint32, digests: seq<Ha>)

  /** The hash algorithms whose digest sizes are part of this model. */
  predicate KnownAlg(alg: uint16) {
    alg == TPM2_ALG_SHA1 || alg == TPM2_ALG_SHA512
  }

  predicate AllKnown(hs: seq<Ha>) {
    forall k :: 0 <= k < |hs| ==> KnownAlg(hs[k].hashAlg)
  }

  function DigestSize(alg: uint16): nat
    requires KnownAlg(alg)
  {
    if alg == TPM2_ALG_SHA1 then TPM2_SHA1_DIGEST_SIZE else TPM2_SHA512_DIGEST_SIZE
  }

  /** Wire size of TPM2B_DIGEST elements: a UINT16 size, then that many bytes, each. */
  function DigestsSize(ds: seq<Digest>): (r: nat)
    ensures r >= 2 * |ds|
    ensures r == 0 <==> ds == []
  {
    if ds == [] then 0 else DigestsSize(ds[..|ds| - 1]) + 2 + ds[|ds| - 1].size
  }

  /** Wire size of TPMT_HA elements: a UINT16 hashAlg, then the digest of that algorithm, each. */
  function ValuesSize(hs: seq<Ha>): (r: nat)
    requires AllKnown(hs)
    ensures r >= 2 * |hs|
    ensures r == 0 <==> hs == []
  {
    if hs == [] then 0 else ValuesSize(hs[..|hs| - 1]) + 2 + DigestSize(hs[|hs| - 1].hashAlg)
  }

  /** The size of a list of digests is the sum of the sizes of its parts. */
  lemma {:induction false} DigestsSizeAppend(a: seq<Digest>, b: seq<Digest>)
    ensures DigestsSize(a + b) == DigestsSize(a) + DigestsSize(b)
  {
    if b != [] {
      var b' := b[..|b| - 1];
      assert (a + b)[..|a + b| - 1] == a + b';
      DigestsSizeAppend(a, b');
    } else {
      assert a + b == a;
    }
  }

  /** The size of a list of digest values is the sum of the sizes of its parts. */
  lemma {:induction false} ValuesSizeAppend(a: seq<Ha>, b: seq<Ha>)
    requires AllKnown(a) && AllKnown(b)
    ensures AllKnown(a + b) && ValuesSize(a + b) == ValuesSize(a) + ValuesSize(b)
  {
    if b != [] {
      var b' := b[..|b| - 1];
      assert (a + b)[..|a + b| - 1] == a + b';
      ValuesSizeAppend(a, b');
    } else {
      assert a + b == a;
    }
  }

  /** Every TPMT_HA takes between 2 + 20 (SHA-1) and 2 + 64 (SHA-512) bytes. */
  lemma {:induction false} ValuesSizeBounds(hs: seq<Ha>)
    requires AllKnown(hs)
    ensures 22 * |hs| <= ValuesSize(hs) <= 66 * |hs|
  {
    if hs != [] {
      ValuesSizeBounds(hs[..|hs| - 1]);
    }
  }

  /**
   * Tss2_MU_TPML_DIGEST_Marshal with a NULL buffer: the list checks of every TPML marshaller,
   * then the count and each element in size mode at a running local offset.
   */
  method MarshalDigestsSizeOnly(src: DigestList, bufferSize: nat, offset: Option<nat>)
    returns (rc: Rc, newOffset: Option<nat>)
    requires |src.digests| == TPML_DIGEST_MAX
    ensures rc == TpmlUint32.MarshalRc(src.count, TPML_DIGEST_MAX, false, bufferSize, offset)
    ensures rc == Success ==>
      src.count <= TPML_DIGEST_MAX && newOffset == Advance(offset, 4 + DigestsSize(src.digests[..src.count]))
    ensures rc != Success ==> newOffset == offset
  {
    var localOffset := OffsetOr0(offset);
    if offset.None? {
      return MuBadReference, offset;
    } else if bufferSize < localOffset || bufferSize - localOffset < 4 {
      return MuInsufficientBuffer, offset;
    }
    if src.count > TPML_DIGEST_MAX {
      return SysBadValue, offset;
    }
    Widths();
    var r, next := ScalarMu.Marshal(4, src.count, null, bufferSize, Some(localOffset));
    localOffset := next.value;
    var i := 0;
    while i < src.count
      invariant 0 <= i <= src.count
      invariant localOffset == offset.value + 4 + DigestsSize(src.digests[..i])
    {
      r, next := ScalarMu.Marshal(2, src.digests[i].size, null, bufferSize, Some(localOffset));
      localOffset := next.value + src.digests[i].size;
      assert src.digests[..i + 1][..i] == src.digests[..i];
      i := i + 1;
    }
    return Success, Some(localOffset);
  }

  /**
   * Tss2_MU_TPML_DIGEST_VALUES_Marshal with a NULL buffer: as for TPML_DIGEST, each element
   * taking its hashAlg and the digest size of that algorithm.
   */
  method MarshalValuesSizeOnly(src: DigestValues, bufferSize: nat, offset: Option<nat>)
    returns (rc: Rc, newOffset: Option<nat>)
    requires |src.digests| == TPML_DIGEST_VALUES_MAX
    requires src.count as nat <= TPML_DIGEST_VALUES_MAX ==> AllKnown(src.digests[..src.count])
    ensures rc == TpmlUint32.MarshalRc(src.count, TPML_DIGEST_VALUES_MAX, false, bufferSize, offset)
    ensures rc == Success ==>
      src.count <= TPML_DIGEST_VALUES_MAX && newOffset == Advance(offset, 4 + ValuesSize(src.digests[..src.count]))
    ensures rc != Success ==> newOffset == offset
  {
    var localOffset := OffsetOr0(offset);
    if offset.None? {
      return MuBadReference, offset;
    } else if bufferSize < localOffset || bufferSize - localOffset < 4 {
      return MuInsufficientBuffer, offset;
    }
    if src.count > TPML_DIGEST_VALUES_MAX {
      return SysBadValue, offset;
    }
    Widths();
    var r, next := ScalarMu.Marshal(4, src.count, null, bufferSize, Some(localOffset));
    localOffset := next.value;
    var i := 0;
    while i < src.count
      invariant 0 <= i <= src.count
      invariant src.digests[..i] == src.digests[..src.count][..i]
      invariant AllKnown(src.digests[..i])
      invariant localOffset == offset.value + 4 + ValuesSize(src.digests[..i])
    {
      var alg := src.digests[i].hashAlg;
      r, next := ScalarMu.Marshal(2, alg, null, bufferSize, Some(localOffset));
      localOffset := next.value + DigestSize(alg);
      assert src.digests[..i + 1][..i] == src.digests[..i];
      i := i + 1;
    }
    return Success, Some(localOffset);
  }

  /**
   * tpml_marshal_buffer_null_with_offset, digest half: two digests of SHA-1 and SHA-512 size,
   * or two values of those algorithms, marshalled without a buffer from offset 99, move the
   * offset to 99 + 4 + 2 * 2 + 20 + 64.
   */
  lemma SizeOnlyVectors(l: DigestList, v: DigestValues, bufferSize: nat)
    requires l.count == 2 && |l.digests| == TPML_DIGEST_MAX
    requires l.digests[0].size == TPM2_SHA1_DIGEST_SIZE && l.digests[1].size == TPM2_SHA512_DIGEST_SIZE
    requires v.count == 2 && |v.digests| == TPML_DIGEST_VALUES_MAX
    requires v.digests[0].hashAlg == TPM2_ALG_SHA1 && v.digests[1].hashAlg == TPM2_ALG_SHA512
    requires bufferSize >= 99 + 4
    ensures TpmlUint32.MarshalRc(l.count, TPML_DIGEST_MAX, false, bufferSize, Some(99)) == Success
    ensures TpmlUint32.MarshalRc(v.count, TPML_DIGEST_VALUES_MAX, false, bufferSize, Some(99)) == Success
    ensures 99 + 4 + DigestsSize(l.digests[..2]) == 99 + 4 + 2 * 2 + 20 + 64
    ensures 99 + 4 + ValuesSize(v.digests[..2]) == 99 + 4 + 2 * 2 + 20 + 64
  {
    var ds := l.digests[..2];
    assert ds == [l.digests[0]] + [l.digests[1]];
    DigestsSizeAppend([l.digests[0]], [l.digests[1]]);
    var hs := v.digests[..2];
    assert hs == [v.digests[0]] + [v.digests[1]];
    ValuesSizeAppend([v.digests[0]], [v.digests[1]]);
  }
}
