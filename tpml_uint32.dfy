/**
 * TPML lists whose elements are 32-bit values: TPML_HANDLE (capacity TPM2_MAX_CAP_HANDLES)
 * and the vendor list TPML_INTEL_PTT_PROPERTY. On the wire a list is its BE32 count followed
 * by `count` BE32 elements; in memory it is the count and a fixed-capacity array.
 */
module TpmlUint32 {
  import opened Tss2Types
  import opened Endian
  import ScalarMu

  /** TPM2_MAX_CAP_HANDLES = (TPM2_MAX_CAP_BUFFER - sizeof(TPM2_CAP) - sizeof(UINT32)) / 4. */
  const TPM2_MAX_CAP_HANDLES: nat := (1024 - 4 - 4) / 4

  /** TPM2_MAX_PTT_PROPERTIES = TPM2_MAX_CAP_BUFFER / sizeof(UINT32): the capacity of TPML_INTEL_PTT_PROPERTY. */
  const TPM2_MAX_PTT_PROPERTIES: nat := 1024 / 4

  /** The in-memory list: `items` is the whole fixed-capacity array, only `count` of it live. */
  datatype Uint32List = Uint32List(count: uint32, items: seq<uint32>)

  function Zeros(n: nat): (r: seq<uint32>)
    ensures |r| == n
  {
    seq(n, _ => 0)
  }

  /** The list as a memset-then-filled destination holds it: live items, then zeros. */
  function Normalized(l: Uint32List, cap: nat): (r: Uint32List)
    requires l.count <= cap == |l.items|
    ensures r.count == l.count && |r.items| == cap
  {
    Uint32List(l.count, l.items[..l.count] + Zeros(cap - l.count))
  }

  /** The elements back to back, each as 4 big-endian bytes. */
  function EncodeItems(xs: seq<uint32>): (r: seq<byte>)
    ensures |r| == 4 * |xs|
  {
    if xs == [] then [] else EncodeItems(xs[..|xs| - 1]) + ToBE(xs[|xs| - 1], 4)
  }

  lemma EncodeItemsSnoc(xs: seq<uint32>, i: nat)
    requires i < |xs|
    ensures EncodeItems(xs[..i + 1]) == EncodeItems(xs[..i]) + ToBE(xs[i], 4)
  {
    assert xs[..i + 1][..i] == xs[..i];
  }

  lemma EncodeItemsAppend(p: seq<uint32>, x: uint32)
    ensures EncodeItems(p + [x]) == EncodeItems(p) + ToBE(x, 4)
  {
    assert (p + [x])[..|p|] == p;
  }

  /** Wire form of a list: the BE32 count, then the first `count` elements. */
  function Encode(l: Uint32List): (r: seq<byte>)
    requires l.count <= |l.items|
    ensures |r| == 4 + 4 * l.count
  {
    ToBE(l.count, 4) + EncodeItems(l.items[..l.count])
  }

  /** The first four bytes of a list's wire form read back as its count. */
  lemma EncodeCount(l: Uint32List)
    requires l.count <= |l.items|
    ensures FromBE(Encode(l), 0, 4) == l.count
  {
    var r := Encode(l);
    assert r[0..4] == ToBE(l.count, 4);
    FromBEOf(r, 0, l.count, 4);
  }

  /** The n back-to-back BE32 values that start at offset o of s. */
  function DecodeItems(s: seq<byte>, o: nat, n: nat): (r: seq<uint32>)
    requires o + 4 * n <= |s|
    ensures |r| == n
  {
    if n == 0 then [] else DecodeItems(s, o, n - 1) + [FromBE(s, o + 4 * (n - 1), 4)]
  }

  /** Decoding the bytes of encoded elements gives those elements back. */
  lemma {:induction false} DecodeEncodeItems(s: seq<byte>, o: nat, xs: seq<uint32>)
    requires o + 4 * |xs| <= |s| && s[o..o + 4 * |xs|] == EncodeItems(xs)
    ensures DecodeItems(s, o, |xs|) == xs
  {
    if xs != [] {
      var n := |xs|;
      var p := xs[..n - 1];
      ScalarMu.SliceSplit(s, o, EncodeItems(p), ToBE(xs[n - 1], 4));
      DecodeEncodeItems(s, o, p);
      FromBEOf(s, o + 4 * (n - 1), xs[n - 1], 4);
      assert xs == p + [xs[n - 1]];
    }
  }

  /** Decoding one more element adds its four bytes to the encoding. */
  lemma EncodeDecodeLast(s: seq<byte>, o: nat, n: nat)
    requires 0 < n && o + 4 * n <= |s|
    ensures EncodeItems(DecodeItems(s, o, n)) == EncodeItems(DecodeItems(s, o, n - 1)) + s[o + 4 * (n - 1)..o + 4 * n]
  {
    Widths();
    var m := o + 4 * (n - 1);
    var x: uint32 := FromBE(s, m, 4);
    assert DecodeItems(s, o, n) == DecodeItems(s, o, n - 1) + [x];
    EncodeItemsAppend(DecodeItems(s, o, n - 1), x);
    ToFromBE(s, m, 4);
  }

  /** Encoding decoded elements reproduces the bytes they were read from. */
  lemma {:induction false} EncodeDecodeItems(s: seq<byte>, o: nat, n: nat)
    requires o + 4 * n <= |s|
    ensures EncodeItems(DecodeItems(s, o, n)) == s[o..o + 4 * n]
  {
    if n != 0 {
      EncodeDecodeItems(s, o, n - 1);
      EncodeDecodeLast(s, o, n);
      ScalarMu.SliceJoin(s, o, o + 4 * (n - 1), o + 4 * n);
    }
  }

  /**
   * What Tss2_MU_TPML_*_Unmarshal finds at offset o of s, the first buffer_size bytes of the
   * buffer: the decoded list, as a zeroed destination holds it, or the error it reports.
   */
  function Parse(s: seq<byte>, o: nat, cap: nat): (r: Parsed<Uint32List>)
    ensures r.Parsed? ==> r.next == o + 4 + 4 * r.value.count <= |s|
    ensures r.Parsed? ==> r.value.count <= cap == |r.value.items|
  {
    if !Fits(|s|, o, 4) then Failed(MuInsufficientBuffer)
    else
      var count := FromBE(s, o, 4);
      if count > cap then Failed(SysMalformedResponse)
      else if !Fits(|s|, o + 4, 4 * count) then Failed(MuInsufficientBuffer)
      else Parsed(Uint32List(count, DecodeItems(s, o + 4, count) + Zeros(cap - count)),
                  o + 4 + 4 * count)
  }

  /** The error, if any, Tss2_MU_TPML_*_Marshal reports, in the order it checks. */
  function MarshalRc(count: nat, cap: nat, hasBuffer: bool, bufferSize: nat, offset: Option<nat>): (r: Rc)
    ensures r == Success <==>
      (hasBuffer || offset.Some?) && count <= cap &&
      Fits(bufferSize, OffsetOr0(offset), if hasBuffer then 4 + 4 * count else 4)
    ensures r == Success || r == MuBadReference || r == MuInsufficientBuffer || r == SysBadValue
  {
    var o := OffsetOr0(offset);
    if !hasBuffer && offset.None? then MuBadReference
    else if !Fits(bufferSize, o, 4) then MuInsufficientBuffer
    else if count > cap then SysBadValue
    else if hasBuffer && !Fits(bufferSize, o, 4 + 4 * count) then MuInsufficientBuffer
    else Success
  }

  /**
   * Tss2_MU_TPML_HANDLE_Marshal / Tss2_MU_TPML_INTEL_PTT_PROPERTY_Marshal: the count, then
   * each element, through the scalar marshaller at a running local offset; *offset is
   * written only when every element went through.
   */
  method Marshal(src: Uint32List, cap: nat, buffer: array?<byte>, bufferSize: nat, offset: Option<nat>)
    returns (rc: Rc, newOffset: Option<nat>)
    requires |src.items| == cap
    requires buffer != null ==> bufferSize <= buffer.Length
    modifies buffer
    ensures rc == MarshalRc(src.count, cap, buffer != null, bufferSize, offset)
    ensures newOffset == if rc == Success then Advance(offset, 4 + 4 * src.count) else offset
    ensures buffer != null && rc == Success ==>
      buffer[..] == ScalarMu.Splice(old(buffer[..]), OffsetOr0(offset), Encode(src))
    ensures buffer != null && !Fits(bufferSize, OffsetOr0(offset), 4) ==> buffer[..] == old(buffer[..])
    ensures buffer != null && rc != Success && Fits(bufferSize, OffsetOr0(offset), 4) ==>
      ScalarMu.SameOutside(old(buffer[..]), buffer[..], OffsetOr0(offset), bufferSize)
  {
    var localOffset := OffsetOr0(offset);
    if buffer == null && offset.None? {
      return MuBadReference, offset;
    } else if bufferSize < localOffset || bufferSize - localOffset < 4 {
      return MuInsufficientBuffer, offset;
    }
    if src.count > cap {
      return SysBadValue, offset;
    }
    var r, next := ScalarMu.Marshal(4, src.count, buffer, bufferSize, Some(localOffset));
    ghost var mid := if buffer != null then buffer[..] else [];
    r := MarshalItems(src.items[..src.count], buffer, bufferSize, localOffset + 4);
    if r != Success {
      if buffer != null {
        ScalarMu.SpliceOutside(old(buffer[..]), localOffset, ToBE(src.count, 4), localOffset, bufferSize);
        ScalarMu.SameOutsideThen(old(buffer[..]), mid, buffer[..], localOffset, localOffset + 4, bufferSize);
      }
      return r, offset;
    }
    if buffer != null {
      ScalarMu.SpliceTwice(old(buffer[..]), localOffset, ToBE(src.count, 4), EncodeItems(src.items[..src.count]));
    }
    return Success, Advance(offset, 4 + 4 * src.count);
  }

  /**
   * The element loop of the list marshaller: each element through the scalar marshaller at
   * a running offset that starts at `at`, stopping at the first one that does not fit.
   */
  method MarshalItems(xs: seq<uint32>, buffer: array?<byte>, bufferSize: nat, at: nat) returns (rc: Rc)
    requires buffer != null ==> at <= bufferSize <= buffer.Length
    modifies buffer
    ensures rc == if buffer == null || Fits(bufferSize, at, 4 * |xs|) then Success else MuInsufficientBuffer
    ensures buffer != null && rc == Success ==> buffer[..] == ScalarMu.Splice(old(buffer[..]), at, EncodeItems(xs))
    ensures buffer != null && rc != Success ==> ScalarMu.SameOutside(old(buffer[..]), buffer[..], at, bufferSize)
  {
    var i := 0;
    var pos := at;
    ghost var written: seq<byte> := [];
    while i < |xs|
      invariant 0 <= i <= |xs|
      invariant pos == at + 4 * i
      invariant written == EncodeItems(xs[..i])
      invariant buffer != null ==> pos <= bufferSize
      invariant buffer != null ==> buffer[..] == ScalarMu.Splice(old(buffer[..]), at, written)
    {
      var r, next := ScalarMu.Marshal(4, xs[i], buffer, bufferSize, Some(pos));
      if r != Success {
        if buffer != null {
          ScalarMu.SpliceOutside(old(buffer[..]), at, written, at, bufferSize);
        }
        return r;
      }
      EncodeItemsSnoc(xs, i);
      if buffer != null {
        ScalarMu.SpliceTwice(old(buffer[..]), at, written, ToBE(xs[i], 4));
      }
      written := written + ToBE(xs[i], 4);
      pos := next.value;
      i := i + 1;
    }
    assert xs[..i] == xs;
    return Success;
  }

  /**
   * Tss2_MU_TPML_HANDLE_Unmarshal / Tss2_MU_TPML_INTEL_PTT_PROPERTY_Unmarshal: reads the
   * count, rejects one above the capacity, zeroes the destination and stores the count, then
   * reads each element through the scalar unmarshaller (skipping it when dest is NULL).
   */
  method Unmarshal(cap: nat, buffer: array?<byte>, bufferSize: nat, offset: Option<nat>, dest: Option<Uint32List>)
    returns (rc: Rc, newOffset: Option<nat>, newDest: Option<Uint32List>)
    requires buffer != null ==> bufferSize <= buffer.Length
    ensures buffer == null || (dest.None? && offset.None?) ==> rc == MuBadReference
    ensures buffer != null && (dest.Some? || offset.Some?) ==>
      var r := Parse(buffer[..bufferSize], OffsetOr0(offset), cap);
      (r.Parsed? ==> rc == Success && newOffset == (if offset.Some? then Some(r.next) else None) &&
                     newDest == if dest.Some? then Some(r.value) else None) &&
      (r.Failed? ==> rc == r.rc)
    ensures rc != Success ==> newOffset == offset
    ensures rc == MuBadReference || rc == SysMalformedResponse ==> newDest == dest
    ensures !Fits(bufferSize, OffsetOr0(offset), 4) ==> newDest == dest
  {
    var localOffset := OffsetOr0(offset);
    if buffer == null || (dest.None? && offset.None?) {
      return MuBadReference, offset, dest;
    } else if bufferSize < localOffset || 4 > bufferSize - localOffset {
      return MuInsufficientBuffer, offset, dest;
    }
    var r, next, count := ScalarMu.Unmarshal(4, buffer, bufferSize, Some(localOffset), Some(0));
    var n := count.value;
    if n > cap {
      return SysMalformedResponse, offset, dest;
    }
    var items;
    r, items := UnmarshalItems(buffer, bufferSize, next.value, n, dest.Some?);
    newDest := if dest.Some? then Some(Uint32List(n, items + Zeros(cap - |items|))) else None;
    if r != Success {
      return r, offset, newDest;
    }
    return Success, if offset.Some? then Some(localOffset + 4 + 4 * n) else None, newDest;
  }

  /**
   * The element loop of the list unmarshaller: n elements through the scalar unmarshaller from
   * offset `at`, kept only when the caller has a destination; stops at the first that does not
   * fit, leaving the elements read so far.
   */
  method UnmarshalItems(buffer: array<byte>, bufferSize: nat, at: nat, n: nat, want: bool)
    returns (rc: Rc, items: seq<uint32>)
    requires at <= bufferSize <= buffer.Length
    ensures rc == if Fits(bufferSize, at, 4 * n) then Success else MuInsufficientBuffer
    ensures want ==> |items| <= n && at + 4 * |items| <= bufferSize &&
                     items == DecodeItems(buffer[..bufferSize], at, |items|)
    ensures want && rc == Success ==> |items| == n
    ensures !want ==> items == []
  {
    var i := 0;
    var pos := at;
    items := [];
    while i < n
      invariant 0 <= i <= n
      invariant pos == at + 4 * i <= bufferSize
      invariant want ==> items == DecodeItems(buffer[..bufferSize], at, i)
      invariant !want ==> items == []
    {
      var r, next, element := ScalarMu.Unmarshal(4, buffer, bufferSize, Some(pos), if want then Some(0) else None);
      if r != Success {
        return r, items;
      }
      if want {
        items := items + [element.value];
      }
      pos := next.value;
      i := i + 1;
    }
    return Success, items;
  }

  /** Unmarshalling what Marshal wrote returns the list (as a zeroed destination holds it). */
  lemma ParseEncode(l: Uint32List, cap: nat, s: seq<byte>, o: nat)
    requires l.count <= cap == |l.items|
    requires o + 4 + 4 * l.count <= |s| && s[o..o + 4 + 4 * l.count] == Encode(l)
    ensures Parse(s, o, cap).Parsed? && Parse(s, o, cap).value == Normalized(l, cap)
    ensures Parse(s, o, cap).next == o + 4 + 4 * l.count
  {
    var c: nat := l.count;
    ScalarMu.SliceSplit(s, o, ToBE(c, 4), EncodeItems(l.items[..c]));
    FromBEOf(s, o, c, 4);
    DecodeEncodeItems(s, o + 4, l.items[..c]);
  }

  /** Re-marshalling an unmarshalled list reproduces the bytes it came from exactly. */
  lemma EncodeParse(s: seq<byte>, o: nat, cap: nat)
    requires Parse(s, o, cap).Parsed?
    ensures Encode(Parse(s, o, cap).value) == s[o..Parse(s, o, cap).next]
  {
    var l := Parse(s, o, cap).value;
    var c: nat := l.count;
    ToFromBE(s, o, 4);
    assert l.items[..c] == DecodeItems(s, o + 4, c);
    EncodeDecodeItems(s, o + 4, c);
    ScalarMu.SliceJoin(s, o, o + 4, o + 4 + 4 * c);
  }
}
