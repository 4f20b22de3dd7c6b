/**
 * The scalar marshalling family Tss2_MU_UINTn_Marshal / Tss2_MU_UINTn_Unmarshal, for an
 * n-byte unsigned integer: UINT32 is width 4; UINT16, TPM2_ST and TPM2_ALG_ID are width 2;
 * UINT8 and BYTE are width 1. The library generates all of them from one macro, so one
 * pair of methods parameterised by the width models them all.
 */
module ScalarMu {
  import opened Tss2Types
  import opened Endian

  /** The buffer s with e written over positions [o, o + |e|) and every other byte kept. */
  function Splice(s: seq<byte>, o: nat, e: seq<byte>): (r: seq<byte>)
    requires o + |e| <= |s|
    ensures |r| == |s|
  {
    s[..o] + e + s[o + |e|..]
  }

  /** Splice changes nothing outside [o, o + |e|) and puts e inside it. */
  lemma SpliceAt(s: seq<byte>, o: nat, e: seq<byte>)
    requires o + |e| <= |s|
    ensures forall k :: 0 <= k < |s| && !(o <= k < o + |e|) ==> Splice(s, o, e)[k] == s[k]
    ensures Splice(s, o, e)[o..o + |e|] == e
  {
  }

  /** Writing a then, right after it, b is the same as writing a + b. */
  lemma SpliceTwice(s: seq<byte>, o: nat, a: seq<byte>, b: seq<byte>)
    requires o + |a| + |b| <= |s|
    ensures Splice(Splice(s, o, a), o + |a|, b) == Splice(s, o, a + b)
  {
  }

  /** Writing nothing leaves the buffer as it was. */
  lemma SpliceEmpty(s: seq<byte>, o: nat)
    requires o <= |s|
    ensures Splice(s, o, []) == s
  {
  }

  /** Bytes that hold a + b hold a, then b. */
  lemma SliceSplit(s: seq<byte>, o: nat, a: seq<byte>, b: seq<byte>)
    requires o + |a| + |b| <= |s| && s[o..o + |a| + |b|] == a + b
    ensures s[o..o + |a|] == a && s[o + |a|..o + |a| + |b|] == b
  {
    assert s[o..o + |a|] == (a + b)[..|a|];
    assert s[o + |a|..o + |a| + |b|] == (a + b)[|a|..];
  }

  /** Adjacent slices join into one. */
  lemma SliceJoin(s: seq<byte>, a: nat, m: nat, b: nat)
    requires a <= m <= b <= |s|
    ensures s[a..b] == s[a..m] + s[m..b]
  {
  }

  /** A slice grows by the element right after it. */
  lemma SliceSnoc(s: seq<byte>, a: nat, b: nat)
    requires a <= b < |s|
    ensures s[a..b + 1] == s[a..b] + [s[b]]
  {
  }

  /** a and b have the same length and differ at most inside [lo, hi). */
  predicate SameOutside(a: seq<byte>, b: seq<byte>, lo: nat, hi: nat) {
    |a| == |b| && lo <= hi <= |a| && a[..lo] == b[..lo] && a[hi..] == b[hi..]
  }

  /** A write inside [lo, hi) changes nothing outside it. */
  lemma SpliceOutside(s: seq<byte>, o: nat, e: seq<byte>, lo: nat, hi: nat)
    requires lo <= o && o + |e| <= hi <= |s|
    ensures SameOutside(s, Splice(s, o, e), lo, hi)
  {
    var t := Splice(s, o, e);
    assert t[..lo] == s[..lo];
    assert t[hi..] == s[hi..];
  }

  /** Two changes confined to [lo, hi), the second in a sub-range, make one such change. */
  lemma SameOutsideThen(a: seq<byte>, b: seq<byte>, c: seq<byte>, lo: nat, mid: nat, hi: nat)
    requires SameOutside(a, b, lo, hi) && SameOutside(b, c, mid, hi) && lo <= mid
    ensures SameOutside(a, c, lo, hi)
  {
    assert b[..lo] == b[..mid][..lo];
    assert c[..lo] == c[..mid][..lo];
  }

  /** A write of e at o followed by a change confined to the range after it is a change confined to [o, hi). */
  lemma SpliceThenOutside(a: seq<byte>, o: nat, e: seq<byte>, c: seq<byte>, hi: nat)
    requires o + |e| <= hi <= |a|
    requires SameOutside(Splice(a, o, e), c, o + |e|, hi)
    ensures SameOutside(a, c, o, hi)
  {
    SpliceOutside(a, o, e, o, hi);
    SameOutsideThen(a, Splice(a, o, e), c, o, o + |e|, hi);
  }

  /**
   * Tss2_MU_UINTn_Marshal(src, buffer, buffer_size, offset). A NULL buffer with an offset
   * only advances *offset by n (whatever buffer_size says); NULL buffer and NULL offset is
   * a bad reference; otherwise the n big-endian bytes of src go to buffer[*offset ..] (to
   * buffer[0 ..] without an offset) when they fit in buffer_size, and *offset advances by n.
   * On an error neither the buffer nor *offset changes.
   */
  method Marshal(width: nat, src: nat, buffer: array?<byte>, bufferSize: nat, offset: Option<nat>)
    returns (rc: Rc, newOffset: Option<nat>)
    requires src < Pow256(width)
    requires buffer != null ==> bufferSize <= buffer.Length
    modifies buffer
    ensures buffer == null && offset.None? ==> rc == MuBadReference
    ensures buffer == null && offset.Some? ==> rc == Success
    ensures buffer != null ==>
      rc == (if Fits(bufferSize, OffsetOr0(offset), width) then Success else MuInsufficientBuffer)
    ensures newOffset == if rc == Success then Advance(offset, width) else offset
    ensures buffer != null && rc == Success ==>
      buffer[..] == Splice(old(buffer[..]), OffsetOr0(offset), ToBE(src, width))
    ensures buffer != null && rc != Success ==> buffer[..] == old(buffer[..])
  {
    var localOffset := OffsetOr0(offset);
    if buffer == null && offset.None? {
      return MuBadReference, offset;
    } else if buffer == null {
      return Success, Advance(offset, width);
    }
    if bufferSize < localOffset || bufferSize - localOffset < width {
      return MuInsufficientBuffer, offset;
    }
    var bytes := ToBE(src, width);
    forall i | 0 <= i < width {
      buffer[localOffset + i] := bytes[i];
    }
    assert buffer[..] == Splice(old(buffer[..]), localOffset, bytes);
    return Success, Advance(offset, width);
  }

  /**
   * Tss2_MU_UINTn_Unmarshal(buffer, buffer_size, offset, dest). A NULL buffer, or NULL dest
   * together with NULL offset, is a bad reference. Otherwise the n bytes at *offset (at 0
   * without an offset) must lie inside buffer_size; they are read big-endian into *dest
   * (when dest is given) and *offset advances by n. On an error neither *offset nor *dest
   * changes.
   */
  method Unmarshal(width: nat, buffer: array?<byte>, bufferSize: nat, offset: Option<nat>, dest: Option<nat>)
    returns (rc: Rc, newOffset: Option<nat>, newDest: Option<nat>)
    requires buffer != null ==> bufferSize <= buffer.Length
    ensures buffer == null || (dest.None? && offset.None?) ==> rc == MuBadReference
    ensures buffer != null && (dest.Some? || offset.Some?) ==>
      rc == (if Fits(bufferSize, OffsetOr0(offset), width) then Success else MuInsufficientBuffer)
    ensures newOffset == if rc == Success then Advance(offset, width) else offset
    ensures rc != Success ==> newDest == dest
    ensures rc == Success ==> newDest.Some? == dest.Some?
    ensures rc == Success && dest.Some? ==>
      OffsetOr0(offset) + width <= bufferSize &&
      newDest.value == FromBE(buffer[..bufferSize], OffsetOr0(offset), width)
    ensures newDest.Some? && rc == Success ==> newDest.value < Pow256(width)
  {
    var localOffset := OffsetOr0(offset);
    if buffer == null || (dest.None? && offset.None?) {
      return MuBadReference, offset, dest;
    }
    if bufferSize < localOffset || width > bufferSize - localOffset {
      return MuInsufficientBuffer, offset, dest;
    }
    var value := FromBE(buffer[..bufferSize], localOffset, width);
    newDest := if dest.Some? then Some(value) else None;
    return Success, Advance(offset, width), newDest;
  }

  /** Unmarshalling what Marshal wrote at the same offset returns the marshalled value. */
  lemma MarshalUnmarshal(width: nat, src: nat, before: seq<byte>, o: nat)
    requires src < Pow256(width)
    requires o + width <= |before|
    ensures FromBE(Splice(before, o, ToBE(src, width)), o, width) == src
  {
    var after := Splice(before, o, ToBE(src, width));
    assert after[o..o + width] == ToBE(src, width);
    FromBEOf(after, o, src, width);
  }
}
