/**
 * TPML_PCR_SELECTION: a BE32 count followed by `count` TPMS_PCR_SELECTION elements, each a
 * BE16 hash algorithm, a one-byte sizeofSelect and that many bitmap bytes. In memory the list
 * holds TPM2_NUM_PCR_BANKS elements and each element a TPM2_PCR_SELECT_MAX-byte bitmap.
 */
module TpmlPcr {
  import opened Tss2Types
  import opened Endian
  import ScalarMu

  const TPM2_NUM_PCR_BANKS: nat := 16
  /** (TPM2_MAX_PCRS + 7) / 8 with TPM2_MAX_PCRS = 32. */
  const TPM2_PCR_SELECT_MAX: nat := 4

  datatype PcrSelection = PcrSelection(hash: uint16, sizeofSelect: byte, pcrSelect: seq<byte>)
  datatype PcrSelectionList = PcrSelectionList(count: uint32, pcrSelections: seq<PcrSelection>)

  /** The in-memory shape: pcrSelect is the whole fixed-size bitmap array. */
  predicate Shaped(p: PcrSelection) {
    |p.pcrSelect| == TPM2_PCR_SELECT_MAX
  }

  predicate AllShaped(ps: seq<PcrSelection>) {
    forall k :: 0 <= k < |ps| ==> Shaped(ps[k])
  }

  /** An element the marshaller accepts: its sizeofSelect fits the bitmap array. */
  predicate Valid(p: PcrSelection) {
    Shaped(p) && p.sizeofSelect <= TPM2_PCR_SELECT_MAX
  }

  predicate AllValid(ps: seq<PcrSelection>) {
    forall k :: 0 <= k < |ps| ==> Valid(ps[k])
  }

  function ZeroBytes(n: nat): (r: seq<byte>)
    ensures |r| == n
  {
    seq(n, _ => 0)
  }

  /** A zeroed element, as the memset destination holds it past `count`. */
  const EmptySelection: PcrSelection := PcrSelection(0, 0, ZeroBytes(TPM2_PCR_SELECT_MAX))

  function EmptySelections(n: nat): (r: seq<PcrSelection>)
    ensures |r| == n
  {
    seq(n, _ => EmptySelection)
  }

  /** Wire form of one element: hash, sizeofSelect, then only the first sizeofSelect bitmap bytes. */
  function EncodeSel(p: PcrSelection): (r: seq<byte>)
    requires Valid(p)
    ensures |r| == 3 + p.sizeofSelect
  {
    ToBE(p.hash, 2) + [p.sizeofSelect] + p.pcrSelect[..p.sizeofSelect]
  }

  function EncodeSels(ps: seq<PcrSelection>): (r: seq<byte>)
    requires AllValid(ps)
  {
    if ps == [] then [] else EncodeSels(ps[..|ps| - 1]) + EncodeSel(ps[|ps| - 1])
  }

  /** Wire form of the list: the BE32 count, then the first `count` elements. */
  function Encode(l: PcrSelectionList): (r: seq<byte>)
    requires l.count <= |l.pcrSelections| && AllValid(l.pcrSelections[..l.count])
    ensures |r| == 4 + |EncodeSels(l.pcrSelections[..l.count])|
  {
    ToBE(l.count, 4) + EncodeSels(l.pcrSelections[..l.count])
  }

  /** The first four bytes of a list's wire form read back as its count. */
  lemma EncodeCount(l: PcrSelectionList)
    requires l.count <= |l.pcrSelections| && AllValid(l.pcrSelections[..l.count])
    ensures FromBE(Encode(l), 0, 4) == l.count
  {
    var r := Encode(l);
    assert r[0..4] == ToBE(l.count, 4);
    FromBEOf(r, 0, l.count, 4);
  }

  /** An element as unmarshalling into a zeroed destination leaves it: bitmap bytes past sizeofSelect are 0. */
  function NormSel(p: PcrSelection): (r: PcrSelection)
    requires Valid(p)
    ensures Valid(r)
  {
    PcrSelection(p.hash, p.sizeofSelect, p.pcrSelect[..p.sizeofSelect] + ZeroBytes(TPM2_PCR_SELECT_MAX - p.sizeofSelect))
  }

  function NormSels(ps: seq<PcrSelection>): (r: seq<PcrSelection>)
    requires AllValid(ps)
  {
    if ps == [] then [] else NormSels(ps[..|ps| - 1]) + [NormSel(ps[|ps| - 1])]
  }

  /** The list as a memset-then-filled destination holds it. */
  function Normalized(l: PcrSelectionList): (r: PcrSelectionList)
    requires l.count <= TPM2_NUM_PCR_BANKS && l.count <= |l.pcrSelections|
    requires AllValid(l.pcrSelections[..l.count])
  {
    PcrSelectionList(l.count, NormSels(l.pcrSelections[..l.count]) + EmptySelections(TPM2_NUM_PCR_BANKS - l.count))
  }

  /**
   * What Tss2_MU_TPMS_PCR_SELECTION_Unmarshal finds at offset o of s: the 3 fixed bytes must
   * fit, sizeofSelect must not exceed the bitmap array, and the bitmap bytes must fit. The
   * element comes back as a zeroed destination holds it.
   */
  function ParseSel(s: seq<byte>, o: nat): (r: Parsed<PcrSelection>)
    ensures r.Parsed? ==> Valid(r.value) && r.next == o + 3 + r.value.sizeofSelect <= |s|
    ensures r.Failed? ==> r.rc == MuInsufficientBuffer || r.rc == MuBadSize
  {
    if !Fits(|s|, o, 3) then Failed(MuInsufficientBuffer)
    else
      var n := s[o + 2];
      if n > TPM2_PCR_SELECT_MAX then Failed(MuBadSize)
      else if !Fits(|s|, o + 3, n) then Failed(MuInsufficientBuffer)
      else
        Widths();
        Parsed(PcrSelection(FromBE(s, o, 2), n, s[o + 3..o + 3 + n] + ZeroBytes(TPM2_PCR_SELECT_MAX - n)), o + 3 + n)
  }

  /** k elements back to back from offset o, each right after the one before; the first error wins. */
  function ParseSels(s: seq<byte>, o: nat, k: nat): (r: Parsed<seq<PcrSelection>>)
    requires o <= |s|
    ensures r.Parsed? ==> |r.value| == k && AllValid(r.value) && o <= r.next <= |s|
  {
    if k == 0 then Parsed([], o)
    else
      var init := ParseSels(s, o, k - 1);
      if init.Failed? then init
      else
        var last := ParseSel(s, init.next);
        if last.Failed? then Failed(last.rc)
        else Parsed(init.value + [last.value], last.next)
  }

  /**
   * What Tss2_MU_TPML_PCR_SELECTION_Unmarshal finds at offset o of s (s being the first
   * buffer_size bytes of the buffer): the count must fit and not exceed TPM2_NUM_PCR_BANKS,
   * then every element must parse.
   */
  function Parse(s: seq<byte>, o: nat): (r: Parsed<PcrSelectionList>)
    ensures r.Parsed? ==> o + 4 <= r.next <= |s| && r.value.count <= TPM2_NUM_PCR_BANKS
    ensures r.Parsed? ==> |r.value.pcrSelections| == TPM2_NUM_PCR_BANKS
  {
    if !Fits(|s|, o, 4) then Failed(MuInsufficientBuffer)
    else
      var count := FromBE(s, o, 4);
      if count > TPM2_NUM_PCR_BANKS then Failed(SysMalformedResponse)
      else
        var elems := ParseSels(s, o + 4, count);
        if elems.Failed? then Failed(elems.rc)
        else Parsed(PcrSelectionList(count, elems.value + EmptySelections(TPM2_NUM_PCR_BANKS - count)), elems.next)
  }


  /** The error, if any, marshalling one element at pos reports. */
  function SelRc(p: PcrSelection, hasBuffer: bool, bufferSize: nat, pos: nat): (r: Rc)
    ensures r == Success ==> p.sizeofSelect <= TPM2_PCR_SELECT_MAX
  {
    if p.sizeofSelect > TPM2_PCR_SELECT_MAX then MuBadSize
    else if hasBuffer && !Fits(bufferSize, pos, 3 + p.sizeofSelect) then MuInsufficientBuffer
    else Success
  }

  /** The error of the first element that fails, each marshalled right after the one before. */
  function SelsRc(ps: seq<PcrSelection>, hasBuffer: bool, bufferSize: nat, at: nat): (r: Rc)
    requires AllShaped(ps)
    ensures r == Success ==> AllValid(ps)
    ensures r == Success && hasBuffer && at <= bufferSize ==> at + |EncodeSels(ps)| <= bufferSize
    ensures r == Success || r == MuBadSize || r == MuInsufficientBuffer
  {
    if ps == [] then Success
    else
      var init := ps[..|ps| - 1];
      var r := SelsRc(init, hasBuffer, bufferSize, at);
      if r != Success then r
      else SelRc(ps[|ps| - 1], hasBuffer, bufferSize, at + |EncodeSels(init)|)
  }

  /** The error, if any, Tss2_MU_TPML_PCR_SELECTION_Marshal reports, in the order it checks. */
  function MarshalRc(l: PcrSelectionList, hasBuffer: bool, bufferSize: nat, offset: Option<nat>): (r: Rc)
    requires |l.pcrSelections| == TPM2_NUM_PCR_BANKS && AllShaped(l.pcrSelections)
    ensures r == Success ==>
      (hasBuffer || offset.Some?) && l.count <= TPM2_NUM_PCR_BANKS && AllValid(l.pcrSelections[..l.count]) &&
      (hasBuffer ==> OffsetOr0(offset) + |Encode(l)| <= bufferSize)
    ensures r == Success || r == MuBadReference || r == MuInsufficientBuffer || r == SysBadValue || r == MuBadSize
  {
    var o := OffsetOr0(offset);
    if !hasBuffer && offset.None? then MuBadReference
    else if !Fits(bufferSize, o, 4) then MuInsufficientBuffer
    else if l.count > TPM2_NUM_PCR_BANKS then SysBadValue
    else SelsRc(l.pcrSelections[..l.count], hasBuffer, bufferSize, o + 4)
  }

  /** Unmarshalling one marshalled element gives it back, its unused bitmap bytes zeroed. */
  lemma ParseSelEncode(p: PcrSelection, s: seq<byte>, o: nat)
    requires Valid(p)
    requires o + |EncodeSel(p)| <= |s| && s[o..o + |EncodeSel(p)|] == EncodeSel(p)
    ensures ParseSel(s, o).Parsed? && ParseSel(s, o).value == NormSel(p)
    ensures ParseSel(s, o).next == o + |EncodeSel(p)|
  {
    var n := p.sizeofSelect;
    var h := ToBE(p.hash, 2);
    ScalarMu.SliceSplit(s, o, h + [n], p.pcrSelect[..n]);
    ScalarMu.SliceSplit(s, o, h, [n]);
    assert s[o + 2] == s[o + 2..o + 3][0];
    FromBEOf(s, o, p.hash, 2);
  }

  /** Re-marshalling an unmarshalled element reproduces its bytes. */
  lemma EncodeParseSel(s: seq<byte>, o: nat)
    requires ParseSel(s, o).Parsed?
    ensures EncodeSel(ParseSel(s, o).value) == s[o..ParseSel(s, o).next]
  {
    var n := s[o + 2];
    var p := ParseSel(s, o).value;
    ToFromBE(s, o, 2);
    assert p.pcrSelect[..n] == s[o + 3..o + 3 + n];
    ScalarMu.SliceSnoc(s, o, o + 2);
    ScalarMu.SliceJoin(s, o, o + 3, o + 3 + n);
  }

  lemma EncodeSelsSnoc(ps: seq<PcrSelection>, p: PcrSelection)
    requires AllValid(ps) && Valid(p)
    ensures AllValid(ps + [p]) && EncodeSels(ps + [p]) == EncodeSels(ps) + EncodeSel(p)
  {
    assert (ps + [p])[..|ps|] == ps;
  }

  lemma NormSelsSnoc(ps: seq<PcrSelection>)
    requires ps != [] && AllValid(ps)
    ensures NormSels(ps[..|ps| - 1]) + [NormSel(ps[|ps| - 1])] == NormSels(ps)
  {
  }

  /** One more element: it parses where the first k end, or its error is the list's. */
  lemma ParseSelsStep(s: seq<byte>, o: nat, k: nat, parsed: seq<PcrSelection>, pos: nat)
    requires o <= |s| && ParseSels(s, o, k).Parsed?
    requires ParseSels(s, o, k).value == parsed && ParseSels(s, o, k).next == pos
    ensures ParseSel(s, pos).Failed? ==>
      ParseSels(s, o, k + 1).Failed? && ParseSels(s, o, k + 1).rc == ParseSel(s, pos).rc
    ensures ParseSel(s, pos).Parsed? ==>
      ParseSels(s, o, k + 1).Parsed? && ParseSels(s, o, k + 1).value == parsed + [ParseSel(s, pos).value] &&
      ParseSels(s, o, k + 1).next == ParseSel(s, pos).next
  {
  }

  /** Unmarshalling marshalled elements gives them back, as a zeroed destination holds them. */
  lemma {:induction false} ParseSelsEncode(ps: seq<PcrSelection>, s: seq<byte>, o: nat)
    requires AllValid(ps)
    requires o + |EncodeSels(ps)| <= |s| && s[o..o + |EncodeSels(ps)|] == EncodeSels(ps)
    ensures ParseSels(s, o, |ps|).Parsed? && ParseSels(s, o, |ps|).value == NormSels(ps)
    ensures ParseSels(s, o, |ps|).next == o + |EncodeSels(ps)|
  {
    if ps != [] {
      var init := ps[..|ps| - 1];
      var last := ps[|ps| - 1];
      ScalarMu.SliceSplit(s, o, EncodeSels(init), EncodeSel(last));
      ParseSelsEncode(init, s, o);
      ParseSelEncode(last, s, o + |EncodeSels(init)|);
      ParseSelsStep(s, o, |init|, NormSels(init), o + |EncodeSels(init)|);
      NormSelsSnoc(ps);
      assert EncodeSels(ps) == EncodeSels(init) + EncodeSel(last);
    }
  }

  /** Re-marshalling unmarshalled elements reproduces the bytes they came from. */
  lemma {:induction false} EncodeParseSels(s: seq<byte>, o: nat, k: nat)
    requires o <= |s| && ParseSels(s, o, k).Parsed?
    ensures EncodeSels(ParseSels(s, o, k).value) == s[o..ParseSels(s, o, k).next]
  {
    if k > 0 {
      var init := ParseSels(s, o, k - 1);
      var last := ParseSel(s, init.next);
      ParseSelsStep(s, o, k - 1, init.value, init.next);
      EncodeParseSels(s, o, k - 1);
      EncodeParseSel(s, init.next);
      EncodeSelsSnoc(init.value, last.value);
      ScalarMu.SliceJoin(s, o, init.next, last.next);
      calc {
        EncodeSels(ParseSels(s, o, k).value);
        EncodeSels(init.value + [last.value]);
        EncodeSels(init.value) + EncodeSel(last.value);
        s[o..init.next] + s[init.next..last.next];
        s[o..last.next];
      }
    }
  }

  /** Unmarshalling what Tss2_MU_TPML_PCR_SELECTION_Marshal wrote gives the list back, as a zeroed destination holds it. */
  lemma ParseEncode(l: PcrSelectionList, s: seq<byte>, o: nat)
    requires l.count <= TPM2_NUM_PCR_BANKS && l.count <= |l.pcrSelections|
    requires AllValid(l.pcrSelections[..l.count])
    requires o + |Encode(l)| <= |s| && s[o..o + |Encode(l)|] == Encode(l)
    ensures Parse(s, o).Parsed? && Parse(s, o).value == Normalized(l)
    ensures Parse(s, o).next == o + |Encode(l)|
  {
    var c: nat := l.count;
    var live := l.pcrSelections[..c];
    ScalarMu.SliceSplit(s, o, ToBE(c, 4), EncodeSels(live));
    FromBEOf(s, o, c, 4);
    ParseSelsEncode(live, s, o + 4);
  }

  /** Re-marshalling an unmarshalled list reproduces the bytes it came from exactly. */
  lemma EncodeParse(s: seq<byte>, o: nat)
    requires Parse(s, o).Parsed?
    ensures AllValid(Parse(s, o).value.pcrSelections[..Parse(s, o).value.count])
    ensures Encode(Parse(s, o).value) == s[o..Parse(s, o).next]
  {
    var c: nat := FromBE(s, o, 4);
    EncodeParseSels(s, o + 4, c);
    var elems := ParseSels(s, o + 4, c);
    EncodeCounted(s, o, c, elems.value, elems.next);
  }

  /** A count whose bytes are at o, then elements whose bytes follow, make up the list's encoding. */
  lemma EncodeCounted(s: seq<byte>, o: nat, c: nat, ps: seq<PcrSelection>, next: nat)
    requires o + 4 <= next <= |s| && c <= TPM2_NUM_PCR_BANKS && |ps| == c && AllValid(ps)
    requires FromBE(s, o, 4) == c && EncodeSels(ps) == s[o + 4..next]
    ensures var l := PcrSelectionList(c, ps + EmptySelections(TPM2_NUM_PCR_BANKS - c));
      AllValid(l.pcrSelections[..c]) && Encode(l) == s[o..next]
  {
    var l := PcrSelectionList(c, ps + EmptySelections(TPM2_NUM_PCR_BANKS - c));
    assert l.pcrSelections[..c] == ps;
    ToFromBE(s, o, 4);
    ScalarMu.SliceJoin(s, o, o + 4, next);
  }

  /** Parsing the elements fails only for lack of bytes or an oversized sizeofSelect. */
  lemma {:induction false} ParseSelsErrors(s: seq<byte>, o: nat, k: nat)
    requires o <= |s|
    ensures ParseSels(s, o, k).Failed? ==>
      ParseSels(s, o, k).rc == MuInsufficientBuffer || ParseSels(s, o, k).rc == MuBadSize
  {
    if k > 0 && ParseSels(s, o, k - 1).Failed? {
      ParseSelsErrors(s, o, k - 1);
    }
  }

  /** Once a prefix of the elements fails to parse, the longer list fails with the same error. */
  lemma {:induction false} ParseSelsPrefix(s: seq<byte>, o: nat, j: nat, k: nat)
    requires o <= |s| && j <= k && ParseSels(s, o, j).Failed?
    ensures ParseSels(s, o, k).Failed? && ParseSels(s, o, k).rc == ParseSels(s, o, j).rc
  {
    if j < k {
      ParseSelsPrefix(s, o, j, k - 1);
    }
  }

  /** Once a prefix of the elements fails, the whole list fails with the same error. */
  lemma {:induction false} SelsRcPrefix(ps: seq<PcrSelection>, j: nat, hasBuffer: bool, bufferSize: nat, at: nat)
    requires AllShaped(ps) && j <= |ps|
    requires SelsRc(ps[..j], hasBuffer, bufferSize, at) != Success
    ensures SelsRc(ps, hasBuffer, bufferSize, at) == SelsRc(ps[..j], hasBuffer, bufferSize, at)
  {
    if j < |ps| {
      var init := ps[..|ps| - 1];
      assert init[..j] == ps[..j];
      SelsRcPrefix(init, j, hasBuffer, bufferSize, at);
    } else {
      assert ps[..j] == ps;
    }
  }


  /** One more element: its encoding follows the prefix's, and so does its error. */
  lemma SelsSnoc(xs: seq<PcrSelection>, i: nat, hasBuffer: bool, bufferSize: nat, at: nat)
    requires AllShaped(xs) && i < |xs|
    requires SelsRc(xs[..i], hasBuffer, bufferSize, at) == Success
    ensures SelsRc(xs[..i + 1], hasBuffer, bufferSize, at) == SelRc(xs[i], hasBuffer, bufferSize, at + |EncodeSels(xs[..i])|)
    ensures SelRc(xs[i], hasBuffer, bufferSize, at + |EncodeSels(xs[..i])|) == Success ==>
      AllValid(xs[..i + 1]) && EncodeSels(xs[..i + 1]) == EncodeSels(xs[..i]) + EncodeSel(xs[i])
  {
    assert xs[..i + 1][..i] == xs[..i];
  }

  /** The first i elements went through from `at` and put `written` on the wire. */
  ghost predicate Marshalled(xs: seq<PcrSelection>, i: nat, hasBuffer: bool, bufferSize: nat, at: nat, written: seq<byte>) {
    && AllShaped(xs) && i <= |xs|
    && SelsRc(xs[..i], hasBuffer, bufferSize, at) == Success
    && written == EncodeSels(xs[..i])
  }

  /**
   * One turn of the element loop: the next element's error, if any, is the list's; otherwise
   * the elements so far stay valid and their encoding grows by the element's.
   */
  lemma MarshalSelsStep(xs: seq<PcrSelection>, i: nat, hasBuffer: bool, bufferSize: nat, at: nat, written: seq<byte>, r: Rc)
    requires Marshalled(xs, i, hasBuffer, bufferSize, at, written) && i < |xs|
    requires r == SelRc(xs[i], hasBuffer, bufferSize, at + |written|)
    ensures r != Success ==> SelsRc(xs, hasBuffer, bufferSize, at) == r
    ensures r == Success ==>
      Valid(xs[i]) && Marshalled(xs, i + 1, hasBuffer, bufferSize, at, written + EncodeSel(xs[i])) &&
      |written + EncodeSel(xs[i])| == |written| + 3 + xs[i].sizeofSelect &&
      (hasBuffer ==> at + |written| + 3 + xs[i].sizeofSelect <= bufferSize)
  {
    SelsSnoc(xs, i, hasBuffer, bufferSize, at);
    if r != Success {
      SelsRcPrefix(xs, i + 1, hasBuffer, bufferSize, at);
    }
  }

  /** Once every element went through, the list's result is Success and its encoding is what was written. */
  lemma MarshalledAll(xs: seq<PcrSelection>, hasBuffer: bool, bufferSize: nat, at: nat, written: seq<byte>)
    requires Marshalled(xs, |xs|, hasBuffer, bufferSize, at, written)
    ensures SelsRc(xs, hasBuffer, bufferSize, at) == Success && AllValid(xs) && written == EncodeSels(xs)
  {
    assert xs[..|xs|] == xs;
  }

  /** Writing the next byte after the first i leaves the first i + 1 written. */
  lemma SpliceByte(s: seq<byte>, at: nat, xs: seq<byte>, i: nat)
    requires i < |xs| && at + i + 1 <= |s|
    ensures ScalarMu.Splice(ScalarMu.Splice(s, at, xs[..i]), at + i, ToBE(xs[i], 1)) == ScalarMu.Splice(s, at, xs[..i + 1])
  {
    OneByte(xs[i]);
    assert xs[..i + 1] == xs[..i] + [xs[i]];
    ScalarMu.SpliceTwice(s, at, xs[..i], [xs[i]]);
  }

  /**
   * The bitmap loop of the element marshaller: one UINT8 marshal per byte from offset `at`,
   * stopping at the first byte that does not fit.
   */
  method MarshalBytes(xs: seq<byte>, buffer: array?<byte>, bufferSize: nat, at: nat) returns (rc: Rc)
    requires buffer != null ==> at <= bufferSize <= buffer.Length
    modifies buffer
    ensures rc == if buffer == null || Fits(bufferSize, at, |xs|) then Success else MuInsufficientBuffer
    ensures buffer != null && rc == Success ==> buffer[..] == ScalarMu.Splice(old(buffer[..]), at, xs)
    ensures buffer != null && rc != Success ==> ScalarMu.SameOutside(old(buffer[..]), buffer[..], at, bufferSize)
  {
    ghost var orig := if buffer != null then buffer[..] else [];
    Widths();
    var i := 0;
    while i < |xs|
      invariant 0 <= i <= |xs|
      invariant buffer != null ==> at + i <= bufferSize && buffer[..] == ScalarMu.Splice(orig, at, xs[..i])
    {
      var r, next := ScalarMu.Marshal(1, xs[i], buffer, bufferSize, Some(at + i));
      if r != Success {
        ScalarMu.SpliceOutside(orig, at, xs[..i], at, bufferSize);
        return r;
      }
      if buffer != null {
        SpliceByte(orig, at, xs, i);
      }
      i := i + 1;
    }
    assert xs[..i] == xs;
    return Success;
  }

  /**
   * Tss2_MU_TPMS_PCR_SELECTION_Marshal at offset pos: rejects a sizeofSelect larger than the
   * bitmap array, then marshals hash (UINT16), sizeofSelect (UINT8) and the selected bitmap
   * bytes (UINT8 each).
   */
  method MarshalSel(p: PcrSelection, buffer: array?<byte>, bufferSize: nat, pos: nat) returns (rc: Rc)
    requires Shaped(p)
    requires buffer != null ==> pos <= bufferSize <= buffer.Length
    modifies buffer
    ensures rc == SelRc(p, buffer != null, bufferSize, pos)
    ensures buffer != null && rc == Success ==> buffer[..] == ScalarMu.Splice(old(buffer[..]), pos, EncodeSel(p))
    ensures buffer != null && rc != Success ==> ScalarMu.SameOutside(old(buffer[..]), buffer[..], pos, bufferSize)
  {
    if p.sizeofSelect > TPM2_PCR_SELECT_MAX {
      return MuBadSize;
    }
    Widths();
    var n := p.sizeofSelect;
    var h := ToBE(p.hash, 2);
    var r, next := ScalarMu.Marshal(2, p.hash, buffer, bufferSize, Some(pos));
    if r != Success {
      return r;
    }
    r, next := ScalarMu.Marshal(1, n, buffer, bufferSize, Some(pos + 2));
    if r != Success {
      if buffer != null {
        ScalarMu.SpliceOutside(old(buffer[..]), pos, h, pos, bufferSize);
      }
      return r;
    }
    ghost var mid := if buffer != null then buffer[..] else [];
    if buffer != null {
      OneByte(n);
      ScalarMu.SpliceTwice(old(buffer[..]), pos, h, [n]);
    }
    rc := MarshalBytes(p.pcrSelect[..n], buffer, bufferSize, pos + 3);
    if rc != Success {
      if buffer != null {
        ScalarMu.SpliceOutside(old(buffer[..]), pos, h + [n], pos, bufferSize);
        ScalarMu.SameOutsideThen(old(buffer[..]), mid, buffer[..], pos, pos + 3, bufferSize);
      }
      return rc;
    }
    if buffer != null {
      ScalarMu.SpliceTwice(old(buffer[..]), pos, h + [n], p.pcrSelect[..n]);
    }
  }

  /**
   * The element loop of Tss2_MU_TPML_PCR_SELECTION_Marshal: each element right after the one
   * before, from offset `at`, stopping at the first that fails.
   */
  method MarshalSels(xs: seq<PcrSelection>, buffer: array?<byte>, bufferSize: nat, at: nat) returns (rc: Rc)
    requires AllShaped(xs)
    requires buffer != null ==> at <= bufferSize <= buffer.Length
    modifies buffer
    ensures rc == SelsRc(xs, buffer != null, bufferSize, at)
    ensures buffer != null && rc == Success ==> at + |EncodeSels(xs)| <= bufferSize
    ensures buffer != null && rc == Success ==> buffer[..] == ScalarMu.Splice(old(buffer[..]), at, EncodeSels(xs))
    ensures buffer != null && rc != Success ==> ScalarMu.SameOutside(old(buffer[..]), buffer[..], at, bufferSize)
  {
    ghost var orig := if buffer != null then buffer[..] else [];
    var i := 0;
    var pos := at;
    ghost var written: seq<byte> := [];
    while i < |xs|
      invariant Marshalled(xs, i, buffer != null, bufferSize, at, written)
      invariant pos == at + |written|
      invariant buffer != null ==> pos <= bufferSize
      invariant buffer != null ==> buffer[..] == ScalarMu.Splice(orig, at, written)
    {
      var r := MarshalSel(xs[i], buffer, bufferSize, pos);
      MarshalSelsStep(xs, i, buffer != null, bufferSize, at, written, r);
      if r != Success {
        if buffer != null {
          ScalarMu.SpliceThenOutside(orig, at, written, buffer[..], bufferSize);
        }
        return r;
      }
      if buffer != null {
        ScalarMu.SpliceTwice(orig, at, written, EncodeSel(xs[i]));
      }
      written := written + EncodeSel(xs[i]);
      pos := pos + 3 + xs[i].sizeofSelect;
      i := i + 1;
    }
    MarshalledAll(xs, buffer != null, bufferSize, at, written);
    return Success;
  }

  /**
   * Tss2_MU_TPML_PCR_SELECTION_Marshal: the count checks, then the count and every element
   * at a running local offset; *offset is written only when every element went through.
   */
  method Marshal(src: PcrSelectionList, buffer: array?<byte>, bufferSize: nat, offset: Option<nat>)
    returns (rc: Rc, newOffset: Option<nat>)
    requires |src.pcrSelections| == TPM2_NUM_PCR_BANKS && AllShaped(src.pcrSelections)
    requires buffer != null ==> bufferSize <= buffer.Length
    modifies buffer
    ensures rc == MarshalRc(src, buffer != null, bufferSize, offset)
    ensures rc == Success ==>
      src.count <= TPM2_NUM_PCR_BANKS && AllValid(src.pcrSelections[..src.count]) &&
      newOffset == Advance(offset, |Encode(src)|)
    ensures rc != Success ==> newOffset == offset
    ensures buffer != null && rc == Success ==>
      OffsetOr0(offset) + |Encode(src)| <= bufferSize &&
      buffer[..] == ScalarMu.Splice(old(buffer[..]), OffsetOr0(offset), Encode(src))
    ensures buffer != null && !Fits(bufferSize, OffsetOr0(offset), 4) ==> buffer[..] == old(buffer[..])
    ensures buffer != null && rc != Success && Fits(bufferSize, OffsetOr0(offset), 4) ==>
      ScalarMu.SameOutside(old(buffer[..]), buffer[..], OffsetOr0(offset), bufferSize)
  {
    var localOffset := OffsetOr0(offset);
    if buffer == null && offset.None? {
      return MuBadReference, offset;
    } else if bufferSize < localOffset || bufferSize - localOffset < 4 {
      return MuInsufficientBuffer, offset;
    }
    if src.count > TPM2_NUM_PCR_BANKS {
      return SysBadValue, offset;
    }
    var live := src.pcrSelections[..src.count];
    var r, next := ScalarMu.Marshal(4, src.count, buffer, bufferSize, Some(localOffset));
    ghost var mid := if buffer != null then buffer[..] else [];
    r := MarshalSels(live, buffer, bufferSize, localOffset + 4);
    if r != Success {
      if buffer != null {
        ScalarMu.SpliceOutside(old(buffer[..]), localOffset, ToBE(src.count, 4), localOffset, bufferSize);
        ScalarMu.SameOutsideThen(old(buffer[..]), mid, buffer[..], localOffset, localOffset + 4, bufferSize);
      }
      return r, offset;
    }
    assert Encode(src) == ToBE(src.count, 4) + EncodeSels(live);
    if buffer != null {
      ScalarMu.SpliceTwice(old(buffer[..]), localOffset, ToBE(src.count, 4), EncodeSels(live));
    }
    return Success, Advance(offset, |Encode(src)|);
  }

  /**
   * The bitmap loop of the element unmarshaller: n UINT8 reads from offset `at`, kept only
   * when the caller has a destination.
   */
  method UnmarshalBytes(buffer: array<byte>, bufferSize: nat, at: nat, n: nat, want: bool)
    returns (rc: Rc, bytes: seq<byte>)
    requires at <= bufferSize <= buffer.Length
    ensures rc == if Fits(bufferSize, at, n) then Success else MuInsufficientBuffer
    ensures want && rc == Success ==> bytes == buffer[..bufferSize][at..at + n]
  {
    ghost var s := buffer[..bufferSize];
    var i := 0;
    bytes := [];
    while i < n
      invariant 0 <= i <= n
      invariant at + i <= bufferSize
      invariant want ==> bytes == s[at..at + i]
    {
      var r, next, b := ScalarMu.Unmarshal(1, buffer, bufferSize, Some(at + i), if want then Some(0) else None);
      if r != Success {
        return r, bytes;
      }
      if want {
        FromBEByte(s, at + i);
        ScalarMu.SliceSnoc(s, at, at + i);
        bytes := bytes + [b.value];
      }
      i := i + 1;
    }
    return Success, bytes;
  }

  /**
   * Tss2_MU_TPMS_PCR_SELECTION_Unmarshal at offset pos: hash (UINT16, kept only with a
   * destination), sizeofSelect (UINT8), the bound check on sizeofSelect, then the bitmap
   * bytes. Reports the offset just past the element.
   */
  method UnmarshalSel(buffer: array<byte>, bufferSize: nat, pos: nat, want: bool)
    returns (rc: Rc, p: PcrSelection, next: nat)
    requires pos <= bufferSize <= buffer.Length
    ensures ParseSel(buffer[..bufferSize], pos).Failed? ==> rc == ParseSel(buffer[..bufferSize], pos).rc
    ensures ParseSel(buffer[..bufferSize], pos).Parsed? ==>
      rc == Success && next == ParseSel(buffer[..bufferSize], pos).next &&
      (want ==> p == ParseSel(buffer[..bufferSize], pos).value)
  {
    ghost var s := buffer[..bufferSize];
    Widths();
    var r, after, hash := ScalarMu.Unmarshal(2, buffer, bufferSize, Some(pos), if want then Some(0) else None);
    if r != Success {
      return r, EmptySelection, pos;
    }
    var size;
    r, after, size := ScalarMu.Unmarshal(1, buffer, bufferSize, Some(pos + 2), Some(0));
    if r != Success {
      return r, EmptySelection, pos;
    }
    FromBEByte(s, pos + 2);
    var n := size.value;
    if n > TPM2_PCR_SELECT_MAX {
      return MuBadSize, EmptySelection, pos;
    }
    var bytes;
    r, bytes := UnmarshalBytes(buffer, bufferSize, pos + 3, n, want);
    if r != Success {
      return r, EmptySelection, pos;
    }
    p := if want then PcrSelection(hash.value, n, bytes + ZeroBytes(TPM2_PCR_SELECT_MAX - n)) else EmptySelection;
    return Success, p, pos + 3 + n;
  }

  /** The first i elements parsed from `at` into `parsed`, ending at `pos`. */
  ghost predicate Unmarshalled(s: seq<byte>, at: nat, i: nat, parsed: seq<PcrSelection>, pos: nat) {
    at <= |s| && ParseSels(s, at, i) == Parsed(parsed, pos)
  }

  /**
   * One turn of the element loop: an element that does not parse fails the whole list with
   * its error; one that does extends the parsed prefix.
   */
  lemma UnmarshalSelsStep(s: seq<byte>, at: nat, i: nat, k: nat, parsed: seq<PcrSelection>, pos: nat)
    requires Unmarshalled(s, at, i, parsed, pos) && i < k
    ensures ParseSel(s, pos).Failed? ==> ParseSels(s, at, k).Failed? && ParseSels(s, at, k).rc == ParseSel(s, pos).rc
    ensures ParseSel(s, pos).Parsed? ==>
      Unmarshalled(s, at, i + 1, parsed + [ParseSel(s, pos).value], ParseSel(s, pos).next)
  {
    ParseSelsStep(s, at, i, parsed, pos);
    if ParseSel(s, pos).Failed? {
      ParseSelsPrefix(s, at, i + 1, k);
    }
  }

  /**
   * The element loop of Tss2_MU_TPML_PCR_SELECTION_Unmarshal: k elements from offset `at`,
   * each right after the one before, stopping at the first that fails.
   */
  method UnmarshalSels(buffer: array<byte>, bufferSize: nat, at: nat, k: nat, want: bool)
    returns (rc: Rc, ps: seq<PcrSelection>, next: nat)
    requires at <= bufferSize <= buffer.Length
    ensures ParseSels(buffer[..bufferSize], at, k).Failed? ==> rc == ParseSels(buffer[..bufferSize], at, k).rc
    ensures ParseSels(buffer[..bufferSize], at, k).Parsed? ==>
      rc == Success && next == ParseSels(buffer[..bufferSize], at, k).next &&
      (want ==> ps == ParseSels(buffer[..bufferSize], at, k).value)
  {
    ghost var s := buffer[..bufferSize];
    ghost var parsed: seq<PcrSelection> := [];
    var i := 0;
    var pos := at;
    ps := [];
    while i < k
      invariant 0 <= i <= k
      invariant at <= pos <= bufferSize
      invariant Unmarshalled(s, at, i, parsed, pos)
      invariant want ==> ps == parsed
    {
      var r, p, after := UnmarshalSel(buffer, bufferSize, pos, want);
      UnmarshalSelsStep(s, at, i, k, parsed, pos);
      if r != Success {
        return r, ps, at;
      }
      parsed := parsed + [ParseSel(s, pos).value];
      if want {
        ps := ps + [p];
      }
      pos := after;
      i := i + 1;
    }
    return Success, ps, pos;
  }

  /**
   * Tss2_MU_TPML_PCR_SELECTION_Unmarshal: reads the count, rejects one above
   * TPM2_NUM_PCR_BANKS, zeroes the destination and stores the count, then reads each element
   * (without storing it when dest is NULL).
   */
  method Unmarshal(buffer: array?<byte>, bufferSize: nat, offset: Option<nat>, dest: Option<PcrSelectionList>)
    returns (rc: Rc, newOffset: Option<nat>, newDest: Option<PcrSelectionList>)
    requires buffer != null ==> bufferSize <= buffer.Length
    ensures buffer == null || (dest.None? && offset.None?) ==> rc == MuBadReference
    ensures buffer != null && (dest.Some? || offset.Some?) ==>
      var r := Parse(buffer[..bufferSize], OffsetOr0(offset));
      (r.Parsed? ==> rc == Success && newOffset == (if offset.Some? then Some(r.next) else None) &&
                     newDest == if dest.Some? then Some(r.value) else None) &&
      (r.Failed? ==> rc == r.rc)
    ensures rc != Success ==> newOffset == offset
    ensures rc == MuBadReference || rc == SysMalformedResponse ==> newDest == dest
    ensures !Fits(bufferSize, OffsetOr0(offset), 4) ==> newDest == dest
  {
    var localOffset := OffsetOr0(offset);
    if buffer == null || (dest.None? && offset.None?) {
      return MuBadReference, offset, dest;
    } else if bufferSize < localOffset || 4 > bufferSize - localOffset {
      return MuInsufficientBuffer, offset, dest;
    }
    ghost var s := buffer[..bufferSize];
    var r, after, count := ScalarMu.Unmarshal(4, buffer, bufferSize, Some(localOffset), Some(0));
    var n := count.value;
    if n > TPM2_NUM_PCR_BANKS {
      return SysMalformedResponse, offset, dest;
    }
    newDest := if dest.Some? then Some(PcrSelectionList(n, EmptySelections(TPM2_NUM_PCR_BANKS))) else None;
    var ps, next;
    r, ps, next := UnmarshalSels(buffer, bufferSize, localOffset + 4, n, dest.Some?);
    ParseSelsErrors(s, localOffset + 4, n);
    if r != Success {
      return r, offset, newDest;
    }
    newDest := if dest.Some? then Some(PcrSelectionList(n, ps + EmptySelections(TPM2_NUM_PCR_BANKS - n))) else None;
    return Success, if offset.Some? then Some(next) else None, newDest;
  }
}
