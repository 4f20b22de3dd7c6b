/** Big-endian byte order for unsigned integers of any width (HOST_TO_BE_n / BE_TO_HOST_n). */
module Endian {
  import opened Tss2Types

  /** 256^n: one more than the largest value an n-byte unsigned integer holds. */
  function Pow256(n: nat): (r: nat)
    ensures r > 0
  {
    if n == 0 then 1 else 256 * Pow256(n - 1)
  }

  /** The n bytes of v, most significant first. */
  function ToBE(v: nat, n: nat): (r: seq<byte>)
    requires v < Pow256(n)
    ensures |r| == n
  {
    if n == 0 then [] else ToBE(v / 256, n - 1) + [v % 256]
  }

  /** The unsigned value of the n bytes of s at offset o, read most significant byte first. */
  function FromBE(s: seq<byte>, o: nat, n: nat): (r: nat)
    requires o + n <= |s|
    ensures r < Pow256(n)
  {
    if n == 0 then 0 else FromBE(s, o, n - 1) * 256 + s[o + n - 1]
  }

  /** The value read depends only on the n bytes it reads. */
  lemma {:induction false} FromBESame(s: seq<byte>, o: nat, t: seq<byte>, p: nat, n: nat)
    requires o + n <= |s| && p + n <= |t|
    requires s[o..o + n] == t[p..p + n]
    ensures FromBE(s, o, n) == FromBE(t, p, n)
  {
    if n > 0 {
      assert s[o..o + n - 1] == s[o..o + n][..n - 1];
      assert t[p..p + n - 1] == t[p..p + n][..n - 1];
      assert s[o + n - 1] == s[o..o + n][n - 1];
      assert t[p + n - 1] == t[p..p + n][n - 1];
      FromBESame(s, o, t, p, n - 1);
    }
  }

  /** Reading back what was written gives the original value. */
  lemma {:induction false} FromToBE(v: nat, n: nat)
    requires v < Pow256(n)
    ensures FromBE(ToBE(v, n), 0, n) == v
  {
    if n > 0 {
      var s := ToBE(v, n);
      var p := ToBE(v / 256, n - 1);
      assert s[0..n - 1] == p[0..n - 1];
      FromBESame(s, 0, p, 0, n - 1);
      FromToBE(v / 256, n - 1);
    }
  }

  /** Every byte string is the encoding of the value it denotes: the encoding is onto. */
  lemma {:induction false} ToFromBE(s: seq<byte>, o: nat, n: nat)
    requires o + n <= |s|
    ensures ToBE(FromBE(s, o, n), n) == s[o..o + n]
  {
    if n > 0 {
      ToFromBE(s, o, n - 1);
      assert s[o..o + n] == s[o..o + n - 1] + [s[o + n - 1]];
    }
  }

  /** Two values with the same n-byte encoding are equal. */
  lemma ToBEInjective(v: nat, w: nat, n: nat)
    requires v < Pow256(n) && w < Pow256(n)
    requires ToBE(v, n) == ToBE(w, n)
    ensures v == w
  {
    FromToBE(v, n);
    FromToBE(w, n);
  }

  /** Reading the n bytes at o of s is reading back the encoding those bytes spell. */
  lemma FromBEOf(s: seq<byte>, o: nat, v: nat, n: nat)
    requires v < Pow256(n) && o + n <= |s|
    requires s[o..o + n] == ToBE(v, n)
    ensures FromBE(s, o, n) == v
  {
    var e := ToBE(v, n);
    assert e[0..n] == e;
    FromBESame(s, o, e, 0, n);
    FromToBE(v, n);
  }

  /** A one-byte read is the byte itself. */
  lemma FromBEByte(s: seq<byte>, o: nat)
    requires o < |s|
    ensures FromBE(s, o, 1) == s[o]
  {
  }

  /** The widths the TSS uses: UINT8, UINT16 and UINT32. */
  lemma Widths()
    ensures Pow256(1) == 0x100 && Pow256(2) == 0x1_0000 && Pow256(4) == 0x1_0000_0000
  {
  }

  /** A one-byte value is its own encoding (UINT8 / BYTE). */
  lemma OneByte(b: byte)
    ensures ToBE(b, 1) == [b] && FromBE([b], 0, 1) == b
  {
  }

  /** The byte layout the unit test of Tss2_MU_UINT32_Marshal expects for 0xdeadbeef. */
  lemma DeadBeef()
    ensures Pow256(4) == 0x1_0000_0000
    ensures ToBE(0xdeadbeef, 4) == [0xde, 0xad, 0xbe, 0xef]
    ensures FromBE([0xde, 0xad, 0xbe, 0xef], 0, 4) == 0xdeadbeef
  {
    Widths();
    FromToBE(0xdeadbeef, 4);
  }
}
