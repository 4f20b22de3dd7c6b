/**
 * The configuration-string helpers the mssim TCTI uses: strtok_r-style splitting into
 * tokens, parse_key_value (one "key=value" token) and string_to_port (a decimal port number,
 * 0 meaning "invalid").
 */
module KeyValueParse {
  import opened Tss2Types

  /** The number of characters at the start of s before the first d (or the end). */
  function RunLength(s: string, d: char): (n: nat)
    ensures n <= |s|
    ensures forall k :: 0 <= k < n ==> s[k] != d
    ensures n < |s| ==> s[n] == d
  {
    if s == [] || s[0] == d then 0 else 1 + RunLength(s[1..], d)
  }

  /**
   * The tokens successive strtok_r calls return for s and the one delimiter d: the maximal
   * runs of characters other than d, empty runs skipped.
   */
  function Tokens(s: string, d: char): (r: seq<string>)
    ensures forall k :: 0 <= k < |r| ==> r[k] != [] && d !in r[k]
    decreases |s|
  {
    if s == [] then []
    else if s[0] == d then Tokens(s[1..], d)
    else
      var n := RunLength(s, d);
      [s[..n]] + Tokens(s[n..], d)
  }

  /** The tokens joined back with one d between each two. */
  function Join(ts: seq<string>, d: char): (r: string)
    decreases |ts|
  {
    if ts == [] then []
    else if |ts| == 1 then ts[0]
    else ts[0] + [d] + Join(ts[1..], d)
  }

  predicate Token(t: string, d: char) {
    t != [] && d !in t
  }

  lemma RunLengthOf(t: string, rest: string, d: char)
    requires d !in t && (rest == [] || rest[0] == d)
    ensures RunLength(t + rest, d) == |t|
    decreases |t|
  {
    if t != [] {
      assert (t + rest)[1..] == t[1..] + rest;
      RunLengthOf(t[1..], rest, d);
    } else {
      assert t + rest == rest;
    }
  }

  /** Splitting a joined list of tokens gives the tokens back. */
  lemma {:induction false} TokensJoin(ts: seq<string>, d: char)
    requires forall k :: 0 <= k < |ts| ==> Token(ts[k], d)
    ensures Tokens(Join(ts, d), d) == ts
    decreases |ts|
  {
    if |ts| == 1 {
      RunLengthOf(ts[0], [], d);
      assert ts[0] + [] == ts[0];
      assert ts[0][..|ts[0]|] == ts[0];
      assert ts[0][|ts[0]|..] == [];
    } else if |ts| > 1 {
      var s := Join(ts, d);
      var rest := [d] + Join(ts[1..], d);
      assert s == ts[0] + rest;
      RunLengthOf(ts[0], rest, d);
      assert s[0] == ts[0][0];
      assert s[..|ts[0]|] == ts[0];
      assert s[|ts[0]|..] == rest;
      assert rest[1..] == Join(ts[1..], d);
      TokensJoin(ts[1..], d);
      assert ts == [ts[0]] + ts[1..];
    }
  }

  /** A key and its value, as parse_key_value leaves them in key_value_t. */
  datatype KeyValue = KeyValue(key: string, value: string)

  /**
   * parse_key_value: the first two '='-separated tokens of the string are the key and the
   * value; a string with fewer than two is rejected. Anything after a second '=' is ignored.
   */
  function ParseKeyValue(s: string): (r: Option<KeyValue>)
    ensures r.Some? ==> Token(r.value.key, '=') && Token(r.value.value, '=')
    ensures r.None? <==> |Tokens(s, '=')| < 2
  {
    var ts := Tokens(s, '=');
    if |ts| < 2 then None else Some(KeyValue(ts[0], ts[1]))
  }

  /** "key=value" with a non-empty key and value free of '=' parses to exactly that pair. */
  lemma ParseKeyValueJoin(key: string, value: string)
    requires Token(key, '=') && Token(value, '=')
    ensures ParseKeyValue(key + "=" + value) == Some(KeyValue(key, value))
  {
    var ts := [key, value];
    assert ts[1..] == [value];
    assert Join(ts, '=') == key + "=" + value;
    TokensJoin(ts, '=');
  }

  predicate IsDigit(c: char) {
    '0' <= c <= '9'
  }

  /** The number of decimal digits at the start of s. */
  function DigitRun(s: string): (n: nat)
    ensures n <= |s|
    ensures forall k :: 0 <= k < n ==> IsDigit(s[k])
    ensures n < |s| ==> !IsDigit(s[n])
  {
    if s == [] || !IsDigit(s[0]) then 0 else 1 + DigitRun(s[1..])
  }

  /** The value of a string of decimal digits. */
  function DecimalValue(ds: string): nat
    requires forall k :: 0 <= k < |ds| ==> IsDigit(ds[k])
  {
    if ds == [] then 0 else DecimalValue(ds[..|ds| - 1]) * 10 + DigitValue(ds[|ds| - 1])
  }

  function DigitValue(c: char): nat
    requires IsDigit(c)
  {
    c as int - '0' as int
  }

  /** The decimal digits of n, most significant first, without leading zeros. */
  function DecimalString(n: nat): (r: string)
    ensures r != [] && forall k :: 0 <= k < |r| ==> IsDigit(r[k])
  {
    var c := (n % 10 + '0' as int) as char;
    if n < 10 then [c] else DecimalString(n / 10) + [c]
  }

  /** Reading back the decimal digits of n gives n. */
  lemma {:induction false} DecimalRoundTrip(n: nat)
    ensures DecimalValue(DecimalString(n)) == n
  {
    if n >= 10 {
      DecimalRoundTrip(n / 10);
      var r := DecimalString(n);
      assert r[..|r| - 1] == DecimalString(n / 10);
    }
  }

  /**
   * string_to_port: the decimal number at the start of the string (as sscanf "%u" reads it),
   * or 0 when there is none or it is larger than UINT16_MAX. 0 doubles as the error value.
   */
  function StringToPort(s: string): (r: uint16)
    ensures r != 0 ==> DigitRun(s) > 0 && DecimalValue(s[..DigitRun(s)]) == r
  {
    var n := DigitRun(s);
    if n == 0 then 0
    else
      var v := DecimalValue(s[..n]);
      if v > 0xFFFF then 0 else v
  }

  /** Every port 1..65535 written in decimal is read back as itself; above 65535 is rejected. */
  lemma StringToPortDecimal(p: nat)
    ensures StringToPort(DecimalString(p)) == if p <= 0xFFFF then p else 0
  {
    var s := DecimalString(p);
    assert DigitRun(s) == |s| by {
      DigitRunAll(s);
    }
    assert s[..|s|] == s;
    DecimalRoundTrip(p);
  }

  lemma {:induction false} DigitRunAll(s: string)
    requires forall k :: 0 <= k < |s| ==> IsDigit(s[k])
    ensures DigitRun(s) == |s|
  {
    if s != [] {
      DigitRunAll(s[1..]);
    }
  }
}
