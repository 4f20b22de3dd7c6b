/**
 * The configuration of the mssim TCTI (mssim_conf_t) and how a configuration string such as
 * "host=127.0.0.1,port=2321" or "path=/tmp/sim" updates it: parse_key_value_string splits the
 * string on ',', each piece on '=', and hands each pair to mssim_kv_callback.
 */
module MssimConfig {
  import opened Tss2Types
  import opened KeyValueParse

  const TCTI_MSSIM_DEFAULT_HOST: string := "localhost"
  const TCTI_MSSIM_DEFAULT_PORT: uint16 := 2321

  /** mssim_conf_t: a TCP endpoint (host, port) or a unix domain socket path; NULL is None. */
  datatype Conf = Conf(host: Option<string>, port: uint16, path: Option<string>)

  /** MSSIM_CONF_DEFAULT_INIT */
  const DefaultConf: Conf := Conf(Some(TCTI_MSSIM_DEFAULT_HOST), TCTI_MSSIM_DEFAULT_PORT, None)

  /** A return code together with the configuration as the call leaves it. */
  datatype Step = Step(rc: Rc, conf: Conf)

  /** A pair mssim_kv_callback rejects: an unknown key, or a port string_to_port maps to 0. */
  predicate Rejected(kv: KeyValue) {
    (kv.key != "host" && kv.key != "port" && kv.key != "path")
    || (kv.key == "port" && StringToPort(kv.value) == 0)
  }

  /**
   * mssim_kv_callback: "host" sets the host and clears the path, "path" sets the path and
   * clears the host, "port" stores string_to_port of the value (which is stored even when it
   * is the error value 0), and any other key is TSS2_TCTI_RC_BAD_VALUE.
   */
  function KvApply(c: Conf, kv: KeyValue): (r: Step)
    ensures r.rc == Success || r.rc == TctiBadValue
    ensures r.rc == TctiBadValue <==> Rejected(kv)
    ensures r.rc == Success && kv.key == "port" ==> r.conf.port != 0
    ensures r.rc == Success && kv.key != "port" ==> r.conf.host.None? || r.conf.path.None?
  {
    if kv.key == "host" then Step(Success, c.(host := Some(kv.value), path := None))
    else if kv.key == "port" then
      var port := StringToPort(kv.value);
      Step(if port == 0 then TctiBadValue else Success, c.(port := port))
    else if kv.key == "path" then Step(Success, c.(path := Some(kv.value), host := None))
    else Step(TctiBadValue, c)
  }

  /**
   * The loop of parse_key_value_string over the ','-separated tokens: a token that is not
   * "key=value" is TSS2_TCTI_RC_BAD_VALUE, and the first error from the callback ends the loop.
   */
  function ApplyAll(c: Conf, toks: seq<string>): (r: Step)
    ensures r.rc == Success || r.rc == TctiBadValue
    ensures r.rc == Success <==>
      forall k :: 0 <= k < |toks| ==> ParseKeyValue(toks[k]).Some? && !Rejected(ParseKeyValue(toks[k]).value)
    decreases |toks|
  {
    if toks == [] then Step(Success, c)
    else
      var kv := ParseKeyValue(toks[0]);
      if kv.None? then Step(TctiBadValue, c)
      else
        var s := KvApply(c, kv.value);
        if s.rc != Success then s else ApplyAll(s.conf, toks[1..])
  }

  /** parse_key_value_string with mssim_kv_callback; a NULL string is TSS2_TCTI_RC_BAD_VALUE. */
  function ParseConf(c: Conf, kvStr: Option<string>): (r: Step)
    ensures kvStr.None? ==> r == Step(TctiBadValue, c)
    ensures kvStr == Some([]) ==> r == Step(Success, c)
  {
    if kvStr.None? then Step(TctiBadValue, c) else ApplyAll(c, Tokens(kvStr.value, ','))
  }

  /** mssim_conf_t as the callback mutates it through its user_data pointer. */
  class MssimConf {
    var host: Option<string>
    var port: uint16
    var path: Option<string>

    function Value(): Conf
      reads this
    {
      Conf(host, port, path)
    }

    constructor (c: Conf)
      ensures Value() == c
    {
      host, port, path := c.host, c.port, c.path;
    }

    /** mssim_kv_callback applied to this configuration. */
    method KvCallback(kv: KeyValue) returns (rc: Rc)
      modifies this
      ensures Step(rc, Value()) == KvApply(old(Value()), kv)
    {
      if kv.key == "host" {
        host := Some(kv.value);
        path := None;
        return Success;
      } else if kv.key == "port" {
        port := StringToPort(kv.value);
        if port == 0 {
          return TctiBadValue;
        }
        return Success;
      } else if kv.key == "path" {
        path := Some(kv.value);
        host := None;
        return Success;
      }
      return TctiBadValue;
    }
  }

  /** parse_key_value_string(kvStr, mssim_kv_callback, conf). */
  method ParseKeyValueString(kvStr: Option<string>, conf: MssimConf) returns (rc: Rc)
    modifies conf
    ensures Step(rc, conf.Value()) == ParseConf(old(conf.Value()), kvStr)
  {
    if kvStr.None? {
      return TctiBadValue;
    }
    var toks := Tokens(kvStr.value, ',');
    rc := Success;
    var i := 0;
    while i < |toks|
      invariant 0 <= i <= |toks|
      invariant ApplyAll(old(conf.Value()), toks) == ApplyAll(conf.Value(), toks[i..])
    {
      assert toks[i..][1..] == toks[i + 1..];
      var kv := ParseKeyValue(toks[i]);
      if kv.None? {
        return TctiBadValue;
      }
      rc := conf.KvCallback(kv.value);
      if rc != Success {
        return rc;
      }
      i := i + 1;
    }
    return Success;
  }

  /** The same pairs applied directly, without going through a string. */
  function ApplyPairs(c: Conf, kvs: seq<KeyValue>): (r: Step)
    ensures r.rc == Success || r.rc == TctiBadValue
    decreases |kvs|
  {
    if kvs == [] then Step(Success, c)
    else
      var s := KvApply(c, kvs[0]);
      if s.rc != Success then s else ApplyPairs(s.conf, kvs[1..])
  }

  /** A pair whose key and value can be written as "key=value" inside a configuration string. */
  predicate Writable(kv: KeyValue) {
    Token(kv.key, '=') && Token(kv.value, '=') && ',' !in kv.key && ',' !in kv.value
  }

  function PairString(kv: KeyValue): string {
    kv.key + "=" + kv.value
  }

  function PairStrings(kvs: seq<KeyValue>): (r: seq<string>)
    ensures |r| == |kvs|
    ensures forall k :: 0 <= k < |kvs| ==> r[k] == PairString(kvs[k])
    decreases |kvs|
  {
    if kvs == [] then [] else [PairString(kvs[0])] + PairStrings(kvs[1..])
  }

  /** The configuration string made of the pairs, comma-separated. */
  function ConfString(kvs: seq<KeyValue>): string {
    Join(PairStrings(kvs), ',')
  }

  lemma {:induction false} ApplyAllPairs(c: Conf, kvs: seq<KeyValue>)
    requires forall k :: 0 <= k < |kvs| ==> Writable(kvs[k])
    ensures ApplyAll(c, PairStrings(kvs)) == ApplyPairs(c, kvs)
    decreases |kvs|
  {
    if kvs != [] {
      ParseKeyValueJoin(kvs[0].key, kvs[0].value);
      assert PairStrings(kvs)[1..] == PairStrings(kvs[1..]);
      var s := KvApply(c, kvs[0]);
      if s.rc == Success {
        ApplyAllPairs(s.conf, kvs[1..]);
      }
    }
  }

  /** Writing pairs as a configuration string and parsing it applies exactly those pairs, in order. */
  lemma ParseConfString(c: Conf, kvs: seq<KeyValue>)
    requires forall k :: 0 <= k < |kvs| ==> Writable(kvs[k])
    ensures ParseConf(c, Some(ConfString(kvs))) == ApplyPairs(c, kvs)
  {
    var ps := PairStrings(kvs);
    forall k | 0 <= k < |ps|
      ensures Token(ps[k], ',')
    {
      assert ps[k] == kvs[k].key + "=" + kvs[k].value;
    }
    TokensJoin(ps, ',');
    ApplyAllPairs(c, kvs);
  }

  /** The last pair whose key is one of keys, if any. */
  function LastWith(kvs: seq<KeyValue>, keys: set<string>): (r: Option<KeyValue>)
    ensures r.Some? ==> r.value in kvs && r.value.key in keys
    decreases |kvs|
  {
    if kvs == [] then None
    else
      var later := LastWith(kvs[1..], keys);
      if later.Some? then later else if kvs[0].key in keys then Some(kvs[0]) else None
  }

  /**
   * The configuration fails exactly when one of its pairs is rejected, always with
   * TSS2_TCTI_RC_BAD_VALUE.
   */
  lemma {:induction false} ApplyPairsRc(c: Conf, kvs: seq<KeyValue>)
    ensures ApplyPairs(c, kvs).rc == Success || ApplyPairs(c, kvs).rc == TctiBadValue
    ensures ApplyPairs(c, kvs).rc == Success <==> forall k :: 0 <= k < |kvs| ==> !Rejected(kvs[k])
    decreases |kvs|
  {
    if kvs != [] {
      var s := KvApply(c, kvs[0]);
      if s.rc == Success {
        ApplyPairsRc(s.conf, kvs[1..]);
        assert forall k :: 1 <= k < |kvs| ==> kvs[k] == kvs[1..][k - 1];
      }
    }
  }

  /**
   * After a configuration is accepted, the endpoint is the one its last "host" or "path" pair
   * named: a host clears the path and a path clears the host. Without such a pair the endpoint
   * is the one the configuration started from.
   */
  lemma {:induction false} ApplyPairsEndpoint(c: Conf, kvs: seq<KeyValue>)
    requires ApplyPairs(c, kvs).rc == Success
    ensures var r := ApplyPairs(c, kvs).conf;
      match LastWith(kvs, {"host", "path"})
      case None => r.host == c.host && r.path == c.path
      case Some(kv) =>
        if kv.key == "host" then r.host == Some(kv.value) && r.path.None?
        else r.path == Some(kv.value) && r.host.None?
    decreases |kvs|
  {
    if kvs != [] {
      ApplyPairsEndpoint(KvApply(c, kvs[0]).conf, kvs[1..]);
    }
  }

  /**
   * After a configuration is accepted, the port is the one its last "port" pair named, which
   * is in 1..65535; without a "port" pair the port is left as it was.
   */
  lemma {:induction false} ApplyPairsPort(c: Conf, kvs: seq<KeyValue>)
    requires ApplyPairs(c, kvs).rc == Success
    ensures var r := ApplyPairs(c, kvs).conf;
      match LastWith(kvs, {"port"})
      case None => r.port == c.port
      case Some(kv) => r.port == StringToPort(kv.value) && 1 <= r.port <= 0xFFFF
    decreases |kvs|
  {
    if kvs != [] {
      ApplyPairsPort(KvApply(c, kvs[0]).conf, kvs[1..]);
    }
  }

  /** A configuration string of one pair applies just that pair. */
  lemma OnePair(c: Conf, kv: KeyValue)
    requires Writable(kv)
    ensures ParseConf(c, Some(ConfString([kv]))) == KvApply(c, kv)
  {
    ParseConfString(c, [kv]);
    var s := KvApply(c, kv);
    assert ApplyPairs(s.conf, []) == Step(Success, s.conf);
  }

  /**
   * "host=H,port=P": the host is set, the path cleared, and the port is P when string_to_port
   * accepts it; otherwise TSS2_TCTI_RC_BAD_VALUE, with the rejected port 0 already stored.
   */
  lemma HostThenPort(c: Conf, host: string, port: string)
    requires Writable(KeyValue("host", host)) && Writable(KeyValue("port", port))
    ensures ParseConf(c, Some(ConfString([KeyValue("host", host), KeyValue("port", port)]))) ==
      if StringToPort(port) == 0 then Step(TctiBadValue, Conf(Some(host), 0, None))
      else Step(Success, Conf(Some(host), StringToPort(port), None))
  {
    var a := [KeyValue("host", host), KeyValue("port", port)];
    ParseConfString(c, a);
    assert a[1..] == [a[1]];
    var s := KvApply(c, a[0]);
    assert ApplyPairs(c, a) == ApplyPairs(s.conf, [a[1]]);
    assert [a[1]][1..] == [];
    var t := KvApply(s.conf, a[1]);
    assert ApplyPairs(t.conf, []) == Step(Success, t.conf);
    assert ApplyPairs(s.conf, [a[1]]) == (if t.rc != Success then t else ApplyPairs(t.conf, []));
  }

  lemma ConfStringTwo(k0: string, v0: string, k1: string, v1: string)
    ensures ConfString([KeyValue(k0, v0), KeyValue(k1, v1)]) == k0 + "=" + v0 + "," + k1 + "=" + v1
  {
    var a := [KeyValue(k0, v0), KeyValue(k1, v1)];
    var ps := PairStrings(a);
    assert ps == [PairString(a[0]), PairString(a[1])];
    assert ps[1..] == [ps[1]];
    assert Join(ps, ',') == ps[0] + [','] + ps[1];
  }

  /** The configuration string of conf_str_to_host_port_success_test, written as its pairs. */
  lemma HostPortString()
    ensures ConfString([KeyValue("host", "127.0.0.1"), KeyValue("port", "2321")]) == "host=127.0.0.1,port=2321"
  {
    ConfStringTwo("host", "127.0.0.1", "port", "2321");
  }

  /** The configuration string of conf_str_to_host_ipv6_port_success_test. */
  lemma Ipv6PortString()
    ensures ConfString([KeyValue("host", "::1"), KeyValue("port", "2321")]) == "host=::1,port=2321"
  {
    ConfStringTwo("host", "::1", "port", "2321");
  }

  /** The configuration string of conf_str_to_host_port_invalid_port_large_test. */
  lemma LargePortString()
    ensures ConfString([KeyValue("host", "127.0.0.1"), KeyValue("port", "99999")]) == "host=127.0.0.1,port=99999"
  {
    ConfStringTwo("host", "127.0.0.1", "port", "99999");
  }

  /** The configuration string of conf_str_to_host_port_invalid_port_0_test. */
  lemma ZeroPortString()
    ensures ConfString([KeyValue("host", "127.0.0.1"), KeyValue("port", "0")]) == "host=127.0.0.1,port=0"
  {
    ConfStringTwo("host", "127.0.0.1", "port", "0");
  }

  /** The one-pair configuration strings of the no_port and path tests. */
  lemma OnePairStrings()
    ensures ConfString([KeyValue("host", "127.0.0.1")]) == "host=127.0.0.1"
    ensures ConfString([KeyValue("host", "::1")]) == "host=::1"
    ensures ConfString([KeyValue("path", "/some/path")]) == "path=/some/path"
  {
  }

  /** The port string of the success tests is read as 2321. */
  lemma TestPort()
    ensures StringToPort("2321") == 2321
  {
    assert DecimalString(2321) == "2321" by {
      assert DecimalString(2) == "2";
      assert DecimalString(23) == "23";
      assert DecimalString(232) == "232";
    }
    StringToPortDecimal(2321);
  }

  /** The port strings of the invalid-port tests: 99999 is above UINT16_MAX, and 0 is the error value. */
  lemma TestBadPorts()
    ensures StringToPort("99999") == 0
    ensures StringToPort("0") == 0
  {
    assert DecimalString(99999) == "99999" by {
      assert DecimalString(9) == "9";
      assert DecimalString(99) == "99";
      assert DecimalString(999) == "999";
      assert DecimalString(9999) == "9999";
    }
    StringToPortDecimal(99999);
  }

  lemma TestHostsWritable()
    ensures Writable(KeyValue("host", "127.0.0.1")) && Writable(KeyValue("host", "::1"))
  {
  }

  lemma TestPortsWritable()
    ensures Writable(KeyValue("port", "2321")) && Writable(KeyValue("port", "99999")) && Writable(KeyValue("port", "0"))
  {
  }

  /** conf_str_to_host_port_success_test and its IPv6 variant: host and port set, path cleared. */
  lemma HostPortVectors(c: Conf)
    ensures ParseConf(c, Some(ConfString([KeyValue("host", "127.0.0.1"), KeyValue("port", "2321")]))) ==
      Step(Success, Conf(Some("127.0.0.1"), 2321, None))
    ensures ParseConf(c, Some(ConfString([KeyValue("host", "::1"), KeyValue("port", "2321")]))) ==
      Step(Success, Conf(Some("::1"), 2321, None))
  {
    TestPort();
    TestHostsWritable();
    TestPortsWritable();
    HostThenPort(c, "127.0.0.1", "2321");
    HostThenPort(c, "::1", "2321");
  }

  /** conf_str_to_host_port_invalid_port_large_test and _0_test: the port is rejected. */
  lemma BadPortVectors(c: Conf)
    ensures ParseConf(c, Some(ConfString([KeyValue("host", "127.0.0.1"), KeyValue("port", "99999")]))).rc == TctiBadValue
    ensures ParseConf(c, Some(ConfString([KeyValue("host", "127.0.0.1"), KeyValue("port", "0")]))).rc == TctiBadValue
  {
    TestBadPorts();
    TestHostsWritable();
    TestPortsWritable();
    HostThenPort(c, "127.0.0.1", "99999");
    HostThenPort(c, "127.0.0.1", "0");
  }

  /**
   * conf_str_to_host_port_no_port_test and its IPv6 variant: the host is set, the path
   * cleared, and the port keeps the value it had.
   */
  lemma HostOnlyVectors(c: Conf)
    ensures ParseConf(c, Some(ConfString([KeyValue("host", "127.0.0.1")]))) ==
      Step(Success, Conf(Some("127.0.0.1"), c.port, None))
    ensures ParseConf(c, Some(ConfString([KeyValue("host", "::1")]))) ==
      Step(Success, Conf(Some("::1"), c.port, None))
  {
    TestHostsWritable();
    OnePair(c, KeyValue("host", "127.0.0.1"));
    OnePair(c, KeyValue("host", "::1"));
  }

  /** conf_str_to_path_success_test: the path is set and the host cleared. */
  lemma PathVector(c: Conf)
    ensures ParseConf(c, Some(ConfString([KeyValue("path", "/some/path")]))) ==
      Step(Success, Conf(None, c.port, Some("/some/path")))
  {
    assert Writable(KeyValue("path", "/some/path"));
    OnePair(c, KeyValue("path", "/some/path"));
  }
}
