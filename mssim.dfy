/**
 * The mssim TCTI: Tss2_Tcti_Mssim_Init and the transmit / receive pair over the simulator's
 * TPM command socket. The socket is a byte stream: what the TCTI has written so far
 * (outgoing) and what the simulator has sent and the TCTI not yet read (incoming).
 */
module TctiMssim {
  import opened Tss2Types
  import opened Endian
  import TpmHeader
  import MssimConfig
  import KeyValueParse

  /** TCTI_MSSIM_MAGIC */
  const TCTI_MSSIM_MAGIC: uint64 := 0xf05b04cd9f02728d
  /** TCTI_VERSION */
  const TCTI_VERSION: uint32 := 2
  /** MS_SIM_TPM_SEND_COMMAND: the simulator's "TPM command follows" code. */
  const MS_SIM_TPM_SEND_COMMAND: uint32 := 8
  /** The locality a freshly initialized context sends commands at. */
  const TCTI_MSSIM_DEFAULT_LOCALITY: byte := 3

  /** tcti_common->state */
  datatype TctiState = StateFinal | StateTransmit | StateReceive

  /**
   * The part of TSS2_TCTI_MSSIM_CONTEXT that transmit and receive use: magic, state, the
   * response size read so far (header.size, 0 when none), locality, and the command socket.
   */
  datatype Link = Link(magic: uint64, state: TctiState, headerSize: uint32, locality: byte,
                       incoming: seq<byte>, outgoing: seq<byte>)

  /** The context as Tss2_Tcti_Mssim_Init leaves it, with `served` waiting on the socket. */
  function Initialized(served: seq<byte>): (l: Link)
    ensures l.state == StateTransmit && l.headerSize == 0
  {
    Link(TCTI_MSSIM_MAGIC, StateTransmit, 0, TCTI_MSSIM_DEFAULT_LOCALITY, served, [])
  }

  /**
   * The endpoint Tss2_Tcti_Mssim_Init connects to: the defaults, updated by the configuration
   * string when one is given.
   */
  function InitConf(conf: Option<string>): (r: MssimConfig.Step)
    ensures conf.None? ==> r == MssimConfig.Step(Success, MssimConfig.DefaultConf)
    ensures conf.Some? ==> r == MssimConfig.ParseConf(MssimConfig.DefaultConf, conf)
  {
    if conf.None? then MssimConfig.Step(Success, MssimConfig.DefaultConf)
    else MssimConfig.ParseConf(MssimConfig.DefaultConf, conf)
  }

  /** The bytes transmit writes for one command: the send code, the locality, the size, the command. */
  function SimFrame(locality: byte, cmd: seq<byte>): (r: seq<byte>)
    requires |cmd| < 0x1_0000_0000
    ensures |r| == 9 + |cmd|
  {
    Widths();
    ToBE(MS_SIM_TPM_SEND_COMMAND, 4) + [locality] + ToBE(|cmd|, 4) + cmd
  }

  /** The simulator can take a frame apart again: code, locality, length and command. */
  lemma SimFrameFields(locality: byte, cmd: seq<byte>)
    requires |cmd| < 0x1_0000_0000
    ensures var f := SimFrame(locality, cmd);
      FromBE(f, 0, 4) == MS_SIM_TPM_SEND_COMMAND && f[4] == locality &&
      FromBE(f, 5, 4) == |cmd| && f[9..] == cmd
  {
    Widths();
    var f := SimFrame(locality, cmd);
    assert f[0..4] == ToBE(MS_SIM_TPM_SEND_COMMAND, 4);
    assert f[5..9] == ToBE(|cmd|, 4);
    FromBEOf(f, 0, MS_SIM_TPM_SEND_COMMAND, 4);
    FromBEOf(f, 5, |cmd|, 4);
  }

  /** What a transmit call returns and leaves behind. */
  datatype Sent = Sent(rc: Rc, link: Link)

  /**
   * tcti_mssim_transmit: the common transmit checks (magic, state TRANSMIT, a command
   * buffer), then the header's size field must equal `size`; the frame goes out and the
   * context waits for the response. Socket write errors are not modelled.
   */
  function TransmitSpec(l: Link, size: nat, cmd: Option<seq<byte>>): (r: Sent)
    requires cmd.Some? ==> |cmd.value| >= TpmHeader.TPM_HEADER_SIZE && size <= |cmd.value|
    ensures r.rc == Success <==>
      l.magic == TCTI_MSSIM_MAGIC && l.state == StateTransmit && cmd.Some? &&
      TpmHeader.Parse(cmd).value.size as nat == size
    ensures r.rc != Success ==> r.link == l
    ensures r.rc == Success ==> r.link.state == StateReceive && |r.link.outgoing| == |l.outgoing| + 9 + size
  {
    if l.magic != TCTI_MSSIM_MAGIC then Sent(TctiBadContext, l)
    else if l.state != StateTransmit then Sent(TctiBadSequence, l)
    else if cmd.None? then Sent(TctiBadReference, l)
    else
      var h := TpmHeader.Parse(cmd).value;
      if h.size as nat != size then Sent(TctiBadValue, l)
      else Sent(Success, l.(state := StateReceive, outgoing := l.outgoing + SimFrame(l.locality, cmd.value[..size])))
  }

  /** What a receive call returns: the code, *response_size (None for a NULL pointer), the new link and the bytes put in the buffer. */
  datatype Received = Received(rc: Rc, responseSize: Option<nat>, link: Link, data: seq<byte>)

  /** The end of a response, good or bad: no size pending, back to TRANSMIT. */
  function Reset(l: Link, rest: seq<byte>): (r: Link)
    ensures r.state == StateTransmit && r.headerSize == 0 && r.incoming == rest
    ensures r.magic == l.magic && r.locality == l.locality && r.outgoing == l.outgoing
  {
    l.(headerSize := 0, state := StateTransmit, incoming := rest)
  }

  /** header.size read from the socket if it was not read by an earlier call. */
  function WithSize(l: Link): (r: Link)
    requires l.headerSize != 0 || |l.incoming| >= 4
    ensures l.headerSize != 0 ==> r == l
    ensures l.headerSize == 0 ==> l.incoming == ToBE(r.headerSize, 4) + r.incoming
    ensures r.(headerSize := l.headerSize, incoming := l.incoming) == l
  {
    Widths();
    if l.headerSize != 0 then l
    else
      ToFromBE(l.incoming, 0, 4);
      assert l.incoming == l.incoming[0..4] + l.incoming[4..];
      l.(headerSize := FromBE(l.incoming, 0, 4), incoming := l.incoming[4..])
  }

  /**
   * tcti_mssim_receive: the common receive checks (magic, state RECEIVE, a size pointer);
   * the response size, read from the socket unless an earlier call has; with no buffer the
   * size is all that is reported; a buffer smaller than the response is
   * TSS2_TCTI_RC_INSUFFICIENT_BUFFER; otherwise the response is read into the buffer and the
   * simulator's 4 trailing bytes are read and dropped. A stream that ends early is
   * TSS2_TCTI_RC_IO_ERROR, which also ends the exchange.
   */
  function ReceiveSpec(l: Link, responseSize: Option<nat>, hasBuffer: bool): (r: Received)
    ensures |r.data| <= (if responseSize.Some? then responseSize.value else 0)
    ensures r.data != [] ==> hasBuffer
    ensures r.rc == Success ==> r.responseSize.Some?
  {
    if l.magic != TCTI_MSSIM_MAGIC then Received(TctiBadContext, responseSize, l, [])
    else if l.state != StateReceive then Received(TctiBadSequence, responseSize, l, [])
    else if responseSize.None? then Received(TctiBadReference, responseSize, l, [])
    else if l.headerSize == 0 && |l.incoming| < 4 then Received(TctiIoError, responseSize, Reset(l, []), [])
    else
      var l1 := WithSize(l);
      var n := l1.headerSize as nat;
      var s := l1.incoming;
      if !hasBuffer then Received(Success, Some(n), l1, [])
      else if responseSize.value < n then Received(TctiInsufficientBuffer, Some(n), l1, [])
      else if |s| < n then Received(TctiIoError, Some(n), Reset(l1, []), s)
      else if |s| < n + 4 then Received(TctiIoError, Some(n), Reset(l1, []), s[..n])
      else Received(Success, Some(n), Reset(l1, s[n + 4..]), s[..n])
  }

  /** socket_recv_buf into the response buffer: the first count bytes of the stream, in order. */
  method CopyPrefix(buf: array<byte>, s: seq<byte>, count: nat)
    requires count <= |s| && count <= buf.Length
    modifies buf
    ensures buf[..] == s[..count] + old(buf[count..])
  {
    var i := 0;
    while i < count
      invariant 0 <= i <= count
      invariant buf[..i] == s[..i]
      invariant buf[count..] == old(buf[count..])
    {
      buf[i] := s[i];
      i := i + 1;
    }
    assert buf[..] == buf[..count] + buf[count..];
  }

  /** TSS2_TCTI_MSSIM_CONTEXT, with the endpoint it was initialized for. */
  class MssimContext {
    var magic: uint64
    var version: uint32
    var state: TctiState
    var headerSize: uint32
    var locality: byte
    var incoming: seq<byte>
    var outgoing: seq<byte>
    var endpoint: MssimConfig.Conf

    function Snapshot(): Link
      reads this
    {
      Link(magic, state, headerSize, locality, incoming, outgoing)
    }

    /** tcti_mssim_transmit on this context. */
    method Transmit(size: nat, cmd: Option<seq<byte>>) returns (rc: Rc)
      requires cmd.Some? ==> |cmd.value| >= TpmHeader.TPM_HEADER_SIZE && size <= |cmd.value|
      modifies this
      ensures Sent(rc, Snapshot()) == TransmitSpec(old(Snapshot()), size, cmd)
      ensures version == old(version) && endpoint == old(endpoint)
    {
      if magic != TCTI_MSSIM_MAGIC {
        return TctiBadContext;
      }
      if state != StateTransmit {
        return TctiBadSequence;
      }
      if cmd.None? {
        return TctiBadReference;
      }
      var header := TpmHeader.Parse(cmd);
      if header.value.size as nat != size {
        return TctiBadValue;
      }
      outgoing := outgoing + SimFrame(locality, cmd.value[..size]);
      state := StateReceive;
      return Success;
    }

    /**
     * tcti_mssim_receive on this context: responseSize is *response_size on entry (None for
     * NULL), newSize what it holds on return; the response is copied to the front of the buffer.
     */
    method Receive(responseSize: Option<nat>, responseBuffer: array?<byte>, timeout: int)
      returns (rc: Rc, newSize: Option<nat>)
      requires responseBuffer != null && responseSize.Some? ==> responseSize.value <= responseBuffer.Length
      modifies this, responseBuffer
      ensures var r := ReceiveSpec(old(Snapshot()), responseSize, responseBuffer != null);
        rc == r.rc && newSize == r.responseSize && Snapshot() == r.link &&
        (responseBuffer != null ==> responseBuffer[..] == r.data + old(responseBuffer[|r.data|..]))
      ensures version == old(version) && endpoint == old(endpoint)
    {
      if magic != TCTI_MSSIM_MAGIC {
        return TctiBadContext, responseSize;
      }
      if state != StateReceive {
        return TctiBadSequence, responseSize;
      }
      if responseSize.None? {
        return TctiBadReference, responseSize;
      }
      if headerSize == 0 {
        if |incoming| < 4 {
          headerSize, state, incoming := 0, StateTransmit, [];
          return TctiIoError, responseSize;
        }
        Widths();
        headerSize := FromBE(incoming, 0, 4);
        incoming := incoming[4..];
      }
      var n := headerSize as nat;
      if responseBuffer == null {
        return Success, Some(n);
      }
      if responseSize.value < n {
        return TctiInsufficientBuffer, Some(n);
      }
      var s := incoming;
      var avail := if |s| < n then |s| else n;
      CopyPrefix(responseBuffer, s, avail);
      if |s| < n + 4 {
        headerSize, state, incoming := 0, StateTransmit, [];
        return TctiIoError, Some(n);
      }
      headerSize, state, incoming := 0, StateTransmit, s[n + 4..];
      return Success, Some(n);
    }
  }

  /**
   * Tss2_Tcti_Mssim_Init: a NULL size pointer is TSS2_TCTI_RC_BAD_VALUE; a NULL context asks
   * for the context size (sizeofContext, which depends on the platform); otherwise the
   * configuration string is applied to the defaults, and on success the context is set up to
   * send the first command. `served` is what the simulator will send on the command socket.
   */
  method Init(ctx: MssimContext?, size: Option<nat>, conf: Option<string>, served: seq<byte>, sizeofContext: nat)
    returns (rc: Rc, newSize: Option<nat>)
    modifies ctx
    ensures size.None? ==> rc == TctiBadValue && newSize == size
    ensures size.Some? && ctx == null ==> rc == Success && newSize == Some(sizeofContext)
    ensures size.Some? && ctx != null ==> rc == InitConf(conf).rc && newSize == size
    ensures ctx != null && rc == Success && size.Some? ==>
      ctx.Snapshot() == Initialized(served) && ctx.version == TCTI_VERSION && ctx.endpoint == InitConf(conf).conf
    ensures ctx != null && (size.None? || rc != Success) ==>
      ctx.Snapshot() == old(ctx.Snapshot()) && ctx.version == old(ctx.version) && ctx.endpoint == old(ctx.endpoint)
  {
    if size.None? {
      return TctiBadValue, size;
    }
    if ctx == null {
      return Success, Some(sizeofContext);
    }
    var mc := new MssimConfig.MssimConf(MssimConfig.DefaultConf);
    if conf.Some? {
      rc := MssimConfig.ParseKeyValueString(conf, mc);
      if rc != Success {
        return rc, size;
      }
    }
    ctx.magic := TCTI_MSSIM_MAGIC;
    ctx.version := TCTI_VERSION;
    ctx.state := StateTransmit;
    ctx.locality := TCTI_MSSIM_DEFAULT_LOCALITY;
    ctx.headerSize := 0;
    ctx.incoming, ctx.outgoing := served, [];
    ctx.endpoint := mc.Value();
    return Success, size;
  }

  /** tcti_socket_init_null_conf_test: with no configuration string the defaults are used. */
  lemma InitNullConf()
    ensures InitConf(None) == MssimConfig.Step(Success, MssimConfig.Conf(Some("localhost"), 2321, None))
  {
  }

  /**
   * The common receive checks, in order: a context that is not mssim's is
   * TSS2_TCTI_RC_BAD_CONTEXT, a receive out of turn TSS2_TCTI_RC_BAD_SEQUENCE, a NULL size
   * pointer TSS2_TCTI_RC_BAD_REFERENCE whether or not a buffer is given; none of them touches
   * the context or the buffer.
   */
  lemma ReceiveChecks(l: Link, responseSize: Option<nat>, hasBuffer: bool)
    ensures l.magic != TCTI_MSSIM_MAGIC ==>
      ReceiveSpec(l, responseSize, hasBuffer) == Received(TctiBadContext, responseSize, l, [])
    ensures l.magic == TCTI_MSSIM_MAGIC && l.state != StateReceive ==>
      ReceiveSpec(l, responseSize, hasBuffer) == Received(TctiBadSequence, responseSize, l, [])
    ensures l.magic == TCTI_MSSIM_MAGIC && l.state == StateReceive && responseSize.None? ==>
      ReceiveSpec(l, responseSize, hasBuffer) == Received(TctiBadReference, None, l, [])
  {
  }

  /** A link waiting for a response whose size has not been read yet. */
  predicate Awaiting(l: Link) {
    l.magic == TCTI_MSSIM_MAGIC && l.state == StateReceive && l.headerSize == 0
  }

  /**
   * A full response on the socket: its size, the response, the simulator's 4 trailing bytes.
   * A receive into a large enough buffer yields exactly the response, without the trailing
   * bytes, leaves what follows on the socket, and makes the context ready to transmit again.
   */
  lemma ReceiveResponse(l: Link, response: seq<byte>, trailer: seq<byte>, rest: seq<byte>, size: nat)
    requires Awaiting(l) && |response| > 0 && |trailer| == 4 && size >= |response|
    requires |l.incoming| >= 4 && FromBE(l.incoming, 0, 4) == |response|
    requires l.incoming[4..] == response + trailer + rest
    ensures ReceiveSpec(l, Some(size), true) == Received(Success, Some(|response|), Reset(l, rest), response)
  {
    var n := |response|;
    var s := l.incoming[4..];
    assert s[..n] == response;
    assert s[n + 4..] == rest;
  }

  /**
   * The two-phase receive: a call without a buffer reads and reports the response size and
   * keeps waiting; a following call with a buffer then behaves exactly as a single call with
   * that buffer would have. (A size field of 0 would be read again by the second call.)
   */
  lemma ReceiveTwoPhase(l: Link, querySize: nat, fillSize: nat)
    requires Awaiting(l) && |l.incoming| >= 4 && FromBE(l.incoming, 0, 4) != 0
    ensures var q := ReceiveSpec(l, Some(querySize), false);
      q.rc == Success && q.responseSize == Some(FromBE(l.incoming, 0, 4)) && q.data == [] &&
      q.link.state == StateReceive &&
      ReceiveSpec(q.link, Some(fillSize), true) == ReceiveSpec(l, Some(fillSize), true)
  {
  }

  /**
   * A buffer smaller than the response is TSS2_TCTI_RC_INSUFFICIENT_BUFFER with the needed
   * size reported; the response stays pending, and a retry with a large enough buffer behaves
   * as if the first call had not happened.
   */
  lemma ReceiveRetry(l: Link, smallSize: nat, fillSize: nat)
    requires Awaiting(l) && |l.incoming| >= 4 && FromBE(l.incoming, 0, 4) != 0
    requires smallSize < FromBE(l.incoming, 0, 4)
    ensures var q := ReceiveSpec(l, Some(smallSize), true);
      q.rc == TctiInsufficientBuffer && q.responseSize == Some(FromBE(l.incoming, 0, 4)) && q.data == [] &&
      ReceiveSpec(q.link, Some(fillSize), true) == ReceiveSpec(l, Some(fillSize), true)
  {
  }

  /**
   * A stream that ends before the size (tcti_mssim_receive_eof_first_read_test) or before the
   * response (tcti_mssim_receive_eof_second_read_test) is TSS2_TCTI_RC_IO_ERROR, and the
   * context is back to TRANSMIT with nothing pending.
   */
  lemma ReceiveEof(l: Link, n: nat, size: nat)
    requires Awaiting(l) && 0 < n && size >= n
    ensures l.incoming == [] ==>
      ReceiveSpec(l, Some(size), true).rc == TctiIoError &&
      ReceiveSpec(l, Some(size), true).link == Reset(l, [])
    ensures |l.incoming| == 4 && FromBE(l.incoming, 0, 4) == n ==>
      ReceiveSpec(l, Some(size), true).rc == TctiIoError &&
      ReceiveSpec(l, Some(size), true).link == Reset(l, [])
  {
  }

  /**
   * Transmit is only accepted in turn: a fresh context accepts a command whose header size
   * matches, refuses to receive before it, and after it waits for the response with the
   * simulator frame of the command on the socket.
   */
  lemma TransmitThenReceive(served: seq<byte>, cmd: seq<byte>, responseSize: Option<nat>, hasBuffer: bool)
    requires |cmd| >= TpmHeader.TPM_HEADER_SIZE
    requires TpmHeader.Parse(Some(cmd)).value.size as nat == |cmd|
    ensures ReceiveSpec(Initialized(served), responseSize, hasBuffer).rc == TctiBadSequence
    ensures var t := TransmitSpec(Initialized(served), |cmd|, Some(cmd));
      t.rc == Success && t.link.outgoing == SimFrame(TCTI_MSSIM_DEFAULT_LOCALITY, cmd) &&
      Awaiting(t.link) && t.link.incoming == served &&
      TransmitSpec(t.link, |cmd|, Some(cmd)).rc == TctiBadSequence
  {
    assert cmd[..|cmd|] == cmd;
  }

  /** A command whose header size disagrees with the size argument is TSS2_TCTI_RC_BAD_VALUE and nothing is sent. */
  lemma TransmitSizeMismatch(l: Link, cmd: seq<byte>, size: nat)
    requires l.magic == TCTI_MSSIM_MAGIC && l.state == StateTransmit
    requires |cmd| >= TpmHeader.TPM_HEADER_SIZE && size <= |cmd|
    requires FromBE(cmd, 2, 4) != size
    ensures TransmitSpec(l, size, Some(cmd)) == Sent(TctiBadValue, l)
  {
  }

  /**
   * One whole exchange from a fresh context: transmit, a size query, then the fill. The
   * response comes back without the trailing bytes and the context is ready for the next
   * command with the rest of the stream left on the socket.
   */
  lemma Exchange(cmd: seq<byte>, served: seq<byte>, response: seq<byte>, trailer: seq<byte>, rest: seq<byte>, size: nat)
    requires |cmd| >= TpmHeader.TPM_HEADER_SIZE && TpmHeader.Parse(Some(cmd)).value.size as nat == |cmd|
    requires |response| > 0 && |trailer| == 4 && size >= |response|
    requires |served| >= 4 && FromBE(served, 0, 4) == |response| && served[4..] == response + trailer + rest
    ensures var t := TransmitSpec(Initialized(served), |cmd|, Some(cmd));
      var q := ReceiveSpec(t.link, Some(0), false);
      var f := ReceiveSpec(q.link, Some(size), true);
      t.rc == Success && q.rc == Success && q.responseSize == Some(|response|) &&
      f.rc == Success && f.data == response &&
      f.link == Initialized(rest).(outgoing := SimFrame(TCTI_MSSIM_DEFAULT_LOCALITY, cmd))
  {
    var frame := SimFrame(TCTI_MSSIM_DEFAULT_LOCALITY, cmd);
    TransmitThenReceive(served, cmd, None, false);
    var t := TransmitSpec(Initialized(served), |cmd|, Some(cmd));
    assert t.link == Initialized(served).(state := StateReceive, outgoing := frame);
    ReceiveTwoPhase(t.link, 0, size);
    ReceiveResponse(t.link, response, trailer, rest, size);
  }

  /** The 12-byte response (and command) of the receive and transmit tests: size field 0xc. */
  const TestResponse: seq<byte> := [0x80, 0x02, 0x00, 0x00, 0x00, 0x0c, 0x00, 0x00, 0x00, 0x00, 0x01, 0x02]

  /**
   * tcti_socket_receive_success_test and tcti_socket_receive_size_success_test: the simulator
   * sends the size 0xc, the response and four zero bytes; one receive with a 12-byte buffer,
   * or a size query followed by that receive, yields exactly the 12 response bytes.
   */
  lemma ReceiveVectors(l: Link)
    requires Awaiting(l) && l.incoming == [0x00, 0x00, 0x00, 0x0c] + TestResponse + [0, 0, 0, 0]
    ensures ReceiveSpec(l, Some(12), true) == Received(Success, Some(12), Reset(l, []), TestResponse)
    ensures var q := ReceiveSpec(l, Some(0), false);
      q.rc == Success && q.responseSize == Some(12) && ReceiveSpec(q.link, Some(12), true).data == TestResponse
  {
    ResponseWire(l.incoming, [0x00, 0x00, 0x00, 0x0c], TestResponse, [0, 0, 0, 0]);
    ReceiveResponse(l, TestResponse, [0, 0, 0, 0], [], 12);
    ReceiveTwoPhase(l, 0, 12);
  }

  /** Bytes from the simulator: the size 12 as BE32, then the response, then the trailer. */
  lemma ResponseWire(incoming: seq<byte>, size: seq<byte>, response: seq<byte>, trailer: seq<byte>)
    requires incoming == size + response + trailer && size == [0x00, 0x00, 0x00, 0x0c]
    ensures |incoming| >= 4 && FromBE(incoming, 0, 4) == 12
    ensures incoming[4..] == response + trailer + []
  {
    assert incoming[0..4] == size;
    SizeTwelve(incoming);
    assert incoming[4..] == response + trailer;
  }

  lemma SizeTwelve(incoming: seq<byte>)
    requires |incoming| >= 4 && incoming[0..4] == [0x00, 0x00, 0x00, 0x0c]
    ensures FromBE(incoming, 0, 4) == 12
  {
    Widths();
    FromBEOf(incoming, 0, 12, 4);
  }

  /**
   * tcti_socket_transmit_success_test: the 12-byte command is accepted and goes out as writes
   * of 4 (the send code), 1 (the locality), 4 (the size) and 12 (the command) bytes.
   */
  lemma TransmitVector(served: seq<byte>)
    ensures var t := TransmitSpec(Initialized(served), 12, Some(TestResponse));
      t.rc == Success &&
      t.link.outgoing == [0x00, 0x00, 0x00, 0x08] + [TCTI_MSSIM_DEFAULT_LOCALITY] + [0x00, 0x00, 0x00, 0x0c] + TestResponse
  {
    Widths();
    var h := TpmHeader.Parse(Some(TestResponse)).value;
    assert TestResponse[2..6] == ToBE(12, 4);
    FromBEOf(TestResponse, 2, 12, 4);
    assert TestResponse[..12] == TestResponse;
  }

  /** The port string of tcti_socket_setup is read as 666. */
  lemma SetupPort()
    ensures KeyValueParse.StringToPort("666") == 666
  {
    assert KeyValueParse.DecimalString(666) == "666" by {
      assert KeyValueParse.DecimalString(6) == "6";
      assert KeyValueParse.DecimalString(66) == "66";
    }
    KeyValueParse.StringToPortDecimal(666);
  }

  lemma SetupPairsWritable()
    ensures MssimConfig.Writable(KeyValueParse.KeyValue("host", "127.0.0.1"))
    ensures MssimConfig.Writable(KeyValueParse.KeyValue("port", "666"))
  {
    assert '=' !in "127.0.0.1" && ',' !in "127.0.0.1";
    assert '=' !in "666" && ',' !in "666";
    assert '=' !in "host" && ',' !in "host";
    assert '=' !in "port" && ',' !in "port";
  }

  /** The configuration string of tcti_socket_setup: a TCP endpoint on port 666. */
  lemma SetupTcpConf()
    ensures InitConf(Some(MssimConfig.ConfString([KeyValueParse.KeyValue("host", "127.0.0.1"), KeyValueParse.KeyValue("port", "666")])))
      == MssimConfig.Step(Success, MssimConfig.Conf(Some("127.0.0.1"), 666, None))
  {
    SetupPort();
    SetupPairsWritable();
    MssimConfig.HostThenPort(MssimConfig.DefaultConf, "127.0.0.1", "666");
  }

  /** The path of tcti_socket_setup_unix. */
  const UnixPath: string := "/notarealdirectory/notarealfile"

  lemma UnixPathWritable()
    ensures MssimConfig.Writable(KeyValueParse.KeyValue("path", UnixPath))
  {
    assert '=' !in UnixPath;
    assert ',' !in UnixPath;
    assert '=' !in "path" && ',' !in "path";
  }

  /** The configuration string of tcti_socket_setup_unix: a unix domain socket, the default port kept. */
  lemma SetupUnixConf()
    ensures InitConf(Some(MssimConfig.ConfString([KeyValueParse.KeyValue("path", UnixPath)])))
      == MssimConfig.Step(Success, MssimConfig.Conf(None, 2321, Some(UnixPath)))
  {
    UnixPathWritable();
    MssimConfig.OnePair(MssimConfig.DefaultConf, KeyValueParse.KeyValue("path", UnixPath));
  }
}
