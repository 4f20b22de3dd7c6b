# tpm2-tss wire format and TCTI model

A Dafny model of four pieces of the TPM2 Software Stack (tpm2-tss), as its unit tests exercise them:

- **The marshalling library (MU)**:
  - The big-endian scalar codec `Tss2_MU_UINTn_Marshal` / `_Unmarshal`, with its NULL-pointer, offset and buffer-size rules.
  - The TPML list codecs for `TPML_HANDLE`, `TPML_INTEL_PTT_PROPERTY` and `TPML_PCR_SELECTION`. Each is a BE32 count followed by `count` elements, checked against the list's capacity.
  - The size-only (NULL buffer) paths of `TPML_DIGEST` and `TPML_DIGEST_VALUES`.
- **The TPM command/response header**: the 10-byte header (tag, size, code) and `header_unmarshal`.
- **The TCTI function-table contract**:
  - The `Tss2_Tcti_*` dispatch checks.
  - The fake TCTI of the `Esys_Policy_AC_SendSelect` test. Its table is populated in place, its transmit checks the command code, and its receive always yields a fixed `TPM_RC_YIELDED` response.
- **The mssim TCTI** (Microsoft TPM simulator):
  - The configuration string. `parse_key_value_string` splits it and `mssim_kv_callback` applies each pair, with `string_to_port` reading port numbers.
  - `Tss2_Tcti_Mssim_Init`.
  - The transmit/receive state machine over the simulator's command socket. Receive is two-phase (a size query, then the fill) and drops the simulator's four trailing bytes.

How the source's forms become Dafny:

- **Imperative code becomes imperative Dafny.**
  - Marshalling writes into caller buffers (`array?<byte>`).
  - The TCTI contexts are classes whose methods update their fields.
  - The configuration is a class that the key/value callback mutates.
- **Each method is proved against a specification function.** Examples are `TpmlPcr.MarshalRc`, `TpmlPcr.Parse`, `MssimConfig.ParseConf`, `TctiMssim.TransmitSpec` and `TctiMssim.ReceiveSpec`. Lemmas then prove the round trips, error orders and protocol properties about those functions.
- **NULL pointers** are `Option` values, or `null` for arrays.
- **The simulator socket** is modelled as byte streams:
  - `incoming` holds what the simulator has sent and the TCTI has not yet read.
  - `outgoing` holds what the TCTI has written.

Files:

| file | module | contents |
|---|---|---|
| types.dfy | Tss2Types | byte and integer widths, `TSS2_RC` codes, `Option`/`Result`/`Parsed`, the offset and space-check helpers |
| endian.dfy | Endian | big-endian encoding of n-byte integers and its round trips |
| scalar_mu.dfy | ScalarMu | `Tss2_MU_UINTn_Marshal` / `_Unmarshal` |
| tpml_uint32.dfy | TpmlUint32 | `TPML_HANDLE` and `TPML_INTEL_PTT_PROPERTY` |
| tpml_pcr.dfy | TpmlPcr | `TPMS_PCR_SELECTION` and `TPML_PCR_SELECTION` |
| tpml_digest.dfy | TpmlDigest | size-only marshalling of `TPML_DIGEST` and `TPML_DIGEST_VALUES` |
| tpml_vectors.dfy | TpmlVectors | the byte layouts and return codes the TPML tests expect |
| header.dfy | TpmHeader | the 10-byte TPM header |
| tcti_fake.dfy | TctiFake | TCTI dispatch checks and the fake TCTI |
| kv_parse.dfy | KeyValueParse | tokenising, `parse_key_value`, `string_to_port` |
| mssim_conf.dfy | MssimConfig | `mssim_conf_t`, `mssim_kv_callback`, `parse_key_value_string` |
| mssim.dfy | TctiMssim | `Tss2_Tcti_Mssim_Init`, transmit and receive |

## Model

| member | source | states |
|---|---|---|
| Endian.FromToBE | test/unit/UINT32-marshal.c:122-135 | reading back the n big-endian bytes written for v gives v |
| Endian.ToFromBE | test/unit/UINT32-marshal.c:22-35 | every n-byte string is the encoding of the value it is read as |
| Endian.ToBEInjective | test/unit/UINT32-marshal.c:22-35 | two values with the same encoding are equal |
| Endian.FromBESame | test/unit/UINT32-marshal.c:139-154 | a read depends only on the n bytes at its offset |
| Endian.FromBEOf | test/unit/UINT32-marshal.c:139-154 | bytes that spell the encoding of v are read as v |
| Endian.DeadBeef | test/unit/UINT32-marshal.c:22-35 | 0xdeadbeef is written as de ad be ef and read back |
| Endian.OneByte | test/unit/TPML-marshal.c:46-55 | a UINT8/BYTE value is its own one-byte encoding |
| Endian.ToBE | test/unit/UINT32-marshal.c:22-35 | the big-endian encoding of a value below 256^n is exactly n bytes |
| Endian.FromBE | test/unit/UINT32-marshal.c:122-135 | n bytes read as a value below 256^n, so the result fits the n-byte type |
| ScalarMu.Marshal | test/unit/UINT32-marshal.c:22-118 | NULL buffer and NULL offset is BAD_REFERENCE. NULL buffer with an offset only advances the offset. Otherwise the bytes are written at `*offset` when they fit in `buffer_size`, else INSUFFICIENT_BUFFER with buffer and offset untouched |
| ScalarMu.Unmarshal | test/unit/UINT32-marshal.c:122-216 | NULL buffer, or NULL dest with NULL offset, is BAD_REFERENCE. Bytes past `buffer_size` are INSUFFICIENT_BUFFER with offset and dest untouched. Otherwise dest is the big-endian value and the offset advances by n |
| ScalarMu.MarshalUnmarshal | test/unit/UINT32-marshal.c:22-54 | unmarshalling at the offset Marshal wrote to returns the marshalled value, whatever else the buffer holds |
| ScalarMu.SpliceTwice | test/unit/TPML-marshal.c:75-125 | two writes back to back are one write of the concatenation, which is how the list encodings compose |
| TpmlUint32.Marshal | test/unit/TPML-marshal.c:24-70 | rc follows `MarshalRc`: BAD_REFERENCE, then count space, then capacity (SYS BAD_VALUE), then per-element space. On success the buffer holds `Encode(src)` at the offset and the offset advances by 4 + 4·count. Before the count fits nothing is written |
| TpmlUint32.MarshalRc | test/unit/TPML-marshal.c:186-275 | success exactly when a buffer or an offset is given, the count is within capacity, and the count (without a buffer) or the whole list (with one) fits. Every other result is BAD_REFERENCE, INSUFFICIENT_BUFFER or SYS BAD_VALUE |
| TpmlUint32.Encode | test/unit/TPML-marshal.c:24-70 | the wire form of a list is 4 + 4·count bytes: the count and the live elements only |
| TpmlUint32.EncodeCount | test/unit/TPML-marshal.c:24-70 | the first four bytes of the wire form read back as the count |
| TpmlUint32.Parse | test/unit/TPML-marshal.c:280-475 | a parsed list ends inside the buffer, 4 + 4·count bytes after the offset, with the count within capacity and a full-capacity item array |
| TpmlUint32.MarshalItems | test/unit/TPML-marshal.c:24-70 | the element loop writes exactly the elements' encoding when they fit, or reports INSUFFICIENT_BUFFER |
| TpmlUint32.Unmarshal | test/unit/TPML-marshal.c:280-436 | the BAD_REFERENCE rule, the count space check and the capacity check (SYS MALFORMED_RESPONSE) come first. On success dest is `Parse`'s zero-padded list and the offset advances past it. Errors leave the offset untouched |
| TpmlUint32.UnmarshalItems | test/unit/TPML-marshal.c:368-400 | the element loop reads the decoded elements when a destination is wanted and only checks space when dest is NULL |
| TpmlUint32.DecodeEncodeItems | test/unit/TPML-marshal.c:280-301 | decoding encoded elements returns them |
| TpmlUint32.EncodeDecodeItems | test/unit/TPML-marshal.c:478-511 | re-encoding decoded elements reproduces their bytes |
| TpmlUint32.ParseEncode | test/unit/TPML-marshal.c:280-301 | unmarshalling what Marshal wrote returns the list, zero-padded, and consumes exactly its encoding |
| TpmlUint32.EncodeParse | test/unit/TPML-marshal.c:478-511 | re-marshalling an unmarshalled list reproduces its source bytes exactly |
| TpmlPcr.ParseSel | test/unit/TPML-marshal.c:280-327 | an element parses to a valid selection ending inside the buffer, or fails with INSUFFICIENT_BUFFER or BAD_SIZE |
| TpmlPcr.ParseSels | test/unit/TPML-marshal.c:280-327 | k elements parse back to back to k valid selections within the buffer |
| TpmlPcr.Parse | test/unit/TPML-marshal.c:280-327 | a parsed list has count at most TPM2_NUM_PCR_BANKS and a full-size selection array, and ends inside the buffer |
| TpmlPcr.Encode | test/unit/TPML-marshal.c:24-70 | the wire form is 4 bytes longer than the live elements' encodings |
| TpmlPcr.EncodeCount | test/unit/TPML-marshal.c:24-70 | the first four bytes of the wire form read back as the count |
| TpmlPcr.MarshalRc | test/unit/TPML-marshal.c:186-275 | success only with a buffer or an offset, a count within TPM2_NUM_PCR_BANKS, valid live elements and, with a buffer, room for the whole encoding. Every other result is BAD_REFERENCE, INSUFFICIENT_BUFFER, SYS BAD_VALUE or BAD_SIZE |
| TpmlPcr.SelRc | test/unit/TPML-marshal.c:207-241 | an element that marshals has a sizeofSelect within its bitmap array |
| TpmlPcr.SelsRc | test/unit/TPML-marshal.c:207-241 | when every element marshals, every element is valid and, with a buffer, the encodings fit after the start offset. The only errors are BAD_SIZE and INSUFFICIENT_BUFFER |
| TpmlPcr.ParseSelEncode | test/unit/TPML-marshal.c:280-327 | an encoded element parses back to itself with its unused bitmap bytes zeroed |
| TpmlPcr.EncodeParseSel | test/unit/TPML-marshal.c:280-327 | re-encoding a parsed element reproduces its bytes |
| TpmlPcr.ParseSelsEncode | test/unit/TPML-marshal.c:280-327 | encoded elements parse back to their zero-padded forms and consume exactly their encoding |
| TpmlPcr.EncodeParseSels | test/unit/TPML-marshal.c:280-327 | re-encoding parsed elements reproduces their bytes |
| TpmlPcr.ParseEncode | test/unit/TPML-marshal.c:75-125 | unmarshalling what the list marshaller wrote returns the list, zero-padded, and consumes exactly its encoding |
| TpmlPcr.EncodeParse | test/unit/TPML-marshal.c:280-327 | re-marshalling an unmarshalled list reproduces its source bytes exactly |
| TpmlPcr.EncodeCounted | test/unit/TPML-marshal.c:280-327 | a count followed by encoded elements is the encoding of the list they make |
| TpmlPcr.ParseSelsErrors | test/unit/TPML-marshal.c:405-436 | element parsing fails only with INSUFFICIENT_BUFFER or BAD_SIZE |
| TpmlPcr.ParseSelsPrefix | test/unit/TPML-marshal.c:405-436 | once a prefix of the elements fails, the longer list fails with the same error |
| TpmlPcr.SelsRcPrefix | test/unit/TPML-marshal.c:207-241 | once a prefix of the elements fails to marshal, the whole list fails with that error |
| TpmlPcr.SelsSnoc | test/unit/TPML-marshal.c:207-241 | the next element is marshalled right after the ones before, and its error is the list's |
| TpmlPcr.ParseSelsStep | test/unit/TPML-marshal.c:405-436 | the next element is parsed right after the ones before, and its error is the list's |
| TpmlPcr.MarshalBytes | test/unit/TPML-marshal.c:24-70 | the bitmap loop writes exactly the selected bytes when they fit, else INSUFFICIENT_BUFFER without writing outside the element's range |
| TpmlPcr.MarshalSel | test/unit/TPML-marshal.c:24-70 | rc follows `SelRc`. On success the buffer holds the element's encoding at the offset |
| TpmlPcr.MarshalSels | test/unit/TPML-marshal.c:24-70 | rc follows `SelsRc`. On success the buffer holds the elements' encodings back to back |
| TpmlPcr.Marshal | test/unit/TPML-marshal.c:24-241 | rc follows `MarshalRc`: BAD_REFERENCE, then count space, then capacity (SYS BAD_VALUE), then the elements. On success the buffer holds `Encode(src)` at the offset and the offset advances by its length. Errors leave the offset untouched |
| TpmlPcr.UnmarshalBytes | test/unit/TPML-marshal.c:280-327 | the bitmap loop reads the selected bytes when they fit |
| TpmlPcr.UnmarshalSel | test/unit/TPML-marshal.c:280-327 | rc and the element follow `ParseSel` |
| TpmlPcr.UnmarshalSels | test/unit/TPML-marshal.c:280-327 | rc and the elements follow `ParseSels` |
| TpmlPcr.Unmarshal | test/unit/TPML-marshal.c:280-475 | the BAD_REFERENCE rule comes first. Then rc, dest and the new offset follow `Parse`, with a count above TPM2_NUM_PCR_BANKS being SYS MALFORMED_RESPONSE. Errors leave the offset untouched |
| TpmlDigest.DigestsSizeAppend | test/unit/TPML-marshal.c:164-171 | the wire size of a digest list is the sum of the sizes of its parts |
| TpmlDigest.ValuesSizeAppend | test/unit/TPML-marshal.c:173-180 | the wire size of a digest-value list is the sum of the sizes of its parts |
| TpmlDigest.ValuesSizeBounds | test/unit/TPML-marshal.c:173-180 | each TPMT_HA takes between 22 (SHA-1) and 66 (SHA-512) bytes |
| TpmlDigest.DigestsSize | test/unit/TPML-marshal.c:164-171 | each digest takes at least its 2 size bytes, and only an empty list takes none |
| TpmlDigest.ValuesSize | test/unit/TPML-marshal.c:173-180 | each value takes at least its 2 hashAlg bytes, and only an empty list takes none |
| TpmlDigest.MarshalDigestsSizeOnly | test/unit/TPML-marshal.c:164-171 | without a buffer, the list checks apply and the offset advances by 4 plus each digest's 2 + size bytes |
| TpmlDigest.MarshalValuesSizeOnly | test/unit/TPML-marshal.c:173-180 | without a buffer, the list checks apply and the offset advances by 4 plus each value's 2 + digest-size bytes |
| TpmlDigest.SizeOnlyVectors | test/unit/TPML-marshal.c:130-181 | a SHA-1 and a SHA-512 digest as the two live entries, marshalled from offset 99 without a buffer, end at 99 + 4 + 2·2 + 20 + 64, whatever the unused entries hold |
| TpmlVectors.HandleLayout | test/unit/TPML-marshal.c:34-44 | TPML_HANDLE {2, 0x81000001, 0x81000002} is the 12 bytes the test expects |
| TpmlVectors.TestSelsLive | test/unit/TPML-marshal.c:46-55 | the test's selection list has the SHA-1 and SHA-256 selections as its live elements, and both are valid |
| TpmlVectors.SelLayout | test/unit/TPML-marshal.c:46-69 | the test's selection list is the 15 bytes the test expects |
| TpmlVectors.SelsRcTwo | test/unit/TPML-marshal.c:207-241 | where each of the two test selections runs out of space, for any buffer and start offset |
| TpmlVectors.HandleMarshalCases | test/unit/TPML-marshal.c:75-275 | the TPML_HANDLE marshal cases: success at offset 10, size-only from 99, NULL/NULL, 12 bytes too small from 10, count TPM2_MAX_CAP_HANDLES + 2 |
| TpmlVectors.SelMarshalCases | test/unit/TPML-marshal.c:75-275 | the TPML_PCR_SELECTION marshal cases: success at 22, size-only from 111, NULL/NULL, 14 bytes from 2 too small, count TPM2_NUM_PCR_BANKS + 2 |
| TpmlVectors.HandleUnmarshalSuccess | test/unit/TPML-marshal.c:280-301 | the handle bytes unmarshal to count 2 and both handles, and the offset becomes 12 |
| TpmlVectors.SelUnmarshalSuccess | test/unit/TPML-marshal.c:303-326 | the selection bytes at 12 unmarshal to both selections, and the offset becomes 27 |
| TpmlVectors.HandleUnmarshalTooSmall | test/unit/TPML-marshal.c:405-420 | a 12-byte buffer from offset 2 is INSUFFICIENT_BUFFER for the handle list |
| TpmlVectors.SelUnmarshalTooSmall | test/unit/TPML-marshal.c:422-435 | 15 bytes from offset 2 are INSUFFICIENT_BUFFER for the selection list |
| TpmlVectors.UnmarshalInvalidCount | test/unit/TPML-marshal.c:441-475 | a count of 256 is SYS MALFORMED_RESPONSE for both lists |
| TpmlVectors.PttUnmarshal | test/unit/TPML-marshal.c:478-499 | the 8 PTT bytes unmarshal to count 1 and property 3, consuming all 8 |
| TpmlVectors.PttRemarshal | test/unit/TPML-marshal.c:501-510 | marshalling the unmarshalled PTT list writes back the same 8 bytes, and the offset becomes 8 |
| TpmHeader.Encode | test/unit/esys-policy-ac-sendselect.c:68-82 | a header is 10 bytes on the wire |
| TpmHeader.Parse | test/unit/esys-policy-ac-sendselect.c:48-66 | only a NULL buffer is an error, MU BAD_REFERENCE from the first field read. A buffer of 10 or more bytes always parses |
| TpmHeader.ParseEncode | test/unit/esys-policy-ac-sendselect.c:48-66 | parsing an encoded header returns it, whatever payload follows |
| TpmHeader.EncodeParse | test/unit/esys-policy-ac-sendselect.c:48-66 | re-encoding a parsed header reproduces the first 10 bytes |
| TpmHeader.ParseHeaderOnly | test/unit/esys-policy-ac-sendselect.c:48-66 | the payload does not affect the parsed header |
| TctiFake.DispatchCheck | test/unit/esys-policy-ac-sendselect.c:117-131 | an entry is called exactly when the context is given, the version is at least 1 and the entry is present |
| TctiFake.FakeContext.Initialize | test/unit/esys-policy-ac-sendselect.c:90-115 | the context is zeroed and then populated: magic, version, transmit/receive/finalize set, the rest NULL |
| TctiFake.InitializeSize | test/unit/esys-policy-ac-sendselect.c:90-115 | a NULL context with a NULL size is BAD_VALUE. A NULL context alone reports `fakeSize`, the platform's size of the fake context |
| TctiFake.Transmit | test/unit/esys-policy-ac-sendselect.c:48-66 | a NULL command is the header parser's MU BAD_REFERENCE. A command succeeds exactly when its code is TPM2_CC_Policy_AC_SendSelect, and otherwise fails the test's assertion |
| TctiFake.TransmitAccepts | test/unit/esys-policy-ac-sendselect.c:48-66 | for any header and payload, the command is accepted exactly for the AC_SendSelect code |
| TctiFake.Receive | test/unit/esys-policy-ac-sendselect.c:68-82 | the size is always 10, and the fixed response is copied to the buffer's front only when a buffer is given |
| TctiFake.PopulatedDispatch | test/unit/esys-policy-ac-sendselect.c:117-131 | through a populated table, transmit, receive and finalize dispatch, and cancel, poll handles and locality are NOT_IMPLEMENTED |
| TctiFake.Finalize | test/unit/esys-policy-ac-sendselect.c:84-88 | finalize changes nothing |
| TctiFake.YieldedIsHeader | test/unit/esys-policy-ac-sendselect.c:68-82 | the fixed response is a NO_SESSIONS header of size 10 with code 0 |
| KeyValueParse.RunLength | test/unit/tcti-mssim.c:50-65 | the run stops at the first delimiter and contains none |
| KeyValueParse.Tokens | test/unit/tcti-mssim.c:50-65 | every token is non-empty and free of the delimiter |
| KeyValueParse.TokensJoin | test/unit/tcti-mssim.c:50-65 | splitting delimiter-joined tokens gives the tokens back |
| KeyValueParse.ParseKeyValue | test/unit/tcti-mssim.c:50-65 | fewer than two '='-tokens is rejected. Otherwise the key and value are non-empty and free of '=' |
| KeyValueParse.ParseKeyValueJoin | test/unit/tcti-mssim.c:50-65 | "key=value" parses to exactly that pair |
| KeyValueParse.DigitRun | test/unit/tcti-mssim.c:141-161 | the run is the maximal prefix of decimal digits |
| KeyValueParse.DecimalString | test/unit/tcti-mssim.c:141-161 | a decimal rendering is a non-empty string of digits |
| KeyValueParse.DecimalRoundTrip | test/unit/tcti-mssim.c:141-161 | reading a rendered number back gives it |
| KeyValueParse.StringToPort | test/unit/tcti-mssim.c:141-161 | a non-zero port is the value of the leading digits |
| KeyValueParse.StringToPortDecimal | test/unit/tcti-mssim.c:141-161 | every port 1..65535 in decimal reads back as itself, and anything above 65535 reads as 0 |
| KeyValueParse.DigitRunAll | test/unit/tcti-mssim.c:141-161 | an all-digit string is its own digit run |
| MssimConfig.KvApply | test/unit/tcti-mssim.c:32-33 | rc is SUCCESS or BAD_VALUE, and BAD_VALUE exactly for a rejected pair. An accepted port is non-zero. An accepted host or path leaves only one endpoint kind set |
| MssimConfig.ParseConf | test/unit/tcti-mssim.c:50-65 | a NULL string is BAD_VALUE and changes nothing. An empty string is SUCCESS and changes nothing |
| MssimConfig.ApplyAll | test/unit/tcti-mssim.c:50-183 | rc is SUCCESS or BAD_VALUE, and SUCCESS exactly when every token is a key=value pair the callback accepts |
| MssimConfig.ApplyPairs | test/unit/tcti-mssim.c:50-183 | applying pairs ends in SUCCESS or BAD_VALUE |
| MssimConfig.MssimConf.constructor | test/unit/tcti-mssim.c:50-58 | the configuration holds the given host, port and path |
| MssimConfig.MssimConf.KvCallback | test/unit/tcti-mssim.c:32-33 | rc and the new configuration are `KvApply` of the old one |
| MssimConfig.ParseKeyValueString | test/unit/tcti-mssim.c:50-183 | rc and the new configuration are `ParseConf` of the old one and the string |
| MssimConfig.PairStrings | test/unit/tcti-mssim.c:50-65 | each pair becomes one "key=value" string, in order |
| MssimConfig.ApplyAllPairs | test/unit/tcti-mssim.c:50-65 | applying the tokens of written pairs applies the pairs |
| MssimConfig.ParseConfString | test/unit/tcti-mssim.c:50-183 | parsing a configuration string written from pairs applies exactly those pairs, in order |
| MssimConfig.LastWith | test/unit/tcti-mssim.c:73-90 | the last pair with one of the keys, when there is one, is one of the pairs |
| MssimConfig.ApplyPairsRc | test/unit/tcti-mssim.c:141-161 | a configuration fails exactly when one of its pairs is rejected, always with BAD_VALUE |
| MssimConfig.ApplyPairsEndpoint | test/unit/tcti-mssim.c:36-40 | after success the endpoint is the last host or path given. A host clears the path and a path clears the host. With neither, the endpoint is unchanged |
| MssimConfig.ApplyPairsPort | test/unit/tcti-mssim.c:73-90 | after success the port is the last one given, in 1..65535. Without a port pair the port is unchanged |
| MssimConfig.OnePair | test/unit/tcti-mssim.c:169-183 | a one-pair string applies just that pair |
| MssimConfig.HostThenPort | test/unit/tcti-mssim.c:50-65 | "host=H,port=P" sets host H, clears the path and sets port P, or is BAD_VALUE with port 0 stored |
| MssimConfig.ConfStringTwo | test/unit/tcti-mssim.c:50-65 | two pairs are written as "k0=v0,k1=v1" |
| MssimConfig.HostPortString | test/unit/tcti-mssim.c:54 | the success test's string is written from its two pairs |
| MssimConfig.Ipv6PortString | test/unit/tcti-mssim.c:98-113 | the IPv6 test's string is written from its two pairs |
| MssimConfig.LargePortString | test/unit/tcti-mssim.c:141-150 | the large-port test's string is written from its two pairs |
| MssimConfig.ZeroPortString | test/unit/tcti-mssim.c:152-161 | the zero-port test's string is written from its two pairs |
| MssimConfig.OnePairStrings | test/unit/tcti-mssim.c:73-183 | the no-port and path tests' strings are written from their one pair |
| MssimConfig.TestPort | test/unit/tcti-mssim.c:50-65 | "2321" is read as 2321 |
| MssimConfig.TestBadPorts | test/unit/tcti-mssim.c:141-161 | "99999" and "0" are read as 0 |
| MssimConfig.TestHostsWritable | test/unit/tcti-mssim.c:50-136 | the test hosts can be written as pairs |
| MssimConfig.TestPortsWritable | test/unit/tcti-mssim.c:50-161 | the test ports can be written as pairs |
| MssimConfig.HostPortVectors | test/unit/tcti-mssim.c:50-113 | host=127.0.0.1 or ::1 with port=2321 is SUCCESS with that host, port 2321 and no path |
| MssimConfig.BadPortVectors | test/unit/tcti-mssim.c:141-161 | port=99999 and port=0 are BAD_VALUE |
| MssimConfig.HostOnlyVectors | test/unit/tcti-mssim.c:73-136 | a host alone sets the host, clears the path and keeps the port |
| MssimConfig.PathVector | test/unit/tcti-mssim.c:169-183 | path=/some/path sets the path, clears the host and keeps the port |
| TctiMssim.Initialized | test/unit/tcti-mssim.c:265-299 | a freshly initialized context is in TRANSMIT with no response size pending |
| TctiMssim.InitConf | test/unit/tcti-mssim.c:265-299 | no configuration uses the defaults. Otherwise the string is applied to the defaults |
| TctiMssim.SimFrame | test/unit/tcti-mssim.c:540-561 | a command frame is 9 bytes longer than the command |
| TctiMssim.SimFrameFields | test/unit/tcti-mssim.c:540-561 | a frame is the send code 8, the locality, the command length and the command |
| TctiMssim.TransmitSpec | test/unit/tcti-mssim.c:540-561 | success exactly when the magic is mssim's, the state is TRANSMIT, a command is given and its header size equals `size`. Failure leaves the link unchanged. Success moves to RECEIVE with 9 + size bytes sent |
| TctiMssim.ReceiveSpec | test/unit/tcti-mssim.c:364-536 | no more bytes are delivered than the size allows, none without a buffer, and success always reports a size |
| TctiMssim.WithSize | test/unit/tcti-mssim.c:388-472 | a size read by an earlier call is kept. Otherwise the four bytes taken from the stream are the BE32 encoding of the size read. Nothing else changes |
| TctiMssim.Reset | test/unit/tcti-mssim.c:479-536 | the context is back in TRANSMIT with no size pending and the given rest of the stream, keeping its magic, locality and what was sent |
| TctiMssim.CopyPrefix | test/unit/tcti-mssim.c:387-426 | the first count bytes of the stream go to the front of the buffer and the rest of the buffer is kept |
| TctiMssim.MssimContext.Transmit | test/unit/tcti-mssim.c:540-561 | rc and the new context state are `TransmitSpec` of the old one |
| TctiMssim.MssimContext.Receive | test/unit/tcti-mssim.c:364-536 | rc, the reported size and the new context state are `ReceiveSpec`'s. The buffer's front holds the delivered bytes |
| TctiMssim.Init | test/unit/tcti-mssim.c:186-208 | a NULL size is BAD_VALUE. A NULL context reports the context size. Otherwise rc is the configuration's, success initializes the context for that endpoint, and failure leaves it untouched |
| TctiMssim.InitNullConf | test/unit/tcti-mssim.c:323-329 | with no configuration the endpoint is localhost:2321 |
| TctiMssim.ReceiveChecks | test/unit/tcti-mssim.c:364-383 | wrong magic is BAD_CONTEXT, out of turn is BAD_SEQUENCE, and a NULL size is BAD_REFERENCE, with nothing touched |
| TctiMssim.ReceiveResponse | test/unit/tcti-mssim.c:387-426 | a full response is delivered exactly, without the four trailing bytes, and the context is ready to transmit again |
| TctiMssim.ReceiveTwoPhase | test/unit/tcti-mssim.c:430-472 | a size query reports the response size and keeps waiting, and the following fill behaves as a single receive |
| TctiMssim.ReceiveRetry | test/unit/tcti-mssim.c:430-472 | a small buffer is INSUFFICIENT_BUFFER with the needed size, and a retry then behaves as a single receive |
| TctiMssim.ReceiveEof | test/unit/tcti-mssim.c:478-536 | a stream that ends before the size or before the response is IO_ERROR, and the context is reset to TRANSMIT |
| TctiMssim.TransmitThenReceive | test/unit/tcti-mssim.c:540-561 | a fresh context refuses to receive, accepts a matching command, and then waits with its frame sent |
| TctiMssim.TransmitSizeMismatch | test/unit/tcti-mssim.c:540-561 | a header size that disagrees with `size` is BAD_VALUE and nothing is sent |
| TctiMssim.Exchange | test/unit/tcti-mssim.c:387-472 | transmit, size query and fill deliver the response exactly and leave the context ready with the rest of the stream |
| TctiMssim.ReceiveVectors | test/unit/tcti-mssim.c:387-472 | the tests' 12-byte response comes back exactly, from one call or from a size query and a fill |
| TctiMssim.TransmitVector | test/unit/tcti-mssim.c:540-561 | the test's 12-byte command is accepted and sent as 4 + 1 + 4 + 12 bytes |
| TctiMssim.SetupPort | test/unit/tcti-mssim.c:304-311 | "666" is read as 666 |
| TctiMssim.SetupPairsWritable | test/unit/tcti-mssim.c:304-311 | the setup pairs can be written as a string |
| TctiMssim.SetupTcpConf | test/unit/tcti-mssim.c:304-311 | "host=127.0.0.1,port=666" configures TCP 127.0.0.1:666 with no path |
| TctiMssim.UnixPathWritable | test/unit/tcti-mssim.c:314-321 | the unix-socket setup pair can be written as a string |
| TctiMssim.SetupUnixConf | test/unit/tcti-mssim.c:314-321 | "path=/notarealdirectory/notarealfile" configures that socket path, with no host and the default port |

## Left out

**Not part of this model:**

- The library sources. `src/tss2-mu`, `src/tss2-tcti/tcti-mssim.c`, `src/util/key-value-parse.c` and `src/util/io.c` are not part of this model.
  - The behaviour modelled is what the unit tests require of them.
  - Where the tests are silent, the model follows the upstream library's behaviour: the order of the TPML checks, TSS2_MU_RC_BAD_SIZE for an oversized `sizeofSelect`, the PTT capacity of 256, the simulator send code 8, the default locality 3, and the receive path resetting the context when a response completes or the stream fails. Also from upstream: `header_unmarshal` reads through the MU unmarshallers, so a NULL buffer is TSS2_MU_RC_BAD_REFERENCE. `parse_key_value_string` answers a NULL string with TSS2_TCTI_RC_BAD_VALUE. The `Tss2_Tcti_*` macros check the context, then the table version, then the entry.
- Socket I/O: connect, read, write and poll, and their failure codes. The command socket is the `incoming`/`outgoing` byte sequences, so no read ever returns fewer bytes than are available.
  - The receive timeout is accepted and ignored.
  - Write errors in transmit are not modelled.
  - The platform socket and the power-on / NV-on handshake that `Tss2_Tcti_Mssim_Init` sends over it are not modelled. `Init` starts from a connected simulator.
- `sizeof(TSS2_TCTI_MSSIM_CONTEXT)` and `sizeof(TSS2_TCTI_CONTEXT_FAKE)` depend on the platform, so they are parameters of `TctiMssim.Init` and `TctiFake.InitializeSize`.
- The length limit on configuration strings in `Tss2_Tcti_Mssim_Init` is not modelled.
- NULL pointers to things the model passes by value: `src == NULL` in the TPML marshallers (TSS2_MU_RC_BAD_REFERENCE), and a NULL key/value or user_data in `mssim_kv_callback` (TSS2_TCTI_RC_GENERAL_FAILURE). The list, the pair and the configuration object are values or objects here, so they cannot be NULL.
- mssim finalize, cancel, get-poll-handles and set-locality. These are not exercised beyond the socket descriptor that `tcti_mssim_get_poll_handles_test` inspects, and that descriptor is I/O.
- KeyValueParse.StringToPort: leading whitespace and a sign are not modelled. sscanf "%u" accepts them. A digit run above 2^32 also wraps in C, where the model compares the exact value.
- TpmlUint32.Unmarshal: when an element fails after the count was read, the partially filled destination is left unspecified.
- TpmlPcr.Unmarshal: when an element fails after the count was read, the partially filled destination is left unspecified.
- TpmlUint32.Marshal: when an element does not fit, the contract says only that nothing outside the list's range changed. It does not say which elements were written before the failure.
- TpmlUint32.MarshalItems: when an element does not fit, the contract says only that nothing outside the elements' range changed.
- TpmlPcr.Marshal: when an element does not fit, the contract says only that nothing outside the list's range changed.
- TpmlPcr.MarshalSels: when an element does not fit, the contract says only that nothing outside the elements' range changed.
- TpmlPcr.MarshalBytes: when a byte does not fit, the contract says only that nothing outside the bitmap's range changed.
- TpmlPcr.MarshalSel: when a field does not fit, the contract says only that nothing outside the element's range changed.
- TpmlDigest.MarshalDigestsSizeOnly: only the size-only path is modelled. The digest bytes (TPM2B_DIGEST contents) are not.
- TpmlDigest.MarshalValuesSizeOnly: only the size-only path is modelled, and only for SHA-1 (20 bytes) and SHA-512 (64 bytes) digests in the live entries (those below `count`). Entries past `count` are never read and may hold anything. The digest bytes (TPMU_HA contents) and other hash algorithms are not.
- TctiFake.Transmit: a command code other than TPM2_CC_Policy_AC_SendSelect fails a cmocka assertion. The model returns `AssertionFailure` instead of ending the test.
- The Esys command layer that drives the fake TCTI, `Esys_Policy_AC_SendSelect` itself, the FAPI policy export and the FAPI integration test. These are callers of the modelled core.
- Memory ownership (calloc/free of contexts and configuration strings) is not modelled.
- Two model decisions about the header and dispatch:
  - `header_unmarshal` is given no buffer length and reads the first 10 bytes. `TpmHeader.Parse` therefore requires a buffer of at least 10 bytes, and fails only on a NULL buffer.
  - The `Tss2_Tcti_*` entry points check only the context pointer, the table version and the entry (`TctiFake.DispatchCheck`). The magic is checked inside each implementation (`TransmitSpec`, `ReceiveSpec`).
