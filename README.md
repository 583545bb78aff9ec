# LC29H sentence protocol and driver, in Dafny

This project models the C driver for the Quectel LC29H GNSS module. The model
covers the driver's NMEA-style sentence protocol and the driver object that
uses it to configure the module. A sentence reads `$<id>,<field>,...*<HH><CR><LF>`.
`HH` is the XOR of every byte between the `$` and the `*`, written as two
upper-case hexadecimal digits.

The driver builds `$PAIR...` command packets and writes them over a
caller-supplied transport. It reads back the `$PAIR001,<id>,<status>`
acknowledgement and parses it. For a query, it also reads the reply sentence
and splits its comma-separated fields into integers. It then updates the
setting it keeps in its own state. The DR/RTK `$PQTM` exchanges work the same
way, except that they wait for the fixed `$PQTMCFGEINSMSGOK` reply.

Modules:

- `CLib`: the parts of the C library the driver depends on, modelled exactly:
  - `strlen`, and C strings viewed inside zeroed buffers;
  - `strchr`, `strncmp` and `strcmp`;
  - `atoi` as `strtol` in base 10, clamped to `long` and then truncated to `int`;
  - `strtol` in base 16;
  - `%02X`;
  - the truncating casts to `uint8_t`, `uint16_t` and `uint32_t`.
- `Protocol`: the header's constants, identifiers and enumerations.
- `Sentence`: the checksum (`lc29_driver_get_checksum`), the validator
  (`lc29_driver_validate_string`), packet building (`lc29_driver_build_pair_cmd`)
  and the `$PQTM` acknowledgement check.
- `Parse`: cropping, the comma splitter, `strtok`, acknowledgement parsing and
  query-reply parsing. These are methods over `array<char>` buffers, each
  proved against a function on strings.
- `Transport`: the `write`/`read` callbacks, as a scripted transport object.
  Each read copies the next scripted reply into the caller's buffer with
  `strcpy` semantics. Each write is logged.
- `Exchange`: the command exchange (build, write, read the acknowledgement,
  parse it) and the query exchange (also read and parse the reply). Each is a
  pure function over the transport's state, alongside the methods that carry
  it out on real buffers.
- `Driver`: the driver class `Lc29Driver`. It holds every field of
  `struct qc_lc29_driver_s`. Its constructor is `lc29_driver_init`. It has
  one method per `lc29_driver_set_*` / `lc29_driver_get_*` function.
- `Scenarios`: the exchanges in the repository's unit tests, each proved
  from the generic lemmas.

## Model

| member | source | states |
|---|---|---|
| CLib.IndexOf | src/qc_lc29_driver.c:298 | `strchr`: the position of the first occurrence of the character, or the string's length when it does not occur; no earlier byte matches |
| CLib.StrLen | src/qc_lc29_driver.c:167 | `strlen` of a buffer: the bytes before the result are non-NUL and the byte at the result is NUL (when inside the buffer) |
| CLib.CStr | src/qc_lc29_driver.c:167 | the C string a buffer holds has no NUL and is no longer than the buffer |
| CLib.PaddedHoldsString | src/qc_lc29_driver.c:2474-2476 | a string of fewer bytes than a zero-initialised buffer is read back unchanged from that buffer, which remains a C buffer |
| CLib.CStrOfNoNul | src/qc_lc29_driver.c:448 | a NUL-free string is its own C string |
| CLib.CBufferReads | src/qc_lc29_driver.c:281-282 | reading byte `i` of a zero-padded buffer is reading byte `i` of its C string, with NUL past the end |
| CLib.ClampLong | src/qc_lc29_driver.c:317 | `strtol` saturates at `LONG_MIN`/`LONG_MAX` and leaves in-range values alone |
| CLib.ToInt32 | src/qc_lc29_driver.c:317 | the `long` to `int` conversion inside `atoi` keeps every `int` value |
| CLib.ToU8 | includes/qc_lc29_driver_internal.h:20 | assignment to a `uint8_t` field keeps values below 256 |
| CLib.ToU16 | includes/qc_lc29_driver_internal.h:9 | assignment to a `uint16_t` field keeps values below 65536 |
| CLib.ToU32 | includes/qc_lc29_driver_internal.h:26 | assignment to a `uint32_t` field keeps values below 2^32 |
| CLib.StrnEqualBytewise | src/qc_lc29_driver.c:263 | `strncmp(a, b, n) == 0` exactly when the first `n` bytes agree, reading NUL past each end |
| CLib.HexDigit | src/qc_lc29_driver.c:379 | an upper-case hex digit whose value is the nibble and which `strtol` does not skip as a sign, space or prefix |
| CLib.HexByte | src/qc_lc29_driver.c:379 | `%02X` gives exactly two NUL-free characters |
| CLib.NatDigitsValue | src/qc_lc29_driver.c:317 | the decimal digits of `n` have the value `n` |
| CLib.StrtolOfDigits | src/qc_lc29_driver.c:317 | `strtol` of a digit run followed by a non-digit is the value of the run |
| CLib.StrtolOfDecimal | src/qc_lc29_driver.c:317 | `strtol` inverts decimal formatting of any integer, whatever non-digit follows |
| CLib.AtoiOfDecimal | src/qc_lc29_driver.c:317 | `atoi` inverts decimal formatting of every `int` |
| CLib.Strtol16OfHexByte | src/qc_lc29_driver.c:285 | parsing the two `%02X` digits in base 16 yields the byte they were printed from |
| CLib.AtoiOfNonNumeric | src/qc_lc29_driver.c:191 | `atoi` of text that starts with no sign, space or digit is 0 |
| CLib.Strtol16OfTwoDigits | src/qc_lc29_driver.c:280-285 | the base-16 conversion of any two declared checksum digits, each upper- or lower-case, is 16 times the first digit's value plus the second's |
| Protocol.ResponseError.Code | includes/qc_lc29_driver.h:227-235 | the validator's enumeration codes 0 to 6, with 0 exactly for `VALID_RESPONSE` |
| Protocol.PairIdentifiers | includes/qc_lc29_driver.h:15-57 | the 26 packet identifiers the driver uses |
| Protocol.PairIdentifiersAreEightBytes | includes/qc_lc29_driver.h:15-57 | every `$PAIRnnn` identifier fills exactly the eight bytes the validator compares |
| Protocol.CustomMessageIdentifiersShareCompareWindow | includes/qc_lc29_driver.h:102-103 | `$PAIR6010` and `$PAIR6011` are different but agree on their first eight bytes |
| Protocol.DrResponseOkLength | includes/qc_lc29_driver.h:88-100 | the OK reply is the configuration header followed by `OK`, and it has the fixed length 17 |
| Sentence.ChecksumEnd | src/qc_lc29_driver.c:343 | the checksum loop stops at the first `*`, CR or NUL and at nothing before it |
| Sentence.GetChecksum | src/qc_lc29_driver.c:338-349 | the loop computes the XOR of the bytes after `$` up to the first `*`, CR or end |
| Sentence.XorBytesAppend | src/qc_lc29_driver.c:344 | the XOR of a concatenation is the XOR of the XORs of its two parts |
| Sentence.ChecksumOfFrame | src/qc_lc29_driver.c:338-349 | the checksum of `$` + body + tail is the XOR of the body when the body has no stop byte and the tail starts with one |
| Sentence.ChecksumIgnoresTail | src/qc_lc29_driver.c:343 | bytes after the first stop byte never affect the checksum |
| Sentence.ResponseHasChecksum | src/qc_lc29_driver.c:331-336 | 0 exactly when byte `length - 5` is `*`, otherwise `LC_RESPONSE_NO_CHECKSUM` |
| Sentence.ValidateString | src/qc_lc29_driver.c:244-292 | valid if and only if the sentence is framed (length at least 9, starts with `$`, the text from four bytes before the end is not exactly CR LF, the first eight bytes match, `*` five from the end) and, when the flag is 1, the declared checksum equals the computed one; each error code is returned exactly when the checks before it pass and its own check fails: `INVALID_LENGTH` below 9 bytes, `INVALID_START_CHAR` without `$`, `INVALID_R_N` on a bare CR LF, `INVALID_IDENTIFIER` when the first eight bytes differ, `NO_CHECKSUM` when byte `length - 5` is not `*`, `INVALID_CHECKSUM` on a mismatch under flag 1 |
| Sentence.TerminatorCheckNeverRejectsAtStrlen | src/qc_lc29_driver.c:257-260 | with `length == strlen`, the CR LF check never fires: the last four bytes are never just CR LF |
| Sentence.TerminatorCheckRejectsOnlyBareCrLf | src/qc_lc29_driver.c:257-260 | `LC_RESPONSE_INVALID_R_N` exactly when the C string from `length - 4` is "\r\n", for instance when `length` exceeds the string by two |
| Sentence.IdentifierComparesEightBytes | src/qc_lc29_driver.c:263 | two identifiers that agree on eight bytes cannot be told apart by the validator |
| Sentence.CustomMessageIdentifiersIndistinguishable | src/qc_lc29_driver.c:263 | a reply validates against `$PAIR6010` if and only if it validates against `$PAIR6011` |
| Sentence.ChecksumFlagMustBeOne | src/qc_lc29_driver.c:276 | any flag other than 1 skips the checksum comparison and never yields `LC_RESPONSE_INVALID_CHECKSUM` |
| Sentence.WrongChecksumRejected | src/qc_lc29_driver.c:276-289 | a framed sentence whose declared checksum differs from the computed one is rejected with `LC_RESPONSE_INVALID_CHECKSUM` |
| Sentence.BuildPairCmd | src/qc_lc29_driver.c:358-386 | appends the id, `,arg` for each argument and `*`, then the checksum in `%02X` and CR LF; it returns the validator's verdict on the packet, with the checksum byte passed as the flag |
| Sentence.PairCommand | src/qc_lc29_driver.c:358-386 | a packet is four bytes longer than its checksummed part |
| Sentence.ChecksumOfWithChecksum | src/qc_lc29_driver.c:378-381 | appending the checksum digits and CR LF after the `*` leaves the checksum unchanged |
| Sentence.BuiltCommandValidates | src/qc_lc29_driver.c:358-386 | every built packet with a `$` identifier of eight or more bytes and NUL-free arguments passes full validation with its checksum checked |
| Sentence.BuildSelfCheckValid | src/qc_lc29_driver.c:383-385 | the builder's own check, which passes the checksum byte as the flag, accepts every such packet |
| Sentence.ToSize | src/qc_lc29_driver.c:2367 | the `int` to `size_t` conversion of a length keeps non-negative values |
| Sentence.ParseDrCmdResponse | src/qc_lc29_driver.c:2347-2394 | `CMD_SEND_SUCCESS` or `CMD_SEND_FAIL`; success requires length at least 9, a leading `$`, no bare CR LF at length-4, the identifier prefix over `dr_cmd_id_len` bytes, `*` five from the end and, with the flag 1, a matching checksum |
| Sentence.DrParseMatchesValidate | src/qc_lc29_driver.c:2347-2394 | for any compared prefix of 8 bytes or more, the DR check succeeds exactly when `lc29_driver_validate_string` returns `VALID_RESPONSE` and the whole prefix matches |
| CLib.StrnEqualShorter | src/qc_lc29_driver.c:263 | `strncmp` equality over `n` bytes implies it over any shorter window |
| Exchange.DrAckAcceptsExactly | src/qc_lc29_driver.c:2499-2504 | the `$PQTM` acknowledgement check accepts a reply exactly when it validates, checksum included, against `$PQTMCFGEINSMSGOK` and its first 17 bytes are that text |
| Parse.CropSentence | src/qc_lc29_driver.c:294-306 | returns the position eight bytes in and cuts the first `*` after it (or the byte at that position when no `*` follows), so the string read there is the text up to the `*` |
| Parse.AtoiEachSnoc | src/qc_lc29_driver.c:317 | converting one more field appends its `atoi` |
| Parse.SplitFieldsCount | src/qc_lc29_driver.c:308-329 | the splitter yields at most `max_values + 1` values, one more than the callers' arrays are sized for |
| Parse.SplitFieldsOverrun | src/qc_lc29_driver.c:315-326 | when `max_values` comma-free fields each end in a comma and a field ending in `*` follows, the splitter yields all `max_values + 1` of them, so the bound above is reached and `values[max_values]` is written |
| Parse.SplitFieldsOverrunWitness | src/qc_lc29_driver.c:315-326 | asked for one value, the splitter stores two from "1,2*" |
| Parse.MultiFieldReplyRejected | src/qc_lc29_driver.c:214-238 | a single-value parse returns nothing whenever the reply's fields hold a comma followed by a `*` |
| Parse.ParseStringByComma | src/qc_lc29_driver.c:308-329 | returns the number of values stored; the stored values are the `atoi` of the comma-separated fields after the identifier (at most `max_values` commas taken, then the field before `*`); they sit in the first positions; the rest of the array is untouched; the buffer only changes where a comma or `*` was cut to NUL |
| Parse.SplitTakesComma | src/qc_lc29_driver.c:315-320 | while fewer than `max_values` fields are taken, a comma ends the next field |
| Parse.SplitTakesStar | src/qc_lc29_driver.c:321-326 | after the commas, the field before the first `*` is the last, and there is none without a `*` |
| Parse.FirstToken | src/qc_lc29_driver.c:175 | a token is non-empty and holds no comma |
| Parse.Strtok | src/qc_lc29_driver.c:175 | `strtok(p, ",")`: NULL exactly when only commas remain, or nothing does; otherwise the position of the first token, with the comma after it cut to NUL and no other change |
| Parse.AckOf | src/qc_lc29_driver.c:159-197 | the result is a device status of at most 5 (a negative device code is returned as is) or `CMD_SEND_FAIL`, never `MNL_SERVICE_BUSY`, and it is `CMD_SEND_FAIL` whenever the `$PAIR001` sentence does not validate |
| Parse.AckEcho | src/qc_lc29_driver.c:175-183 | the echoed command id is parsed and compared; the result is a status or `CMD_SEND_FAIL` |
| Parse.ThreeDigitEchoReadsStatusZero | src/qc_lc29_driver.c:185-196 | in a valid `$PAIR001,nnn,…` acknowledgement echoing the command id, the second `strtok` starts on the `*`, so the status read is 0 and the result is `CMD_SEND_SUCCESS`, whatever status digit the module sent |
| Parse.FourDigitEchoReadsStatus | src/qc_lc29_driver.c:175-196 | in a valid acknowledgement echoing a four-digit command id such as 6010, the status read is the digit the module sent after the id: that digit when it is at most 5, `CMD_SEND_FAIL` above |
| Parse.AckOfCorrected | src/qc_lc29_driver.c:185 | corrected status read: the token after the echoed id; at most 5 or `CMD_SEND_FAIL`, and `CMD_SEND_FAIL` whenever the `$PAIR001` sentence does not validate |
| Parse.CorrectedAckReadsStatus | src/qc_lc29_driver.c:175-196 | whatever the width of the echoed id, the corrected parse returns the one-digit result that follows it, or `CMD_SEND_FAIL` above 5 |
| Parse.ThreeDigitEchoIgnoresResult | src/qc_lc29_driver.c:185 | on one and the same three-digit acknowledgement with result digit `d`, the parse as written returns `CMD_SEND_SUCCESS` while the corrected parse returns `d` (or `CMD_SEND_FAIL` above 5) |
| Parse.EchoMismatch | src/qc_lc29_driver.c:180-183 | an echoed id that differs from the command id fails the exchange |
| Parse.ParseResponse | src/qc_lc29_driver.c:159-197 | on the buffer, returns the acknowledgement result of its C string and only cuts commas to NUL |
| Parse.QueryFields | src/qc_lc29_driver.c:214-238 | a parse succeeds only for a reply that fully validates against the query id, and then yields exactly `response_num_args` values |
| Parse.ParseQueryResponse | src/qc_lc29_driver.c:214-238 | success exactly when the reply validates and the splitter returns `response_num_args`; the values are the reply's fields; a rejected reply leaves both buffers untouched, and a split reply rewrites only the leading values; in every case only commas and `*` of the reply buffer become NUL |
| Transport.NextReply | includes/qc_lc29_driver_internal.h:34 | a read delivers a NUL-free C string |
| Transport.AfterWrite | includes/qc_lc29_driver_internal.h:33 | a write appends the packet to the log and changes nothing else |
| Transport.AfterRead | includes/qc_lc29_driver_internal.h:34 | a successful read consumes exactly one scripted reply |
| Transport.Strcpy | tests/gnss_driver_tests_setup.c:18-20 | `strcpy` keeps the buffer's size |
| Transport.StrcpyIntoZeroed | tests/gnss_driver_tests_setup.c:18-20 | `strcpy` of a short enough reply into a zeroed buffer leaves that buffer holding exactly the reply's C string |
| Transport.ScriptedTransport.constructor | includes/qc_lc29_driver_internal.h:32-35 | a fresh transport holds the scripted replies, an empty log and the two outcome flags |
| Transport.ScriptedTransport.Write | includes/qc_lc29_driver_internal.h:33 | logs the packet and reports success as scripted |
| Transport.ScriptedTransport.Read | includes/qc_lc29_driver_internal.h:34 | copies the next reply into the buffer with `strcpy`, consumes it, and fails with the buffer untouched when no read is possible |
| Exchange.AckCode | src/qc_lc29_driver.c:2499-2504 | a `$PAIR` acknowledgement is parsed by `lc29_driver_parse_response`; a `$PQTM` one either succeeds or fails |
| Exchange.CommandLinkAfterWrite | src/qc_lc29_driver.c:447-457 | once the packet is built and written, the exchange consumes the next reply whenever there is one |
| Exchange.QueryReply | src/qc_lc29_driver.c:1416-1428 | the reply stage succeeds or fails, and on success yields the expected number of values |
| Exchange.Query | src/qc_lc29_driver.c:1384-1433 | a successful query yields exactly the expected number of values |
| Exchange.AcknowledgedCommand | src/qc_lc29_driver.c:434-468 | a command succeeds only if writing worked, a reply was there and it acknowledged the command; the exchange then logs exactly the packet and consumes exactly one reply |
| Exchange.CommandAlwaysWritten | src/qc_lc29_driver.c:441-451 | every well-formed command is written, whether or not it is acknowledged |
| Exchange.TwoFieldReplyFailsSingleValueQuery | src/qc_lc29_driver.c:1799-1802 | a query for one value never succeeds when the query reply carries a comma and then a `*` in its fields |
| Exchange.AnsweredQuery | src/qc_lc29_driver.c:1384-1433 | a query succeeds only if the acknowledgement was accepted and the second reply parsed to the returned values; exactly the packet is logged and two replies are consumed |
| Exchange.ScriptedCommandAcknowledged | src/qc_lc29_driver.c:434-468 | conversely, a transport whose first reply acknowledges the command makes the command succeed, log exactly the packet and consume that reply |
| Exchange.ScriptedReplyAccepted | src/qc_lc29_driver.c:1416-1428 | a reply that parses to values makes the reply stage succeed with those values |
| Exchange.ScriptedQueryAnswered | src/qc_lc29_driver.c:1384-1433 | an accepted acknowledgement followed by a parsable reply makes the query succeed with the reply's values |
| Exchange.DrCommandNeverAcknowledged | src/qc_lc29_driver.c:2474 | no reply that fits the 22-byte acknowledgement buffer is accepted by the `$PQTM` OK check, so the command fails |
| Exchange.DrAckNeedsTwentyTwoBytes | src/qc_lc29_driver.c:2500-2504 | any accepted `$PQTM` OK reply has at least 22 characters |
| Exchange.DrOkReplyAcknowledged | src/qc_lc29_driver.c:2499-2504 | the well-formed OK reply `$PQTMCFGEINSMSGOK*16` with CR LF has 22 characters and is accepted |
| Exchange.RepliesFitAfterRead | src/qc_lc29_driver.c:1405-1420 | the remaining replies still fit the remaining buffers after one is read |
| Exchange.SendCommand | src/qc_lc29_driver.c:434-462 | on buffers, the command stage returns the code of, and leaves the transport in the state of, `Command` |
| Exchange.WriteCommand | src/qc_lc29_driver.c:441-451 | writes the packet exactly when the self-check passes, and reports whether the write succeeded |
| Exchange.QueryExchange | src/qc_lc29_driver.c:1384-1428 | on buffers, the query returns the code, the transport state and the parsed values of `Query` |
| Exchange.ReadQuery | src/qc_lc29_driver.c:1416-1428 | on buffers, the reply stage returns the code, the transport state and the values of `QueryReply` |
| Driver.DefaultState | src/qc_lc29_driver.c:70-130 | the defaults: fix rate `ONE_HZ`, minimum SNR 9, elevation mask 5, normal navigation mode; every NMEA output rate 1; only the IMU-type custom message enabled; baud rate `(uint16_t)115200`; every table indexed by its own id |
| Driver.WithNmeaRate | src/qc_lc29_driver.c:1706-1733 | updating one sentence's output rate changes only that entry, and only for an id in range |
| Driver.WithCustomMessage | src/qc_lc29_driver.c:2739-2762 | enabling or disabling one custom message changes only that entry and keeps its id |
| Driver.BoolArg | src/qc_lc29_driver.c:1036 | a boolean goes out as one decimal digit whose `atoi` is non-zero exactly when the boolean is true |
| Driver.NavModeArg | src/qc_lc29_driver.c:819-833 | an argument exists exactly for the four navigation modes of the switch, otherwise `CMD_INVALID` |
| Driver.DecimalPrecisionArg | src/qc_lc29_driver.c:892-906 | an argument exists exactly for the four precision settings |
| Driver.NmeaOutputModeArg | src/qc_lc29_driver.c:967-978 | an argument exists exactly for the output modes the switch names |
| Driver.SearchModeArgs | src/qc_lc29_driver.c:682-687 | six one-character arguments: `atoi` of the first five gives back, in order, the GPS, GLONASS, Galileo, BeiDou and QZSS settings, and the reserved sixth reads as 0 |
| Driver.PqtmArgs | src/qc_lc29_driver.c:2479-2480 | five arguments: `atoi` of the first four gives back the query/set flag and the INS, IMU and GPS enable flags, and the fifth is the rate text unchanged |
| Driver.NavModeArgRoundTrip | src/qc_lc29_driver.c:1968 | `atoi` of a sent navigation-mode argument is the mode |
| Driver.DecimalPrecisionArgRoundTrip | src/qc_lc29_driver.c:892-906 | `atoi` of a sent precision argument is the precision |
| Driver.NmeaOutputModeArgRoundTrip | src/qc_lc29_driver.c:967-981 | `atoi` of a sent output-mode argument is the mode |
| Driver.ShortCommandFits | src/qc_lc29_driver.c:438 | an identifier of at most 15 bytes with up to six one-byte arguments gives a packet shorter than the 50-byte buffer |
| Driver.PqtmConfigured | src/qc_lc29_driver.c:2531-2537 | INS and IMU take the rate and their flags, GPS takes its flag and a rate capped at 10 |
| Driver.EmptyResponseRejected | src/qc_lc29_driver.c:922-926 | parsing the never-filled acknowledgement buffer always fails |
| Driver.Lc29Driver.constructor | src/qc_lc29_driver.c:50-130 | a new driver holds the default state and the given transport |
| Driver.Lc29Driver.SetFixRate | src/qc_lc29_driver.c:434-468 | sends `$PAIR050,<rate>`; the result is the exchange's code; the fix rate becomes `atoi(rate)` on success, and nothing else changes |
| Driver.Lc29Driver.SetMinSnr | src/qc_lc29_driver.c:489-529 | `CMD_INVALID` with nothing sent when the `uint16_t` value is outside 9..49; otherwise the exchange, and the minimum SNR becomes the value on success |
| Driver.Lc29Driver.SetNmeaOutputRate | src/qc_lc29_driver.c:561-630 | `CMD_INVALID` with nothing sent for an id outside 0..5 or a rate above 20; otherwise the exchange, and on success that sentence's rate entry is replaced |
| Driver.Lc29Driver.SetGnssSearchMode | src/qc_lc29_driver.c:675-723 | sends the five flags and a reserved 0; on success stores the mode with `reserved` cleared |
| Driver.Lc29Driver.SetStaticThreshold | src/qc_lc29_driver.c:745-786 | `CMD_INVALID` above 20; otherwise the exchange, and it stores the threshold on success |
| Driver.Lc29Driver.SetNavigationMode | src/qc_lc29_driver.c:812-863 | `CMD_INVALID` for an unknown mode; otherwise the exchange, and it stores the mode on success |
| Driver.Lc29Driver.SetNmeaDecimalPrecision | src/qc_lc29_driver.c:884-935 | the intended behaviour: `CMD_INVALID` for an unknown precision; otherwise the exchange, using the acknowledgement it read, and it stores the precision on success |
| Driver.Lc29Driver.SetNmeaDecimalPrecisionAsWritten | src/qc_lc29_driver.c:917-926 | as written, every known precision is sent and the reply consumed, but the result is always `CMD_SEND_FAIL` |
| Driver.Lc29Driver.SetNmeaOutputMode | src/qc_lc29_driver.c:958-1008 | `CMD_INVALID` for an unknown mode; otherwise sends the mode and the proprietary flag, and stores the mode on success |
| Driver.Lc29Driver.SetDualBandMode | src/qc_lc29_driver.c:1030-1063 | sends the flag; stores it on success |
| Driver.Lc29Driver.SetSbasMode | src/qc_lc29_driver.c:1085-1118 | sends the flag; stores it on success |
| Driver.Lc29Driver.SetEasyStatus | src/qc_lc29_driver.c:1146-1179 | sends the flag; stores it on success |
| Driver.Lc29Driver.NvmSaveSetting | src/qc_lc29_driver.c:1194-1224 | sends `$PAIR513` with no argument and returns the exchange's code; the driver's settings are not touched |
| Driver.Lc29Driver.SetLowPowerMode | src/qc_lc29_driver.c:1253-1295 | `CMD_INVALID` for a nonzero wake-up time outside 10..62208000; otherwise the exchange, and it stores the time on success |
| Driver.Lc29Driver.SetIoBaudrate | src/qc_lc29_driver.c:1319-1355 | sends port type, index and rate; on success stores `(uint16_t)atoi(rate)` |
| Driver.Lc29Driver.GetFixRate | src/qc_lc29_driver.c:1384-1433 | the query's code; on success the fix rate becomes the reply's value |
| Driver.Lc29Driver.GetMinSnr | src/qc_lc29_driver.c:1458-1506 | on success the minimum SNR becomes the reply's value, truncated to 16 bits |
| Driver.Lc29Driver.GetBaudrate | src/qc_lc29_driver.c:1553-1603 | on success the baud rate becomes the reply's value, truncated to 16 bits |
| Driver.Lc29Driver.GetNmeaOutputRate | src/qc_lc29_driver.c:1652-1735 | `CMD_INVALID` for an id outside 0..5; otherwise on success the entry named by the reply's first value takes its second value as the rate |
| Driver.Lc29Driver.GetGnssSearchMode | src/qc_lc29_driver.c:1761-1815 | parses one value only; on success GPS follows it, `reserved` is cleared and the other flags are unconstrained |
| Driver.SearchModeFieldsRejected | src/qc_lc29_driver.c:1799-1802 | a search-mode query reply that carries all its fields (a comma and then a `*` after the identifier) makes the query fail |
| Driver.SearchModeExampleHasTwoFields | src/qc_lc29_driver.c:212 | the field text of the documented reply `$PAIR067,1,0,0,0,0,0*3A` holds more than one field, so that reply is refused |
| Driver.Lc29Driver.GetStaticThreshold | src/qc_lc29_driver.c:1838-1887 | on success stores the reply's value truncated to 8 bits |
| Driver.Lc29Driver.GetNavigationMode | src/qc_lc29_driver.c:1922-1971 | on success the navigation mode becomes the reply's value |
| Driver.Lc29Driver.GetNmeaDecimalPrecisionAsWritten | src/qc_lc29_driver.c:2000-2049 | as written, on success the reply's value goes into the navigation mode field and the stored precision never changes |
| Driver.Lc29Driver.GetNmeaDecimalPrecision | src/qc_lc29_driver.c:2000-2049 | as intended, on success the reply's value becomes the stored decimal precision and nothing else changes |
| Driver.Lc29Driver.GetDualBandMode | src/qc_lc29_driver.c:2080-2129 | on success the flag becomes whether the reply's value is nonzero |
| Driver.Lc29Driver.GetSbasMode | src/qc_lc29_driver.c:2152-2201 | on success the flag becomes whether the reply's value is nonzero |
| Driver.Lc29Driver.GetEasyStatus | src/qc_lc29_driver.c:2236-2285 | on success the EASY status becomes the reply's value |
| Driver.Lc29Driver.SetGetPqtmMessageSettings | src/qc_lc29_driver.c:2470-2540 | the corrected behaviour, with an acknowledgement buffer that holds the OK reply: the outcome of the set or query exchange; on success the INS/IMU/GPS settings become the arguments, with the GPS rate capped at 10 |
| Driver.Lc29Driver.PqtmExchange | src/qc_lc29_driver.c:2482-2519 | on buffers, the `$PQTM` exchange returns the code and transport state of the set or query outcome |
| Driver.Lc29Driver.SetDrRtkMessageOutput | src/qc_lc29_driver.c:2577-2640 | the exchange; after an acknowledgement, an id in 0..4 updates that custom message's flag, and any other id gives `CMD_SEND_FAIL` |
| Driver.Lc29Driver.SelectCustomMessage | src/qc_lc29_driver.c:2610-2639 | the switch over the custom message id: known ids are updated, the default case fails |
| Driver.Lc29Driver.GetDrRtkMessageOutput | src/qc_lc29_driver.c:2690-2765 | the query; on success the message named by the reply's first value takes the second value as its flag, and an unknown id gives `CMD_SEND_FAIL` |
| Scenarios.XorOfFixRateAck | tests/gnss_driver_tests.c:29-37 | the body of `$PAIR001,050,0*3E` XORs to 0x3E |
| Scenarios.ChecksumOfGetFixRate | src/qc_lc29_driver.c:204-205 | the checksum of `$PAIR051` is 0x3E |
| Scenarios.GetFixRateCommand | src/qc_lc29_driver.c:204-205 | the fix-rate query packet is `$PAIR051*3E` CR LF |
| Scenarios.SetFixRateCommand | tests/gnss_driver_tests.c:49-61 | building `$PAIR050` with argument "100" gives `$PAIR050,100*22` CR LF |
| Scenarios.TestReplyValidates | tests/gnss_driver_tests.c:39-47 | a sentence `$` + body + `*HH` + LF CR, with `HH` the body's XOR, validates with its checksum checked, because the CR LF check does not see the swapped ending |
| Scenarios.FixRateAckValidates | tests/gnss_driver_tests.c:39-47 | `$PAIR001,050,0*3E` LF CR validates against `$PAIR001` |
| Scenarios.FixRateAckAccepted | tests/gnss_driver_tests.c:29-37 | the acknowledgement parses to `CMD_SEND_SUCCESS` for command 50 |
| Scenarios.NmeaQueryAckAccepted | tests/gnss_driver_tests.c:192-206 | `$PAIR001,063,0*3E` LF CR parses to `CMD_SEND_SUCCESS` for command 63 |
| Scenarios.NmeaRateReplyValidates | tests/gnss_driver_tests.c:192-213 | `$PAIR063,0,3*3C` LF CR validates against `$PAIR063` |
| Scenarios.NmeaRateQueryFields | tests/gnss_driver_tests.c:192-213 | the reply parses, with two arguments, to the values 0 and 3 |
| Scenarios.FixRateQueryAckAccepted | tests/gnss_driver_tests_setup.c:28 | `$PAIR001,051,0*3F` LF CR acknowledges command 51 |
| Scenarios.FixRateQueryReplyAccepted | tests/gnss_driver_tests_setup.c:33 | `$PAIR051,1000*13` LF CR parses to the single value 1000 |
| Scenarios.GetFixRateOver | src/qc_lc29_driver.c:1384-1433 | on a fresh driver, each transport whose two replies are an accepted acknowledgement and a reply carrying one value makes the fix-rate query succeed, set the rate to that value and write only the query packet |
| Scenarios.FixRateQueryTest | tests/gnss_driver_tests.c:215-223 | with the test's two replies, the query succeeds, the fix rate becomes 1000 and `$PAIR051*3E` CR LF is the only packet written |
| Scenarios.SetFixRateOver | src/qc_lc29_driver.c:434-468 | on a fresh driver, each accepted acknowledgement makes setting the fix rate succeed and store `atoi` of the argument |
| Scenarios.SetFixRateTest | tests/gnss_driver_tests.c:68-77 | with the test's acknowledgement, setting "100" succeeds, the fix rate becomes `TEN_HZ` and `$PAIR050,100*22` CR LF is the only packet written |

## Left out

- Parse.ParseStringByComma: states the buffer change only as "only commas and `*` became NUL" (OnlyDelimitersCut), not byte by byte.
- Parse.ParseResponse: states the buffer change only as "only commas became NUL" (CommasCut).
- Parse.AckOfCorrected is stated beside the acknowledgement parse as written and is not used by the exchanges: every setter and getter keeps the code's behaviour of reading the status from byte 14.
- Parse.ParseQueryResponse: states the buffer change only as "only commas and `*` became NUL" (OnlyDelimitersCut), and as no change at all when validation fails; it does not say which delimiters were cut.
- `lc29_driver_get_nmea_output_mode` and `lc29_driver_get_low_power_mode` are stubs that return 0 without any exchange and are not modelled.
- The `hw_init` and `config` callbacks and `malloc` in `Lc29_driver_ctor` are not modelled; the `NULL` result of a failed allocation does not exist in the model. The constructor takes the transport object in place of the `write` and `read` callbacks.
- The commented-out `transmit_cmd` helper and the commented-out `$PAIR` sentences are not modelled.
- The `length` argument of the `read` callback is ignored by the transport, as by the repository's test callbacks; the `$PQTM` exchange passes `strlen` of an empty buffer there.
- Buffer overruns are preconditions, not behaviour. Each reply must fit its buffer, as `strcpy` demands: under 22 bytes for an acknowledgement and under 50 for a query reply. Each built packet must be under 50 bytes. The splitter's store of `values[max_values]` is a precondition `max_values < values.Length`; every caller passes at most 6 into an array of 10. Parse.SplitFieldsOverrun shows that `max_values + 1` values are stored whenever every comma is taken and a `*` follows.
- `int query_response_vals[10]` is uninitialised in C. The model allocates an array of unconstrained contents. This is why Driver.Lc29Driver.GetGnssSearchMode constrains only the GPS flag.
- The repository's test `main`, its `printf` calls and the unit-test framework are not modelled. The minimum-SNR and `$PQTM` test callbacks are not replayed as scenarios. The generic lemmas in Sentence, Parse and Exchange cover them.
- The default baud rate follows the code: `(uint16_t)115200`, which is 49664, and not 115200.

## Findings

| source | as written | input that shows it | evidently intended | confidence | as-written member | corrected member |
|---|---|---|---|---|---|---|
| src/qc_lc29_driver.c:2474 | the `$PQTM` acknowledgement is read into `char driver_cmd_response[22]`, and only a reply of at least 22 characters passes the OK check | `$PQTMCFGEINSMSGOK*16` followed by CR LF: 22 characters, 23 bytes with the terminator | a buffer large enough for the OK reply (50 bytes, like the others) | not executed | Exchange.DrCommandNeverAcknowledged | Driver.Lc29Driver.SetGetPqtmMessageSettings |
| src/qc_lc29_driver.c:917-926 | `lc29_driver_set_nmea_decimal_precision` reads the acknowledgement into `payload` but parses the never-filled `driver_cmd_response` with command id 98 | any precision 0..3 with the reply `$PAIR001,098,0*3A` CR LF: the result is `CMD_SEND_FAIL` and the precision is not stored | read into `driver_cmd_response` and parse that reply | not executed | Driver.Lc29Driver.SetNmeaDecimalPrecisionAsWritten | Driver.Lc29Driver.SetNmeaDecimalPrecision |
| src/qc_lc29_driver.c:2046 | `lc29_driver_get_NMEA_decimal_precision` stores the queried value with `driver->nav_mode = query_response_vals[0]` | an acknowledged query answered with precision 2: the navigation mode becomes 2 and the stored precision keeps its old value | store it in `driver->decimal_accuracy` | not executed | Driver.Lc29Driver.GetNmeaDecimalPrecisionAsWritten | Driver.Lc29Driver.GetNmeaDecimalPrecision |
| src/qc_lc29_driver.c:185 | `lc29_driver_parse_response` reads the status with `strtok(response_string + 14, ",")`; with the three-digit id every `$PAIR` command except 6010/6011 echoes, byte 14 is the `*`, so the status read is 0 | `$PAIR001,050,4*3A` CR LF for command 50: result 4 is sent, `CMD_SEND_SUCCESS` is returned | read the token after the echoed id (`strtok(NULL, ",")`) and return the module's result | not executed | Parse.ThreeDigitEchoIgnoresResult | Parse.AckOfCorrected |
