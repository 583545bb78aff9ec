/**
 * Concrete sentences from the driver's own tests, and what the model
 * computes for them.
 */
module Scenarios {
  import opened CLib
  import opened Protocol
  import opened Sentence
  import opened Parse
  import opened Transport
  import opened Exchange
  import opened Driver

  /** The acknowledgement the test transport returns for `$PAIR050`. */
  const FixRateAck: string := "$PAIR001,050,0*3E\n\r"
  /** The acknowledgement, then the reply, the test transport returns for `$PAIR051`. */
  const FixRateQueryAck: string := "$PAIR001,051,0*3F\n\r"
  const FixRateQueryReply: string := "$PAIR051,1000*13\n\r"
  /** The acknowledgement and the query reply of the splitter test. */
  const NmeaQueryAck: string := "$PAIR001,063,0*3E\n\r"
  const NmeaRateReply: string := "$PAIR063,0,3*3C\n\r"

  // ---------------------------------------------------------------
  // Checksums
  // ---------------------------------------------------------------

  /** The bytes of the characters the test sentences use. */
  lemma ByteValues()
    ensures Byte('P') == 0x50 && Byte('A') == 0x41 && Byte('I') == 0x49 && Byte('R') == 0x52
    ensures Byte('0') == 0x30 && Byte('1') == 0x31 && Byte('3') == 0x33 && Byte('5') == 0x35 && Byte('6') == 0x36
    ensures Byte(',') == 0x2C
  {
  }

  /** One step of the checksum: XOR in the next byte. */
  lemma XorStep(s: string, c: char, x: bv8, b: bv8)
    requires XorBytes(s) == x && Byte(c) == b
    ensures XorBytes(s + [c]) == x ^ b
  {
    assert (s + [c])[..|s|] == s;
  }

  /** XOR of the checksummed part of `$PAIR051`. */
  lemma XorOfGetFixRate()
    ensures XorBytes("PAIR051") == 0x3E
  {
    ByteValues();
    var s0: string := [];
    XorStep(s0, 'P', 0x00, 0x50);
    var s1 := s0 + ['P'];
    XorStep(s1, 'A', 0x50, 0x41);
    var s2 := s1 + ['A'];
    XorStep(s2, 'I', 0x11, 0x49);
    var s3 := s2 + ['I'];
    XorStep(s3, 'R', 0x58, 0x52);
    var s4 := s3 + ['R'];
    XorStep(s4, '0', 0x0A, 0x30);
    var s5 := s4 + ['0'];
    XorStep(s5, '5', 0x3A, 0x35);
    var s6 := s5 + ['5'];
    XorStep(s6, '1', 0x0F, 0x31);
    var s7 := s6 + ['1'];
    assert s7 == "PAIR051";
  }

  /** XOR of the checksummed part of the acknowledgement of `$PAIR050`. */
  lemma XorOfFixRateAck()
    ensures XorBytes("PAIR001,050,0") == 0x3E
  {
    ByteValues();
    var s0: string := [];
    XorStep(s0, 'P', 0x00, 0x50);
    var s1 := s0 + ['P'];
    XorStep(s1, 'A', 0x50, 0x41);
    var s2 := s1 + ['A'];
    XorStep(s2, 'I', 0x11, 0x49);
    var s3 := s2 + ['I'];
    XorStep(s3, 'R', 0x58, 0x52);
    var s4 := s3 + ['R'];
    XorStep(s4, '0', 0x0A, 0x30);
    var s5 := s4 + ['0'];
    XorStep(s5, '0', 0x3A, 0x30);
    var s6 := s5 + ['0'];
    XorStep(s6, '1', 0x0A, 0x31);
    var s7 := s6 + ['1'];
    XorStep(s7, ',', 0x3B, 0x2C);
    var s8 := s7 + [','];
    XorStep(s8, '0', 0x17, 0x30);
    var s9 := s8 + ['0'];
    XorStep(s9, '5', 0x27, 0x35);
    var s10 := s9 + ['5'];
    XorStep(s10, '0', 0x12, 0x30);
    var s11 := s10 + ['0'];
    XorStep(s11, ',', 0x22, 0x2C);
    var s12 := s11 + [','];
    XorStep(s12, '0', 0x0E, 0x30);
    var s13 := s12 + ['0'];
    assert s13 == "PAIR001,050,0";
  }

  /** XOR of the checksummed part of the acknowledgement of `$PAIR051`. */
  lemma XorOfFixRateQueryAck()
    ensures XorBytes("PAIR001,051,0") == 0x3F
  {
    ByteValues();
    var s0: string := [];
    XorStep(s0, 'P', 0x00, 0x50);
    var s1 := s0 + ['P'];
    XorStep(s1, 'A', 0x50, 0x41);
    var s2 := s1 + ['A'];
    XorStep(s2, 'I', 0x11, 0x49);
    var s3 := s2 + ['I'];
    XorStep(s3, 'R', 0x58, 0x52);
    var s4 := s3 + ['R'];
    XorStep(s4, '0', 0x0A, 0x30);
    var s5 := s4 + ['0'];
    XorStep(s5, '0', 0x3A, 0x30);
    var s6 := s5 + ['0'];
    XorStep(s6, '1', 0x0A, 0x31);
    var s7 := s6 + ['1'];
    XorStep(s7, ',', 0x3B, 0x2C);
    var s8 := s7 + [','];
    XorStep(s8, '0', 0x17, 0x30);
    var s9 := s8 + ['0'];
    XorStep(s9, '5', 0x27, 0x35);
    var s10 := s9 + ['5'];
    XorStep(s10, '1', 0x12, 0x31);
    var s11 := s10 + ['1'];
    XorStep(s11, ',', 0x23, 0x2C);
    var s12 := s11 + [','];
    XorStep(s12, '0', 0x0F, 0x30);
    var s13 := s12 + ['0'];
    assert s13 == "PAIR001,051,0";
  }

  /** XOR of the checksummed part of the fix-rate reply. */
  lemma XorOfFixRateReply()
    ensures XorBytes("PAIR051,1000") == 0x13
  {
    ByteValues();
    var s0: string := [];
    XorStep(s0, 'P', 0x00, 0x50);
    var s1 := s0 + ['P'];
    XorStep(s1, 'A', 0x50, 0x41);
    var s2 := s1 + ['A'];
    XorStep(s2, 'I', 0x11, 0x49);
    var s3 := s2 + ['I'];
    XorStep(s3, 'R', 0x58, 0x52);
    var s4 := s3 + ['R'];
    XorStep(s4, '0', 0x0A, 0x30);
    var s5 := s4 + ['0'];
    XorStep(s5, '5', 0x3A, 0x35);
    var s6 := s5 + ['5'];
    XorStep(s6, '1', 0x0F, 0x31);
    var s7 := s6 + ['1'];
    XorStep(s7, ',', 0x3E, 0x2C);
    var s8 := s7 + [','];
    XorStep(s8, '1', 0x12, 0x31);
    var s9 := s8 + ['1'];
    XorStep(s9, '0', 0x23, 0x30);
    var s10 := s9 + ['0'];
    XorStep(s10, '0', 0x13, 0x30);
    var s11 := s10 + ['0'];
    XorStep(s11, '0', 0x23, 0x30);
    var s12 := s11 + ['0'];
    assert s12 == "PAIR051,1000";
  }

  /** XOR of the checksummed part of `$PAIR050` with the argument "100". */
  lemma XorOfSetFixRateCommand()
    ensures XorBytes("PAIR050,100") == 0x22
  {
    ByteValues();
    var s0: string := [];
    XorStep(s0, 'P', 0x00, 0x50);
    var s1 := s0 + ['P'];
    XorStep(s1, 'A', 0x50, 0x41);
    var s2 := s1 + ['A'];
    XorStep(s2, 'I', 0x11, 0x49);
    var s3 := s2 + ['I'];
    XorStep(s3, 'R', 0x58, 0x52);
    var s4 := s3 + ['R'];
    XorStep(s4, '0', 0x0A, 0x30);
    var s5 := s4 + ['0'];
    XorStep(s5, '5', 0x3A, 0x35);
    var s6 := s5 + ['5'];
    XorStep(s6, '0', 0x0F, 0x30);
    var s7 := s6 + ['0'];
    XorStep(s7, ',', 0x3F, 0x2C);
    var s8 := s7 + [','];
    XorStep(s8, '1', 0x13, 0x31);
    var s9 := s8 + ['1'];
    XorStep(s9, '0', 0x22, 0x30);
    var s10 := s9 + ['0'];
    XorStep(s10, '0', 0x12, 0x30);
    var s11 := s10 + ['0'];
    assert s11 == "PAIR050,100";
  }


  /** XOR of the checksummed part of the output-rate reply. */
  lemma XorOfNmeaRateReply()
    ensures XorBytes("PAIR063,0,3") == 0x3C
  {
    ByteValues();
    var s0: string := [];
    XorStep(s0, 'P', 0x00, 0x50);
    var s1 := s0 + ['P'];
    XorStep(s1, 'A', 0x50, 0x41);
    var s2 := s1 + ['A'];
    XorStep(s2, 'I', 0x11, 0x49);
    var s3 := s2 + ['I'];
    XorStep(s3, 'R', 0x58, 0x52);
    var s4 := s3 + ['R'];
    XorStep(s4, '0', 0x0A, 0x30);
    var s5 := s4 + ['0'];
    XorStep(s5, '6', 0x3A, 0x36);
    var s6 := s5 + ['6'];
    XorStep(s6, '3', 0x0C, 0x33);
    var s7 := s6 + ['3'];
    XorStep(s7, ',', 0x3F, 0x2C);
    var s8 := s7 + [','];
    XorStep(s8, '0', 0x13, 0x30);
    var s9 := s8 + ['0'];
    XorStep(s9, ',', 0x23, 0x2C);
    var s10 := s9 + [','];
    XorStep(s10, '3', 0x0F, 0x33);
    var s11 := s10 + ['3'];
    assert s11 == "PAIR063,0,3";
  }

  /** XOR of the body of the acknowledgement of `$PAIR063` in the splitter test. */
  lemma XorOfNmeaQueryAck()
    ensures XorBytes("PAIR001,063,0") == 0x3E
  {
    ByteValues();
    var s0: string := [];
    XorStep(s0, 'P', 0x00, 0x50);
    var s1 := s0 + ['P'];
    XorStep(s1, 'A', 0x50, 0x41);
    var s2 := s1 + ['A'];
    XorStep(s2, 'I', 0x11, 0x49);
    var s3 := s2 + ['I'];
    XorStep(s3, 'R', 0x58, 0x52);
    var s4 := s3 + ['R'];
    XorStep(s4, '0', 0x0A, 0x30);
    var s5 := s4 + ['0'];
    XorStep(s5, '0', 0x3A, 0x30);
    var s6 := s5 + ['0'];
    XorStep(s6, '1', 0x0A, 0x31);
    var s7 := s6 + ['1'];
    XorStep(s7, ',', 0x3B, 0x2C);
    var s8 := s7 + [','];
    XorStep(s8, '0', 0x17, 0x30);
    var s9 := s8 + ['0'];
    XorStep(s9, '6', 0x27, 0x36);
    var s10 := s9 + ['6'];
    XorStep(s10, '3', 0x11, 0x33);
    var s11 := s10 + ['3'];
    XorStep(s11, ',', 0x22, 0x2C);
    var s12 := s11 + [','];
    XorStep(s12, '0', 0x0E, 0x30);
    var s13 := s12 + ['0'];
    assert s13 == "PAIR001,063,0";
  }


  /** `$PAIR051` has checksum 0x3E. */
  lemma ChecksumOfGetFixRate()
    ensures Checksum(PairCommonGetFixRate) == 0x3E
  {
    XorOfGetFixRate();
    ChecksumOfFrame("PAIR051", "");
    assert "$" + "PAIR051" + "" == PairCommonGetFixRate;
  }

  /** The hex digits `%02X` prints for the checksums of the test sentences. */
  lemma HexDigitsOfChecksums()
    ensures HexByte(0x3E) == "3E" && HexByte(0x3F) == "3F" && HexByte(0x3C) == "3C"
    ensures HexByte(0x13) == "13" && HexByte(0x22) == "22"
  {
  }

  /**
   * A packet whose checksummed part is `$`, `text`, `*` is that part
   * followed by the hex digits of the XOR of `text` and CR LF.
   */
  lemma BuiltCommand(cmdId: string, args: seq<string>, text: string, hex: string)
    requires CommandBody(cmdId, args) == "$" + text + "*"
    requires forall j :: 0 <= j < |text| ==> !IsChecksumStop(text[j])
    requires HexByte(XorBytes(text)) == hex
    ensures PairCommand(cmdId, args) == "$" + text + "*" + hex + "\r\n"
  {
    ChecksumOfFrame(text, "*");
  }

  /** `build_pair_cmd("$PAIR051", [])`: the query packet of the fix-rate getter. */
  lemma GetFixRateCommand()
    ensures PairCommand(PairCommonGetFixRate, []) == "$PAIR051*3E\r\n"
  {
    assert "$" + "PAIR051" + "*" + "3E" + "\r\n" == "$PAIR051*3E\r\n";
    assert CommandBody(PairCommonGetFixRate, []) == "$" + "PAIR051" + "*" by {
      assert JoinArgs([]) == "";
    }
    XorOfGetFixRate();
    HexDigitsOfChecksums();
    BuiltCommand(PairCommonGetFixRate, [], "PAIR051", "3E");
  }

  /** `build_pair_cmd("$PAIR050", ["100"])`, the packet of the fix-rate setter test. */
  lemma SetFixRateCommand()
    ensures PairCommand(PairCommonSetFixRate, ["100"]) == "$PAIR050,100*22\r\n"
  {
    assert "$" + "PAIR050,100" + "*" + "22" + "\r\n" == "$PAIR050,100*22\r\n";
    assert CommandBody(PairCommonSetFixRate, ["100"]) == "$" + "PAIR050,100" + "*" by {
      assert ["100"][..0] == [];
      assert JoinArgs(["100"]) == ",100";
    }
    XorOfSetFixRateCommand();
    HexDigitsOfChecksums();
    BuiltCommand(PairCommonSetFixRate, ["100"], "PAIR050,100", "22");
  }

  // ---------------------------------------------------------------
  // Validation
  // ---------------------------------------------------------------

  /** The framing bytes at the end of such a reply: `*`, the declared checksum and a tail that is not CR LF. */
  lemma TestReplyTail(hex: string, tail: string, s: string)
    requires |hex| == 2 && tail == "*" + hex + "\n\r"
    requires |s| >= MinSentenceLength && s[|s| - 5..] == tail
    ensures CAt(s, |s| - 5) == '*'
    ensures DeclaredChecksum(s, |s|) == ToU8(Strtol16(hex))
    ensures CStrAt(s, |s| - 4) != CmdEndChars
  {
    var n := |s|;
    assert s[n - 5] == tail[0] == '*' && s[n - 4] == tail[1] == hex[0] && s[n - 3] == tail[2] == hex[1];
    assert [CAt(s, n - 4), CAt(s, n - 3)] == hex;
    assert |CStrAt(s, n - 4)| == 4;
  }

  /** The identifier of such a reply: its first eight bytes are `$` and the body's first seven. */
  lemma TestReplyIdentifier(pairId: string, s: string)
    requires |pairId| >= IdentifierCompareLength && |s| >= IdentifierCompareLength
    requires s[0] == pairId[0] && s[1..IdentifierCompareLength] == pairId[1..IdentifierCompareLength]
    ensures StrnEqual(s, pairId, IdentifierCompareLength)
  {
    assert s[..IdentifierCompareLength] == pairId[..IdentifierCompareLength];
  }

  /** Validation passes once each of its checks is known to pass. */
  lemma ValidatesFromChecks(pairId: string, s: string, hex: string)
    requires |s| >= MinSentenceLength && CAt(s, 0) == '$' && CStrAt(s, |s| - 4) != CmdEndChars
    requires StrnEqual(s, pairId, IdentifierCompareLength) && CAt(s, |s| - 5) == '*'
    requires DeclaredChecksum(s, |s|) == ToU8(Strtol16(hex)) && Strtol16(hex) == Checksum(s) as int
    ensures ValidateString(pairId, s, |s|, 1) == ValidResponse
  {
  }

  /**
   * A reply framed as the test transport frames it (`$`, a body that starts
   * with the identifier, then the tail: `*`, the checksum in two hex digits,
   * LF and CR) passes full validation.
   */
  lemma TestReplyValidates(pairId: string, body: string, hex: string, tail: string, s: string)
    requires |pairId| >= IdentifierCompareLength && pairId[0] == '$'
    requires |body| >= IdentifierCompareLength - 1 && body[..IdentifierCompareLength - 1] == pairId[1..IdentifierCompareLength]
    requires forall j :: 0 <= j < |body| ==> !IsChecksumStop(body[j])
    requires |hex| == 2 && Strtol16(hex) == XorBytes(body) as int
    requires tail == "*" + hex + "\n\r" && s == "$" + body + tail
    ensures ValidateString(pairId, s, |s|, 1) == ValidResponse
  {
    assert tail[0] == '*';
    ChecksumOfFrame(body, tail);
    assert s[|s| - 5..] == tail;
    TestReplyTail(hex, tail, s);
    assert s[1..IdentifierCompareLength] == body[..IdentifierCompareLength - 1];
    TestReplyIdentifier(pairId, s);
    ValidatesFromChecks(pairId, s, hex);
  }

  /** `atoi` of three decimal digits is their value. */
  lemma AtoiOfThreeDigits(a: char, b: char, c: char)
    requires '0' <= a <= '9' && '0' <= b <= '9' && '0' <= c <= '9'
    ensures Atoi([a, b, c]) == DigitValue(a) * 100 + DigitValue(b) * 10 + DigitValue(c)
  {
    var d := [a, b, c];
    assert d[..2][..1][..0] == [] && d[..2][..1] == [a] && d[..2][1] == b;
    assert DigitsValue(d[..2][..1], 10) == DigitValue(a);
    assert DigitsValue(d[..2], 10) == DigitValue(a) * 10 + DigitValue(b);
    StrtolOfDigits(d, "");
    assert d + "" == d;
  }

  /** The echoed id of an acknowledgement: three digits at bytes 9 to 11. */
  lemma EchoDigits(s: string, a: char, b: char, c: char)
    requires |s| > 12 && s[9] == a && s[10] == b && s[11] == c
    requires '0' <= a <= '9' && '0' <= b <= '9' && '0' <= c <= '9'
    ensures forall j :: AckIdOffset <= j < 12 ==> '0' <= s[j] <= '9'
    ensures s[AckIdOffset..12] == [a, b, c]
  {
  }

  /** The fix-rate acknowledgement of the tests validates against "$PAIR001". */
  lemma FixRateAckValidates()
    ensures ValidateString(PairAck, FixRateAck, |FixRateAck|, 1) == ValidResponse
  {
    assert "*3E\n\r" == "*" + "3E" + "\n\r" && FixRateAck == "$" + "PAIR001,050,0" + "*3E\n\r";
    XorOfFixRateAck();
    Strtol16OfHexByte(0x3E);
    HexDigitsOfChecksums();
    TestReplyValidates(PairAck, "PAIR001,050,0", "3E", "*3E\n\r", FixRateAck);
  }

  /** The acknowledgement of `$PAIR063` in the splitter test validates against "$PAIR001". */
  lemma NmeaQueryAckValidates()
    ensures ValidateString(PairAck, NmeaQueryAck, |NmeaQueryAck|, 1) == ValidResponse
  {
    assert "*3E\n\r" == "*" + "3E" + "\n\r" && NmeaQueryAck == "$" + "PAIR001,063,0" + "*3E\n\r";
    XorOfNmeaQueryAck();
    Strtol16OfHexByte(0x3E);
    HexDigitsOfChecksums();
    TestReplyValidates(PairAck, "PAIR001,063,0", "3E", "*3E\n\r", NmeaQueryAck);
  }

  /** The bytes of the test's acknowledgement of `$PAIR050` that the acknowledgement parser reads. */
  lemma FixRateAckBytes()
    ensures |FixRateAck| > AckStatusOffset && FixRateAck[12] == ',' && FixRateAck[AckStatusOffset] == '*'
    ensures forall j :: AckIdOffset <= j < 12 ==> '0' <= FixRateAck[j] <= '9'
    ensures Atoi(FixRateAck[AckIdOffset..12]) == AckIdSetFixRate
  {
    EchoDigits(FixRateAck, '0', '5', '0');
    AtoiOfThreeDigits('0', '5', '0');
  }

  /** The same bytes of the acknowledgement of `$PAIR063`. */
  lemma NmeaQueryAckBytes()
    ensures |NmeaQueryAck| > AckStatusOffset && NmeaQueryAck[12] == ',' && NmeaQueryAck[AckStatusOffset] == '*'
    ensures forall j :: AckIdOffset <= j < 12 ==> '0' <= NmeaQueryAck[j] <= '9'
    ensures Atoi(NmeaQueryAck[AckIdOffset..12]) == AckIdGetNmeaOutputRate
  {
    EchoDigits(NmeaQueryAck, '0', '6', '3');
    AtoiOfThreeDigits('0', '6', '3');
  }

  /**
   * The test's acknowledgement of `$PAIR050` counts as success. Its status
   * byte is 0, but what the driver reads is the `*` after it.
   */
  lemma FixRateAckAccepted()
    ensures AckOf(FixRateAck, AckIdSetFixRate) == CmdSendSuccess
  {
    FixRateAckFits();
    FixRateAckValidates();
    FixRateAckBytes();
    ThreeDigitEchoReadsStatusZero(FixRateAck, AckIdSetFixRate);
  }

  /** The acknowledgement of `$PAIR063` in the splitter test has no NUL byte. */
  lemma NmeaQueryAckHasNoNul()
    ensures NoNul(NmeaQueryAck)
  {
  }

  /** So does the acknowledgement of `$PAIR063` in the splitter test. */
  lemma NmeaQueryAckAccepted()
    ensures AckOf(NmeaQueryAck, AckIdGetNmeaOutputRate) == CmdSendSuccess
  {
    NmeaQueryAckHasNoNul();
    NmeaQueryAckValidates();
    NmeaQueryAckBytes();
    ThreeDigitEchoReadsStatusZero(NmeaQueryAck, AckIdGetNmeaOutputRate);
  }

  /** The reply of the splitter test validates against "$PAIR063". */
  lemma NmeaRateReplyValidates()
    ensures ValidateString(PairCommonGetNmeaOutputRate, NmeaRateReply, |NmeaRateReply|, 1) == ValidResponse
  {
    assert "*3C\n\r" == "*" + "3C" + "\n\r" && NmeaRateReply == "$" + "PAIR063,0,3" + "*3C\n\r";
    XorOfNmeaRateReply();
    Strtol16OfHexByte(0x3C);
    HexDigitsOfChecksums();
    TestReplyValidates(PairCommonGetNmeaOutputRate, "PAIR063,0,3", "3C", "*3C\n\r", NmeaRateReply);
  }

  /** Past the identifier and its comma the splitter takes "0", then "3" up to the `*`. */
  lemma NmeaRateReplyTexts()
    ensures SplitTexts(CStrAt(NmeaRateReply, |PairCommonGetNmeaOutputRate| + 1), 2) == ["0", "3"]
  {
    assert CStrAt(NmeaRateReply, |PairCommonGetNmeaOutputRate| + 1) == "0" + "," + ("3" + "*" + "3C\n\r");
    SplitTwoFields("0", "3", "3C\n\r");
  }

  /**
   * `lc29_driver_parse_query_response` on the splitter test's reply, with
   * two arguments, accepts it and yields 0 and 3.
   */
  lemma NmeaRateQueryFields()
    ensures QueryFields(NmeaRateReply, PairCommonGetNmeaOutputRate, |NmeaRateReply|, 2) == Some([0, 3])
  {
    NmeaRateReplyValidates();
    NmeaRateReplyFields(CStrAt(NmeaRateReply, |PairCommonGetNmeaOutputRate| + 1));
  }

  /** `atoi` of those two texts. */
  lemma NmeaRateReplyFields(t: string)
    requires t == CStrAt(NmeaRateReply, |PairCommonGetNmeaOutputRate| + 1)
    ensures SplitFields(t, 2) == [0, 3]
  {
    assert [('0' as int + 0) as char] == "0" && [('0' as int + 3) as char] == "3";
    NmeaRateReplyTexts();
    AtoiEachPair("0", "3");
    AtoiOfDigit(0);
    AtoiOfDigit(3);
  }

  /** The acknowledgement of `$PAIR051` the fix-rate test transport returns validates. */
  lemma FixRateQueryAckValidates()
    ensures ValidateString(PairAck, FixRateQueryAck, |FixRateQueryAck|, 1) == ValidResponse
  {
    assert "*3F\n\r" == "*" + "3F" + "\n\r" && FixRateQueryAck == "$" + "PAIR001,051,0" + "*3F\n\r";
    XorOfFixRateQueryAck();
    Strtol16OfHexByte(0x3F);
    HexDigitsOfChecksums();
    TestReplyValidates(PairAck, "PAIR001,051,0", "3F", "*3F\n\r", FixRateQueryAck);
  }

  /** The bytes of that acknowledgement the acknowledgement parser reads. */
  lemma FixRateQueryAckBytes()
    ensures |FixRateQueryAck| > AckStatusOffset && FixRateQueryAck[12] == ',' && FixRateQueryAck[AckStatusOffset] == '*'
    ensures forall j :: AckIdOffset <= j < 12 ==> '0' <= FixRateQueryAck[j] <= '9'
    ensures Atoi(FixRateQueryAck[AckIdOffset..12]) == AckIdGetFixRate
  {
    EchoDigits(FixRateQueryAck, '0', '5', '1');
    AtoiOfThreeDigits('0', '5', '1');
  }

  /** It acknowledges `$PAIR051`. */
  lemma FixRateQueryAckAccepted()
    ensures AckOf(FixRateQueryAck, AckIdGetFixRate) == CmdSendSuccess
  {
    FixRateQueryRepliesFit();
    FixRateQueryAckValidates();
    FixRateQueryAckBytes();
    ThreeDigitEchoReadsStatusZero(FixRateQueryAck, AckIdGetFixRate);
  }

  /** The fix-rate reply of the test transport validates against "$PAIR051". */
  lemma FixRateQueryReplyValidates()
    ensures ValidateString(PairCommonGetFixRate, FixRateQueryReply, |FixRateQueryReply|, 1) == ValidResponse
  {
    assert "*13\n\r" == "*" + "13" + "\n\r" && FixRateQueryReply == "$" + "PAIR051,1000" + "*13\n\r";
    XorOfFixRateReply();
    Strtol16OfHexByte(0x13);
    HexDigitsOfChecksums();
    TestReplyValidates(PairCommonGetFixRate, "PAIR051,1000", "13", "*13\n\r", FixRateQueryReply);
  }

  /** `atoi("1000")` is 1000. */
  lemma AtoiOf1000()
    ensures Atoi("1000") == 1000
  {
    var d0: string := [];
    var d1 := d0 + ['1'];
    var d2 := d1 + ['0'];
    var d3 := d2 + ['0'];
    var d4 := d3 + ['0'];
    assert d1[..0] == d0 && d2[..1] == d1 && d3[..2] == d2 && d4[..3] == d3;
    assert DigitsValue(d1, 10) == 1;
    assert DigitsValue(d2, 10) == 10;
    assert DigitsValue(d3, 10) == 100;
    assert DigitsValue(d4, 10) == 1000;
    StrtolOfDigits(d4, "");
    assert d4 + "" == d4 == "1000";
  }

  /** Past the identifier and its comma the splitter takes the one field "1000". */
  lemma FixRateQueryReplyFields(t: string)
    requires t == CStrAt(FixRateQueryReply, |PairCommonGetFixRate| + 1)
    ensures SplitFields(t, QueryFixRateNumArgs) == [1000]
  {
    assert t == "1000*13\n\r";
    assert IndexOf(t, ',') == |t|;
    assert t[4] == '*' && forall j :: 0 <= j < 4 ==> t[j] != '*';
    assert IndexOf(t, '*') == 4;
    SplitTakesStar(t, QueryFixRateNumArgs);
    assert t[..4] == "1000";
    AtoiOf1000();
    var none: seq<string> := [];
    assert none + ["1000"] == ["1000"];
    SplitFieldsSnoc(t, QueryFixRateNumArgs, none, "1000");
    assert AtoiEach(none) == [];
  }

  /** `lc29_driver_parse_query_response` accepts the reply with one argument, 1000. */
  lemma FixRateQueryReplyAccepted()
    ensures QueryFields(FixRateQueryReply, PairCommonGetFixRate, |FixRateQueryReply|, QueryFixRateNumArgs) == Some([1000])
  {
    FixRateQueryReplyValidates();
    FixRateQueryReplyFields(CStrAt(FixRateQueryReply, |PairCommonGetFixRate| + 1));
  }

  // ---------------------------------------------------------------
  // Whole exchanges
  // ---------------------------------------------------------------

  /** Two replies without NUL bytes that fit the acknowledgement and query buffers. */
  lemma TwoRepliesFit(ack: string, reply: string)
    requires NoNul(ack) && NoNul(reply) && |ack| < AckBufferSize && |reply| < QueryBufferSize
    ensures RepliesFit(Link([ack, reply], [], true, true), [AckBufferSize, QueryBufferSize])
  {
    CStrOfNoNul(ack);
    CStrOfNoNul(reply);
  }

  /** The replies of the fix-rate query test have no NUL byte and fit the driver's buffers. */
  lemma FixRateQueryRepliesFit()
    ensures NoNul(FixRateQueryAck) && NoNul(FixRateQueryReply)
    ensures |FixRateQueryAck| < AckBufferSize && |FixRateQueryReply| < QueryBufferSize
  {
  }

  /**
   * A new driver over a transport that accepts the write and returns an
   * acknowledgement of `$PAIR051` and then an accepted one-field reply
   * reads the reply's value as its fix rate.
   */
  method GetFixRateOver(ack: string, reply: string, value: int32) returns (r: int, rate: int32, written: seq<string>)
    requires NoNul(ack) && NoNul(reply) && |ack| < AckBufferSize && |reply| < QueryBufferSize
    requires AckOf(ack, AckIdGetFixRate) == CmdSendSuccess
    requires QueryFields(reply, PairCommonGetFixRate, |reply|, QueryFixRateNumArgs) == Some([value])
    ensures r == CmdSendSuccess && rate == value && written == [PairCommand(PairCommonGetFixRate, [])]
  {
    var t := new ScriptedTransport([ack, reply], true, true);
    var d := new Lc29Driver(t);
    BuildSelfCheckValid(PairCommonGetFixRate, []);
    ScriptedQueryAnswered(PairCommonGetFixRate, [], PairAckOf(AckIdGetFixRate), PairCommonGetFixRate,
                          QueryFixRateNumArgs, ack, reply, [value]);
    TwoRepliesFit(ack, reply);
    r := d.GetFixRate();
    rate := d.fixRate;
    written := t.written;
  }

  /**
   * The fix-rate query test: over the test's scripted replies the driver
   * reads back a fix rate of 1000, `ONE_HZ`, after writing `$PAIR051*3E`.
   */
  method FixRateQueryTest() returns (r: int, rate: int32, written: seq<string>)
    ensures r == CmdSendSuccess && rate == OneHz && written == ["$PAIR051*3E\r\n"]
  {
    FixRateQueryRepliesFit();
    FixRateQueryAckAccepted();
    FixRateQueryReplyAccepted();
    GetFixRateCommand();
    r, rate, written := GetFixRateOver(FixRateQueryAck, FixRateQueryReply, 1000);
  }

  /** `atoi("100")` is 100. */
  lemma AtoiOf100()
    ensures Atoi("100") == 100
  {
    AtoiOfThreeDigits('1', '0', '0');
  }

  /** The acknowledgement of the fix-rate setter test has no NUL byte and fits the acknowledgement buffer. */
  lemma FixRateAckFits()
    ensures NoNul(FixRateAck) && |FixRateAck| < AckBufferSize
  {
  }

  /** The exchange the fix-rate setter runs over a single accepted acknowledgement. */
  lemma SetFixRateExchange(ack: string, arg: string)
    requires NoNul(ack) && |ack| < AckBufferSize && AckOf(ack, AckIdSetFixRate) == CmdSendSuccess
    requires NoNul(arg) && CommandFits(PairCommonSetFixRate, [arg])
    ensures RepliesFit(Link([ack], [], true, true), [AckBufferSize])
    ensures Command(PairCommonSetFixRate, [arg], PairAckOf(AckIdSetFixRate), Link([ack], [], true, true))
         == Outcome(CmdSendSuccess, [], Link([], [PairCommand(PairCommonSetFixRate, [arg])], true, true))
  {
    BuildSelfCheckValid(PairCommonSetFixRate, [arg]);
    var none: seq<string> := [];
    assert [ack] + none == [ack];
    ScriptedCommandAcknowledged(PairCommonSetFixRate, [arg], PairAckOf(AckIdSetFixRate), ack, none);
    CStrOfNoNul(ack);
  }

  /**
   * A new driver over a transport that accepts the write and returns an
   * acknowledgement of `$PAIR050` takes `atoi` of the argument as its fix
   * rate.
   */
  method SetFixRateOver(ack: string, arg: string) returns (r: int, rate: int32, written: seq<string>)
    requires NoNul(ack) && |ack| < AckBufferSize && AckOf(ack, AckIdSetFixRate) == CmdSendSuccess
    requires NoNul(arg) && CommandFits(PairCommonSetFixRate, [arg])
    ensures r == CmdSendSuccess && rate == Atoi(arg) && written == [PairCommand(PairCommonSetFixRate, [arg])]
  {
    SetFixRateExchange(ack, arg);
    var t := new ScriptedTransport([ack], true, true);
    var d := new Lc29Driver(t);
    r := d.SetFixRate(arg);
    rate := d.fixRate;
    written := t.written;
  }

  /**
   * The fix-rate setter test: "100" is acknowledged by the scripted reply,
   * the packet written is `$PAIR050,100*22`, and the fix rate becomes 100,
   * `TEN_HZ`.
   */
  method SetFixRateTest() returns (r: int, rate: int32, written: seq<string>)
    ensures r == CmdSendSuccess && rate == TenHz && written == ["$PAIR050,100*22\r\n"]
  {
    FixRateAckFits();
    FixRateAckAccepted();
    SetFixRateCommand();
    AtoiOf100();
    r, rate, written := SetFixRateOver(FixRateAck, "100");
  }
}
