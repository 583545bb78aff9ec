/**
 * Framing of LC29H sentences: `$`, an identifier, comma-separated fields,
 * `*`, two hex digits of an XOR checksum, then CR LF.
 *
 * This module holds the checksum, the framing checks the driver applies to
 * every reply (`lc29_driver_validate_string` and its dead-reckoning copy
 * `lc29_driver_parse_dr_cmd_response`) and the builder of outgoing $PAIR
 * commands.
 */
module Sentence {
  import opened CLib
  import opened Protocol

  // ---------------------------------------------------------------
  // Checksum
  // ---------------------------------------------------------------

  /** The bytes that end the checksum scan: the `*`, a CR, or the string's end. */
  predicate IsChecksumStop(c: char) {
    c == '*' || c == ResponseEndChar || c == NUL
  }

  /** Index of the first stop byte at or after `i`, or `|s|`. */
  function ChecksumEnd(s: seq<char>, i: nat): (k: nat)
    requires i <= |s|
    ensures i <= k <= |s|
    ensures forall j :: i <= j < k ==> !IsChecksumStop(s[j])
    ensures k < |s| ==> IsChecksumStop(s[k])
    decreases |s| - i
  {
    if i == |s| || IsChecksumStop(s[i]) then i else ChecksumEnd(s, i + 1)
  }

  /** The `(uint8_t)` conversion of a character. */
  function Byte(c: char): bv8 {
    if c as int < 256 then c as bv8 else ((c as int) % 256) as bv8
  }

  /** XOR of all the bytes of `s`. */
  function XorBytes(s: seq<char>): bv8 {
    if |s| == 0 then 0 else XorBytes(s[..|s| - 1]) ^ Byte(s[|s| - 1])
  }

  /**
   * The checksum of a sentence: the XOR of its bytes from index 1 (after
   * the `$`) up to, not including, the first `*`, CR or end of string.
   */
  function Checksum(s: seq<char>): bv8
    requires |s| >= 1
  {
    XorBytes(s[1..ChecksumEnd(s, 1)])
  }

  /** `lc29_driver_get_checksum`: one pass that XORs each byte into an accumulator. */
  method GetChecksum(s: seq<char>) returns (chk: bv8)
    requires |s| >= 1
    ensures chk == Checksum(s)
  {
    var n := 1;
    chk := 0;
    while n < |s| && !IsChecksumStop(s[n])
      invariant 1 <= n <= ChecksumEnd(s, 1)
      invariant chk == XorBytes(s[1..n])
      decreases |s| - n
    {
      assert s[1..n + 1][..n - 1] == s[1..n];
      chk := chk ^ Byte(s[n]);
      n := n + 1;
    }
  }

  lemma {:induction false} XorBytesAppend(a: seq<char>, b: seq<char>)
    ensures XorBytes(a + b) == XorBytes(a) ^ XorBytes(b)
  {
    if |b| == 0 {
      assert a + b == a;
    } else {
      XorBytesAppend(a, b[..|b| - 1]);
      assert (a + b)[..|a + b| - 1] == a + b[..|b| - 1];
    }
  }

  /** The scan from `i` stops at the first stop byte of a NUL-free text. */
  lemma {:induction false} ChecksumEndOfText(s: seq<char>, i: nat, body: seq<char>, tail: seq<char>)
    requires i <= |s| && s[i..] == body + tail
    requires forall j :: 0 <= j < |body| ==> !IsChecksumStop(body[j])
    requires |tail| > 0 ==> IsChecksumStop(tail[0])
    ensures ChecksumEnd(s, i) == i + |body|
    decreases |body|
  {
    if |body| > 0 {
      assert s[i] == body[0];
      assert s[i + 1..] == body[1..] + tail;
      ChecksumEndOfText(s, i + 1, body[1..], tail);
    } else if |tail| > 0 {
      assert s[i] == tail[0];
    }
  }

  /**
   * The checksum of `$` + body + tail is the XOR of the body, whatever the
   * tail holds, as long as the body holds no stop byte and the tail starts
   * with one (or is empty).
   */
  lemma ChecksumOfFrame(body: seq<char>, tail: seq<char>)
    requires forall j :: 0 <= j < |body| ==> !IsChecksumStop(body[j])
    requires |tail| > 0 ==> IsChecksumStop(tail[0])
    ensures Checksum("$" + body + tail) == XorBytes(body)
  {
    var s := "$" + body + tail;
    assert s[1..] == body + tail;
    ChecksumEndOfText(s, 1, body, tail);
    assert s[1..1 + |body|] == body;
  }

  /** Text appended after a stop byte does not move the end of the scan. */
  lemma {:induction false} ChecksumEndIgnoresTail(s: seq<char>, extra: seq<char>, i: nat)
    requires i <= |s| && ChecksumEnd(s, i) < |s|
    ensures ChecksumEnd(s + extra, i) == ChecksumEnd(s, i)
    decreases |s| - i
  {
    assert (s + extra)[i] == s[i];
    if !IsChecksumStop(s[i]) {
      ChecksumEndIgnoresTail(s, extra, i + 1);
    }
  }

  /** Text after the first stop byte does not change the checksum. */
  lemma ChecksumIgnoresTail(s: seq<char>, extra: seq<char>)
    requires |s| >= 1 && ChecksumEnd(s, 1) < |s|
    ensures Checksum(s + extra) == Checksum(s)
  {
    var k := ChecksumEnd(s, 1);
    ChecksumEndIgnoresTail(s, extra, 1);
    assert (s + extra)[1..k] == s[1..k];
  }

  // ---------------------------------------------------------------
  // Validation of a received sentence
  // ---------------------------------------------------------------

  /**
   * `lc29_driver_response_has_checksum`: 0 when the byte five from the end
   * is `*`, otherwise the NO_CHECKSUM code.
   */
  function ResponseHasChecksum(s: seq<char>, length: nat): (r: nat)
    requires length >= 5
    ensures r == 0 <==> CAt(s, length - 5) == '*'
    ensures r == 0 || r == NoChecksum.Code()
  {
    if CAt(s, length - 5) == '*' then 0 else NoChecksum.Code()
  }

  /** The checksum a sentence declares: its two bytes at `length-4` and `length-3`, read as hex. */
  function DeclaredChecksum(s: seq<char>, length: nat): nat
    requires length >= 4
  {
    ToU8(Strtol16([CAt(s, length - 4), CAt(s, length - 3)]))
  }

  /**
   * The framing checks, in the order the driver applies them. `length` is
   * what the caller passes (usually `strlen(s)`); bytes past the end of `s`
   * read as the zeros of the buffer that holds it.
   */
  ghost predicate Framed(pairId: seq<char>, s: seq<char>, length: nat) {
    && length >= MinSentenceLength
    && CAt(s, 0) == '$'
    && CStrAt(s, length - 4) != CmdEndChars
    && StrnEqual(s, pairId, IdentifierCompareLength)
    && CAt(s, length - 5) == '*'
  }

  /**
   * `lc29_driver_validate_string`: the first failing check decides the
   * result, and the checksum is compared only when the flag is exactly 1.
   */
  function ValidateString(pairId: seq<char>, s: seq<char>, length: nat, checkChecksum: int): (r: ResponseError)
    ensures r == ValidResponse <==>
      Framed(pairId, s, length) &&
      (checkChecksum == 1 ==> DeclaredChecksum(s, length) == Checksum(s) as int)
    ensures r == InvalidLength <==> length < MinSentenceLength
    ensures r == InvalidStartChar <==> length >= MinSentenceLength && CAt(s, 0) != '$'
    ensures r == InvalidRN <==>
      length >= MinSentenceLength && CAt(s, 0) == '$' && CStrAt(s, length - 4) == CmdEndChars
    ensures r == InvalidIdentifier <==>
      length >= MinSentenceLength && CAt(s, 0) == '$' && CStrAt(s, length - 4) != CmdEndChars &&
      !StrnEqual(s, pairId, IdentifierCompareLength)
    ensures r == NoChecksum <==>
      length >= MinSentenceLength && CAt(s, 0) == '$' && CStrAt(s, length - 4) != CmdEndChars &&
      StrnEqual(s, pairId, IdentifierCompareLength) && CAt(s, length - 5) != '*'
    ensures r == InvalidChecksum <==>
      Framed(pairId, s, length) && checkChecksum == 1 && DeclaredChecksum(s, length) != Checksum(s) as int
  {
    if MinSentenceLength > length then InvalidLength
    else if '$' != CAt(s, 0) then InvalidStartChar
    else if CStrAt(s, length - 4) == CmdEndChars then InvalidRN
    else if !StrnEqual(s, pairId, IdentifierCompareLength) then InvalidIdentifier
    else if ResponseHasChecksum(s, length) != 0 then NoChecksum
    else if checkChecksum == 1 && DeclaredChecksum(s, length) != Checksum(s) as int then InvalidChecksum
    else ValidResponse
  }

  /**
   * The terminator check compares the text from `length-4` with "\r\n" as
   * a whole C string. With `length == |s|` that text is four bytes long, so
   * the check never rejects.
   */
  lemma TerminatorCheckNeverRejectsAtStrlen(pairId: seq<char>, s: seq<char>, checkChecksum: int)
    requires |s| >= MinSentenceLength
    ensures ValidateString(pairId, s, |s|, checkChecksum) != InvalidRN
  {
    assert |CStrAt(s, |s| - 4)| == 4;
  }

  /**
   * It rejects exactly when the text from `length-4` is "\r\n": a sentence
   * that starts with `$` and ends in CR LF is rejected when
   * the caller passes its length plus two.
   */
  lemma TerminatorCheckRejectsOnlyBareCrLf(pairId: seq<char>, s: seq<char>, length: nat, checkChecksum: int)
    requires length >= MinSentenceLength && CAt(s, 0) == '$'
    ensures ValidateString(pairId, s, length, checkChecksum) == InvalidRN <==> CStrAt(s, length - 4) == "\r\n"
    ensures |s| >= 2 && s[|s| - 2..] == "\r\n" && length == |s| + 2 ==>
      ValidateString(pairId, s, length, checkChecksum) == InvalidRN
  {
    if |s| >= 2 && s[|s| - 2..] == "\r\n" && length == |s| + 2 {
      assert CStrAt(s, length - 4) == s[|s| - 2..];
    }
  }

  /** Only the first eight bytes of the identifier take part in validation. */
  lemma IdentifierComparesEightBytes(id1: seq<char>, id2: seq<char>, s: seq<char>, length: nat, checkChecksum: int)
    requires |id1| >= IdentifierCompareLength && |id2| >= IdentifierCompareLength
    requires id1[..IdentifierCompareLength] == id2[..IdentifierCompareLength]
    ensures ValidateString(id1, s, length, checkChecksum) == ValidateString(id2, s, length, checkChecksum)
  {
  }

  /** Consequently a reply validates against $PAIR6010 exactly when it validates against $PAIR6011. */
  lemma CustomMessageIdentifiersIndistinguishable(s: seq<char>, length: nat, checkChecksum: int)
    ensures ValidateString(PairSetCustomMsgOutput, s, length, checkChecksum) ==
            ValidateString(PairGetCustomMsgOutput, s, length, checkChecksum)
  {
    CustomMessageIdentifiersShareCompareWindow();
    IdentifierComparesEightBytes(PairSetCustomMsgOutput, PairGetCustomMsgOutput, s, length, checkChecksum);
  }

  /** Any flag other than 1 skips the checksum comparison altogether. */
  lemma ChecksumFlagMustBeOne(pairId: seq<char>, s: seq<char>, length: nat, checkChecksum: int)
    requires checkChecksum != 1
    ensures ValidateString(pairId, s, length, checkChecksum) == ValidateString(pairId, s, length, 0)
    ensures ValidateString(pairId, s, length, checkChecksum) != InvalidChecksum
  {
  }

  /** A framed sentence whose declared checksum is wrong is rejected with INVALID_CHECKSUM. */
  lemma WrongChecksumRejected(pairId: seq<char>, s: seq<char>, length: nat)
    requires Framed(pairId, s, length)
    requires DeclaredChecksum(s, length) != Checksum(s) as int
    ensures ValidateString(pairId, s, length, 1) == InvalidChecksum
  {
  }

  // ---------------------------------------------------------------
  // Building a $PAIR command
  // ---------------------------------------------------------------

  /** "," before each argument, in the order given. */
  function JoinArgs(args: seq<string>): string {
    if |args| == 0 then "" else JoinArgs(args[..|args| - 1]) + "," + args[|args| - 1]
  }

  /** Identifier, arguments and the `*` that ends the checksummed part. */
  function CommandBody(cmdId: string, args: seq<string>): string {
    cmdId + JoinArgs(args) + PairCmdEndingChar
  }

  /** A checksummed part followed by its checksum in hex and CR LF. */
  function WithChecksum(body: string): string
    requires |body| >= 1
  {
    body + HexByte(Checksum(body)) + CmdEndChars
  }

  /**
   * `lc29_driver_build_pair_cmd`: appends the identifier, each of the
   * first `numArgs` arguments after a comma, `*`, the checksum of the
   * buffer so far as two upper-case hex digits and CR LF to `cmdResult`,
   * then validates the result against `cmdId` with the computed checksum
   * as the check flag.
   */
  method BuildPairCmd(numArgs: nat, cmdId: string, args: seq<string>, cmdResult: string)
    returns (out: string, r: ResponseError)
    requires numArgs <= |args|
    ensures |cmdResult + CommandBody(cmdId, args[..numArgs])| >= 1
    ensures out == WithChecksum(cmdResult + CommandBody(cmdId, args[..numArgs]))
    ensures r == ValidateString(cmdId, out, |out|, Checksum(cmdResult + CommandBody(cmdId, args[..numArgs])) as int)
  {
    var cmd := cmdResult + cmdId;
    var i := 0;
    while i < numArgs
      invariant 0 <= i <= numArgs
      invariant cmd == cmdResult + cmdId + JoinArgs(args[..i])
    {
      assert args[..i + 1][..i] == args[..i];
      cmd := cmd + "," + args[i];
      i := i + 1;
    }
    cmd := cmd + PairCmdEndingChar;
    assert args[..numArgs] == args[..i];
    assert cmd == cmdResult + CommandBody(cmdId, args[..numArgs]);
    var chk := GetChecksum(cmd);
    out := cmd + HexByte(chk) + CmdEndChars;
    r := ValidateString(cmdId, out, |out|, chk as int);
  }

  /** The command the driver sends: built on an empty (zero-filled) buffer. */
  function PairCommand(cmdId: string, args: seq<string>): (out: string)
    ensures |out| == |CommandBody(cmdId, args)| + 4
  {
    WithChecksum(CommandBody(cmdId, args))
  }

  /** The built checksum covers exactly the identifier and the arguments. */
  lemma {:induction false} JoinArgsNoNul(args: seq<string>)
    requires forall k :: 0 <= k < |args| ==> NoNul(args[k])
    ensures NoNul(JoinArgs(args))
  {
    if |args| > 0 {
      JoinArgsNoNul(args[..|args| - 1]);
    }
  }

  /** The checksum of the finished command equals the checksum of its checksummed part. */
  lemma ChecksumOfWithChecksum(body: string)
    requires |body| >= 2 && body[|body| - 1] == '*'
    ensures Checksum(WithChecksum(body)) == Checksum(body)
  {
    assert ChecksumEnd(body, 1) < |body| by {
      assert IsChecksumStop(body[|body| - 1]);
    }
    ChecksumIgnoresTail(body, HexByte(Checksum(body)) + CmdEndChars);
    assert WithChecksum(body) == body + (HexByte(Checksum(body)) + CmdEndChars);
  }

  /**
   * Round trip: a command built on an empty buffer for an identifier that
   * starts with `$` and has at least eight bytes passes full validation
   * against that identifier, checksum included.
   */
  lemma BuiltCommandValidates(cmdId: string, args: seq<string>)
    requires |cmdId| >= IdentifierCompareLength && cmdId[0] == '$'
    requires NoNul(cmdId) && forall k :: 0 <= k < |args| ==> NoNul(args[k])
    ensures ValidateString(cmdId, PairCommand(cmdId, args), |PairCommand(cmdId, args)|, 1) == ValidResponse
  {
    var body := CommandBody(cmdId, args);
    var out := PairCommand(cmdId, args);
    var n := |out|;
    var hex := HexByte(Checksum(body));
    assert out == body + hex + CmdEndChars;
    assert out[n - 5] == '*' && out[n - 4] == hex[0] && out[n - 3] == hex[1];
    assert CAt(out, n - 4) == hex[0] && CAt(out, n - 3) == hex[1];
    assert [hex[0], hex[1]] == hex;
    Strtol16OfHexByte(Checksum(body));
    ChecksumOfWithChecksum(body);
    assert out[..IdentifierCompareLength] == cmdId[..IdentifierCompareLength];
    assert |CStrAt(out, n - 4)| == 4;
  }

  /**
   * `lc29_driver_build_pair_cmd` returns VALID_RESPONSE for such an
   * identifier whatever the checksum is: its self-check re-verifies the
   * digits only when the checksum happens to equal 1, and the digits are
   * right anyway.
   */
  lemma BuildSelfCheckValid(cmdId: string, args: seq<string>)
    requires |cmdId| >= IdentifierCompareLength && cmdId[0] == '$'
    requires NoNul(cmdId) && forall k :: 0 <= k < |args| ==> NoNul(args[k])
    ensures ValidateString(cmdId, PairCommand(cmdId, args), |PairCommand(cmdId, args)|,
                           Checksum(CommandBody(cmdId, args)) as int) == ValidResponse
  {
    BuiltCommandValidates(cmdId, args);
  }

  // ---------------------------------------------------------------
  // The dead-reckoning copy of validation
  // ---------------------------------------------------------------

  /** Conversion of an `int` count to `size_t`. */
  function ToSize(n: int): (r: nat)
    ensures r < 0x1_0000_0000_0000_0000
    ensures 0 <= n < 0x1_0000_0000_0000_0000 ==> r == n
  {
    n % 0x1_0000_0000_0000_0000
  }

  /**
   * `lc29_driver_parse_dr_cmd_response`: the checks of validation, each
   * failure reported as CMD_SEND_FAIL, with the identifier compared over
   * `drCmdIdLen` bytes.
   */
  function ParseDrCmdResponse(s: seq<char>, length: int, drCmdId: seq<char>, drCmdIdLen: int, checkChecksum: int): (r: int)
    ensures r == CmdSendSuccess || r == CmdSendFail
    ensures r == CmdSendSuccess ==>
      (length >= MinSentenceLength && CAt(s, 0) == '$' && CStrAt(s, length - 4) != CmdEndChars &&
       StrnEqual(s, drCmdId, ToSize(drCmdIdLen)) && CAt(s, length - 5) == '*' &&
       (checkChecksum == 1 ==> DeclaredChecksum(s, length) == Checksum(s) as int))
  {
    if MinSentenceLength > length then CmdSendFail
    else if '$' != CAt(s, 0) then CmdSendFail
    else if CStrAt(s, length - 4) == CmdEndChars then CmdSendFail
    else if !StrnEqual(s, drCmdId, ToSize(drCmdIdLen)) then CmdSendFail
    else if ResponseHasChecksum(s, length) != 0 then CmdSendFail
    else if checkChecksum == 1 && DeclaredChecksum(s, length) != Checksum(s) as int then CmdSendFail
    else CmdSendSuccess
  }

  /**
   * With a window of at least eight bytes the copy accepts exactly the
   * sentences validation accepts whose first `drCmdIdLen` bytes also match:
   * the wider comparison implies the eight-byte one.
   */
  lemma DrParseMatchesValidate(s: seq<char>, length: nat, drCmdId: seq<char>, drCmdIdLen: int, checkChecksum: int)
    requires IdentifierCompareLength <= drCmdIdLen <= Int32Max
    ensures ParseDrCmdResponse(s, length, drCmdId, drCmdIdLen, checkChecksum) == CmdSendSuccess <==>
      ValidateString(drCmdId, s, length, checkChecksum) == ValidResponse && StrnEqual(s, drCmdId, ToSize(drCmdIdLen))
  {
    if StrnEqual(s, drCmdId, ToSize(drCmdIdLen)) {
      StrnEqualShorter(s, drCmdId, drCmdIdLen, IdentifierCompareLength);
    }
  }
}
