/**
 * The exchange every setter and getter of the driver performs with the
 * module: build a command on a zeroed 50-byte buffer, write it, read the
 * acknowledgement into a zeroed buffer (22 bytes in every $PAIR exchange)
 * and parse it, and, for a
 * query, read the reply into a zeroed 50-byte buffer and split its fields
 * into an array of ten integers.
 */
module Exchange {
  import opened CLib
  import opened Protocol
  import opened Sentence
  import opened Parse
  import opened Transport

  /** Sizes of the driver's local buffers. */
  const CmdBufferSize: nat := 50
  const AckBufferSize: nat := 22
  const QueryBufferSize: nat := 50
  const QueryValuesSize: nat := 10

  /** How an acknowledgement is parsed: a $PAIR001 reply echoing an id, or the $PQTM OK reply. */
  datatype AckKind = PairAckOf(commandId: int) | DrAckOk

  /** What an exchange returns and leaves on the transport; `values` holds a query's fields. */
  datatype Outcome = Outcome(code: int, values: seq<int32>, link: Link)

  /** The result of parsing an acknowledgement `reply`. */
  function AckCode(kind: AckKind, reply: string): (r: int)
    ensures kind.DrAckOk? ==> r == CmdSendSuccess || r == CmdSendFail
    ensures kind.PairAckOf? ==> r == AckOf(reply, kind.commandId)
  {
    match kind
    case PairAckOf(id) => AckOf(reply, id)
    case DrAckOk => ParseDrCmdResponse(reply, |reply|, DrResponseOk, |DrResponseOk|, 1)
  }

  /**
   * Build, write, read the acknowledgement: the command stage of every
   * setter and getter. The build is refused when its self-check fails;
   * a failed write or read ends the exchange with CMD_SEND_FAIL.
   */
  function Command(cmdId: string, args: seq<string>, kind: AckKind, s: Link): (e: Outcome)
  {
    var cmd := PairCommand(cmdId, args);
    if !SelfCheckPasses(cmdId, args) then
      Outcome(CmdSendFail, [], s)
    else
      var s1 := AfterWrite(s, cmd);
      if !s.writeOk || !CanRead(s1) then Outcome(CmdSendFail, [], s1)
      else Outcome(AckCode(kind, NextReply(s1)), [], AfterRead(s1))
  }

  /** The build's own validation of the packet it assembled. */
  predicate SelfCheckPasses(cmdId: string, args: seq<string>) {
    var cmd := PairCommand(cmdId, args);
    ValidateString(cmdId, cmd, |cmd|, Checksum(CommandBody(cmdId, args)) as int) == ValidResponse
  }

  /** Once the packet is written, the exchange consumes the next reply if there is one. */
  lemma CommandLinkAfterWrite(cmdId: string, args: seq<string>, kind: AckKind, s: Link)
    requires SelfCheckPasses(cmdId, args) && s.writeOk
    ensures Command(cmdId, args, kind, s).link == AfterRead(AfterWrite(s, PairCommand(cmdId, args)))
  {
  }

  /** Read a query reply and keep its fields when exactly `numArgs` of them validate. */
  function QueryReply(queryId: string, numArgs: nat, s: Link): (e: Outcome)
    ensures e.code == CmdSendSuccess || e.code == CmdSendFail
    ensures e.code == CmdSendSuccess ==> |e.values| == numArgs
  {
    if !CanRead(s) then Outcome(CmdSendFail, [], s)
    else
      match QueryFields(NextReply(s), queryId, |NextReply(s)|, numArgs)
      case None => Outcome(CmdSendFail, [], AfterRead(s))
      case Some(v) => Outcome(CmdSendSuccess, v, AfterRead(s))
  }

  /** The whole of a getter's exchange: the command stage, then the query reply once acknowledged. */
  function Query(cmdId: string, args: seq<string>, kind: AckKind, queryId: string, numArgs: nat, s: Link): (e: Outcome)
    ensures e.code == CmdSendSuccess ==> |e.values| == numArgs
  {
    var c := Command(cmdId, args, kind, s);
    if c.code != CmdSendSuccess then c else QueryReply(queryId, numArgs, c.link)
  }

  // ---------------------------------------------------------------
  // Properties of the exchange
  // ---------------------------------------------------------------

  /**
   * An acknowledged command was written exactly once and consumed exactly
   * one reply, and that reply acknowledged it.
   */
  lemma AcknowledgedCommand(cmdId: string, args: seq<string>, kind: AckKind, s: Link)
    requires Command(cmdId, args, kind, s).code == CmdSendSuccess
    ensures var e := Command(cmdId, args, kind, s);
      && s.writeOk && CanRead(s)
      && AckCode(kind, NextReply(s)) == CmdSendSuccess
      && e.link == s.(written := s.written + [PairCommand(cmdId, args)], replies := s.replies[1..])
  {
  }

  /**
   * Under the buffer precondition no $PQTM command is ever acknowledged:
   * an OK reply that fits the 22-byte acknowledgement buffer fails the
   * dead-reckoning checks.
   */
  lemma DrCommandNeverAcknowledged(cmdId: string, args: seq<string>, s: Link)
    requires RepliesFit(s, [AckBufferSize])
    ensures Command(cmdId, args, DrAckOk, s).code == CmdSendFail
  {
    var cmd := PairCommand(cmdId, args);
    if SelfCheckPasses(cmdId, args) &&
       s.writeOk && CanRead(s) {
      var reply := NextReply(AfterWrite(s, cmd));
      assert |reply| < AckBufferSize;
      if AckCode(DrAckOk, reply) == CmdSendSuccess {
        DrAckNeedsTwentyTwoBytes(reply);
        assert false;
      }
    }
  }

  /**
   * A command for an identifier that starts with `$` and has at least eight
   * bytes always passes the build self-check, so the exchange fails only at
   * the transport or the acknowledgement.
   */
  lemma CommandAlwaysWritten(cmdId: string, args: seq<string>, kind: AckKind, s: Link)
    requires |cmdId| >= IdentifierCompareLength && cmdId[0] == '$'
    requires NoNul(cmdId) && forall k :: 0 <= k < |args| ==> NoNul(args[k])
    ensures Command(cmdId, args, kind, s).link.written == s.written + [PairCommand(cmdId, args)]
  {
    BuildSelfCheckValid(cmdId, args);
  }

  /** A successful query consumed exactly the acknowledgement and the query reply. */
  lemma AnsweredQuery(cmdId: string, args: seq<string>, kind: AckKind, queryId: string, numArgs: nat, s: Link)
    requires Query(cmdId, args, kind, queryId, numArgs, s).code == CmdSendSuccess
    ensures var e := Query(cmdId, args, kind, queryId, numArgs, s);
      && |s.replies| >= 2 && s.readOk && s.writeOk
      && AckCode(kind, NextReply(s)) == CmdSendSuccess
      && QueryFields(CStr(s.replies[1]), queryId, |CStr(s.replies[1])|, numArgs) == Some(e.values)
      && |e.values| == numArgs
      && e.link == s.(written := s.written + [PairCommand(cmdId, args)], replies := s.replies[2..])
  {
    var c := Command(cmdId, args, kind, s);
    assert c.link.replies == s.replies[1..];
    assert c.link.replies[1..] == s.replies[2..];
  }

  /**
   * A query that expects one value fails on every reply whose fields hold a
   * comma and then a `*`: the splitter stores two values, not one.
   */
  lemma TwoFieldReplyFailsSingleValueQuery(cmdId: string, args: seq<string>, kind: AckKind, queryId: string, s: Link)
    requires |s.replies| >= 2 && TwoFieldsBeforeStar(CStrAt(CStr(s.replies[1]), |queryId| + 1))
    ensures Query(cmdId, args, kind, queryId, 1, s).code != CmdSendSuccess
  {
    if Query(cmdId, args, kind, queryId, 1, s).code == CmdSendSuccess {
      AnsweredQuery(cmdId, args, kind, queryId, 1, s);
      var reply := CStr(s.replies[1]);
      MultiFieldReplyRejected(reply, queryId, |reply|);
    }
  }

  /**
   * Conversely, a transport that accepts the write and holds an accepting
   * acknowledgement completes the command stage: the packet is logged and
   * the acknowledgement consumed.
   */
  lemma ScriptedCommandAcknowledged(cmdId: string, args: seq<string>, kind: AckKind, ack: string, rest: seq<string>)
    requires SelfCheckPasses(cmdId, args) && NoNul(ack) && AckCode(kind, ack) == CmdSendSuccess
    ensures Command(cmdId, args, kind, Link([ack] + rest, [], true, true))
         == Outcome(CmdSendSuccess, [], Link(rest, [PairCommand(cmdId, args)], true, true))
  {
    var s1 := AfterWrite(Link([ack] + rest, [], true, true), PairCommand(cmdId, args));
    CStrOfNoNul(ack);
    assert NextReply(s1) == ack;
    assert s1.replies[1..] == rest;
  }

  /** A readable accepted query reply is consumed and its fields returned. */
  lemma ScriptedReplyAccepted(queryId: string, numArgs: nat, reply: string, rest: seq<string>, written: seq<string>,
                              v: seq<int32>)
    requires NoNul(reply) && QueryFields(reply, queryId, |reply|, numArgs) == Some(v)
    ensures QueryReply(queryId, numArgs, Link([reply] + rest, written, true, true))
         == Outcome(CmdSendSuccess, v, Link(rest, written, true, true))
  {
    var s := Link([reply] + rest, written, true, true);
    CStrOfNoNul(reply);
    assert NextReply(s) == reply;
    assert s.replies[1..] == rest;
  }

  /**
   * And with an accepted query reply after the acknowledgement, the query
   * is answered with that reply's fields.
   */
  lemma ScriptedQueryAnswered(cmdId: string, args: seq<string>, kind: AckKind, queryId: string, numArgs: nat,
                              ack: string, reply: string, v: seq<int32>)
    requires SelfCheckPasses(cmdId, args) && NoNul(ack) && NoNul(reply)
    requires AckCode(kind, ack) == CmdSendSuccess
    requires QueryFields(reply, queryId, |reply|, numArgs) == Some(v)
    ensures Query(cmdId, args, kind, queryId, numArgs, Link([ack, reply], [], true, true))
         == Outcome(CmdSendSuccess, v, Link([], [PairCommand(cmdId, args)], true, true))
  {
    var none: seq<string> := [];
    assert [ack, reply] == [ack] + ([reply] + none);
    ScriptedCommandAcknowledged(cmdId, args, kind, ack, [reply] + none);
    ScriptedReplyAccepted(queryId, numArgs, reply, none, [PairCommand(cmdId, args)], v);
  }

  /**
   * The $PQTM OK reply cannot be accepted from a buffer of 22 bytes: its
   * seventeen identifier bytes and the five-byte checksum tail already
   * fill it, leaving no room for the terminator.
   */
  lemma DrAckNeedsTwentyTwoBytes(reply: string)
    requires AckCode(DrAckOk, reply) == CmdSendSuccess
    ensures |reply| >= AckBufferSize
  {
    DrResponseOkLength();
    assert ToSize(|DrResponseOk|) == DrCmdResponseFixedLength;
    assert ParseDrCmdResponse(reply, |reply|, DrResponseOk, |DrResponseOk|, 1) == CmdSendSuccess;
    StarOutsideOkPrefix(reply, |reply| - 5);
  }

  /**
   * The `$PQTM` acknowledgement check accepts a reply exactly when it fully
   * validates, checksum included, against "$PQTMCFGEINSMSGOK" and its first
   * seventeen bytes are that text.
   */
  lemma DrAckAcceptsExactly(reply: string)
    ensures AckCode(DrAckOk, reply) == CmdSendSuccess <==>
      ValidateString(DrResponseOk, reply, |reply|, 1) == ValidResponse &&
      StrnEqual(reply, DrResponseOk, DrCmdResponseFixedLength)
  {
    DrResponseOkLength();
    assert ToSize(|DrResponseOk|) == DrCmdResponseFixedLength;
    DrParseMatchesValidate(reply, |reply|, DrResponseOk, |DrResponseOk|, 1);
  }

  /** No `*` occurs in the seventeen bytes that match "$PQTMCFGEINSMSGOK". */
  lemma StarOutsideOkPrefix(reply: string, i: int)
    requires StrnEqual(reply, DrResponseOk, DrCmdResponseFixedLength)
    ensures 0 <= i < DrCmdResponseFixedLength ==> CAt(reply, i) != '*'
  {
    if 0 <= i < |reply| && i < DrCmdResponseFixedLength {
      if |reply| <= DrCmdResponseFixedLength {
        assert reply == DrResponseOk;
      } else {
        assert reply[i] == reply[..DrCmdResponseFixedLength][i];
      }
    }
  }

  /**
   * The well-formed $PQTM OK reply, "$PQTMCFGEINSMSGOK*" with its checksum
   * and CR LF, is acknowledged; it has 22 characters, so with its
   * terminator it needs 23 bytes.
   */
  lemma DrOkReplyAcknowledged()
    ensures |PairCommand(DrResponseOk, [])| == AckBufferSize
    ensures AckCode(DrAckOk, PairCommand(DrResponseOk, [])) == CmdSendSuccess
  {
    var s := PairCommand(DrResponseOk, []);
    BuiltCommandValidates(DrResponseOk, []);
    DrResponseOkLength();
    DrParseMatchesValidate(s, |s|, DrResponseOk, |DrResponseOk|, 1);
    assert s[..DrCmdResponseFixedLength] == DrResponseOk;
  }

  /** Once a read has consumed the first reply, the rest fit the remaining buffers. */
  lemma RepliesFitAfterRead(s: Link, first: nat, rest: seq<nat>)
    requires CanRead(s) && RepliesFit(s, [first] + rest)
    ensures RepliesFit(AfterRead(s), rest)
  {
    forall i | 0 <= i < |rest| && i < |AfterRead(s).replies|
      ensures |CStr(AfterRead(s).replies[i])| < rest[i]
    {
      assert AfterRead(s).replies[i] == s.replies[i + 1];
      assert ([first] + rest)[i + 1] == rest[i];
    }
  }

  // ---------------------------------------------------------------
  // The shared sequences, as the driver performs them
  // ---------------------------------------------------------------

  /**
   * The command stage: `lc29_driver_build_pair_cmd` on a zeroed buffer with
   * the first `numArgs` arguments, the write callback, the read callback
   * into a zeroed buffer of `ackSize` bytes, then the acknowledgement parser.
   */
  method SendCommand(t: ScriptedTransport, numArgs: nat, cmdId: string, args: seq<string>, kind: AckKind,
                     ackSize: nat)
    returns (code: int)
    requires numArgs <= |args|
    requires |PairCommand(cmdId, args[..numArgs])| < CmdBufferSize
    requires AckBufferSize <= ackSize && RepliesFit(t.Script(), [ackSize])
    modifies t
    ensures code == Command(cmdId, args[..numArgs], kind, old(t.Script())).code
    ensures t.Script() == Command(cmdId, args[..numArgs], kind, old(t.Script())).link
  {
    var written := WriteCommand(t, numArgs, cmdId, args);
    if !written {
      return CmdSendFail;
    }
    var ackBuf := new char[ackSize](_ => NUL);
    ghost var reply := if CanRead(t.Script()) then t.replies[0] else "";
    assert ackBuf[..] == seq(ackSize, _ => NUL);
    var rd := t.Read(ackBuf);
    if rd != DriverSuccess {
      return CmdSendFail;
    }
    StrcpyIntoZeroed(ackSize, reply);
    match kind
    case PairAckOf(id) =>
      code := ParseResponse(ackBuf, id);
    case DrAckOk =>
      var s := CStr(ackBuf[..]);
      code := ParseDrCmdResponse(s, |s|, DrResponseOk, |DrResponseOk|, 1);
  }

  /**
   * Steps 1 and 2 of every exchange: build the packet and hand it to the
   * write callback. It reports whether the packet was built and written.
   */
  method WriteCommand(t: ScriptedTransport, numArgs: nat, cmdId: string, args: seq<string>) returns (ok: bool)
    requires numArgs <= |args|
    modifies t
    ensures ok == (SelfCheckPasses(cmdId, args[..numArgs]) && old(t.Script()).writeOk)
    ensures t.Script() == if SelfCheckPasses(cmdId, args[..numArgs])
                          then AfterWrite(old(t.Script()), PairCommand(cmdId, args[..numArgs]))
                          else old(t.Script())
  {
    var cmd, v := BuildPairCmd(numArgs, cmdId, args, "");
    assert "" + CommandBody(cmdId, args[..numArgs]) == CommandBody(cmdId, args[..numArgs]);
    if v != ValidResponse {
      return false;
    }
    var w := t.Write(cmd);
    ok := w == DriverSuccess;
  }

  /**
   * The query stage of a getter: the read callback into a zeroed 50-byte
   * query buffer, then `lc29_driver_parse_query_response` with the reply's
   * length into an uninitialised array of ten integers.
   */
  method QueryExchange(t: ScriptedTransport, numArgs: nat, cmdId: string, args: seq<string>, kind: AckKind,
                       ackSize: nat, queryId: string, queryArgs: nat)
    returns (code: int, vals: array<int32>)
    requires numArgs <= |args|
    requires |PairCommand(cmdId, args[..numArgs])| < CmdBufferSize
    requires |queryId| + 1 <= QueryBufferSize && queryArgs < QueryValuesSize
    requires AckBufferSize <= ackSize && RepliesFit(t.Script(), [ackSize, QueryBufferSize])
    modifies t
    ensures fresh(vals) && vals.Length == QueryValuesSize
    ensures var e := Query(cmdId, args[..numArgs], kind, queryId, queryArgs, old(t.Script()));
      && code == e.code && t.Script() == e.link
      && (code == CmdSendSuccess ==> vals[..queryArgs] == e.values)
  {
    ghost var s0 := t.Script();
    ghost var c := Command(cmdId, args[..numArgs], kind, s0);
    assert RepliesFit(s0, [ackSize]);
    code := SendCommand(t, numArgs, cmdId, args, kind, ackSize);
    if code != CmdSendSuccess {
      vals := new int32[QueryValuesSize];
      return;
    }
    AcknowledgedCommand(cmdId, args[..numArgs], kind, s0);
    RepliesFitAfterRead(s0, ackSize, [QueryBufferSize]);
    ghost var s1 := t.Script();
    assert s1 == c.link;
    code, vals := ReadQuery(t, queryId, queryArgs);
    ghost var q := QueryReply(queryId, queryArgs, s1);
    assert Query(cmdId, args[..numArgs], kind, queryId, queryArgs, s0) == q;
  }

  method ReadQuery(t: ScriptedTransport, queryId: string, numArgs: nat) returns (code: int, vals: array<int32>)
    requires |queryId| + 1 <= QueryBufferSize && numArgs < QueryValuesSize
    requires RepliesFit(t.Script(), [QueryBufferSize])
    modifies t
    ensures fresh(vals) && vals.Length == QueryValuesSize
    ensures code == QueryReply(queryId, numArgs, old(t.Script())).code
    ensures t.Script() == QueryReply(queryId, numArgs, old(t.Script())).link
    ensures code == CmdSendSuccess ==> vals[..numArgs] == QueryReply(queryId, numArgs, old(t.Script())).values
  {
    var buf := new char[QueryBufferSize](_ => NUL);
    vals := new int32[QueryValuesSize];
    ghost var reply := if CanRead(t.Script()) then t.replies[0] else "";
    assert buf[..] == seq(QueryBufferSize, _ => NUL);
    var rd := t.Read(buf);
    if rd != DriverSuccess {
      return CmdSendFail, vals;
    }
    StrcpyIntoZeroed(QueryBufferSize, reply);
    var s := CStr(buf[..]);
    code := ParseQueryResponse(buf, queryId, |s|, numArgs, vals);
  }
}
