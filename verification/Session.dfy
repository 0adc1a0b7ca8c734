/**
 * The command/reply state machine of ftplib.c against an arbitrary server that follows the
 * command-reply sequences of section 5.4 of RFC 959 and answers every line it is sent: exactly
 * over which runs of logins, renames and transfers the client has read, after every operation, the
 * replies that the server sent.
 */
module Session {
  import opened Wrappers
  import opened Bytes
  import opened Wire
  import opened NetBuf
  import opened Replies
  import opened HostPort
  import opened Requests
  import opened Commands
  import opened FtpServer

  datatype ConnMode = Passive | Port

  /** A message of the library itself. */
  function Message(s: string): (r: seq<byte>)
    requires 0 < |s| < 100 && 'A' <= s[0] <= 'z'
    ensures IsLocalText(r)
  {
    Ascii(s)
  }

  /** strchr(response, '(') != NULL when the response buffer holds the final line of this reply. */
  predicate HasParen(reply: Reply) {
    PAREN in CString(reply.FinalLine() + [LF])
  }

  /** An operation of the library's user, with what the local system does to it. */
  datatype Operation =
    | LoginOp(user: CText, pass: CText)
    | RenameOp(src: CText, dst: CText)
    | XferOp(path: Option<CText>, typ: OpenType, mode: byte, osOk: bool, waitError: Option<seq<byte>>)
  {
    predicate Legal() {
      XferOp? && waitError.Some? ==> IsLocalText(waitError.value)
    }

    /** What a caller can check before the call: no line ends in any string, and not the one length. */
    predicate Plain(loneLF: bool) {
      match this
      case LoginOp(user, pass) => LineEnds(user, loneLF) == 0 && LineEnds(pass, loneLF) == 0
      case RenameOp(src, dst) => LineEnds(src, loneLF) == 0 && LineEnds(dst, loneLF) == 0
      case XferOp(path, _, mode, _, _) =>
        !TooLong(path) && (path.Some? ==> LineEnds(path.value, loneLF) == 0) && !(loneLF && mode == LF)
    }
  }

  predicate AllLegal(ops: seq<Operation>) {
    ops == [] || (ops[0].Legal() && AllLegal(ops[1..]))
  }

  predicate AllPlain(ops: seq<Operation>, loneLF: bool) {
    ops == [] || (ops[0].Plain(loneLF) && AllPlain(ops[1..], loneLF))
  }

  /**
   * What lies ahead of FtpAccess: whether it gets as far as the transfer command, the replies to
   * further lines of the TYPE command, the answer to the transfer command, and the replies to
   * further lines of that one.
   */
  datatype Prospect = Prospect(reached: bool, ofType: seq<Reply>, answer: TransferAnswer, further: seq<Reply>)

  /** The answers given so far to ordinary commands, to transfer commands and to further lines. */
  datatype Counts = Counts(asked: nat, started: nat, extra: nat)

  /** An operation of a run: whether it leaves the client out of step, its commands, the counts after it. */
  datatype Turn = Turn(derails: bool, said: seq<CText>, next: Counts)

  class Control {
    const nb: NetBuf
    const cmode: ConnMode
    const address: Address                    // the six octets of a listening data socket
    const script: seq<Reply>                  // the server's answers to the ordinary commands, in order
    const transfers: seq<TransferAnswer>      // its answers to the transfer commands, in order
    const more: seq<seq<Reply>>               // its answers to further lines inside a command, in order
    const loneLF: bool                        // it takes a lone LF, too, for the end of a line
    var asked: nat                            // ordinary commands answered so far
    var started: nat                          // transfer commands answered so far
    var extra: nat                            // further lines answered so far
    var inbox: seq<Reply>                     // replies sent and not yet read
    var stuck: bool                           // the client waits for a reply nobody will send
    ghost var commands: seq<CText>            // commands sent, in order
    ghost var sentReplies: seq<Reply>
    ghost var readReplies: seq<Reply>

    /** The two ends agree about the replies. */
    ghost predicate Wired()
      reads this`inbox, this`sentReplies, this`readReplies
      reads nb, nb.sock`incoming, nb.sock`readPlan, nb.buf
    {
      && nb.Valid() && nb.dir == Direction.Control && nb.buf != null
      && ReadFail !in nb.sock.readPlan && nb.Pending() == Stream(inbox) && AllWhole(inbox)
      && sentReplies == readReplies + inbox
    }

    /** Every line on the wire has been answered, each by the next entry of one of the scripts. */
    ghost predicate Answered()
      reads this`commands, this`asked, this`started, this`extra, nb.sock`sent, nb.sock`writePlan
    {
      && NeverShort(nb.sock.writePlan) && nb.sock.sent == Spoken(commands) && |commands| == asked + started
      && LineEnds(nb.sock.sent, loneLF) == asked + started + extra
    }

    ghost predicate Valid()
      reads this, nb, nb.sock, nb.buf
    {
      Wired() && Answered()
    }

    /** What the server hears, from the octets on the connection alone. */
    ghost function RequestsHeard(): (r: seq<Request>)
      reads nb, nb.sock`sent
    {
      Heard(nb.sock.sent, loneLF)
    }

    /** Commands that no string of the caller's breaks are heard as they are. */
    lemma HeardSince(before: seq<CText>, said: seq<CText>)
      requires Answered() && commands == before + said && forall cmd | cmd in said :: LineEnds(cmd, loneLF) == 0
      ensures RequestsHeard() == Heard(Spoken(before), loneLF) + ReadAll(said)
    {
      CommandsAreHeard(before, said, loneLF);
    }

    /** The server keeps to the grammar of replies and to the command-reply sequences. */
    ghost predicate Lawful() {
      AllAnswers(script) && AllTransfers(transfers) && AllMore(more)
    }

    /** A connection whose greeting has been read, towards a server with the given scripts. */
    constructor (nb: NetBuf, cmode: ConnMode, address: Address, script: seq<Reply>,
                 transfers: seq<TransferAnswer>, more: seq<seq<Reply>>, loneLF: bool)
      requires nb.Valid() && nb.dir == Direction.Control && nb.buf != null && nb.Pending() == [] && nb.sock.sent == []
      requires ReadFail !in nb.sock.readPlan && NeverShort(nb.sock.writePlan)
      requires AllAnswers(script) && AllTransfers(transfers) && AllMore(more)
      ensures Valid() && Lawful() && InStep() && asked == 0 && started == 0 && extra == 0 && commands == []
      ensures this.nb == nb && this.cmode == cmode && this.address == address
      ensures this.script == script && this.transfers == transfers && this.more == more && this.loneLF == loneLF
    {
      this.nb, this.cmode, this.address, this.loneLF := nb, cmode, address, loneLF;
      this.script, this.transfers, this.more := script, transfers, more;
      this.asked, this.started, this.extra := 0, 0, 0;
      this.inbox, this.stuck := [], false;
      this.commands := [];
      this.sentReplies, this.readReplies := [], [];
    }

    ghost function Now(): (c: Counts)
      reads this`asked, this`started, this`extra
    {
      Counts(asked, started, extra)
    }

    /** These replies are still to be read, and the client is not waiting in vain. */
    predicate Ahead(replies: seq<Reply>)
      reads this
    {
      inbox == replies && !stuck
    }

    /** In step: every reply sent has been read, and the client is not waiting. */
    predicate InStep()
      reads this
    {
      |inbox| == 0 && !stuck
    }

    /** The response buffer starts with the digit of this reply, which is the expected one iff ok. */
    ghost predicate Tells(ok: bool, exp: byte, reply: Reply)
      reads nb.response
    {
      nb.response.Length > 0 && nb.response[0] == reply.Digit() && (ok <==> reply.Digit() == exp)
    }

    /** Besides, it holds the reply's final line. */
    ghost predicate Read(ok: bool, exp: byte, reply: Reply)
      reads nb, nb.response
    {
      Tells(ok, exp, reply) && Holds(nb, reply.FinalLine())
    }

    /** The server puts replies on the wire. */
    method ServerSends(replies: seq<Reply>)
      requires Wired() && AllWhole(replies)
      modifies this`inbox, this`sentReplies, nb.sock`incoming
      ensures Wired() && inbox == old(inbox) + replies
    {
      StreamAppend(inbox, replies);
      ConcatAssociative(nb.held, nb.sock.incoming, Stream(replies));
      ConcatAssociative(readReplies, inbox, replies);
      nb.sock.incoming := nb.sock.incoming + Stream(replies);
      inbox := inbox + replies;
      sentReplies := sentReplies + replies;
    }

    /** readresp on a reply that has been sent. */
    method ReadSent(c: byte, ghost head: Reply) returns (ok: bool)
      requires Wired() && |inbox| > 0 && inbox[0] == head
      modifies this`inbox, this`readReplies
      modifies nb, nb.sock`incoming, nb.sock`readPlan, nb.buf, nb.response
      ensures Wired() && inbox == old(inbox)[1..] && Read(ok, c, head)
    {
      ghost var complete;
      StreamHead(inbox);
      ok, complete := ReadResp(c, nb, head, Stream(inbox[1..]));
      HeadMoves(readReplies, inbox);
      readReplies, inbox := readReplies + [head], inbox[1..];
    }

    /** readresp with the server on the other side: waits for ever when there is no reply to come. */
    method ReadReply(c: byte) returns (ok: bool)
      requires Wired() && !stuck
      modifies this`inbox, this`stuck, this`readReplies
      modifies nb, nb.sock`incoming, nb.sock`readPlan, nb.buf, nb.response
      ensures Wired()
      ensures if |old(inbox)| == 0 then stuck && !ok && |inbox| == 0
              else Ahead(old(inbox)[1..]) && Read(ok, c, old(inbox)[0])
    {
      if |inbox| == 0 {
        stuck, ok := true, false;
      } else {
        ok := ReadSent(c, inbox[0]);
      }
    }

    /** sprintf(buf, "%s\r\n", cmd) and net_write. */
    method PutLine(cmd: CText) returns (n: int)
      requires NeverShort(nb.sock.writePlan)
      modifies nb.sock`sent, nb.sock`writePlan
      ensures NeverShort(nb.sock.writePlan) && n == |cmd| + 2
      ensures nb.sock.sent == old(nb.sock.sent) + (cmd + [CR, LF])
    {
      var line := cmd + [CR, LF];
      var buf := new byte[|line|](i requires 0 <= i < |line| => line[i]);
      assert buf[0..0 + |line|] == line;
      n := nb.sock.NetWrite(buf, 0, |line|);
    }

    /** A command goes out; the counters tell which scripts the server goes on with. */
    method WriteCommand(cmd: CText, transfer: bool)
      requires Answered()
      modifies this`commands, this`asked, this`started, this`extra, nb.sock`sent, nb.sock`writePlan
      ensures Answered() && commands == old(commands) + [cmd] && extra == old(extra) + LineEnds(cmd, loneLF)
      ensures asked == old(asked) + (if transfer then 0 else 1) && started == old(started) + if transfer then 1 else 0
    {
      ghost var sent := nb.sock.sent;
      var n := PutLine(cmd);
      SpokenAppend(commands, cmd, loneLF, sent, nb.sock.sent);
      commands, extra := commands + [cmd], extra + LineEnds(cmd, loneLF);
      asked, started := if transfer then asked else asked + 1, if transfer then started + 1 else started;
    }

    /** The server's answers to the lines of a command that come after the first. */
    ghost function Further(cmd: CText): (r: seq<Reply>)
      reads this`extra
    {
      Extra(more, extra, LineEnds(cmd, loneLF))
    }

    /** The server makes up its mind about an ordinary command ... */
    method ReactOrdinary(cmd: CText) returns (first: Reply, further: seq<Reply>)
      requires Lawful()
      ensures first == Nth(script, asked) && further == Further(cmd) && AllWhole([first] + further)
    {
      OrdinaryRepliesAreWhole(script, more, asked, extra, LineEnds(cmd, loneLF));
      first, further := Nth(script, asked), Extra(more, extra, LineEnds(cmd, loneLF));
    }

    /** ... and about one that starts a transfer: the replies to the transfer come first. */
    method ReactTransfer(cmd: CText) returns (answer: TransferAnswer, further: seq<Reply>)
      requires Lawful()
      ensures answer == NextTransfer() && further == Further(cmd) && answer.FirstTells() && answer.Concludes()
      ensures AllWhole([answer.First()] + (answer.Rest() + further))
    {
      TransferRepliesAreWhole(transfers, more, started, extra, LineEnds(cmd, loneLF));
      answer, further := NthTransfer(transfers, started), Extra(more, extra, LineEnds(cmd, loneLF));
    }

    /** What the server and the system do to the transfer command that FtpAccess sends next. */
    ghost function NextTransfer(): (r: TransferAnswer)
      reads this`started
    {
      NthTransfer(transfers, started)
    }

    /** The further lines that FtpSendCmd sends with this command. */
    function FurtherLines(cmd: CText): (n: nat) {
      if CommandAccepted(cmd) then LineEnds(cmd, loneLF) else 0
    }

    /** A command goes out and the server's replies come in. */
    method Ask(cmd: CText, transfer: bool, replies: seq<Reply>)
      requires Valid() && AllWhole(replies) && CommandAccepted(cmd)
      modifies this`inbox, this`asked, this`started, this`extra, this`commands, this`sentReplies
      modifies nb.sock`incoming, nb.sock`sent, nb.sock`writePlan
      ensures Valid() && commands == old(commands) + [cmd] && inbox == old(inbox) + replies
      ensures asked == old(asked) + (if transfer then 0 else 1) && started == old(started) + if transfer then 1 else 0
      ensures extra == old(extra) + LineEnds(cmd, loneLF)
    {
      WriteCommand(cmd, transfer);
      assert Wired();
      ServerSends(replies);
      assert Answered();
    }

    /** The command is sent and the oldest reply that is left is read. */
    method Exchange(cmd: CText, exp: byte, transfer: bool, replies: seq<Reply>,
                    ghost head: Reply, ghost rest: seq<Reply>) returns (ok: bool)
      requires Valid() && !stuck && CommandAccepted(cmd) && AllWhole(replies) && inbox + replies == [head] + rest
      modifies this`inbox, this`stuck, this`asked, this`started, this`extra
      modifies this`commands, this`sentReplies, this`readReplies
      modifies nb, nb.sock, nb.buf, nb.response
      ensures Valid() && commands == old(commands) + [cmd]
      ensures asked == old(asked) + (if transfer then 0 else 1) && started == old(started) + if transfer then 1 else 0
      ensures extra == old(extra) + LineEnds(cmd, loneLF)
      ensures Ahead(rest) && Read(ok, exp, head)
    {
      Ask(cmd, transfer, replies);
      assert inbox[0] == head && inbox[1..] == rest;
      ok := ReadReply(exp);
    }

    /** strcpy or strncpy of a local message into the response buffer. */
    method SetResponse(text: seq<byte>)
      requires Valid() && IsLocalText(text)
      modifies nb.response
      ensures Valid() && nb.response[0] == text[0]
    {
      forall i | 0 <= i < |text| {
        nb.response[i] := text[i];
      }
      nb.response[|text|] := NUL;
    }

    /** FtpClose of a data connection: waits for one more reply unless the last response was 4yz or 5yz. */
    method CloseData(ghost replies: seq<Reply>) returns (ok: bool)
      requires Valid() && Ahead(replies)
      modifies this`inbox, this`stuck, this`readReplies
      modifies nb, nb.sock`incoming, nb.sock`readPlan, nb.buf, nb.response
      ensures Valid()
      ensures var refused := old(nb.response[0]) == FOUR || old(nb.response[0]) == FIVE;
              if refused then ok && Ahead(replies)
              else if |replies| == 0 then stuck && !ok && |inbox| == 0
              else Ahead(replies[1..]) && (ok <==> replies[0].Digit() == TWO)
    {
      if nb.response[0] != FOUR && nb.response[0] != FIVE {
        ok := ReadReply(TWO);
      } else {
        ok := true;
      }
    }

    /** FtpAcceptConnection while the final reply of a transfer is to come. */
    method AcceptConnection(event: AcceptEvent, ghost replies: seq<Reply>) returns (ok: bool)
      requires Valid() && Ahead(replies) && |replies| > 0 && event.Legal()
      modifies this`inbox, this`stuck, this`readReplies
      modifies nb, nb.sock`incoming, nb.sock`readPlan, nb.buf, nb.response
      ensures Valid()
      ensures ok <==> event.Accepted?
      ensures event.Accepted? ==> Ahead(replies) && nb.response[..] == old(nb.response[..])
      ensures event.ControlReady? ==> Ahead(replies[1..]) && nb.response[0] == replies[0].Digit()
      ensures !event.Accepted? && !event.ControlReady? ==> Ahead(replies) && nb.response[0] > DIGIT9
    {
      match event {
        case SelectFailed(text) =>
          SetResponse(text);
          ok := false;
        case TimedOut =>
          SetResponse(Message("timed out waiting for connection"));
          ok := false;
        case Accepted =>
          ok := true;
        case AcceptFailed(text) =>
          SetResponse(text);
          ok := false;
        case ControlReady =>
          ok := ReadReply(TWO);
          ok := false;
      }
    }

    /** The i-th answer to an ordinary command opens the data port. */
    ghost predicate PortOpens(i: nat, osOk: bool) {
      var answer := Nth(script, i);
      osOk && answer.Digit() == TWO && (cmode == Passive ==> HasParen(answer))
    }

    lemma ResponseParen(answer: Reply)
      requires nb.Valid() && Holds(nb, answer.FinalLine())
      ensures HasParen(answer) <==> PAREN in CString(nb.response[..])
    {
      var line := answer.FinalLine() + [LF];
      var after := nb.response[|line|..];
      assert nb.response[..] == line + after;
      CStringPrefix(line, after);
    }

    /** What FtpOpenPort says to the server: nothing for a bad mode or without a listening socket. */
    ghost function PortCommands(mode: byte, osOk: bool): (r: seq<CText>)
    {
      if !IsMode(mode) then []
      else if cmode == Passive then [PassiveCommand()]
      else if osOk then [PortCommand(address)]
      else []
    }

    /** No line of the command is left over iff the caller's string has no line end. */
    lemma FurtherIsEmptyIff(cmd: CText, extra: nat)
      requires Lawful()
      ensures |Extra(more, extra, LineEnds(cmd, loneLF))| == 0 <==> LineEnds(cmd, loneLF) == 0
    {
      ExtraIsLegal(more, extra, LineEnds(cmd, loneLF));
    }

    /** FtpSendCmd for an ordinary command that fits, when the replies `before` are still to be read. */
    method SendOrdinary(cmd: CText, exp: byte, ghost before: seq<Reply>) returns (ok: bool)
      requires Valid() && Lawful() && CommandAccepted(cmd) && Ahead(before)
      modifies this`inbox, this`stuck, this`asked, this`started, this`extra
      modifies this`commands, this`sentReplies, this`readReplies
      modifies nb, nb.sock, nb.buf, nb.response
      ensures Valid() && commands == old(commands) + [cmd] && asked == old(asked) + 1 && started == old(started)
      ensures extra == old(extra) + LineEnds(cmd, loneLF) && !stuck
      ensures |inbox| == 0 <==> |before| == 0 && LineEnds(cmd, loneLF) == 0
      ensures |before| == 0 ==> Read(ok, exp, Nth(script, old(asked))) && inbox == old(Further(cmd))
    {
      var first, further := ReactOrdinary(cmd);
      ghost var head, rest := OldestFirst(before, first, further);
      FurtherIsEmptyIff(cmd, extra);
      ok := Exchange(cmd, exp, false, [first] + further, head, rest);
    }

    /** FtpSendCmd for an ordinary command: one that does not fit is not sent. */
    method SendCmd(cmd: CText, exp: byte, ghost before: seq<Reply>) returns (ok: bool)
      requires Valid() && Lawful() && Ahead(before)
      modifies this`inbox, this`stuck, this`asked, this`started, this`extra
      modifies this`commands, this`sentReplies, this`readReplies
      modifies nb, nb.sock, nb.buf, nb.response
      ensures Valid() && commands == old(commands) + IfAccepted(cmd) && started == old(started)
      ensures asked == old(asked) + (if CommandAccepted(cmd) then 1 else 0) && !stuck
      ensures extra == old(extra) + FurtherLines(cmd)
      ensures |inbox| == 0 <==> |before| == 0 && FurtherLines(cmd) == 0
      ensures CommandAccepted(cmd) && |before| == 0 ==> Tells(ok, exp, Nth(script, old(asked)))
      ensures !CommandAccepted(cmd) ==> !ok && nb.response[..] == old(nb.response[..])
    {
      ok := false;
      if CommandAccepted(cmd) {
        ok := SendOrdinary(cmd, exp, before);
      }
    }

    /** The same for a command of one line, in step. */
    method SendPlain(cmd: CText, exp: byte) returns (ok: bool)
      requires Valid() && Lawful() && InStep() && CommandAccepted(cmd) && LineEnds(cmd, loneLF) == 0
      modifies this`inbox, this`stuck, this`asked, this`started, this`extra
      modifies this`commands, this`sentReplies, this`readReplies
      modifies nb, nb.sock, nb.buf, nb.response
      ensures Valid() && InStep() && started == old(started) && extra == old(extra)
      ensures commands == old(commands) + [cmd]
      ensures Read(ok, exp, Nth(script, old(asked)))
    {
      ok := SendOrdinary(cmd, exp, []);
    }

    /** FtpOpenPort; osOk tells whether socket, connect, bind and listen succeed. */
    method OpenPort(mode: byte, osOk: bool) returns (ok: bool)
      requires Valid() && Lawful() && (IsMode(mode) ==> InStep())
      modifies this`inbox, this`stuck, this`asked, this`started, this`extra
      modifies this`commands, this`sentReplies, this`readReplies
      modifies nb, nb.sock, nb.buf, nb.response
      ensures Valid() && started == old(started) && extra == old(extra)
      ensures inbox == old(inbox) && stuck == old(stuck)
      ensures commands == old(commands) + PortCommands(mode, osOk)
      ensures ok <==> IsMode(mode) && PortOpens(old(asked), osOk)
      ensures ok ==> nb.response[0] == TWO
    {
      ok := false;
      if !IsMode(mode) {
        SetResponse(Message("Invalid mode"));
      } else if cmode == Passive {
        LineEndsOfArguments([], loneLF);
        ok := SendPlain(PassiveCommand(), TWO);
        ResponseParen(Nth(script, old(asked)));
        ok := ok && PAREN in CString(nb.response[..]) && osOk;
      } else if osOk {
        PortCommandFits(address, loneLF);
        ok := SendPlain(PortCommand(address), TWO);
      }
    }

    /** FtpAccess gets as far as the transfer command; asked counts the answers before it starts. */
    ghost predicate Reaches(path: Option<CText>, typ: OpenType, mode: byte, osOk: bool, asked: nat) {
      && typ != OtherType && !MissingPath(path, typ)
      && Nth(script, asked).Digit() == TWO && PathReaches(path, mode, osOk, asked + 1)
    }

    /** The same after a successful TYPE command. */
    ghost predicate PathReaches(path: Option<CText>, mode: byte, osOk: bool, asked: nat) {
      PathAccepted(path) && IsMode(mode) && PortOpens(asked, osOk)
    }

    /** The data connection is usable after the preliminary reply. */
    ghost predicate Opens(answer: TransferAnswer) {
      answer.Started? && (cmode == Port ==> answer.event.Accepted?)
    }

    /** The final reply is read while the client waits for the data connection, and reports success. */
    ghost predicate CompletesEarly(answer: TransferAnswer) {
      answer.Started? && cmode == Port && answer.event.ControlReady? && answer.final.Digit() == TWO
    }

    /** After a transfer command that did not open a data connection: further are the extra replies. */
    ghost predicate GaveUp(answer: TransferAnswer, further: seq<Reply>)
      reads this
    {
      if !CompletesEarly(answer) then Ahead(further)
      else if |further| == 0 then stuck && |inbox| == 0
      else Ahead(further[1..])
    }

    /** How the second half of FtpAccess ends for a command that could or could not be sent. */
    ghost predicate Settles(accepted: bool, answer: TransferAnswer, further: seq<Reply>, ok: bool)
      reads this, nb.response
    {
      if !accepted then !ok && stuck
      else if Opens(answer) then
        ok && Ahead([answer.final] + further) && nb.response.Length > 0 && nb.response[0] == ONE
      else !ok && GaveUp(answer, further)
    }

    /** After the preliminary reply: the data connection, and what is done when there is none. */
    method Connect(started: bool, answer: TransferAnswer, ghost further: seq<Reply>) returns (ok: bool)
      requires Valid() && started == answer.Started? && answer.Concludes()
      requires Ahead(if started then [answer.final] + further else further)
      requires if started then nb.response[0] == ONE else nb.response[0] == FOUR || nb.response[0] == FIVE
      modifies this`inbox, this`stuck, this`readReplies
      modifies nb, nb.sock`incoming, nb.sock`readPlan, nb.buf, nb.response
      ensures Valid() && Settles(true, answer, further, ok)
    {
      ghost var rest := if started then [answer.final] + further else further;
      assert started ==> rest[1..] == further;
      ok := started;
      if ok && cmode == Port {
        ok := AcceptConnection(answer.event, rest);
      }
      if !ok {
        var closed := CloseData(if started && answer.event.ControlReady? then further else rest);
      }
    }

    /** A transfer command that FtpSendCmd sends. */
    method SendTransfer(cmd: CText) returns (answer: TransferAnswer, started: bool)
      requires Valid() && Lawful() && InStep() && CommandAccepted(cmd)
      modifies this`inbox, this`stuck, this`asked, this`started, this`extra
      modifies this`commands, this`sentReplies, this`readReplies
      modifies nb, nb.sock, nb.buf, nb.response
      ensures Valid() && commands == old(commands) + [cmd] && extra == old(extra) + LineEnds(cmd, loneLF)
      ensures asked == old(asked) && this.started == old(this.started) + 1
      ensures answer == old(NextTransfer()) && answer.Concludes() && started == answer.Started?
      ensures Ahead(if started then [answer.final] + old(Further(cmd)) else old(Further(cmd)))
      ensures if started then nb.response[0] == ONE else nb.response[0] == FOUR || nb.response[0] == FIVE
    {
      var further;
      answer, further := ReactTransfer(cmd);
      ghost var rest := answer.Rest() + further;
      started := Exchange(cmd, ONE, true, [answer.First()] + (answer.Rest() + further), answer.First(), rest);
      assert rest == if started then [answer.final] + further else further;
    }

    /** It, and the data connection. */
    method Launch(cmd: CText) returns (ok: bool)
      requires Valid() && Lawful() && InStep() && CommandAccepted(cmd)
      modifies this`inbox, this`stuck, this`asked, this`started, this`extra
      modifies this`commands, this`sentReplies, this`readReplies
      modifies nb, nb.sock, nb.buf, nb.response
      ensures Valid() && commands == old(commands) + [cmd] && extra == old(extra) + LineEnds(cmd, loneLF)
      ensures asked == old(asked) && started == old(started) + 1
      ensures Settles(true, old(NextTransfer()), old(Further(cmd)), ok)
    {
      ghost var further := Further(cmd);
      var answer;
      answer, ok := SendTransfer(cmd);
      ghost var said := commands;
      ok := Connect(ok, answer, further);
      assert commands == said;
    }

    /** The second half of FtpAccess: without a command on the wire there is nothing to wait for. */
    method StartTransfer(cmd: CText) returns (ok: bool)
      requires Valid() && Lawful() && InStep() && nb.response[0] == TWO
      modifies this`inbox, this`stuck, this`asked, this`started, this`extra
      modifies this`commands, this`sentReplies, this`readReplies
      modifies nb, nb.sock, nb.buf, nb.response
      ensures Valid() && commands == old(commands) + IfAccepted(cmd) && extra == old(extra) + FurtherLines(cmd)
      ensures asked == old(asked) && started == old(started) + (if CommandAccepted(cmd) then 1 else 0)
      ensures Settles(CommandAccepted(cmd), old(NextTransfer()), old(Further(cmd)), ok)
    {
      if CommandAccepted(cmd) {
        ok := Launch(cmd);
      } else {
        var closed := CloseData([]);
        ok := false;
      }
    }

    // ---------- FtpAccess and FtpXfer ----------

    /** What FtpAccess says after a successful TYPE command; asked counts the answers up to then. */
    ghost function PathCommands(path: Option<CText>, typ: OpenType, mode: byte, osOk: bool, asked: nat): (r: seq<CText>)
    {
      if PathReaches(path, mode, osOk, asked) then PortCommands(mode, osOk) + IfAccepted(TransferCommand(path, typ))
      else if PathAccepted(path) then PortCommands(mode, osOk)
      else []
    }

    /** All that FtpAccess says to the server. */
    ghost function AccessCommands(path: Option<CText>, typ: OpenType, mode: byte, osOk: bool, asked: nat)
      : (r: seq<CText>)
    {
      if MissingPath(path, typ) then []
      else if typ == OtherType || Nth(script, asked).Digit() != TWO then [TypeCommand(mode)]
      else [TypeCommand(mode)] + PathCommands(path, typ, mode, osOk, asked + 1)
    }

    /** What lies ahead of FtpAccess after that many answers of each kind. */
    ghost function OutlookAt(path: Option<CText>, typ: OpenType, mode: byte, osOk: bool, c: Counts): (r: Prospect) {
      Prospect(Reaches(path, typ, mode, osOk, c.asked),
               if MissingPath(path, typ) then [] else Extra(more, c.extra, LineEnds(TypeCommand(mode), loneLF)),
               NthTransfer(transfers, c.started),
               Extra(more, c.extra, LineEnds(TransferCommand(path, typ), loneLF)))
    }

    ghost function Outlook(path: Option<CText>, typ: OpenType, mode: byte, osOk: bool): (r: Prospect)
      reads this`asked, this`started, this`extra
    {
      OutlookAt(path, typ, mode, osOk, Now())
    }

    /** How FtpAccess ends: it gives up before the transfer command, or as said above. */
    ghost predicate Accessed(path: Option<CText>, p: Prospect, ok: bool)
      reads this, nb.response
    {
      if p.reached then Settles(!TooLong(path), p.answer, p.further, ok) else !ok && Ahead(p.ofType)
    }

    /** How many transfer commands go out. */
    ghost function Starts(reached: bool, path: Option<CText>): (n: nat) {
      if reached && !TooLong(path) then 1 else 0
    }

    /** How many further lines go out with them. */
    ghost function PathLines(reached: bool, path: Option<CText>, typ: OpenType): (n: nat) {
      if reached && !TooLong(path) then LineEnds(TransferCommand(path, typ), loneLF) else 0
    }

    /** FtpAccess after a successful TYPE command: the path, the data port and the transfer command. */
    method AccessPath(path: Option<CText>, typ: OpenType, mode: byte, osOk: bool, ghost p: Prospect)
      returns (ok: bool)
      requires Valid() && Lawful() && Ahead(p.ofType) && typ != OtherType && !MissingPath(path, typ)
      requires IsMode(mode) ==>
        |p.ofType| == 0 && p.answer == NextTransfer() && p.further == Further(TransferCommand(path, typ))
      requires p.reached <==> PathReaches(path, mode, osOk, asked)
      modifies this`inbox, this`stuck, this`asked, this`started, this`extra
      modifies this`commands, this`sentReplies, this`readReplies
      modifies nb, nb.sock, nb.buf, nb.response
      ensures Valid() && commands == old(commands) + PathCommands(path, typ, mode, osOk, old(asked))
      ensures started == old(started) + Starts(p.reached, path) && extra == old(extra) + PathLines(p.reached, path, typ)
      ensures Accessed(path, p, ok)
    {
      ok := false;
      if PathAccepted(path) {
        var cmd := TransferCommand(path, typ);
        PathGuardsDisagree(path, typ);
        ok := OpenPort(mode, osOk);
        if ok {
          ok := StartTransfer(cmd);
          ConcatAssociative(old(commands), PortCommands(mode, osOk), IfAccepted(cmd));
        }
      }
    }

    /** The TYPE command. */
    method SendType(mode: byte) returns (ok: bool)
      requires Valid() && Lawful() && InStep()
      modifies this`inbox, this`stuck, this`asked, this`started, this`extra
      modifies this`commands, this`sentReplies, this`readReplies
      modifies nb, nb.sock, nb.buf, nb.response
      ensures Valid() && Ahead(old(Further(TypeCommand(mode)))) && asked == old(asked) + 1 && started == old(started)
      ensures extra == old(extra) + LineEnds(TypeCommand(mode), loneLF)
      ensures commands == old(commands) + [TypeCommand(mode)]
      ensures ok <==> Nth(script, old(asked)).Digit() == TWO
      ensures IsMode(mode) ==> InStep() && extra == old(extra)
    {
      LineEndsOfType(mode, loneLF);
      ghost var first, further := Nth(script, asked), Further(TypeCommand(mode));
      ok := SendOrdinary(TypeCommand(mode), TWO, []);
      assert Ahead(further) && (ok <==> first.Digit() == TWO);
    }

    /** The switch on the kind of transfer. */
    method KnowsType(typ: OpenType) returns (ok: bool)
      requires Valid()
      modifies nb.response
      ensures Valid() && (ok <==> typ != OtherType)
    {
      ok := typ != OtherType;
      if !ok {
        SetResponse(Message("Invalid open type"));
      }
    }

    /** The TYPE command, after which an unknown kind of transfer is given up. */
    method SetType(typ: OpenType, mode: byte) returns (ok: bool)
      requires Valid() && Lawful() && InStep()
      modifies this`inbox, this`stuck, this`asked, this`started, this`extra
      modifies this`commands, this`sentReplies, this`readReplies
      modifies nb, nb.sock, nb.buf, nb.response
      ensures Valid() && Ahead(old(Further(TypeCommand(mode)))) && asked == old(asked) + 1 && started == old(started)
      ensures extra == old(extra) + LineEnds(TypeCommand(mode), loneLF)
      ensures commands == old(commands) + [TypeCommand(mode)]
      ensures ok <==> Nth(script, old(asked)).Digit() == TWO && typ != OtherType
      ensures IsMode(mode) ==> InStep() && extra == old(extra)
    {
      ok := SendType(mode);
      if ok {
        ok := KnowsType(typ);
      }
    }

    /** The further lines of FtpAccess: those of the TYPE command, and those of the path. */
    ghost function AccessLines(reached: bool, path: Option<CText>, typ: OpenType, mode: byte): (n: nat) {
      if MissingPath(path, typ) then 0 else LineEnds(TypeCommand(mode), loneLF) + PathLines(reached, path, typ)
    }

    /** What goes out in the two halves of FtpAccess together. */
    lemma AccessAddsUp(path: Option<CText>, typ: OpenType, mode: byte, osOk: bool, asked: nat, asked': nat,
                       goesOn: bool, before: seq<CText>, mid: seq<CText>, more: seq<CText>)
      requires !MissingPath(path, typ) && mid == before + [TypeCommand(mode)] && asked' == asked + 1
      requires goesOn <==> Nth(script, asked).Digit() == TWO && typ != OtherType
      requires more == if goesOn then PathCommands(path, typ, mode, osOk, asked') else []
      ensures mid + more == before + AccessCommands(path, typ, mode, osOk, asked)
      ensures Reaches(path, typ, mode, osOk, asked) <==> goesOn && PathReaches(path, mode, osOk, asked')
    {
    }

    /** FtpAccess for a path that is not missing: the TYPE command and what follows. */
    method AccessTyped(path: Option<CText>, typ: OpenType, mode: byte, osOk: bool, ghost p: Prospect) returns (ok: bool)
      requires Valid() && Lawful() && InStep() && !MissingPath(path, typ) && p == Outlook(path, typ, mode, osOk)
      modifies this`inbox, this`stuck, this`asked, this`started, this`extra
      modifies this`commands, this`sentReplies, this`readReplies
      modifies nb, nb.sock, nb.buf, nb.response
      ensures Valid() && commands == old(commands) + AccessCommands(path, typ, mode, osOk, old(asked))
      ensures started == old(started) + Starts(p.reached, path)
      ensures extra == old(extra) + AccessLines(p.reached, path, typ, mode)
      ensures Accessed(path, p, ok)
    {
      ok := SetType(typ, mode);
      ghost var more := if ok then PathCommands(path, typ, mode, osOk, asked) else [];
      AccessAddsUp(path, typ, mode, osOk, old(asked), asked, ok, old(commands), commands, more);
      if ok {
        ok := AccessPath(path, typ, mode, osOk, p);
      }
    }

    /** How the server hears of the data port. */
    ghost function PortRequest(): (r: Request) {
      if cmode == Passive then EnterPassive
      else var (high: int, low: int) := (address[0], address[1]); DataPort(address[2..], 256 * high + low)
    }

    /** It hears of it when the path, the mode and the listening socket are all right. */
    ghost function PortRequests(path: Option<CText>, mode: byte, osOk: bool): (r: seq<Request>) {
      if PathAccepted(path) && IsMode(mode) && (cmode == Port ==> osOk) then [PortRequest()] else []
    }

    /** What it hears before the transfer command. */
    ghost function PreparingRequests(path: Option<CText>, typ: OpenType, mode: byte, osOk: bool, asked: nat)
      : (r: seq<Request>)
    {
      var representation := ReadRequest(TypeCommand(mode));
      if MissingPath(path, typ) then []
      else if typ == OtherType || Nth(script, asked).Digit() != TWO then [representation]
      else [representation] + PortRequests(path, mode, osOk)
    }

    /** The transfer command as the server hears it. */
    ghost function TransferRequest(path: Option<CText>, typ: OpenType): (r: Request)
      requires !MissingPath(path, typ) && typ != OtherType
    {
      match typ
      case FileRead => Retrieve(path.value)
      case FileWrite => Store(path.value)
      case Dir => NameList(Octets(path))
      case DirVerbose => List(Octets(path))
    }

    /** Neither the path nor the mode breaks a line. */
    predicate Unbroken(path: Option<CText>, mode: byte) {
      (path.Some? ==> LineEnds(path.value, loneLF) == 0) && !(loneLF && mode == LF)
    }

    /**
     * What a server hears of FtpAccess: how the data is represented and where the connection is to be,
     * and then, if FtpAccess gets that far and the command is sent, the transfer that its caller wants.
     */
    ghost function AccessRequests(path: Option<CText>, typ: OpenType, mode: byte, osOk: bool, asked: nat)
      : (r: seq<Request>)
    {
      PreparingRequests(path, typ, mode, osOk, asked) +
      if Reaches(path, typ, mode, osOk, asked) && !TooLong(path) then [TransferRequest(path, typ)] else []
    }

    lemma AccessIsHeard(path: Option<CText>, typ: OpenType, mode: byte, osOk: bool, asked: nat)
      requires Unbroken(path, mode)
      ensures var said := AccessCommands(path, typ, mode, osOk, asked);
        && (forall cmd | cmd in said :: LineEnds(cmd, loneLF) == 0)
        && ReadAll(said) == AccessRequests(path, typ, mode, osOk, asked)
    {
      LineEndsOfType(mode, loneLF);
      var typeCommand := TypeCommand(mode);
      OneRead(typeCommand, ReadRequest(typeCommand));
      if !MissingPath(path, typ) && typ != OtherType && Nth(script, asked).Digit() == TWO {
        var further := PathCommands(path, typ, mode, osOk, asked + 1);
        PathIsHeard(path, typ, mode, osOk, asked + 1);
        ReadAllAppend([typeCommand], further);
        ConcatAssociative([ReadRequest(typeCommand)], PortRequests(path, mode, osOk),
          if PathReaches(path, mode, osOk, asked + 1) && !TooLong(path) then [TransferRequest(path, typ)] else []);
      }
    }

    lemma AccessHeardSince(path: Option<CText>, typ: OpenType, mode: byte, osOk: bool, asked: nat, before: seq<CText>)
      requires Answered() && commands == before + AccessCommands(path, typ, mode, osOk, asked)
      ensures Unbroken(path, mode) ==>
        RequestsHeard() == Heard(Spoken(before), loneLF) + AccessRequests(path, typ, mode, osOk, asked)
    {
      if Unbroken(path, mode) {
        AccessIsHeard(path, typ, mode, osOk, asked);
        HeardSince(before, AccessCommands(path, typ, mode, osOk, asked));
      }
    }

    /**
     * Of these requests, carried out by a server, only one to store changes its files, and only the
     * file of that path; the representation is text for mode A and image for mode I.
     */
    lemma AccessChangesOnly(path: Option<CText>, typ: OpenType, mode: byte, osOk: bool, asked: nat, d: Disk,
                            data: seq<byte>)
      ensures var rs := AccessRequests(path, typ, mode, osOk, asked);
        var starts := Reaches(path, typ, mode, osOk, asked) && !TooLong(path);
        && CarryOutAll(d, rs, data).files ==
             (if starts && typ == FileWrite then d.files[path.value := data] else d.files)
        && (starts ==> (TypeIs(Text) in rs <==> mode == 65) && (TypeIs(Image) in rs <==> mode == 73))
        && (starts && typ == FileRead ==> rs[|rs| - 1] == Retrieve(path.value))
    {
      var first, starts := PreparingRequests(path, typ, mode, osOk, asked),
                           Reaches(path, typ, mode, osOk, asked) && !TooLong(path);
      TypeReads(mode);
      assert forall r | r in first :: Prepares(r);
      OnlyTheLastMatters(d, first, if starts then TransferRequest(path, typ) else EnterPassive, data);
      NothingBehind(first);
    }

    /** A transfer that opens its data connection and ends in step has broken no line. */
    lemma InStepIsUnbroken(path: Option<CText>, typ: OpenType, mode: byte, osOk: bool, c: Counts)
      requires Lawful()
      requires var p := OutlookAt(path, typ, mode, osOk, c);
        p.reached && Opens(p.answer) && !Derailed(path, p)
      ensures Unbroken(path, mode)
    {
      LineEndsOfPath(path, typ, loneLF);
      FurtherIsEmptyIff(TransferCommand(path, typ), c.extra);
    }

    lemma PathIsHeard(path: Option<CText>, typ: OpenType, mode: byte, osOk: bool, asked: nat)
      requires !MissingPath(path, typ) && typ != OtherType && (path.Some? ==> LineEnds(path.value, loneLF) == 0)
      ensures var said := PathCommands(path, typ, mode, osOk, asked);
        && (forall cmd | cmd in said :: LineEnds(cmd, loneLF) == 0)
        && ReadAll(said) == PortRequests(path, mode, osOk) +
             if PathReaches(path, mode, osOk, asked) && !TooLong(path) then [TransferRequest(path, typ)] else []
    {
      PortIsHeard(mode, osOk);
      TransferIsHeard(path, typ);
      ReadAllAppend(PortCommands(mode, osOk), IfAccepted(TransferCommand(path, typ)));
    }

    lemma PortIsHeard(mode: byte, osOk: bool)
      ensures forall cmd | cmd in PortCommands(mode, osOk) :: LineEnds(cmd, loneLF) == 0
      ensures ReadAll(PortCommands(mode, osOk)) ==
        if IsMode(mode) && (cmode == Port ==> osOk) then [PortRequest()] else []
    {
      if cmode == Passive {
        LineEndsOfArguments([], loneLF);
        PassiveReads();
        OneRead(PassiveCommand(), PortRequest());
      } else {
        ListenerIsHeard();
        OneRead(PortCommand(address), PortRequest());
      }
    }

    lemma ListenerIsHeard()
      requires cmode == Port
      ensures LineEnds(PortCommand(address), loneLF) == 0 && ReadRequest(PortCommand(address)) == PortRequest()
    {
      PortCommandFits(address, loneLF);
      PortReads(address);
    }

    lemma TransferIsHeard(path: Option<CText>, typ: OpenType)
      requires !MissingPath(path, typ) && typ != OtherType && (path.Some? ==> LineEnds(path.value, loneLF) == 0)
      ensures forall cmd | cmd in IfAccepted(TransferCommand(path, typ)) :: LineEnds(cmd, loneLF) == 0
      ensures PathAccepted(path) ==>
        ReadAll(IfAccepted(TransferCommand(path, typ))) == if TooLong(path) then [] else [TransferRequest(path, typ)]
    {
      LineEndsOfPath(path, typ, loneLF);
      TransferReads(path, typ);
      PathGuardsDisagree(path, typ);
    }

    /** What FtpAccess has sent since `before` and these counts. */
    ghost predicate Accessing(path: Option<CText>, typ: OpenType, mode: byte, osOk: bool, p: Prospect,
                              before: seq<CText>, was: Counts)
      reads this`commands, this`started, this`extra
    {
      && commands == before + AccessCommands(path, typ, mode, osOk, was.asked)
      && started == was.started + Starts(p.reached, path)
      && extra == was.extra + AccessLines(p.reached, path, typ, mode)
    }

    /**
     * FtpAccess. It gives up before the transfer command, or the data connection is open and the
     * final reply is the next to come, or it gives up after the transfer command.
     */
    method Establish(path: Option<CText>, typ: OpenType, mode: byte, osOk: bool, ghost p: Prospect) returns (ok: bool)
      requires Valid() && Lawful() && InStep() && p == Outlook(path, typ, mode, osOk)
      modifies this`inbox, this`stuck, this`asked, this`started, this`extra
      modifies this`commands, this`sentReplies, this`readReplies
      modifies nb, nb.sock, nb.buf, nb.response
      ensures Valid() && Accessing(path, typ, mode, osOk, p, old(commands), old(Now()))
      ensures Accessed(path, p, ok)
    {
      if MissingPath(path, typ) {
        SetResponse(Message("Missing path argument for file transfer"));
        ok := false;
      } else {
        ok := AccessTyped(path, typ, mode, osOk, p);
      }
    }

    /** The same, and what the server hears of it. */
    method Access(path: Option<CText>, typ: OpenType, mode: byte, osOk: bool, ghost p: Prospect) returns (ok: bool)
      requires Valid() && Lawful() && InStep() && p == Outlook(path, typ, mode, osOk)
      modifies this`inbox, this`stuck, this`asked, this`started, this`extra
      modifies this`commands, this`sentReplies, this`readReplies
      modifies nb, nb.sock, nb.buf, nb.response
      ensures Valid() && Accessing(path, typ, mode, osOk, p, old(commands), old(Now()))
      ensures Accessed(path, p, ok)
      ensures Unbroken(path, mode) ==>
        RequestsHeard() == old(RequestsHeard()) + AccessRequests(path, typ, mode, osOk, old(asked))
    {
      ok := Establish(path, typ, mode, osOk, p);
      AccessHeardSince(path, typ, mode, osOk, old(asked), old(commands));
    }

    /** What FtpXfer does to the control connection once the data has been moved. */
    method EndTransfer(waitError: Option<seq<byte>>, ghost final: Reply, ghost further: seq<Reply>)
      requires Valid() && Ahead([final] + further) && nb.response[0] == ONE
      requires waitError.Some? ==> IsLocalText(waitError.value)
      modifies this`inbox, this`stuck, this`readReplies
      modifies nb, nb.sock`incoming, nb.sock`readPlan, nb.buf, nb.response
      ensures Valid() && Ahead(further)
    {
      if waitError.Some? {
        SetResponse(waitError.value);
      }
      assert ([final] + further)[1..] == further;
      var closed := CloseData([final] + further);
    }

    /**
     * The ways in which a transfer leaves the client out of step. A caller's string breaks a line:
     * the mode, or the path. Or the client waits for a reply nobody will send: the path is one octet
     * too long for FtpSendCmd but not for FtpAccess, or a PORT transfer is reported complete before
     * its data connection is accepted. Only a reply too many and one too few make up for each other.
     */
    ghost predicate Derailed(path: Option<CText>, p: Prospect) {
      if !p.reached then |p.ofType| > 0
      else TooLong(path) || |p.further| != if CompletesEarly(p.answer) then 1 else 0
    }

    /** What a transfer leaves, seen from its beginning. */
    ghost predicate Left(path: Option<CText>, p: Prospect)
      reads this
    {
      if !p.reached then Ahead(p.ofType)
      else if TooLong(path) then stuck
      else GaveUp(p.answer, p.further)
    }

    lemma LeftOver(path: Option<CText>, p: Prospect)
      requires Left(path, p)
      ensures InStep() <==> !Derailed(path, p)
    {
    }

    /** The end of FtpXfer: nothing more when FtpAccess has failed, and otherwise FtpClose. */
    method CloseTransfer(open: bool, waitError: Option<seq<byte>>, ghost path: Option<CText>, ghost p: Prospect)
      requires Valid() && Accessed(path, p, open) && (waitError.Some? ==> IsLocalText(waitError.value))
      modifies this`inbox, this`stuck, this`readReplies
      modifies nb, nb.sock`incoming, nb.sock`readPlan, nb.buf, nb.response
      ensures Valid() && (InStep() <==> !Derailed(path, p))
      ensures open <==> p.reached && !TooLong(path) && Opens(p.answer)
    {
      if open {
        EndTransfer(waitError, p.answer.final, p.further);
      }
      LeftOver(path, p);
    }

    /**
     * FtpXfer without the data loop, which module FileTransfer adds; waitError is the text that a
     * failed select on the data socket leaves in the response buffer.
     */
    method Xfer(path: Option<CText>, typ: OpenType, mode: byte, osOk: bool, waitError: Option<seq<byte>>,
                ghost p: Prospect) returns (ok: bool)
      requires Valid() && Lawful() && InStep() && (waitError.Some? ==> IsLocalText(waitError.value))
      requires p == Outlook(path, typ, mode, osOk)
      modifies this`inbox, this`stuck, this`asked, this`started, this`extra
      modifies this`commands, this`sentReplies, this`readReplies
      modifies nb, nb.sock, nb.buf, nb.response
      ensures Valid() && Accessing(path, typ, mode, osOk, p, old(commands), old(Now()))
      ensures InStep() <==> !Derailed(path, p)
    {
      ok := Establish(path, typ, mode, osOk, p);
      ghost var said, now, more := commands, started, extra;
      CloseTransfer(ok, waitError, path, p);
      assert commands == said && started == now && extra == more;
    }

    // ---------- FtpLogin and FtpRename ----------

    /** What two commands say of which the second follows a 3yz reply to the first. */
    ghost function PairCommands(a: CText, b: CText, asked: nat): (r: seq<CText>) {
      if !CommandAccepted(a) then []
      else if Nth(script, asked).Digit() == THREE then [a] + IfAccepted(b)
      else [a]
    }

    /** The line ends in the strings of those that go out. */
    ghost function PairLines(a: CText, b: CText, asked: nat): (n: nat) {
      FurtherLines(a) + if CommandAccepted(a) && Nth(script, asked).Digit() == THREE then FurtherLines(b) else 0
    }

    /** The first of two commands, in step: the second is due iff it is answered with 3yz. */
    method SendFirst(a: CText) returns (first: bool)
      requires Valid() && Lawful() && InStep()
      modifies this`inbox, this`stuck, this`asked, this`started, this`extra
      modifies this`commands, this`sentReplies, this`readReplies
      modifies nb, nb.sock, nb.buf, nb.response
      ensures Valid() && !stuck && commands == old(commands) + IfAccepted(a)
      ensures asked == old(asked) + if CommandAccepted(a) then 1 else 0
      ensures started == old(started) && extra == old(extra) + FurtherLines(a)
      ensures |inbox| == 0 <==> FurtherLines(a) == 0
      ensures first <==> CommandAccepted(a) && Nth(script, old(asked)).Digit() == THREE
      ensures CommandAccepted(a) ==> nb.response[0] == Nth(script, old(asked)).Digit()
    {
      first := SendCmd(a, THREE, []);
    }

    /** The second one, when it is due. */
    method SendSecond(due: bool, b: CText, ghost before: seq<Reply>) returns (second: bool)
      requires Valid() && Lawful() && Ahead(before)
      modifies this`inbox, this`stuck, this`asked, this`started, this`extra
      modifies this`commands, this`sentReplies, this`readReplies
      modifies nb, nb.sock, nb.buf, nb.response
      ensures Valid() && !stuck && commands == old(commands) + if due then IfAccepted(b) else []
      ensures started == old(started) && extra == old(extra) + if due then FurtherLines(b) else 0
      ensures |inbox| == 0 <==> |before| == 0 && (due ==> FurtherLines(b) == 0)
      ensures !due ==> nb.response[..] == old(nb.response[..])
      ensures |before| == 0 ==> (second <==> due && CommandAccepted(b) && Nth(script, old(asked)).Digit() == TWO)
    {
      second := false;
      if due {
        second := SendCmd(b, TWO, before);
      }
    }

    /** The two halves together. */
    lemma PairAddsUp(a: CText, b: CText, asked: nat, first: bool,
                     before: seq<CText>, mid: seq<CText>, after: seq<CText>, lines0: nat, lines1: nat, lines2: nat)
      requires first <==> CommandAccepted(a) && Nth(script, asked).Digit() == THREE
      requires mid == before + IfAccepted(a) && after == mid + if first then IfAccepted(b) else []
      requires lines1 == lines0 + FurtherLines(a) && lines2 == lines1 + if first then FurtherLines(b) else 0
      ensures after == before + PairCommands(a, b, asked) && lines2 == lines0 + PairLines(a, b, asked)
      ensures PairLines(a, b, asked) == 0 <==> FurtherLines(a) == 0 && (first ==> FurtherLines(b) == 0)
    {
    }

    /** Two commands that no string breaks, as the server hears them. */
    lemma PairIsHeard(a: CText, b: CText, asked: nat, first: Request, second: Request)
      requires LineEnds(a, loneLF) == 0 == LineEnds(b, loneLF)
      requires ReadRequest(a) == first && ReadRequest(b) == second
      ensures forall cmd | cmd in PairCommands(a, b, asked) :: LineEnds(cmd, loneLF) == 0
      ensures ReadAll(PairCommands(a, b, asked)) ==
        if !CommandAccepted(a) then []
        else if Nth(script, asked).Digit() == THREE && CommandAccepted(b) then [first, second]
        else [first]
    {
    }

    /** FtpSendCmd twice: in step iff nothing that goes out breaks a line. */
    method SendPair(a: CText, b: CText) returns (first: bool, second: bool)
      requires Valid() && Lawful() && InStep()
      modifies this`inbox, this`stuck, this`asked, this`started, this`extra
      modifies this`commands, this`sentReplies, this`readReplies
      modifies nb, nb.sock, nb.buf, nb.response
      ensures Valid() && commands == old(commands) + PairCommands(a, b, old(asked))
      ensures started == old(started) && extra == old(extra) + PairLines(a, b, old(asked))
      ensures InStep() <==> PairLines(a, b, old(asked)) == 0
      ensures first <==> CommandAccepted(a) && Nth(script, old(asked)).Digit() == THREE
      ensures CommandAccepted(a) && !first ==> nb.response[0] == Nth(script, old(asked)).Digit()
      ensures InStep() ==> (second <==> first && CommandAccepted(b) && Nth(script, old(asked) + 1).Digit() == TWO)
    {
      first := SendFirst(a);
      ghost var left, said, lines := inbox, commands, extra;
      second := SendSecond(first, b, left);
      PairAddsUp(a, b, old(asked), first, old(commands), said, commands, old(extra), lines, extra);
    }

    /** What FtpLogin says, and the further lines in it. */
    ghost function LoginCommands(user: CText, pass: CText, asked: nat): (r: seq<CText>) {
      if LoginFits(user, pass) then PairCommands(UserCommand(user), PassCommand(pass), asked) else []
    }

    ghost function LoginLines(user: CText, pass: CText, asked: nat): (n: nat) {
      if LoginFits(user, pass) then PairLines(UserCommand(user), PassCommand(pass), asked) else 0
    }

    /** What a server hears of it when no string breaks a line: the name, and the password if it is asked for. */
    ghost function LoginRequests(user: CText, pass: CText, asked: nat): (r: seq<Request>) {
      if |user| > 57 || |pass| > 57 then []
      else if Nth(script, asked).Digit() == THREE then [User(user), Password(pass)]
      else [User(user)]
    }

    lemma LoginIsHeard(user: CText, pass: CText, asked: nat)
      requires LineEnds(user, loneLF) == 0 && LineEnds(pass, loneLF) == 0
      ensures forall cmd | cmd in LoginCommands(user, pass, asked) :: LineEnds(cmd, loneLF) == 0
      ensures ReadAll(LoginCommands(user, pass, asked)) == LoginRequests(user, pass, asked)
    {
      LineEndsOfArguments(user, loneLF);
      LineEndsOfArguments(pass, loneLF);
      LoginReads(user, pass);
      PairIsHeard(UserCommand(user), PassCommand(pass), asked, User(user), Password(pass));
    }

    /** FtpLogin. */
    method Login(user: CText, pass: CText) returns (ok: bool)
      requires Valid() && Lawful() && InStep()
      modifies this`inbox, this`stuck, this`asked, this`started, this`extra
      modifies this`commands, this`sentReplies, this`readReplies
      modifies nb, nb.sock, nb.buf, nb.response
      ensures Valid() && commands == old(commands) + LoginCommands(user, pass, old(asked))
      ensures started == old(started) && extra == old(extra) + LoginLines(user, pass, old(asked))
      ensures InStep() <==> LoginLines(user, pass, old(asked)) == 0
      ensures InStep() ==>
        var (first, second) := (Nth(script, old(asked)).Digit(), Nth(script, old(asked) + 1).Digit());
        ok <==> LoginFits(user, pass) && (first == TWO || (first == THREE && second == TWO))
      ensures LineEnds(user, loneLF) == 0 && LineEnds(pass, loneLF) == 0 ==>
        RequestsHeard() == old(RequestsHeard()) + LoginRequests(user, pass, old(asked))
    {
      ok := false;
      if LoginFits(user, pass) {
        var first, second := SendPair(UserCommand(user), PassCommand(pass));
        ok := if first then second else nb.response[0] == TWO;
      }
      if LineEnds(user, loneLF) == 0 && LineEnds(pass, loneLF) == 0 {
        LoginIsHeard(user, pass, old(asked));
        HeardSince(old(commands), LoginCommands(user, pass, old(asked)));
      }
    }

    /** What FtpRename says, and the further lines in it. */
    ghost function RenameCommands(src: CText, dst: CText, asked: nat): (r: seq<CText>) {
      if RenameFits(src, dst) then PairCommands(FromCommand(src), ToCommand(dst), asked) else []
    }

    ghost function RenameLines(src: CText, dst: CText, asked: nat): (n: nat) {
      if RenameFits(src, dst) then PairLines(FromCommand(src), ToCommand(dst), asked) else 0
    }

    /** What a server hears of it: the old name and, when that is accepted, the new one, if they are sent. */
    ghost function RenameRequests(src: CText, dst: CText, asked: nat): (r: seq<Request>) {
      if |src| > 1016 || |dst| > 1017 then []
      else if Nth(script, asked).Digit() == THREE && |dst| < 1017 then [RenameFrom(src), RenameTo(dst)]
      else [RenameFrom(src)]
    }

    lemma RenameIsHeard(src: CText, dst: CText, asked: nat)
      requires LineEnds(src, loneLF) == 0 && LineEnds(dst, loneLF) == 0
      ensures forall cmd | cmd in RenameCommands(src, dst, asked) :: LineEnds(cmd, loneLF) == 0
      ensures ReadAll(RenameCommands(src, dst, asked)) == RenameRequests(src, dst, asked)
    {
      LineEndsOfArguments(src, loneLF);
      LineEndsOfArguments(dst, loneLF);
      RenameReads(src, dst);
      PairIsHeard(FromCommand(src), ToCommand(dst), asked, RenameFrom(src), RenameTo(dst));
    }

    /** Carried out, both requests together move the file and leave all others. */
    lemma RenameMovesTheFile(src: CText, dst: CText, asked: nat, files: Files)
      requires Nth(script, asked).Digit() == THREE && |src| < 1017 && |dst| < 1017
      ensures CarryOutAll(Disk(files, None), RenameRequests(src, dst, asked), []).files ==
        if src in files then (files - {src})[dst := files[src]] else files
    {
      TwoRequests(Disk(files, None), RenameFrom(src), RenameTo(dst), []);
    }

    /** FtpRename; either command can be one octet too long to be sent, as in FtpAccess. */
    method Rename(src: CText, dst: CText) returns (ok: bool)
      requires Valid() && Lawful() && InStep()
      modifies this`inbox, this`stuck, this`asked, this`started, this`extra
      modifies this`commands, this`sentReplies, this`readReplies
      modifies nb, nb.sock, nb.buf, nb.response
      ensures Valid() && commands == old(commands) + RenameCommands(src, dst, old(asked))
      ensures started == old(started) && extra == old(extra) + RenameLines(src, dst, old(asked))
      ensures InStep() <==> RenameLines(src, dst, old(asked)) == 0
      ensures InStep() ==>
        var fits := CommandAccepted(FromCommand(src)) && CommandAccepted(ToCommand(dst));
        ok <==> fits && Nth(script, old(asked)).Digit() == THREE && Nth(script, old(asked) + 1).Digit() == TWO
      ensures LineEnds(src, loneLF) == 0 && LineEnds(dst, loneLF) == 0 ==>
        RequestsHeard() == old(RequestsHeard()) + RenameRequests(src, dst, old(asked))
    {
      ok := false;
      if RenameFits(src, dst) {
        var first;
        first, ok := SendPair(FromCommand(src), ToCommand(dst));
      }
      if LineEnds(src, loneLF) == 0 && LineEnds(dst, loneLF) == 0 {
        RenameIsHeard(src, dst, old(asked));
        HeardSince(old(commands), RenameCommands(src, dst, old(asked)));
      }
    }

    // ---------- runs ----------

    /** What an operation says to the server; asked counts the answers to ordinary commands before it. */
    ghost function Said(op: Operation, asked: nat): (r: seq<CText>)
    {
      match op
      case LoginOp(user, pass) => LoginCommands(user, pass, asked)
      case RenameOp(src, dst) => RenameCommands(src, dst, asked)
      case XferOp(path, typ, mode, osOk, _) => AccessCommands(path, typ, mode, osOk, asked)
    }

    /** How many further lines go out with these commands. */
    ghost function LinesOf(op: Operation, asked: nat): (n: nat) {
      match op
      case LoginOp(user, pass) => LoginLines(user, pass, asked)
      case RenameOp(src, dst) => RenameLines(src, dst, asked)
      case XferOp(path, typ, mode, osOk, _) => AccessLines(Reaches(path, typ, mode, osOk, asked), path, typ, mode)
    }

    /** How many of these commands start a transfer. */
    ghost function StartedBy(op: Operation, asked: nat): (n: nat)
      ensures n <= |Said(op, asked)|
    {
      if op.XferOp? then Starts(Reaches(op.path, op.typ, op.mode, op.osOk, asked), op.path) else 0
    }

    /** The answers to ordinary commands after the operation, given those before it. */
    ghost function AskedAfter(op: Operation, asked: nat): (n: nat) {
      asked + (|Said(op, asked)| - StartedBy(op, asked))
    }

    /** The operation leaves the client out of step, given the answers of each kind before it. */
    ghost predicate Derails(op: Operation, c: Counts) {
      if op.XferOp? then Derailed(op.path, OutlookAt(op.path, op.typ, op.mode, op.osOk, c))
      else LinesOf(op, c.asked) != 0
    }

    /**
     * What a caller can check: a transfer derails iff the mode breaks a line, or the transfer command
     * is due and its path breaks a line or has the one length; unless it is reported complete early.
     */
    lemma XferDerailsIff(path: Option<CText>, typ: OpenType, mode: byte, osOk: bool,
                         waitError: Option<seq<byte>>, c: Counts)
      requires Lawful() && !CompletesEarly(NthTransfer(transfers, c.started))
      ensures Derails(XferOp(path, typ, mode, osOk, waitError), c) <==>
        if Reaches(path, typ, mode, osOk, c.asked) then
          TooLong(path) || (path.Some? && LineEnds(path.value, loneLF) > 0)
        else !MissingPath(path, typ) && loneLF && mode == LF
    {
      LineEndsOfType(mode, loneLF);
      LineEndsOfPath(path, typ, loneLF);
      FurtherIsEmptyIff(TypeCommand(mode), c.extra);
      FurtherIsEmptyIff(TransferCommand(path, typ), c.extra);
    }

    /** One of them: the path asks for a second command, and the server answers both. */
    lemma InjectedLineDerails(path: CText, typ: OpenType, mode: byte, osOk: bool, c: Counts)
      requires Lawful() && !CompletesEarly(NthTransfer(transfers, c.started))
      requires path == Ascii("a") + [CR, LF] + Ascii("NOOP") && Reaches(Some(path), typ, mode, osOk, c.asked)
      ensures !TooLong(Some(path)) && Derails(XferOp(Some(path), typ, mode, osOk, None), c)
    {
      NoLineEndsIff(path, loneLF);
      assert EndsAt(path, 2, loneLF);
      XferDerailsIff(Some(path), typ, mode, osOk, None, c);
    }

    /** Another: the server completes a PORT transfer while the client still waits for the data connection. */
    lemma EarlyCompletionDerails(path: CText, typ: OpenType, mode: byte, osOk: bool, c: Counts)
      requires Lawful() && LineEnds(path, loneLF) == 0 && Reaches(Some(path), typ, mode, osOk, c.asked)
      requires var answer := NthTransfer(transfers, c.started);
        cmode == Port && answer.Started? && answer.event == ControlReady && answer.final.Digit() == 50
      ensures Derails(XferOp(Some(path), typ, mode, osOk, None), c)
    {
      LineEndsOfPath(Some(path), typ, loneLF);
    }

    /** What an operation says, whether it derails, and the counts after it. */
    ghost function TurnOf(op: Operation, c: Counts): (t: Turn) {
      Turn(Derails(op, c), Said(op, c.asked),
           Counts(AskedAfter(op, c.asked), c.started + StartedBy(op, c.asked), c.extra + LinesOf(op, c.asked)))
    }

    /** No operation of the run derails. */
    ghost predicate Smooth(ops: seq<Operation>, c: Counts) {
      ops == [] || (!TurnOf(ops[0], c).derails && Smooth(ops[1..], TurnOf(ops[0], c).next))
    }

    /** What a whole run says. */
    ghost function SaidBy(ops: seq<Operation>, c: Counts): (r: seq<CText>) {
      if ops == [] then [] else TurnOf(ops[0], c).said + SaidBy(ops[1..], TurnOf(ops[0], c).next)
    }

    /** What the first operation has to do with the whole run. */
    lemma FirstTurn(ops: seq<Operation>, c: Counts, t: Turn, before: seq<CText>)
      requires ops != [] && t == TurnOf(ops[0], c)
      ensures Smooth(ops, c) <==> !t.derails && Smooth(ops[1..], t.next)
      ensures (before + t.said) + SaidBy(ops[1..], t.next) == before + SaidBy(ops, c)
    {
      ConcatAssociative(before, t.said, SaidBy(ops[1..], t.next));
    }

    lemma PlainStaysInStep(op: Operation, c: Counts)
      requires Lawful() && op.Plain(loneLF) && NeverEarly()
      ensures !TurnOf(op, c).derails
    {
      match op
      case LoginOp(user, pass) =>
        LineEndsOfArguments(user, loneLF);
        LineEndsOfArguments(pass, loneLF);
      case RenameOp(src, dst) =>
        LineEndsOfArguments(src, loneLF);
        LineEndsOfArguments(dst, loneLF);
      case XferOp(path, typ, mode, osOk, waitError) =>
        XferDerailsIff(path, typ, mode, osOk, waitError, c);
    }

    /** No transfer is reported complete before its data connection exists. */
    ghost predicate NeverEarly() {
      forall i: nat :: !CompletesEarly(NthTransfer(transfers, i))
    }

    /**
     * A run is smooth against every such server, if no string of the caller breaks a line and no
     * path has 1017 octets.
     */
    lemma {:induction false} PlainRunsAreSmooth(ops: seq<Operation>, c: Counts)
      requires Lawful() && AllPlain(ops, loneLF) && NeverEarly()
      ensures Smooth(ops, c)
    {
      if ops != [] {
        PlainStaysInStep(ops[0], c);
        PlainRunsAreSmooth(ops[1..], TurnOf(ops[0], c).next);
      }
    }

    /** One operation of a run. */
    method Perform(op: Operation)
      requires Valid() && Lawful() && InStep() && op.Legal()
      modifies this`inbox, this`stuck, this`asked, this`started, this`extra
      modifies this`commands, this`sentReplies, this`readReplies
      modifies nb, nb.sock, nb.buf, nb.response
      ensures Valid() && commands == old(commands) + Said(op, old(asked))
      ensures asked == AskedAfter(op, old(asked))
      ensures started == old(started) + StartedBy(op, old(asked)) && extra == old(extra) + LinesOf(op, old(asked))
      ensures InStep() <==> !Derails(op, old(Now()))
    {
      match op {
        case LoginOp(user, pass) =>
          var ok := Login(user, pass);
        case RenameOp(src, dst) =>
          var ok := Rename(src, dst);
        case XferOp(path, typ, mode, osOk, waitError) =>
          var ok := Xfer(path, typ, mode, osOk, waitError, Outlook(path, typ, mode, osOk));
      }
    }

    /** The first operation of a run, seen from the whole run. */
    method PerformFirst(ops: seq<Operation>)
      requires Valid() && Lawful() && InStep() && ops != [] && ops[0].Legal()
      modifies this`inbox, this`stuck, this`asked, this`started, this`extra
      modifies this`commands, this`sentReplies, this`readReplies
      modifies nb, nb.sock, nb.buf, nb.response
      ensures Valid()
      ensures Smooth(ops, old(Now())) <==> InStep() && Smooth(ops[1..], Now())
      ensures commands + SaidBy(ops[1..], Now()) == old(commands) + SaidBy(ops, old(Now()))
    {
      ghost var t, before := TurnOf(ops[0], Now()), commands;
      FirstTurn(ops, Now(), t, before);
      Perform(ops[0]);
      assert commands == before + t.said;
      assert Now() == t.next;
      assert InStep() <==> !t.derails;
    }

    /**
     * Control-channel synchrony over whole runs, exactly: after every operation of the run the
     * replies read are the replies sent, with none to come, if and only if the run is smooth,
     * whether the operations succeed or fail; the commands sent are then those of the operations, in
     * order, and every line on the wire has been answered. The run ends where it falls out of step.
     */
    method Run(ops: seq<Operation>) returns (ended: bool)
      requires Valid() && Lawful() && InStep() && AllLegal(ops)
      modifies this`inbox, this`stuck, this`asked, this`started, this`extra
      modifies this`commands, this`sentReplies, this`readReplies
      modifies nb, nb.sock, nb.buf, nb.response
      ensures Valid() && (ended <==> InStep())
      ensures ended <==> Smooth(ops, old(Now()))
      ensures ended ==> readReplies == sentReplies && commands == old(commands) + SaidBy(ops, old(Now()))
    {
      ended := true;
      if ops != [] {
        PerformFirst(ops);
        ended := InStep();
        if ended {
          ended := Run(ops[1..]);
        }
      }
    }
  }
}
