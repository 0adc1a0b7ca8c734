/**
 * Server replies of section 4.2 of RFC 959, single-line and multi-line, and `readresp`, which
 * takes exactly one of them off the control connection.
 */
module Replies {
  import opened Bytes
  import opened LineCodec
  import opened Wire
  import opened NetBuf

  const SP: byte := 32
  const DASH: byte := 45

  datatype Reply =
    | Single(code: seq<byte>, text: seq<byte>)
    | Multi(code: seq<byte>, first: seq<byte>, middle: seq<seq<byte>>, last: seq<byte>)
  {
    /** The lines of the reply without their line ends. */
    function Content(): (r: seq<seq<byte>>)
      ensures |r| > 0
    {
      match this
      case Single(code, text) => [code + [SP] + text]
      case Multi(code, first, middle, last) => [code + [DASH] + first] + middle + [code + [SP] + last]
    }

    /** The first digit, which is all the client looks at. */
    function Digit(): (r: byte) {
      if |code| > 0 then code[0] else NUL
    }

    function FinalLine(): (r: seq<byte>) {
      Content()[|Content()| - 1]
    }

    /** Three digits; no line contains LF or exceeds the response buffer; only the last repeats code and space. */
    predicate WellFormed() {
      && |code| == 3 && IsDigit(code[0]) && IsDigit(code[1]) && IsDigit(code[2])
      && LinesFit(Content())
      && (Multi? ==> NoneStarts(middle, code + [SP]))
    }
  }

  predicate LinesFit(lines: seq<seq<byte>>) {
    lines == [] || (LF !in lines[0] && |lines[0]| + 3 <= RESPONSE_BUFSIZ && LinesFit(lines[1..]))
  }

  predicate NoneStarts(lines: seq<seq<byte>>, pattern: seq<byte>) {
    lines == [] || (!(pattern <= lines[0]) && NoneStarts(lines[1..], pattern))
  }

  lemma {:induction false} LinesFitAt(lines: seq<seq<byte>>, i: nat)
    requires LinesFit(lines) && i < |lines|
    ensures LF !in lines[i] && |lines[i]| + 3 <= RESPONSE_BUFSIZ
  {
    if i > 0 {
      LinesFitAt(lines[1..], i - 1);
    }
  }

  lemma {:induction false} NoneStartsAt(lines: seq<seq<byte>>, pattern: seq<byte>, i: nat)
    requires NoneStarts(lines, pattern) && i < |lines|
    ensures !(pattern <= lines[i])
  {
    if i > 0 {
      NoneStartsAt(lines[1..], pattern, i - 1);
    }
  }

  /** Lines as they travel: each ended by CR LF. */
  function OnWire(lines: seq<seq<byte>>): (r: seq<byte>) {
    if lines == [] then [] else lines[0] + [CR, LF] + OnWire(lines[1..])
  }

  function ReplyBytes(reply: Reply): (r: seq<byte>) {
    OnWire(reply.Content())
  }

  /** A line at the front of the stream is what `ReadLine` cuts off. */
  lemma NextLine(line: seq<byte>, more: seq<byte>)
    requires LF !in line
    ensures var s := line + [CR, LF] + more;
            ContentLen(s) == |line| + 1 && LineEnd(s) == |line| + 2 &&
            Strip(s[..LineEnd(s)]) == line + [LF] && s[LineEnd(s)..] == more
  {
    var s := line + [CR, LF] + more;
    assert s[..|line| + 1] == line + [CR];
    ContentLenUnique(s, |line| + 1);
    assert s[..|line| + 2] == line + [CR, LF];
    assert (line + [CR, LF])[..|line|] == line;
  }

  /** The response buffer holds this line, LF-terminated, as a C string would end. */
  ghost predicate Holds(nb: NetBuf, line: seq<byte>)
    reads nb, nb.response
  {
    && |line| + 2 <= nb.response.Length
    && nb.response[..|line| + 1] == line + [LF]
    && nb.response[|line| + 1] == NUL
  }

  /** readline into the response buffer when the next line is known. */
  method ReadResponseLine(nb: NetBuf, ghost line: seq<byte>, ghost more: seq<byte>) returns (r: int)
    requires nb.Valid() && nb.dir == Control && nb.buf != null
    requires LF !in line && |line| + 3 <= RESPONSE_BUFSIZ && nb.Pending() == line + [CR, LF] + more
    modifies nb`cput, nb`cget, nb`cavail, nb`cleft, nb`held, nb`waits
    modifies nb.sock`incoming, nb.sock`readPlan, nb.buf, nb.response
    ensures nb.Valid()
    ensures r != -1 ==> r == |line| + 1 && Holds(nb, line) && nb.Pending() == more
    ensures r == -1 ==> ReadFail in old(nb.sock.readPlan)
    ensures ReadFail !in old(nb.sock.readPlan) ==> ReadFail !in nb.sock.readPlan
  {
    NextLine(line, more);
    ghost var how;
    r, how := nb.ReadLine(nb.response, RESPONSE_BUFSIZ);
  }

  /** strncmp(response, match, 4) == 0 */
  predicate Matches(response: seq<byte>, pattern: seq<byte>)
    requires |response| >= 4 == |pattern|
  {
    response[..4] == pattern
  }

  lemma HeldPrefix(nb: NetBuf, line: seq<byte>, k: nat)
    requires Holds(nb, line) && k <= |line|
    ensures nb.response[..k] == line[..k]
  {
    assert nb.response[..k] == nb.response[..|line| + 1][..k] == (line + [LF])[..k];
  }

  /** The first line of a reply carries its code, and its fourth octet tells which kind it is. */
  lemma FirstLineTells(nb: NetBuf, reply: Reply)
    requires reply.WellFormed() && Holds(nb, reply.Content()[0])
    ensures nb.response.Length > 3 && nb.response[..3] == reply.code
    ensures nb.response[3] == DASH <==> reply.Multi?
  {
    var line := reply.Content()[0];
    HeldPrefix(nb, line, 3);
    assert line[..3] == reply.code;
    assert nb.response[3] == nb.response[..|line| + 1][3] == line[3];
  }

  lemma FinalLineTells(nb: NetBuf, reply: Reply)
    requires reply.WellFormed() && Holds(nb, reply.FinalLine())
    ensures nb.response.Length > 3 && nb.response[..3] == reply.code
  {
    var line := reply.FinalLine();
    HeldPrefix(nb, line, 3);
    assert line[..3] == reply.code;
  }

  lemma MatchesIsPrefix(nb: NetBuf, line: seq<byte>, pattern: seq<byte>)
    requires Holds(nb, line) && nb.response.Length >= 4 == |pattern| && LF !in pattern
    ensures Matches(nb.response[..], pattern) <==> pattern <= line
  {
    var response := nb.response[..];
    assert response[..|line| + 1] == line + [LF];
    assert forall i | 0 <= i < |line| :: response[i] == response[..|line| + 1][i] == line[i];
    assert response[|line|] == response[..|line| + 1][|line|] == LF;
    if |line| < 4 {
      assert response[..4][|line|] == LF;
      assert pattern[|line|] in pattern;
    }
  }

  /** Of all the lines after the first, the pattern of the reply code picks out the final one. */
  lemma OnlyLastMatches(reply: Reply, i: nat)
    requires reply.WellFormed() && reply.Multi? && 0 < i < |reply.Content()|
    ensures reply.code + [SP] <= reply.Content()[i] <==> i == |reply.Content()| - 1
    ensures LF !in reply.code + [SP]
  {
    if i < |reply.Content()| - 1 {
      NoneStartsAt(reply.middle, reply.code + [SP], i - 1);
      assert reply.Content()[i] == reply.middle[i - 1];
    } else {
      assert reply.Content()[i] == reply.code + [SP] + reply.last;
    }
  }

  lemma FrontLine(lines: seq<seq<byte>>, i: nat, rest: seq<byte>)
    requires i < |lines|
    ensures OnWire(lines[i..]) + rest == lines[i] + [CR, LF] + (OnWire(lines[i + 1..]) + rest)
    ensures i + 1 == |lines| ==> OnWire(lines[i + 1..]) + rest == rest
  {
  }

  /** The do-while loop of readresp: reads lines until one starts with the reply code and a space. */
  method SkipToFinal(nb: NetBuf, pattern: seq<byte>, ghost reply: Reply, ghost rest: seq<byte>) returns (complete: bool)
    requires nb.Valid() && nb.dir == Control && nb.buf != null
    requires reply.WellFormed() && reply.Multi? && pattern == reply.code + [SP]
    requires nb.Pending() == OnWire(reply.Content()[1..]) + rest
    modifies nb`cput, nb`cget, nb`cavail, nb`cleft, nb`held, nb`waits
    modifies nb.sock`incoming, nb.sock`readPlan, nb.buf, nb.response
    ensures nb.Valid()
    ensures complete ==> nb.Pending() == rest && Holds(nb, reply.FinalLine())
    ensures !complete ==> ReadFail in old(nb.sock.readPlan)
    ensures ReadFail in nb.sock.readPlan ==> ReadFail in old(nb.sock.readPlan)
  {
    ghost var lines := reply.Content();
    ghost var i := 1;
    var more := true;
    complete := true;
    while more && complete
      invariant 1 <= i <= |lines| && nb.Valid()
      invariant complete && more ==> i < |lines| && nb.Pending() == OnWire(lines[i..]) + rest
      invariant complete && !more ==> nb.Pending() == rest && Holds(nb, reply.FinalLine())
      invariant !complete ==> ReadFail in old(nb.sock.readPlan)
      invariant ReadFail in nb.sock.readPlan ==> ReadFail in old(nb.sock.readPlan)
      decreases |lines| - i, more && complete
    {
      FrontLine(lines, i, rest);
      OnlyLastMatches(reply, i);
      LinesFitAt(lines, i);
      var r := ReadResponseLine(nb, lines[i], OnWire(lines[i + 1..]) + rest);
      if r == -1 {
        complete := false;
      } else {
        MatchesIsPrefix(nb, lines[i], pattern);
        more := !Matches(nb.response[..], pattern);
        i := i + 1;
      }
    }
  }

  /**
   * readresp: takes exactly one reply off the stream, whatever the chunking, leaves the stream at
   * the first octet of what follows, and answers whether the first digit is the expected one.
   */
  method ReadResp(c: byte, nb: NetBuf, ghost reply: Reply, ghost rest: seq<byte>)
    returns (ok: bool, ghost complete: bool)
    requires nb.Valid() && nb.dir == Control && nb.buf != null
    requires reply.WellFormed() && nb.Pending() == ReplyBytes(reply) + rest
    modifies nb`cput, nb`cget, nb`cavail, nb`cleft, nb`held, nb`waits
    modifies nb.sock`incoming, nb.sock`readPlan, nb.buf, nb.response
    ensures nb.Valid()
    ensures complete ==> nb.Pending() == rest && Holds(nb, reply.FinalLine())
    ensures complete ==> nb.response[0] == reply.Digit() && (ok <==> reply.Digit() == c)
    ensures !complete ==> !ok && ReadFail in old(nb.sock.readPlan)
    ensures ReadFail in nb.sock.readPlan ==> ReadFail in old(nb.sock.readPlan)
  {
    ghost var lines := reply.Content();
    assert lines[0..] == lines;
    LinesFitAt(lines, 0);
    FrontLine(lines, 0, rest);
    var r := ReadResponseLine(nb, lines[0], OnWire(lines[1..]) + rest);
    var whole := r != -1;
    if whole {
      FirstLineTells(nb, reply);
      if nb.response[3] == DASH {
        var pattern := nb.response[..3] + [SP];
        whole := SkipToFinal(nb, pattern, reply, rest);
      }
    }
    if whole {
      FinalLineTells(nb, reply);
      assert nb.response[..3][0] == reply.code[0];
    }
    ok, complete := whole && nb.response[0] == c, whole;
  }
}
