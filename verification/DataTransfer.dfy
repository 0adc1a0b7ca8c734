/**
 * FtpRead, FtpWrite and the data loops of FtpXfer: what an upload puts on the wire, what a
 * download leaves in the local file, the progress accounting, and the two ends put together.
 */
module DataTransfer {
  import opened Bytes
  import opened Chunking
  import opened LineCodec
  import opened Wrappers
  import opened Wire
  import opened Serving
  import opened NetBuf
  import opened Completeness

  /** n * k, by repeated addition. */
  function Times(n: nat, k: nat): (r: nat)
    ensures r == n * k
  {
    if n == 0 then 0 else k + Times(n - 1, k)
  }

  class DataHandle {
    const nb: NetBuf
    const cbbytes: nat
    var xfered: nat
    var xfered1: nat
    var answers: seq<bool>      // what the progress callback returns, call by call
    ghost var resets: nat       // times xfered1 went back to 0
    ghost var refused: bool     // the last progress callback of a read returned 0

    ghost predicate Reports() {
      nb.hasCallback && cbbytes > 0
    }

    /**
     * Progress accounting: every reset of xfered1 stands for more than cbbytes of the octets that
     * xfered counts, and xfered1 exceeds cbbytes after a call exactly when it was a refused read.
     */
    ghost predicate Accounted()
      reads this
    {
      && (Reports() ==> Times(resets, cbbytes + 1) + xfered1 <= xfered && (xfered1 > cbbytes <==> refused))
      && (!Reports() ==> xfered1 == 0 && resets == 0 && !refused)
    }

    ghost predicate Valid()
      reads this, nb, nb.buf
    {
      nb.Valid() && Accounted()
    }

    /** The progress report as it stands. */
    ghost function Gauge(): (m: Meter)
      reads this
    {
      Meter(if Reports() then Some(cbbytes) else None, xfered1, answers)
    }

    constructor (nb: NetBuf, cbbytes: nat, answers: seq<bool>)
      requires nb.Valid()
      ensures Valid() && this.nb == nb && this.cbbytes == cbbytes && this.answers == answers
      ensures xfered == 0 && Gauge() == Meter(if Reports() then Some(cbbytes) else None, 0, answers)
    {
      this.nb, this.cbbytes, this.answers := nb, cbbytes, answers;
      this.xfered, this.xfered1, this.resets, this.refused := 0, 0, 0, false;
    }

    /** The callback section of FtpRead and FtpWrite; only a read can be refused by its callback. */
    method Account(i: nat, isRead: bool) returns (go: bool)
      requires Accounted()
      modifies this
      ensures Accounted() && xfered == old(xfered) + i && (refused <==> !go)
      ensures go <==> !isRead || old(Gauge()).Passes(i)
      ensures go ==> Gauge() == old(Gauge()).After(i)
      ensures var fires := Reports() && old(xfered1) + i > cbbytes;
              && (!go <==> fires && isRead && old(answers) != [] && !old(answers)[0])
              && answers == (if fires && old(answers) != [] then old(answers)[1..] else old(answers))
              && xfered1 == (if !Reports() || (fires && go) then 0 else old(xfered1) + i)
              && resets == old(resets) + if fires && go then 1 else 0
    {
      go := true;
      xfered := xfered + i;
      if nb.hasCallback && cbbytes != 0 {
        xfered1 := xfered1 + i;
        if xfered1 > cbbytes {
          var answer := true;
          if answers != [] {
            answer, answers := answers[0], answers[1..];
          }
          if isRead && !answer {
            go, refused := false, true;
          } else {
            xfered1, resets, refused := 0, resets + 1, false;
          }
        }
      }
    }

    /** Octets still to be read by this connection. */
    ghost function Coming(): (s: seq<byte>)
      reads nb, nb.sock
    {
      if nb.buf != null then nb.Pending() else nb.sock.incoming
    }

    /** The same with what serves the reading. */
    ghost function Now(max: nat): (a: Arrival)
      reads nb, nb.sock
    {
      Arrival(nb.buf != null, Coming(), if nb.buf != null then |nb.held| else 0, max, nb.Source())
    }

    /** What a call on a has brought. */
    ghost predicate Fetched(a: Arrival, i: int, dst: array<byte>)
      requires a.Valid()
      reads nb, nb.sock, dst
    {
      if a.Piece() != [] then i == |a.Piece()| <= dst.Length && dst[..i] == a.Piece() && Now(a.max) == a.Next()
      else i == -1 || i == 0
    }

    /** A line of an ASCII connection. */
    method FetchLine(dst: array<byte>, max: nat) returns (i: int)
      requires Valid() && nb.dir == ReadDir && nb.buf != null && dst != nb.buf && 0 < max <= dst.Length
      requires Fits(nb.Pending(), max)
      modifies nb, nb.sock`incoming, nb.sock`readPlan, nb.buf, dst
      ensures Valid()
      ensures Fetched(old(Now(max)), i, dst)
    {
      ghost var a := Now(max);
      ghost var how;
      LinePiece(a);
      i, how := nb.ReadLine(dst, max);
      ghost var taken := |a.stream| - |nb.Pending()|;
      assert a.Call() == Reading(how, taken, |nb.held|, nb.Source());
      assert Now(max) == a.Next();
      match how
      case Got => assert dst[..i] == a.Piece();
      case Stopped => assert i == taken;
      case AtEof => assert i == -1;
      case Failed => assert i == -1;
    }

    /** A chunk of an image connection. */
    method FetchChunk(dst: array<byte>, max: nat) returns (i: int)
      requires Valid() && nb.dir == ReadDir && nb.buf == null && 0 < max <= dst.Length
      modifies nb, nb.sock`incoming, nb.sock`readPlan, dst
      ensures Valid()
      ensures Fetched(old(Now(max)), i, dst)
    {
      i := -1;
      var go := nb.SocketWait();
      if go {
        i := nb.sock.NetRead(dst, 0, max);
        assert i > 0 ==> dst[0..0 + i] == dst[..i];
      }
    }

    /** The reading part of FtpRead: readline on an ASCII connection, socket_wait and net_read otherwise. */
    method Fetch(dst: array<byte>, max: nat) returns (i: int)
      requires Valid() && nb.dir == ReadDir && dst != nb.buf && 0 < max <= dst.Length
      requires nb.buf != null ==> Fits(nb.Pending(), max)
      modifies nb, nb.sock`incoming, nb.sock`readPlan, nb.buf, dst
      ensures Valid()
      ensures Fetched(old(Now(max)), i, dst)
    {
      if nb.buf != null {
        i := FetchLine(dst, max);
      } else {
        i := FetchChunk(dst, max);
      }
    }

    /**
     * FtpRead. It returns the next line or chunk, or what a stopped wait has left of a line, unless a
     * callback refuses although the octets have been taken; otherwise 0, which stands for the end of
     * the stream as well as for a failed read and a wait stopped at once.
     */
    method FtpRead(dst: array<byte>, max: nat) returns (r: nat)
      requires Valid() && dst != nb.buf && 0 < max <= dst.Length
      requires nb.dir == ReadDir && nb.buf != null ==> Fits(nb.Pending(), max)
      modifies this, nb, nb.sock`incoming, nb.sock`readPlan, nb.buf, dst
      ensures Valid() && (r > 0 ==> !refused)
      ensures nb.dir != ReadDir ==> r == 0 && xfered == old(xfered) && Coming() == old(Coming())
      ensures nb.dir == ReadDir ==>
        var a, m := old(Now(max)), old(Gauge());
        && xfered == old(xfered) + |a.Piece()|
        && if a.Piece() != [] && m.Passes(|a.Piece()|) then
             && r == |a.Piece()| <= dst.Length && dst[..r] == a.Piece()
             && Now(max) == a.Next() && Gauge() == m.After(r)
           else r == 0
    {
      r := 0;
      if nb.dir == ReadDir {
        var i := Fetch(dst, max);
        if i != -1 {
          var go := Account(i, true);
          r := if go then i else 0;
        }
      }
    }

    /** What serves the writing. */
    ghost function Outflow(): (k: Sink)
      reads nb, nb.sock
    {
      Heeded(nb.buf != null, nb.Outlet())
    }

    /** What data becomes on this connection. */
    ghost function Code(data: seq<byte>): (r: seq<byte>) {
      if nb.buf != null then Encode(0, data) else data
    }

    /** The writing part of FtpWrite; the outcome of the wait does not matter to an image connection. */
    method Emit(data: seq<byte>) returns (i: int)
      requires Valid() && nb.dir == WriteDir
      modifies nb, nb.sock, nb.buf
      ensures Valid() && -1 <= i <= |data|
      ensures match Written(old(Outflow()), WriteOf(nb.buf != null, data))
        case Everything(later) =>
          i == |data| && Outflow() == later && nb.sock.sent == old(nb.sock.sent) + Code(data)
        case AllButLast(later) =>
          && i == |data| && Outflow() == later
          && nb.sock.sent == old(nb.sock.sent) + Flatten(AllBut(WriteOf(nb.buf != null, data)))
        case Less => data != [] && i < |data| && |nb.sock.sent| < |old(nb.sock.sent)| + |Code(data)|
    {
      if nb.buf != null {
        ghost var how;
        i, how := nb.WriteLine(data);
        FewerBlocks(data, Granted(old(nb.Answers()), |WriteOf(true, data)|));
      } else {
        var go := nb.SocketWait();
        OneFlush(Outflow(), data);
        var raw := new byte[|data|](k requires 0 <= k < |data| => data[k]);
        assert raw[0..0 + |data|] == data;
        i := nb.sock.NetWrite(raw, 0, |data|);
      }
    }

    /** Without some of its blocks the encoding is shorter. */
    lemma FewerBlocks(data: seq<byte>, k: nat)
      requires k <= |WriteOf(true, data)|
      ensures var all := WriteOf(true, data);
              && (k < |all| ==> |Flatten(all[..k])| < |Encode(0, data)|)
              && (k + 1 == |all| ==> all[..k] == AllBut(all))
    {
      var all := WriteOf(true, data);
      if k < |all| {
        BlocksAreFile(Encode(0, data), FTPLIB_BUFSIZ);
        BlocksAreFull(Encode(0, data), FTPLIB_BUFSIZ, k);
        assert all == all[..k] + all[k..];
        FlattenAppend(all[..k], all[k..]);
      }
    }

    /**
     * FtpWrite; the answer of the progress callback is ignored here. A call that reports all its data
     * has sent it, or all but the last block of an ASCII connection, whose flush the idle callback
     * has refused.
     */
    method FtpWrite(data: seq<byte>) returns (r: nat)
      requires Valid()
      modifies this, nb, nb.sock, nb.buf
      ensures Valid() && r <= |data| && xfered == old(xfered) + r
      ensures nb.dir != WriteDir ==> r == 0 && nb.sock.sent == old(nb.sock.sent)
      ensures nb.dir == WriteDir ==>
        match Written(old(Outflow()), WriteOf(nb.buf != null, data))
        case Everything(later) =>
          r == |data| && Outflow() == later && nb.sock.sent == old(nb.sock.sent) + Code(data)
        case AllButLast(later) =>
          && r == |data| && Outflow() == later
          && nb.sock.sent == old(nb.sock.sent) + Flatten(AllBut(WriteOf(nb.buf != null, data)))
        case Less => r < |data| && |nb.sock.sent| < |old(nb.sock.sent)| + |Code(data)|
    {
      r := 0;
      if nb.dir == WriteDir {
        var i := Emit(data);
        if i != -1 {
          var go := Account(i, false);
          r := i;
        }
      }
    }

    /** An upload half way: `done` has been sent since it began, and the rest goes as it would have from there. */
    ghost predicate Sending(sink: Sink, sent: seq<byte>, file: seq<byte>, pos: nat, done: seq<byte>)
      requires pos <= |file|
      reads nb, nb.sock
    {
      var ascii, rest := nb.buf != null, file[pos..];
      && nb.sock.sent == sent + done
      && UploadOf(ascii, sink, file) == Prepend(done, SentOf(Outflow(), WritesOf(ascii, rest)))
      && |done| + |OnTheWire(ascii, rest)| <= |OnTheWire(ascii, file)|
    }

    /** An upload that has failed. */
    ghost predicate GaveUp(sink: Sink, sent: seq<byte>, file: seq<byte>)
      reads nb, nb.sock
    {
      && UploadOf(nb.buf != null, sink, file) == None
      && |nb.sock.sent| < |sent| + |OnTheWire(nb.buf != null, file)|
    }

    /** One turn of the upload loop: a block of l octets. */
    method UploadBlock(file: seq<byte>, pos: nat, l: nat,
                       ghost sink: Sink, ghost sent: seq<byte>, ghost done: seq<byte>)
      returns (ok: bool, ghost now: seq<byte>)
      requires Valid() && nb.dir == WriteDir && pos < |file| && Sending(sink, sent, file, pos, done)
      requires l == if |file| - pos < FTPLIB_BUFSIZ then |file| - pos else FTPLIB_BUFSIZ
      modifies this, nb, nb.sock, nb.buf
      ensures Valid()
      ensures if ok then Sending(sink, sent, file, pos + l, now) && xfered == old(xfered) + l
              else GaveUp(sink, sent, file)
    {
      ghost var block := file[pos..pos + l];
      ghost var write := WriteOf(nb.buf != null, block);
      now := done + if Written(Outflow(), write).Everything? then Code(block) else Flatten(AllBut(write));
      UploadStep(file, pos, l, done, Outflow());
      ConcatAssociative(sent, done, now[|done|..]);
      var c := FtpWrite(file[pos..pos + l]);
      ok := c == l;
    }

    /**
     * The upload loop of FtpXfer: blocks of FTPLIB_BUFSIZ octets until a write falls short. What it
     * sends and whether it reports success follow from what serves the connection. All of the file
     * is sent, and reported so, exactly when each flush is granted and accepted whole.
     */
    method Upload(file: seq<byte>) returns (rv: bool)
      requires Valid() && nb.dir == WriteDir
      modifies this, nb, nb.sock, nb.buf
      ensures Valid() && (rv ==> xfered == old(xfered) + |file|)
      ensures match UploadOf(nb.buf != null, old(nb.Outlet()), file)
        case Some(out) => rv && nb.sock.sent == old(nb.sock.sent) + out
        case None => !rv && |nb.sock.sent| < |old(nb.sock.sent)| + |OnTheWire(nb.buf != null, file)|
      ensures nb.sock.sent == old(nb.sock.sent) + OnTheWire(nb.buf != null, file) <==>
        Goes(nb.buf != null, old(nb.Outlet()), file)
    {
      rv := true;
      var pos: nat := 0;
      ghost var sink, sent, done := nb.Outlet(), nb.sock.sent, [];
      assert file[0..] == file;
      while pos < |file| && rv
        invariant Valid() && pos <= |file|
        invariant if rv then Sending(sink, sent, file, pos, done) && xfered == old(xfered) + pos
                  else GaveUp(sink, sent, file)
        decreases |file| - pos, rv
      {
        var l := if |file| - pos < FTPLIB_BUFSIZ then |file| - pos else FTPLIB_BUFSIZ;
        rv, done := UploadBlock(file, pos, l, sink, sent, done);
        pos := if rv then pos + l else pos;
      }
      assert rv ==> file[pos..] == [] && done + [] == done;
      UploadCompleteIff(nb.buf != null, sink, file);
      SameTail(sent, Some(done), OnTheWire(nb.buf != null, file));
    }

    /** One write of an upload. */
    lemma UploadStep(file: seq<byte>, pos: nat, l: nat, done: seq<byte>, sink: Sink)
      requires pos < |file| && l == (if |file| - pos < FTPLIB_BUFSIZ then |file| - pos else FTPLIB_BUFSIZ)
      ensures var ascii, block, after := nb.buf != null, file[pos..pos + l], file[pos + l..];
        |OnTheWire(ascii, file[pos..])| == |Code(block)| + |OnTheWire(ascii, after)|
      ensures var write, after := WriteOf(nb.buf != null, file[pos..pos + l]), file[pos + l..];
        |Flatten(AllBut(write))| <= |Flatten(write)| == |Code(file[pos..pos + l])| &&
        Prepend(done, SentOf(sink, WritesOf(nb.buf != null, file[pos..]))) ==
          (match Written(sink, write)
           case Everything(later) =>
             Prepend(done + Code(file[pos..pos + l]), SentOf(later, WritesOf(nb.buf != null, after)))
           case AllButLast(later) =>
             Prepend(done + Flatten(AllBut(write)), SentOf(later, WritesOf(nb.buf != null, after)))
           case Less => None)
    {
      var ascii, rest, block, after := nb.buf != null, file[pos..], file[pos..pos + l], file[pos + l..];
      var write := WriteOf(ascii, block);
      assert rest == block + after;
      assert WritesOf(ascii, rest) == [write] + WritesOf(ascii, after) by {
        if |rest| <= FTPLIB_BUFSIZ {
          assert rest == block && after == [];
        } else {
          assert rest[..FTPLIB_BUFSIZ] == block && rest[FTPLIB_BUFSIZ..] == after;
        }
      }
      WriteOfIsCode(ascii, block);
      WritesAreTheWire(ascii, rest);
      WritesAreTheWire(ascii, after);
      FlattenAppend(write, Flatten(WritesOf(ascii, after)));
      if write != [] {
        FlattenAllBut(write);
      }
      assert ([write] + WritesOf(ascii, after))[1..] == WritesOf(ascii, after);
      match Written(sink, write)
      case Everything(later) =>
        PrependTwice(done, Code(block), SentOf(later, WritesOf(ascii, after)));
      case AllButLast(later) =>
        PrependTwice(done, Flatten(AllBut(write)), SentOf(later, WritesOf(ascii, after)));
      case Less =>
    }

    ghost predicate LinesFit()
      reads nb, nb.sock
    {
      nb.buf != null ==> AllFit(nb.Pending(), FTPLIB_BUFSIZ)
    }

    /**
     * The download loop of FtpXfer: FtpRead until it returns 0, each result appended to the file. What
     * the file holds follows from what serves the connection: it is the whole exactly when the stream
     * comes whole and the callback agrees, and a front part of the whole unless a piece is torn.
     */
    method Download() returns (local: seq<byte>)
      requires Valid() && nb.dir == ReadDir && LinesFit()
      modifies this, nb, nb.sock`incoming, nb.sock`readPlan, nb.buf
      ensures Valid()
      ensures var a, m := old(Now(FTPLIB_BUFSIZ)), old(Gauge());
        && local == FileOf(a, m)
        && (local == a.Whole() <==> Comes(a) && Agreed(a, m))
        && if TornFile(a, m) then Differ(local, a.Whole()) else local <= a.Whole()
    {
      ghost var a, m := Now(FTPLIB_BUFSIZ), Gauge();
      ghost var file := FileOf(a, m);
      local := [];
      var dbuf := new byte[FTPLIB_BUFSIZ];
      var more := true;
      assert [] + file == file;
      while more
        invariant Valid() && (more ==> LinesFit())
        invariant file == if more then local + FileOf(Now(FTPLIB_BUFSIZ), Gauge()) else local
        decreases more, if more then |Coming()| else 0
      {
        ghost var b := Now(FTPLIB_BUFSIZ);
        if b.ascii && b.Piece() != [] {
          NextFits(b, FTPLIB_BUFSIZ);
        }
        FileGrows(local, b, Gauge());
        var l := FtpRead(dbuf, FTPLIB_BUFSIZ);
        more := l > 0;
        if more {
          local := local + dbuf[..l];
        }
      }
      DownloadCompleteIff(a, m);
      FrontOrTorn(a, m);
    }
  }

  /** An ASCII upload over a connection of its own: the octets the server gets. */
  method SendAscii(file: seq<byte>, plan: seq<WriteEvent>) returns (sent: seq<byte>)
    requires NeverShort(plan)
    ensures sent == BlockEncode(file, FTPLIB_BUFSIZ)
  {
    var out := new Socket([], [], plan);
    var nb := new NetBuf(WriteDir, out, true, false, []);
    var handle := new DataHandle(nb, 0, []);
    CalmUpload(true, nb.Outlet(), file);
    var rv := handle.Upload(file);
    sent := out.sent;
  }

  /** An ASCII download of what a server sends: the local file. */
  method ReceiveAscii(stream: seq<byte>, plan: seq<ReadEvent>) returns (local: seq<byte>)
    requires ReadFail !in plan && AllFit(stream, FTPLIB_BUFSIZ)
    ensures local == Decode(stream)
  {
    var back := new Socket(stream, plan, []);
    var nb := new NetBuf(ReadDir, back, true, false, []);
    var handle := new DataHandle(nb, 0, []);
    CalmDownload(handle.Now(FTPLIB_BUFSIZ), handle.Gauge());
    local := handle.Download();
  }

  /**
   * End to end (section 3.1.1.1 of RFC 959): an ASCII upload followed by an ASCII download restores
   * the file exactly when no block of FTPLIB_BUFSIZ octets contains a CR LF pair, however the two
   * connections cut the stream and however much each write accepts.
   */
  method UploadThenDownload(file: seq<byte>, writePlan: seq<WriteEvent>, readPlan: seq<ReadEvent>)
    returns (restored: seq<byte>)
    requires NeverShort(writePlan) && ReadFail !in readPlan && AllFit(file, FTPLIB_BUFSIZ - 1)
    ensures restored == file <==> InnerPairs(file, FTPLIB_BUFSIZ) == 0
    ensures Pairs(file) == 0 ==> restored == file
  {
    var sent := SendAscii(file, writePlan);
    UploadLinesFit(file, FTPLIB_BUFSIZ, FTPLIB_BUFSIZ - 1);
    restored := ReceiveAscii(sent, readPlan);
    UploadRoundTrip(file, FTPLIB_BUFSIZ);
    LinesAreDecode(sent);
    if Pairs(file) == 0 {
      NoPairsNoInnerPairs(file, FTPLIB_BUFSIZ);
    }
  }
}
