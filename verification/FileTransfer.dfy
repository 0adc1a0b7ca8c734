/**
 * FtpXfer as a whole: the exchange on the control connection and the data loop over a connection of
 * its own, and a file that is stored and fetched again over one control connection.
 */
module FileTransfer {
  import opened Wrappers
  import opened Bytes
  import opened LineCodec
  import opened Wire
  import opened Serving
  import opened Completeness
  import opened NetBuf
  import opened Requests
  import opened Commands
  import opened FtpServer
  import opened Session
  import opened DataTransfer

  const ASCII: byte := 65  // 'A'
  const IMAGE: byte := 73  // 'I'

  /**
   * The data connection of one transfer: what the server sends, how the system serves reads and
   * writes, what the callback answers while waiting and to progress reports, and the text that a
   * failed select on it leaves in the response buffer.
   */
  datatype DataLink = DataLink(
    stream: seq<byte>,
    readPlan: seq<ReadEvent>,
    writePlan: seq<WriteEvent>,
    hasCallback: bool,
    waits: seq<bool>,
    cbbytes: nat,
    answers: seq<bool>,
    waitError: Option<seq<byte>>)
  {
    /** An ASCII stream has no line that is too long for the reader. */
    predicate Legal(mode: byte) {
      (mode == ASCII ==> AllFit(stream, FTPLIB_BUFSIZ)) && (waitError.Some? ==> IsLocalText(waitError.value))
    }

    /** Nothing fails on it and nothing interrupts. */
    predicate Calm() {
      ReadFail !in readPlan && NeverShort(writePlan) && false !in waits && false !in answers
    }

    /** What the callback answers while waiting, if there is one. */
    function Asked(): (a: seq<bool>) {
      if hasCallback then waits else []
    }

    /** What it brings to a download, and the progress report of that. */
    function Arriving(mode: byte): (a: Arrival)
      ensures a.Valid()
    {
      Arrival(mode == ASCII, stream, 0, FTPLIB_BUFSIZ, Feed(readPlan, Asked()))
    }

    function Gauge(): (m: Meter) {
      Meter(if hasCallback && cbbytes > 0 then Some(cbbytes) else None, 0, answers)
    }

    /** What serves an upload. */
    function Outlet(): (k: Sink) {
      Sink(writePlan, Asked())
    }

    /** The data loop reports success: a download always, an upload when each of its writes does. */
    predicate Succeeds(typ: OpenType, mode: byte, file: seq<byte>) {
      typ == FileWrite ==> UploadOf(mode == ASCII, Outlet(), file).Some?
    }

    /**
     * The transfer is complete: for an upload, the flushes that the callback is asked for are granted
     * and all are accepted whole; for a download, the stream comes whole and the reports are agreed to.
     */
    predicate Completes(typ: OpenType, mode: byte, file: seq<byte>) {
      if typ == FileWrite then Goes(mode == ASCII, Outlet(), file)
      else Comes(Arriving(mode)) && Agreed(Arriving(mode), Gauge())
    }

    /** Where nothing interferes, every transfer succeeds and is complete. */
    lemma CalmCompletes(typ: OpenType, mode: byte, file: seq<byte>)
      requires Calm()
      ensures Succeeds(typ, mode, file) && Completes(typ, mode, file)
    {
      if typ == FileWrite {
        CalmUpload(mode == ASCII, Outlet(), file);
        UploadCompleteIff(mode == ASCII, Outlet(), file);
      } else {
        CalmDownload(Arriving(mode), Gauge());
        DownloadCompleteIff(Arriving(mode), Gauge());
      }
    }
  }

  /** A connection on which nothing interferes. */
  function Undisturbed(stream: seq<byte>, readPlan: seq<ReadEvent>, writePlan: seq<WriteEvent>): (l: DataLink) {
    DataLink(stream, readPlan, writePlan, false, [], 0, [], None)
  }

  /** What the server gets of an uploaded file. */
  function Uploaded(file: seq<byte>, mode: byte): (r: seq<byte>) {
    OnTheWire(mode == ASCII, file)
  }

  /** What the local file holds after a complete download. */
  function Downloaded(stream: seq<byte>, mode: byte): (r: seq<byte>) {
    if mode == ASCII then Decode(stream) else stream
  }

  /** No block of the file that is sent as ASCII contains a CR LF pair. */
  predicate Survives(file: seq<byte>, mode: byte) {
    mode == ASCII ==> InnerPairs(file, FTPLIB_BUFSIZ) == 0
  }

  /** What comes back of a file that the server returns as it got it. */
  lemma StoredAndFetched(file: seq<byte>, mode: byte, sent: seq<byte>, restored: seq<byte>)
    requires mode == ASCII ==> AllFit(file, FTPLIB_BUFSIZ - 1)
    requires sent == Uploaded(file, mode) && restored == Downloaded(sent, mode)
    ensures mode == ASCII ==> AllFit(sent, FTPLIB_BUFSIZ)
    ensures restored == file <==> Survives(file, mode)
  {
    if mode == ASCII {
      UploadLinesFit(file, FTPLIB_BUFSIZ, FTPLIB_BUFSIZ - 1);
      UploadRoundTrip(file, FTPLIB_BUFSIZ);
      LinesAreDecode(sent);
    }
  }

  /** The data loop of FtpXfer for an upload. */
  method PutData(mode: byte, file: seq<byte>, link: DataLink) returns (rv: bool, sent: seq<byte>)
    ensures rv <==> link.Succeeds(FileWrite, mode, file)
    ensures rv ==> UploadOf(mode == ASCII, link.Outlet(), file) == Some(sent)
    ensures sent == Uploaded(file, mode) <==> link.Completes(FileWrite, mode, file)
  {
    var sock := new Socket(link.stream, link.readPlan, link.writePlan);
    var nb := new NetBuf(WriteDir, sock, mode == ASCII, link.hasCallback, link.waits);
    var data := new DataHandle(nb, link.cbbytes, link.answers);
    ghost var out := UploadOf(mode == ASCII, link.Outlet(), file);
    rv := data.Upload(file);
    sent := sock.sent;
    assert out.Some? ==> [] + out.value == out.value;
  }

  /** The data loop of FtpXfer for a download. */
  method GetData(mode: byte, link: DataLink) returns (local: seq<byte>)
    requires link.Legal(mode)
    ensures local == FileOf(link.Arriving(mode), link.Gauge())
    ensures local == Downloaded(link.stream, mode) <==> link.Completes(FileRead, mode, [])
    ensures if TornFile(link.Arriving(mode), link.Gauge()) then Differ(local, Downloaded(link.stream, mode))
            else local <= Downloaded(link.stream, mode)
  {
    var sock := new Socket(link.stream, link.readPlan, link.writePlan);
    var nb := new NetBuf(ReadDir, sock, mode == ASCII, link.hasCallback, link.waits);
    var data := new DataHandle(nb, link.cbbytes, link.answers);
    local := data.Download();
  }

  /**
   * What a transfer that reports success has done, in terms of what served its data connection. It is
   * complete exactly when the connection lets it be, of which the caller is not told.
   */
  ghost predicate Moved(typ: OpenType, mode: byte, file: seq<byte>, link: DataLink, sent: seq<byte>, local: seq<byte>) {
    if typ == FileWrite then
      && local == [] && UploadOf(mode == ASCII, link.Outlet(), file) == Some(sent)
      && (sent == Uploaded(file, mode) <==> link.Completes(typ, mode, file))
    else
      && sent == [] && local == FileOf(link.Arriving(mode), link.Gauge())
      && (local == Downloaded(link.stream, mode) <==> link.Completes(typ, mode, file))
      && if TornFile(link.Arriving(mode), link.Gauge()) then Differ(local, Downloaded(link.stream, mode))
         else local <= Downloaded(link.stream, mode)
  }

  /** Success of an upload that asks no callback means that it is complete. */
  lemma UnaskedSuccess(mode: byte, file: seq<byte>, link: DataLink)
    requires mode != ASCII || !link.hasCallback
    ensures link.Succeeds(FileWrite, mode, file) <==> link.Completes(FileWrite, mode, file)
  {
    UnaskedUpload(mode == ASCII, link.Outlet(), file);
  }

  /** The data loop of FtpXfer. */
  method MoveData(typ: OpenType, mode: byte, file: seq<byte>, link: DataLink)
    returns (rv: bool, sent: seq<byte>, local: seq<byte>)
    requires link.Legal(mode)
    ensures rv <==> link.Succeeds(typ, mode, file)
    ensures rv ==> Moved(typ, mode, file, link, sent, local)
  {
    rv, sent, local := true, [], [];
    if typ == FileWrite {
      rv, sent := PutData(mode, file, link);
    } else {
      local := GetData(mode, link);
    }
  }

  /** FtpXfer after FtpAccess: the data loop when the data connection is open, and FtpClose. */
  method Transfer(c: Control, open: bool, ghost path: Option<CText>, typ: OpenType, mode: byte,
                  file: seq<byte>, link: DataLink, ghost p: Prospect)
    returns (rv: bool, sent: seq<byte>, local: seq<byte>)
    requires c.Valid() && c.Accessed(path, p, open) && link.Legal(mode)
    modifies c`inbox, c`stuck, c`readReplies
    modifies c.nb, c.nb.sock`incoming, c.nb.sock`readPlan, c.nb.buf, c.nb.response
    ensures c.Valid() && (c.InStep() <==> !c.Derailed(path, p))
    ensures rv <==> p.reached && !TooLong(path) && p.answer.Started? && (c.cmode == Port ==> p.answer.event == Accepted)
                    && link.Succeeds(typ, mode, file)
    ensures rv ==> Moved(typ, mode, file, link, sent, local)
  {
    rv, sent, local := false, [], [];
    if open {
      rv, sent, local := MoveData(typ, mode, file, link);
    }
    c.CloseTransfer(open, link.waitError, path, p);
  }

  /**
   * What the server hears of a transfer: only one to store changes its files, and it stores under the
   * path; a file is retrieved from the path; and the representation is the one the data is coded in.
   */
  ghost predicate HeardAs(heard: seq<Request>, path: Option<CText>, typ: OpenType, mode: byte, starts: bool)
    requires starts ==> !MissingPath(path, typ)
  {
    && (forall d: Disk, data :: CarryOutAll(d, heard, data).files ==
          if starts && typ == FileWrite then d.files[path.value := data] else d.files)
    && (starts && typ == FileRead ==> |heard| > 0 && heard[|heard| - 1] == Retrieve(path.value))
    && (starts ==> (TypeIs(Text) in heard <==> mode == ASCII) && (TypeIs(Image) in heard <==> mode != ASCII))
  }

  lemma AccessHeardAs(c: Control, path: Option<CText>, typ: OpenType, mode: byte, osOk: bool, asked: nat)
    ensures var starts := c.Reaches(path, typ, mode, osOk, asked) && !TooLong(path);
      HeardAs(c.AccessRequests(path, typ, mode, osOk, asked), path, typ, mode, starts)
  {
    forall d: Disk, data
      ensures CarryOutAll(d, c.AccessRequests(path, typ, mode, osOk, asked), data).files ==
        if c.Reaches(path, typ, mode, osOk, asked) && !TooLong(path) && typ == FileWrite
        then d.files[path.value := data] else d.files
    {
      c.AccessChangesOnly(path, typ, mode, osOk, asked, d, data);
    }
    c.AccessChangesOnly(path, typ, mode, osOk, asked, Disk(map[], None), []);
  }

  /**
   * FtpXfer, whatever happens on the data connection. It reports success exactly when the data
   * connection opens and, for an upload, each write reports all its data, whatever the final reply
   * says. The client ends in step unless the operation derails.
   */
  method FtpXfer(c: Control, path: Option<CText>, typ: OpenType, mode: byte, osOk: bool,
                 file: seq<byte>, link: DataLink, ghost p: Prospect)
    returns (rv: bool, sent: seq<byte>, local: seq<byte>, ghost heard: seq<Request>)
    requires c.Valid() && c.Lawful() && c.InStep() && link.Legal(mode) && p == c.Outlook(path, typ, mode, osOk)
    modifies c`inbox, c`stuck, c`asked, c`started, c`extra, c`commands, c`sentReplies, c`readReplies
    modifies c.nb, c.nb.sock, c.nb.buf, c.nb.response
    ensures c.Valid() && c.commands == old(c.commands) + c.AccessCommands(path, typ, mode, osOk, old(c.asked))
    ensures c.InStep() <==> !c.Derailed(path, p)
    ensures rv <==> p.reached && !TooLong(path) && p.answer.Started? && (c.cmode == Port ==> p.answer.event == Accepted)
                    && link.Succeeds(typ, mode, file)
    ensures rv ==> Moved(typ, mode, file, link, sent, local)
    ensures c.Unbroken(path, mode) ==> c.RequestsHeard() == old(c.RequestsHeard()) + heard
    ensures HeardAs(heard, path, typ, mode, p.reached && !TooLong(path))
  {
    heard := c.AccessRequests(path, typ, mode, osOk, c.asked);
    AccessHeardAs(c, path, typ, mode, osOk, c.asked);
    var open := c.Access(path, typ, mode, osOk, p);
    rv, sent, local := Transfer(c, open, path, typ, mode, file, link, p);
  }

  /** A connection whose first wait is stopped by the callback. */
  function StoppedAtOnce(stream: seq<byte>): (l: DataLink) {
    DataLink(stream, [], [], true, [false], 0, [], None)
  }

  /** A download whose first wait is stopped: success is reported for an empty file. */
  method StoppedDownload(c: Control, path: CText, osOk: bool, stream: seq<byte>, ghost p: Prospect)
    returns (rv: bool, local: seq<byte>)
    requires c.Valid() && c.Lawful() && c.InStep() && p == c.Outlook(Some(path), FileRead, IMAGE, osOk) && stream != []
    modifies c`inbox, c`stuck, c`asked, c`started, c`extra, c`commands, c`sentReplies, c`readReplies
    modifies c.nb, c.nb.sock, c.nb.buf, c.nb.response
    ensures rv <==> p.reached && !TooLong(Some(path)) && p.answer.Started?
                    && (c.cmode == Port ==> p.answer.event == Accepted)
    ensures rv ==> local == [] != Downloaded(stream, IMAGE)
  {
    var link, nothing := StoppedAtOnce(stream), [];
    ghost var heard;
    rv, nothing, local, heard := FtpXfer(c, Some(path), FileRead, IMAGE, osOk, [], link, p);
    assert link.Arriving(IMAGE).Piece() == [];
  }

  /** FtpPut: what the server has when it carries out what it hears. */
  method FtpPut(c: Control, path: CText, mode: byte, osOk: bool, file: seq<byte>, plan: seq<WriteEvent>)
    returns (rv: bool, sent: seq<byte>, ghost heard: seq<Request>)
    requires c.Valid() && c.Lawful() && c.InStep() && NeverShort(plan)
    modifies c`inbox, c`stuck, c`asked, c`started, c`extra, c`commands, c`sentReplies, c`readReplies
    modifies c.nb, c.nb.sock, c.nb.buf, c.nb.response
    ensures c.Valid() && (rv ==> sent == Uploaded(file, mode))
    ensures rv && c.InStep() ==> c.Unbroken(Some(path), mode)
    ensures c.Unbroken(Some(path), mode) ==> c.RequestsHeard() == old(c.RequestsHeard()) + heard
    ensures rv ==> forall files: Files :: CarryOutAll(Disk(files, None), heard, sent).files == files[path := sent]
  {
    var nothing;
    var link := Undisturbed([], [], plan);
    ghost var before, p := c.Now(), c.Outlook(Some(path), FileWrite, mode, osOk);
    rv, sent, nothing, heard := FtpXfer(c, Some(path), FileWrite, mode, osOk, file, link, p);
    link.CalmCompletes(FileWrite, mode, file);
    if rv && c.InStep() {
      c.InStepIsUnbroken(Some(path), FileWrite, mode, osOk, before);
    }
  }

  /** FtpGet, as far as it concerns the file; the server sends what it has. */
  method FtpGet(c: Control, path: CText, mode: byte, osOk: bool, stream: seq<byte>, plan: seq<ReadEvent>)
    returns (rv: bool, local: seq<byte>, ghost heard: seq<Request>)
    requires c.Valid() && c.Lawful() && c.InStep() && ReadFail !in plan
    requires mode == ASCII ==> AllFit(stream, FTPLIB_BUFSIZ)
    modifies c`inbox, c`stuck, c`asked, c`started, c`extra, c`commands, c`sentReplies, c`readReplies
    modifies c.nb, c.nb.sock, c.nb.buf, c.nb.response
    ensures c.Valid() && (rv ==> local == Downloaded(stream, mode))
    ensures c.Unbroken(Some(path), mode) ==> c.RequestsHeard() == old(c.RequestsHeard()) + heard
    ensures rv ==> |heard| > 0 && heard[|heard| - 1] == Retrieve(path)
    ensures forall files: Files :: CarryOutAll(Disk(files, None), heard, []).files == files
  {
    var nothing;
    var link := Undisturbed(stream, plan, []);
    ghost var p := c.Outlook(Some(path), FileRead, mode, osOk);
    link.CalmCompletes(FileRead, mode, []);
    rv, nothing, local, heard := FtpXfer(c, Some(path), FileRead, mode, osOk, [], link, p);
  }

  /**
   * A file stored and fetched again over one control connection, in step and undisturbed, from a
   * server that carries out what it hears: when both transfers succeed, the server has the uploaded
   * file under the path, its other files are as they were, and it has sent what it has under the path
   * that the second request names. An image-mode file is restored then, an ASCII one exactly when no
   * block of FTPLIB_BUFSIZ octets contains a CR LF pair.
   */
  method StoreThenFetch(c: Control, path: CText, mode: byte, osOk: bool, file: seq<byte>, ghost files: Files,
                        writePlan: seq<WriteEvent>, readPlan: seq<ReadEvent>)
    returns (done: bool, restored: seq<byte>, ghost heard: seq<Request>, ghost files': Files)
    requires c.Valid() && c.Lawful() && c.InStep()
    requires NeverShort(writePlan) && ReadFail !in readPlan && (mode == ASCII ==> AllFit(file, FTPLIB_BUFSIZ - 1))
    modifies c`inbox, c`stuck, c`asked, c`started, c`extra, c`commands, c`sentReplies, c`readReplies
    modifies c.nb, c.nb.sock, c.nb.buf, c.nb.response
    ensures c.Valid()
    ensures done ==> (restored == file <==> Survives(file, mode))
    ensures done ==> c.RequestsHeard() == old(c.RequestsHeard()) + heard && |heard| > 0
    ensures done ==> files' == files[path := Uploaded(file, mode)]
    ensures done ==> Offered(files', heard[|heard| - 1]) == Some(Uploaded(file, mode))
    ensures done ==> restored == Downloaded(Uploaded(file, mode), mode)
  {
    var sent;
    ghost var put, get;
    ghost var before := c.RequestsHeard();
    restored, heard, files' := [], [], files;
    done, sent, put := FtpPut(c, path, mode, osOk, file, writePlan);
    done := done && c.InStep();
    if done {
      files' := CarryOutAll(Disk(files, None), put, sent).files;
      StoredAndFetched(file, mode, sent, Downloaded(sent, mode));
      done, restored, get := FtpGet(c, path, mode, osOk, sent, readPlan);
      ConcatAssociative(before, put, get);
      heard := put + get;
      assert done ==> heard[|heard| - 1] == get[|get| - 1];
    }
  }
}
