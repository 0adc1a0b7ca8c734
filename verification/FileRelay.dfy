/**
 * client_file.c and the relay in between: a file is sent as zero-padded payloads of 255 octets and
 * put together again by a receiver that has only a packet counter and the announced size.
 */
module FileRelay {
  import opened Bytes
  import opened Chunking

  const MAX_WORD_LEN: nat := 255

  datatype FileMsg = FileMsg(src: string, des: string, filesize: nat, filename: string, data: seq<byte>)

  function Zeros(n: nat): (r: seq<byte>)
    ensures |r| == n && forall b | b in r :: b == NUL
  {
    seq(n, _ => NUL)
  }

  /** pData of one packet: the chunk in a cleared array of MAX_WORD_LEN + 1 octets. */
  function Payload(chunk: seq<byte>): (r: seq<byte>)
    requires |chunk| <= MAX_WORD_LEN
    ensures |r| == MAX_WORD_LEN + 1
  {
    chunk + Zeros(MAX_WORD_LEN + 1 - |chunk|)
  }

  /** All payloads of a file, in order. */
  function Payloads(file: seq<byte>): (r: seq<seq<byte>>)
    ensures |r| == BlockCount(|file|, MAX_WORD_LEN)
    ensures forall d | d in r :: |d| == MAX_WORD_LEN + 1
    decreases |file|
  {
    if file == [] then []
    else if |file| <= MAX_WORD_LEN then [Payload(file)]
    else [Payload(file[..MAX_WORD_LEN])] + Payloads(file[MAX_WORD_LEN..])
  }

  /** A local file open for reading. */
  class Reader {
    const content: seq<byte>
    var pos: nat
    var eof: bool    // set only by a read that comes up short

    ghost predicate Valid()
      reads this
    {
      pos <= |content| && (eof ==> pos == |content|)
    }

    constructor (content: seq<byte>)
      ensures Valid() && this.content == content && pos == 0 && !eof
    {
      this.content, this.pos, this.eof := content, 0, false;
    }

    method Fread(n: nat) returns (data: seq<byte>)
      requires Valid()
      modifies this
      ensures Valid() && pos == old(pos) + |data|
      ensures data == content[old(pos)..pos] && |data| == (if |content| - old(pos) < n then |content| - old(pos) else n)
      ensures eof <==> old(eof) || |data| < n
    {
      var k := if |content| - pos < n then |content| - pos else n;
      data, pos := content[pos..pos + k], pos + k;
      eof := eof || k < n;
    }
  }

  /** The packets of one transfer: the same header around each payload. */
  function Wrapped(header: FileMsg, datas: seq<seq<byte>>): (r: seq<FileMsg>)
    ensures |r| == |datas|
  {
    if datas == [] then [] else [header.(data := datas[0])] + Wrapped(header, datas[1..])
  }

  lemma {:induction false} WrappedAt(header: FileMsg, datas: seq<seq<byte>>, i: nat)
    requires i < |datas|
    ensures Wrapped(header, datas)[i] == header.(data := datas[i])
  {
    if i > 0 {
      WrappedAt(header, datas[1..], i - 1);
    }
  }

  /**
   * doSendFile: exactly ceil(|file| / 255) packets, also when the size is a multiple of 255 and the
   * end of the file is only noticed by a read that returns nothing.
   */
  method SendFile(file: seq<byte>, src: string, des: string, path: string) returns (packets: seq<FileMsg>)
    ensures packets == Wrapped(FileMsg(src, des, |file|, path, []), Payloads(file))
    ensures |packets| == BlockCount(|file|, MAX_WORD_LEN)
    ensures |packets| * 255 >= |file| && (file != [] ==> (|packets| - 1) * 255 < |file|)
  {
    BlockCountIsCeiling(|file|, MAX_WORD_LEN);
    var fp := new Reader(file);
    var header := FileMsg(src, des, |file|, path, []);
    packets := [];
    var failed := false;
    ghost var all := Wrapped(header, Payloads(file));
    assert file[0..] == file && packets + all == all;
    while !fp.eof && !failed
      invariant fp.Valid() && fp.content == file && fresh(fp)
      invariant packets + Wrapped(header, Payloads(file[fp.pos..])) == all
      invariant failed ==> fp.pos == |file|
      decreases |file| - fp.pos, !failed
    {
      ghost var at := fp.pos;
      var fileBuf := fp.Fread(MAX_WORD_LEN);
      assert fp.pos == at + |fileBuf| && fileBuf == file[at..fp.pos];
      if |fileBuf| == 0 {
        failed := true;
        assert fp.pos == at;
      } else {
        NextPacket(header, file, at, fp.pos, packets);
        var packet := header.(data := Payload(fileBuf));
        packets := packets + [packet];
      }
    }
    assert file[fp.pos..] == [];
  }

  /** The packets still to be sent from position `at` start with the chunk that is read there. */
  lemma NextPacket(header: FileMsg, file: seq<byte>, at: nat, to: nat, before: seq<FileMsg>)
    requires at < to <= |file| && to - at == (if |file| - at < MAX_WORD_LEN then |file| - at else MAX_WORD_LEN)
    ensures before + Wrapped(header, Payloads(file[at..])) ==
      (before + [header.(data := Payload(file[at..to]))]) + Wrapped(header, Payloads(file[to..]))
  {
    var rest, after := file[at..], Payloads(file[to..]);
    PayloadsStep(rest, to - at);
    assert rest[..to - at] == file[at..to] && rest[to - at..] == file[to..];
    var datas := Payloads(rest);
    assert datas[1..] == after;
    ConcatAssociative(before, [header.(data := datas[0])], Wrapped(header, after));
  }

  lemma PayloadsStep(rest: seq<byte>, k: nat)
    requires 0 < k == (if |rest| < MAX_WORD_LEN then |rest| else MAX_WORD_LEN)
    ensures Payloads(rest) == [Payload(rest[..k])] + Payloads(rest[k..])
  {
    if |rest| <= MAX_WORD_LEN {
      assert rest[..k] == rest && rest[k..] == [];
    }
  }

  // ---------- the relay ----------

  const EXIT: seq<byte> := [101, 120, 105, 116]

  /** strcmp(pRecvMsg, "exit") == 0: the server drops such a packet. */
  predicate IsExit(data: seq<byte>) {
    CString(data) == EXIT
  }

  /** It does so iff the first five octets are e, x, i, t and NUL. */
  lemma ExitIff(data: seq<byte>)
    requires |data| == MAX_WORD_LEN + 1
    ensures IsExit(data) <==>
      data[0] == 'e' as int && data[1] == 'x' as int && data[2] == 'i' as int && data[3] == 't' as int && data[4] == NUL
  {
    if data[..4] == EXIT && data[4] == NUL {
      assert data == EXIT + data[4..];
      CStringPrefix(EXIT, data[4..]);
      TextIsItself(EXIT);
    }
    assert forall i | 0 <= i < |CString(data)| :: CString(data)[i] == data[i];
  }

  lemma {:induction false} TextIsItself(s: seq<byte>)
    requires NUL !in s
    ensures CString(s) == s
  {
    if s != [] {
      TextIsItself(s[1..]);
    }
  }

  /** What the server forwards to a receiver that is online. */
  function Relayed(datas: seq<seq<byte>>): (r: seq<seq<byte>>)
    ensures |r| <= |datas|
    ensures forall d | d in r :: d in datas
  {
    if datas == [] then [] else (if IsExit(datas[0]) then [] else [datas[0]]) + Relayed(datas[1..])
  }

  lemma {:induction false} RelayedAll(datas: seq<seq<byte>>)
    ensures |Relayed(datas)| == |datas| <==> forall d | d in datas :: !IsExit(d)
    ensures |Relayed(datas)| == |datas| ==> Relayed(datas) == datas
  {
    if datas != [] {
      RelayedAll(datas[1..]);
      assert datas == [datas[0]] + datas[1..];
    }
  }

  // ---------- the receiver ----------

  /** strstr(s, t) != NULL */
  predicate Contains(s: string, t: string) {
    |s| >= |t| && (s[..|t|] == t || (s != [] && Contains(s[1..], t)))
  }

  predicate IsImage(filename: string) {
    Contains(filename, "png") || Contains(filename, "jpg")
  }

  /** t stands in s at position i. */
  predicate StandsAt(s: string, t: string, i: nat) {
    i + |t| <= |s| && s[i..i + |t|] == t
  }

  lemma {:induction false} ContainsIff(s: string, t: string)
    ensures Contains(s, t) <==> exists i: nat :: StandsAt(s, t, i)
  {
    if |s| >= |t| && s[..|t|] == t {
      assert StandsAt(s, t, 0);
    } else if s != [] {
      ContainsIff(s[1..], t);
      if Contains(s[1..], t) {
        var i: nat :| StandsAt(s[1..], t, i);
        assert s[1..][i..i + |t|] == s[i + 1..i + 1 + |t|];
        assert StandsAt(s, t, i + 1);
      }
      forall i: nat | StandsAt(s, t, i) ensures StandsAt(s[1..], t, i - 1) {
        assert i > 0 && s[1..][i - 1..i - 1 + |t|] == s[i..i + |t|];
      }
    }
  }

  /** A name is taken for that of an image when "png" or "jpg" stands anywhere in it. */
  lemma ImageIff(filename: string)
    ensures IsImage(filename) <==> exists i: nat :: StandsAt(filename, "png", i) || StandsAt(filename, "jpg", i)
  {
    ContainsIff(filename, "png");
    ContainsIff(filename, "jpg");
  }

  /** The receiver's packet counter and what it has appended to the file. */
  datatype Progress = Progress(counter: nat, appended: seq<byte>)

  predicate IsLast(p: Progress, size: nat) {
    size <= (p.counter + 1) * MAX_WORD_LEN
  }

  /** One packet of somebody else's file. */
  function Receive(p: Progress, size: nat, image: bool, data: seq<byte>): (r: Progress)
    requires |data| == MAX_WORD_LEN + 1
  {
    var fileBuf := data[..MAX_WORD_LEN];
    if !IsLast(p, size) then Progress(p.counter + 1, p.appended + fileBuf)
    else Progress(0, p.appended + (if image then fileBuf else CString(fileBuf)))
  }

  function ReceiveAll(p: Progress, size: nat, image: bool, datas: seq<seq<byte>>): (r: Progress)
    requires forall d | d in datas :: |d| == MAX_WORD_LEN + 1
    decreases |datas|
  {
    if datas == [] then p else ReceiveAll(Receive(p, size, image, datas[0]), size, image, datas[1..])
  }

  class Receiver {
    const name: string
    var filePacketNum: nat
    var disk: map<string, seq<byte>>

    constructor (name: string, disk: map<string, seq<byte>>)
      ensures this.name == name && filePacketNum == 0 && this.disk == disk
    {
      this.name, this.filePacketNum, this.disk := name, 0, disk;
    }

    function OnDisk(filename: string): (r: seq<byte>)
      reads this
    {
      if filename in disk then disk[filename] else []
    }

    function Progressed(filename: string): (p: Progress)
      reads this
    {
      Progress(filePacketNum, OnDisk(filename))
    }

    /** doRecvFile; `shown` is the notice of a packet that came back because the receiver was offline. */
    method DoRecvFile(m: FileMsg) returns (shown: bool)
      requires |m.data| == MAX_WORD_LEN + 1
      modifies this
      ensures m.src == name ==>
        disk == old(disk) && filePacketNum == old(filePacketNum) && shown == (filePacketNum == 0)
      ensures m.src != name ==>
        var r := Receive(old(Progressed(m.filename)), m.filesize, IsImage(m.filename), m.data);
        !shown && filePacketNum == r.counter && disk == old(disk)[m.filename := r.appended]
    {
      if m.src == name {
        shown := filePacketNum == 0;
      } else {
        shown := false;
        var content := OnDisk(m.filename);
        var fileBuf := m.data[..MAX_WORD_LEN];
        if m.filesize <= (filePacketNum + 1) * MAX_WORD_LEN {
          if IsImage(m.filename) {
            content := content + fileBuf;
          } else {
            content := content + CString(fileBuf);
          }
          filePacketNum := 0;
        } else {
          content := content + fileBuf;
          filePacketNum := filePacketNum + 1;
        }
        disk := disk[m.filename := content];
      }
    }
  }

  // ---------- what arrives ----------

  /** The number of octets in the last chunk of a non-empty file. */
  function LastSize(n: nat): (r: nat)
    requires n > 0
    ensures 0 < r <= MAX_WORD_LEN && r <= n
  {
    if n <= MAX_WORD_LEN then n else LastSize(n - MAX_WORD_LEN)
  }

  /** What a receiver that gets every packet appends. */
  function Arrived(file: seq<byte>, image: bool): (r: seq<byte>)
    requires file != []
  {
    var k := |file| - LastSize(|file|);
    if image then file + Zeros(MAX_WORD_LEN - LastSize(|file|))
    else file[..k] + CString(file[k..])
  }

  lemma LastSizeTail(n: nat)
    requires n > MAX_WORD_LEN
    ensures LastSize(n) == LastSize(n - MAX_WORD_LEN)
  {
  }

  /** A packet is taken for the last one exactly when its number is the number of packets. */
  lemma LastTest(p: Progress, size: nat)
    requires size > 0
    ensures IsLast(p, size) <==> p.counter + 1 >= BlockCount(size, MAX_WORD_LEN)
  {
    BlockCountIsCeiling(size, MAX_WORD_LEN);
  }

  /** While fewer packets than announced have arrived, the counter counts them and all 255 octets are kept. */
  lemma {:induction false} CounterCounts(p: Progress, size: nat, image: bool, datas: seq<seq<byte>>)
    requires forall d | d in datas :: |d| == MAX_WORD_LEN + 1
    requires size > 0 && p.counter + |datas| < BlockCount(size, MAX_WORD_LEN)
    ensures ReceiveAll(p, size, image, datas).counter == p.counter + |datas|
    decreases |datas|
  {
    if datas != [] {
      assert datas[0] in datas && forall d | d in datas[1..] :: d in datas;
      LastTest(p, size);
      CounterCounts(Receive(p, size, image, datas[0]), size, image, datas[1..]);
    }
  }

  /** The tail of a file, received when exactly the packets before it have been counted. */
  lemma {:induction false} TailArrives(p: Progress, size: nat, image: bool, rest: seq<byte>)
    requires rest != [] && p.counter + BlockCount(|rest|, MAX_WORD_LEN) == BlockCount(size, MAX_WORD_LEN) && size > 0
    ensures ReceiveAll(p, size, image, Payloads(rest)) == Progress(0, p.appended + Arrived(rest, image))
    decreases |rest|
  {
    if |rest| <= MAX_WORD_LEN {
      LastTest(p, size);
      LastPacketArrives(p, size, image, rest);
    } else {
      var first, after := rest[..MAX_WORD_LEN], rest[MAX_WORD_LEN..];
      FullPacketArrives(p, size, image, rest);
      TailArrives(Progress(p.counter + 1, p.appended + first), size, image, after);
      ArrivedStep(rest, image);
      ConcatAssociative(p.appended, first, Arrived(after, image));
    }
  }

  lemma ArrivedStep(rest: seq<byte>, image: bool)
    requires |rest| > MAX_WORD_LEN
    ensures Arrived(rest, image) == rest[..MAX_WORD_LEN] + Arrived(rest[MAX_WORD_LEN..], image)
  {
    LastSizeTail(|rest|);
    var first, after := rest[..MAX_WORD_LEN], rest[MAX_WORD_LEN..];
    var k := |after| - LastSize(|after|);
    PrefixInTwo(rest, MAX_WORD_LEN, k);
    assert rest == first + after;
    ConcatAssociative(first, after, Zeros(MAX_WORD_LEN - LastSize(|rest|)));
    ConcatAssociative(first, after[..k], CString(after[k..]));
  }

  lemma FullPacketArrives(p: Progress, size: nat, image: bool, rest: seq<byte>)
    requires |rest| > MAX_WORD_LEN && size > 0
    requires p.counter + BlockCount(|rest|, MAX_WORD_LEN) == BlockCount(size, MAX_WORD_LEN)
    ensures ReceiveAll(p, size, image, Payloads(rest)) ==
      ReceiveAll(Progress(p.counter + 1, p.appended + rest[..MAX_WORD_LEN]), size, image,
                 Payloads(rest[MAX_WORD_LEN..]))
  {
    LastTest(p, size);
    var first, datas := rest[..MAX_WORD_LEN], Payloads(rest);
    assert datas[0] == Payload(first) && datas[1..] == Payloads(rest[MAX_WORD_LEN..]);
    assert datas[0][..MAX_WORD_LEN] == first;
  }

  lemma LastPacketArrives(p: Progress, size: nat, image: bool, rest: seq<byte>)
    requires 0 < |rest| <= MAX_WORD_LEN && IsLast(p, size)
    ensures ReceiveAll(p, size, image, Payloads(rest)) == Progress(0, p.appended + Arrived(rest, image))
  {
    PayloadText(rest);
    ArrivedOne(rest, image);
    assert Payloads(rest) == [Payload(rest)];
    OnePacket(p, size, image, Payload(rest));
  }

  lemma ArrivedOne(rest: seq<byte>, image: bool)
    requires 0 < |rest| <= MAX_WORD_LEN
    ensures Arrived(rest, image) == if image then rest + Zeros(MAX_WORD_LEN - |rest|) else CString(rest)
  {
  }

  lemma PayloadText(chunk: seq<byte>)
    requires |chunk| <= MAX_WORD_LEN
    ensures Payload(chunk)[..MAX_WORD_LEN] == chunk + Zeros(MAX_WORD_LEN - |chunk|)
    ensures CString(Payload(chunk)[..MAX_WORD_LEN]) == CString(chunk)
  {
    var pad := Zeros(MAX_WORD_LEN - |chunk|);
    assert Payload(chunk)[..MAX_WORD_LEN] == chunk + pad;
    CStringPrefix(chunk, pad);
  }

  lemma OnePacket(p: Progress, size: nat, image: bool, data: seq<byte>)
    requires |data| == MAX_WORD_LEN + 1
    ensures ReceiveAll(p, size, image, [data]) == Receive(p, size, image, data)
  {
  }

  // ---------- whole transfers ----------

  /** What arrives is the file itself exactly when nothing is cut off or padded on. */
  predicate Clean(file: seq<byte>, image: bool)
    requires file != []
  {
    if image then LastSize(|file|) == MAX_WORD_LEN else NUL !in file[|file| - LastSize(|file|)..]
  }

  lemma ArrivedIsFile(file: seq<byte>, image: bool)
    requires file != []
    ensures Arrived(file, image) == file <==> Clean(file, image)
  {
  }

  /**
   * File transfer through the relay, for every non-empty file and a receiver between files: the
   * receiver ends between files again with exactly the file appended if and only if no packet reads
   * as "exit" and the last chunk survives, that is, it holds no NUL, or fills the packet when the
   * name is an image name.
   */
  lemma FileRoundTrip(file: seq<byte>, image: bool, before: seq<byte>)
    requires file != []
    ensures ReceiveAll(Progress(0, before), |file|, image, Relayed(Payloads(file))) == Progress(0, before + file)
      <==> (forall d | d in Payloads(file) :: !IsExit(d)) && Clean(file, image)
  {
    var datas := Relayed(Payloads(file));
    RelayedAll(Payloads(file));
    ArrivedIsFile(file, image);
    BlockCountIsCeiling(|file|, MAX_WORD_LEN);
    if |datas| == |Payloads(file)| {
      TailArrives(Progress(0, before), |file|, image, file);
      if Clean(file, image) {
      } else {
        SameFront(before, Arrived(file, image), file);
      }
    } else if |datas| > 0 {
      CounterCounts(Progress(0, before), |file|, image, datas);
    } else {
      assert |before + file| > |before|;
    }
  }

  lemma SameFront(a: seq<byte>, b: seq<byte>, c: seq<byte>)
    ensures a + b == a + c <==> b == c
  {
    assert (a + b)[|a|..] == b && (a + c)[|a|..] == c;
  }

  /** The counter after a file of which some packets were dropped: 0 only if none or all of them were. */
  lemma CounterAfterFile(file: seq<byte>, image: bool, before: seq<byte>)
    requires file != []
    ensures var arrived := |Relayed(Payloads(file))|;
            ReceiveAll(Progress(0, before), |file|, image, Relayed(Payloads(file))).counter ==
              if arrived == |Payloads(file)| then 0 else arrived
  {
    RelayedAll(Payloads(file));
    if |Relayed(Payloads(file))| == |Payloads(file)| {
      TailArrives(Progress(0, before), |file|, image, file);
    } else {
      CounterCounts(Progress(0, before), |file|, image, Relayed(Payloads(file)));
    }
  }

  datatype Transfer = Transfer(file: seq<byte>, image: bool)

  predicate NoExit(datas: seq<seq<byte>>) {
    forall d | d in datas :: !IsExit(d)
  }

  /** A file whose packets all read as "exit" would have left something if they had arrived. */
  lemma ExitLeavesSomething(file: seq<byte>, image: bool)
    requires file != [] && !NoExit(Payloads(file))
    ensures Arrived(file, image) != []
  {
    if |file| <= MAX_WORD_LEN {
      var data := Payload(file);
      assert Payloads(file) == [data] && IsExit(data);
      assert data[0] == CString(data)[0] == EXIT[0];
      assert file[0] == data[0] && LastSize(|file|) == |file| && file[0..] == file;
    }
  }

  /** A receiver between files gets a file from its own packets, and is between files again, iff none is dropped. */
  lemma OneFileArrives(t: Transfer)
    requires t.file != []
    ensures Delivered(0, t) == Progress(0, Arrived(t.file, t.image)) <==> NoExit(Payloads(t.file))
  {
    var datas := Payloads(t.file);
    RelayedAll(datas);
    CounterAfterFile(t.file, t.image, []);
    if NoExit(datas) {
      TailArrives(Progress(0, []), |t.file|, t.image, t.file);
      assert [] + Arrived(t.file, t.image) == Arrived(t.file, t.image);
    } else {
      ExitLeavesSomething(t.file, t.image);
    }
  }

  /** What a receiver appends, and its counter afterwards, when it starts a file with this counter. */
  function Delivered(counter: nat, t: Transfer): (p: Progress) {
    ReceiveAll(Progress(counter, []), |t.file|, t.image, Relayed(Payloads(t.file)))
  }

  predicate NoneEmpty(transfers: seq<Transfer>) {
    transfers == [] || (transfers[0].file != [] && NoneEmpty(transfers[1..]))
  }

  /** No packet of any of the files reads as "exit". */
  predicate NoneExits(transfers: seq<Transfer>) {
    transfers == [] || (NoExit(Payloads(transfers[0].file)) && NoneExits(transfers[1..]))
  }

  /** Each file in turn arrives from its own packets and leaves the counter at 0. */
  predicate AllArrive(counter: nat, transfers: seq<Transfer>)
    requires NoneEmpty(transfers)
    decreases |transfers|
  {
    transfers == [] || (
      var p := Delivered(counter, transfers[0]);
      p == Progress(0, Arrived(transfers[0].file, transfers[0].image)) && AllArrive(p.counter, transfers[1..]))
  }

  /**
   * Over whole runs of files received one after another: each of them arrives from its own packets,
   * with the counter at 0 after it, if and only if no packet of any of them reads as "exit".
   */
  lemma {:induction false} FilesRoundTrip(transfers: seq<Transfer>)
    requires NoneEmpty(transfers)
    ensures AllArrive(0, transfers) <==> NoneExits(transfers)
    decreases |transfers|
  {
    if transfers != [] {
      OneFileArrives(transfers[0]);
      FilesRoundTrip(transfers[1..]);
    }
  }

  /**
   * Sender, relay and receiver together: the receiver's counter and file become what ReceiveAll says
   * of the packets that are relayed, and no other file changes.
   */
  method TransferFile(file: seq<byte>, src: string, path: string, r: Receiver)
    requires src != r.name
    modifies r
    ensures r.Progressed(path) == ReceiveAll(old(r.Progressed(path)), |file|, IsImage(path), Relayed(Payloads(file)))
    ensures forall f | f != path :: r.OnDisk(f) == old(r.OnDisk(f))
    ensures file != [] && old(r.filePacketNum) == 0 ==>
      (r.filePacketNum == 0 && r.OnDisk(path) == old(r.OnDisk(path)) + file <==>
       NoExit(Payloads(file)) && Clean(file, IsImage(path)))
  {
    if file != [] {
      FileRoundTrip(file, IsImage(path), r.OnDisk(path));
    }
    var packets := SendFile(file, src, r.name, path);
    ghost var datas, size, image := Payloads(file), |file|, IsImage(path);
    assert datas[0..] == datas;
    for i := 0 to |packets|
      invariant ReceiveAll(r.Progressed(path), size, image, Relayed(datas[i..]))
             == ReceiveAll(old(r.Progressed(path)), size, image, Relayed(datas))
      invariant forall f | f != path :: r.OnDisk(f) == old(r.OnDisk(f))
    {
      WrappedAt(FileMsg(src, r.name, size, path, []), datas, i);
      RelayStep(r.Progressed(path), size, image, datas, i);
      RelayOne(packets[i], r);
    }
    assert datas[|packets|..] == [];
  }

  /** One packet through the filter and procSendFile2One to a receiver that is online. */
  method RelayOne(m: FileMsg, r: Receiver)
    requires m.src != r.name && |m.data| == MAX_WORD_LEN + 1
    modifies r
    ensures r.Progressed(m.filename) ==
      if IsExit(m.data) then old(r.Progressed(m.filename))
      else Receive(old(r.Progressed(m.filename)), m.filesize, IsImage(m.filename), m.data)
    ensures forall f | f != m.filename :: r.OnDisk(f) == old(r.OnDisk(f))
  {
    if !IsExit(m.data) {
      var shown := r.DoRecvFile(m);
    }
  }

  lemma RelayStep(p: Progress, size: nat, image: bool, datas: seq<seq<byte>>, i: nat)
    requires i < |datas| && forall d | d in datas :: |d| == MAX_WORD_LEN + 1
    ensures forall d | d in datas[i..] :: d in datas
    ensures ReceiveAll(p, size, image, Relayed(datas[i..])) ==
      ReceiveAll(if IsExit(datas[i]) then p else Receive(p, size, image, datas[i]), size, image,
                 Relayed(datas[i + 1..]))
  {
    assert datas[i..][1..] == datas[i + 1..];
    var rest := Relayed(datas[i + 1..]);
    if IsExit(datas[i]) {
      assert [] + rest == rest;
    } else {
      assert ([datas[i]] + rest)[1..] == rest;
    }
  }
}
