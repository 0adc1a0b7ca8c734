/**
 * What a transfer leaves behind, as functions of the data and of everything that serves the data
 * connection: the octets that an upload reported successful has sent, the file that a download
 * leaves, and exactly when either is complete.
 */
module Completeness {
  import opened Wrappers
  import opened Bytes
  import opened Chunking
  import opened LineCodec
  import opened Wire
  import opened Serving

  // ---------- uploads ----------

  /** The flushes of one FtpWrite: an image connection has no buffer and writes all at once. */
  function WriteOf(ascii: bool, data: seq<byte>): (r: seq<seq<byte>>) {
    if ascii then Blocks(Encode(0, data), FTPLIB_BUFSIZ) else [data]
  }

  /** Those of an upload, write by write. */
  function WritesOf(ascii: bool, file: seq<byte>): (r: seq<seq<seq<byte>>>)
    decreases |file|
  {
    if |file| == 0 then []
    else if |file| <= FTPLIB_BUFSIZ then [WriteOf(ascii, file)]
    else [WriteOf(ascii, file[..FTPLIB_BUFSIZ])] + WritesOf(ascii, file[FTPLIB_BUFSIZ..])
  }

  function OnTheWire(ascii: bool, file: seq<byte>): (r: seq<byte>) {
    if ascii then BlockEncode(file, FTPLIB_BUFSIZ) else file
  }

  lemma WriteOfIsCode(ascii: bool, data: seq<byte>)
    ensures Flatten(WriteOf(ascii, data)) == if ascii then Encode(0, data) else data
  {
    BlocksAreFile(Encode(0, data), FTPLIB_BUFSIZ);
    assert [data][1..] == [];
  }

  lemma {:induction false} WritesAreTheWire(ascii: bool, file: seq<byte>)
    ensures Flatten(Flatten(WritesOf(ascii, file))) == OnTheWire(ascii, file)
    decreases |file|
  {
    if |file| != 0 {
      var writes, more := WritesOf(ascii, file), |file| > FTPLIB_BUFSIZ;
      var head := if more then file[..FTPLIB_BUFSIZ] else file;
      WriteOfIsCode(ascii, head);
      FlattenAppend(writes[0], Flatten(writes[1..]));
      if more {
        assert writes[1..] == WritesOf(ascii, file[FTPLIB_BUFSIZ..]);
        WritesAreTheWire(ascii, file[FTPLIB_BUFSIZ..]);
        assert file == file[..FTPLIB_BUFSIZ] + file[FTPLIB_BUFSIZ..];
      }
    }
  }

  lemma {:induction false} NoEmptyFlush(ascii: bool, file: seq<byte>)
    ensures forall w, b | w in WritesOf(ascii, file) && b in w :: b != []
    decreases |file|
  {
    if |file| != 0 {
      var head := if |file| > FTPLIB_BUFSIZ then file[..FTPLIB_BUFSIZ] else file;
      forall b | b in WriteOf(ascii, head) ensures b != [] {
        if ascii {
          var i :| 0 <= i < |WriteOf(ascii, head)| && WriteOf(ascii, head)[i] == b;
          BlocksAreFull(Encode(0, head), FTPLIB_BUFSIZ, i);
        }
      }
      if |file| > FTPLIB_BUFSIZ {
        NoEmptyFlush(ascii, file[FTPLIB_BUFSIZ..]);
      }
    }
  }

  function Prepend(a: seq<byte>, b: Option<seq<byte>>): (r: Option<seq<byte>>)
    ensures |a| == 0 ==> r == b
  {
    match b
    case None => None
    case Some(s) =>
      assert |a| == 0 ==> a + s == s;
      Some(a + s)
  }

  /**
   * What these writes put on the wire when each is reported to have written all its data; None when
   * one is not. One whose last flush alone has been refused is.
   */
  function SentOf(sink: Sink, writes: seq<seq<seq<byte>>>): (r: Option<seq<byte>>)
    decreases |writes|
  {
    if |writes| == 0 then Some([])
    else match Written(sink, writes[0])
      case Everything(later) => Prepend(Flatten(writes[0]), SentOf(later, writes[1..]))
      case AllButLast(later) => Prepend(Flatten(AllBut(writes[0])), SentOf(later, writes[1..]))
      case Less => None
  }

  function AllBut<T>(s: seq<T>): (r: seq<T>) {
    if |s| == 0 then [] else s[..|s| - 1]
  }

  lemma FlattenAllBut(s: seq<seq<byte>>)
    requires s != []
    ensures |Flatten(AllBut(s))| == |Flatten(s)| - |s[|s| - 1]|
  {
    assert s == AllBut(s) + [s[|s| - 1]];
    FlattenAppend(AllBut(s), [s[|s| - 1]]);
    assert Flatten([s[|s| - 1]]) == s[|s| - 1] + Flatten<byte>([]);
  }

  /** What is sent is never longer than the whole. */
  lemma {:induction false} SentIsNoMore(sink: Sink, writes: seq<seq<seq<byte>>>)
    ensures SentOf(sink, writes).Some? ==> |SentOf(sink, writes).value| <= |Flatten(Flatten(writes))|
    decreases |writes|
  {
    if |writes| != 0 {
      FlattenAppend(writes[0], Flatten(writes[1..]));
      match Written(sink, writes[0])
      case Everything(later) => SentIsNoMore(later, writes[1..]);
      case AllButLast(later) => SentIsNoMore(later, writes[1..]); FlattenAllBut(writes[0]);
      case Less =>
    }
  }

  /** All has been sent and reported exactly when each single flush gets out whole. */
  lemma {:induction false} SentWholeIff(sink: Sink, writes: seq<seq<seq<byte>>>)
    requires forall w, b | w in writes && b in w :: b != []
    ensures SentOf(sink, writes) == Some(Flatten(Flatten(writes))) <==> Written(sink, Flatten(writes)).Everything?
    decreases |writes|
  {
    if |writes| != 0 {
      var first, rest := writes[0], writes[1..];
      FlattenAppend(first, Flatten(rest));
      if Flatten(rest) == [] {
        assert first + Flatten(rest) == first;
      } else {
        WrittenAppend(sink, first, Flatten(rest));
      }
      match Written(sink, first)
      case Everything(later) =>
        SentWholeIff(later, rest);
        SameTail(Flatten(first), SentOf(later, rest), Flatten(Flatten(rest)));
      case AllButLast(later) =>
        SentIsNoMore(later, rest);
        assert first[|first| - 1] in first && first in writes;
        FlattenAllBut(first);
      case Less =>
    }
  }

  lemma PrependTwice(a: seq<byte>, b: seq<byte>, c: Option<seq<byte>>)
    ensures Prepend(a, Prepend(b, c)) == Prepend(a + b, c)
  {
    if c.Some? {
      ConcatAssociative(a, b, c.value);
    }
  }

  lemma SameTail(a: seq<byte>, b: Option<seq<byte>>, c: seq<byte>)
    ensures Prepend(a, b) == Some(a + c) <==> b == Some(c)
  {
    if b.Some? {
      assert (a + b.value)[|a|..] == b.value && (a + c)[|a|..] == c;
    }
  }

  /** What serves an upload: an image connection does not heed the callback. */
  function Heeded(ascii: bool, sink: Sink): (r: Sink) {
    if ascii then sink else Sink(sink.plan, [])
  }

  /** What an upload that reports success has put on the wire; None when it does not. */
  function UploadOf(ascii: bool, sink: Sink, file: seq<byte>): (r: Option<seq<byte>>) {
    SentOf(Heeded(ascii, sink), WritesOf(ascii, file))
  }

  /**
   * The callback grants each flush, which only an ASCII connection asks it for, and the system
   * accepts each block whole.
   */
  predicate Goes(ascii: bool, sink: Sink, file: seq<byte>) {
    var flushes := Flatten(WritesOf(ascii, file));
    (ascii ==> Granted(sink.answers, |flushes|) == |flushes|) && Accepts(sink.plan, flushes)
  }

  /** Exactly then an upload is complete, and it is reported so. */
  lemma UploadCompleteIff(ascii: bool, sink: Sink, file: seq<byte>)
    ensures UploadOf(ascii, sink, file) == Some(OnTheWire(ascii, file)) <==> Goes(ascii, sink, file)
  {
    var flushes, heeded := Flatten(WritesOf(ascii, file)), Heeded(ascii, sink);
    WritesAreTheWire(ascii, file);
    NoEmptyFlush(ascii, file);
    SentWholeIff(heeded, WritesOf(ascii, file));
    EverythingIff(heeded, flushes);
    if !ascii {
      NoAnswersGrant(|flushes|);
    }
  }

  lemma {:induction false} NoAnswersGrant(n: nat)
    ensures Granted([], n) == n
  {
    if n > 0 {
      NoAnswersGrant(n - 1);
    }
  }

  /** Without a callback to refuse a flush, an upload that reports success is complete. */
  lemma {:induction false} UnaskedIsWhole(sink: Sink, writes: seq<seq<seq<byte>>>)
    requires sink.answers == []
    ensures SentOf(sink, writes).Some? ==> SentOf(sink, writes) == Some(Flatten(Flatten(writes)))
    decreases |writes|
  {
    if |writes| != 0 {
      FlattenAppend(writes[0], Flatten(writes[1..]));
      UnaskedStays(sink, writes[0]);
      match Written(sink, writes[0])
      case Everything(later) => UnaskedIsWhole(later, writes[1..]);
      case _ =>
    }
  }

  lemma {:induction false} UnaskedStays(sink: Sink, blocks: seq<seq<byte>>)
    requires sink.answers == []
    ensures match Written(sink, blocks) case Everything(later) => later.answers == [] case other => other == Less
    decreases |blocks|
  {
    if |blocks| > 0 {
      match AfterFlush(sink, |blocks[0]|)
      case Some(later) => UnaskedStays(later, blocks[1..]);
      case None =>
    }
  }

  /** An upload that reports success is complete unless an ASCII connection has a callback to ask. */
  lemma UnaskedUpload(ascii: bool, sink: Sink, file: seq<byte>)
    requires ascii ==> sink.answers == []
    ensures UploadOf(ascii, sink, file).Some? <==> Goes(ascii, sink, file)
  {
    WritesAreTheWire(ascii, file);
    UnaskedIsWhole(Heeded(ascii, sink), WritesOf(ascii, file));
    UploadCompleteIff(ascii, sink, file);
  }

  // ---------- downloads ----------

  /** The progress report: it is made after more than `limit` octets, if at all. */
  datatype Meter = Meter(limit: Option<nat>, since: nat, answers: seq<bool>)
  {
    predicate Fires(i: nat) {
      limit.Some? && since + i > limit.value
    }

    /** A read of i octets is passed on to the caller. */
    predicate Passes(i: nat) {
      Fires(i) ==> !Refuses(answers)
    }

    function After(i: nat): (m: Meter) {
      if Fires(i) then Meter(limit, 0, Later(answers)) else if limit.Some? then this.(since := since + i) else this
    }

    /** How many reports the reads of these sizes make. */
    function Reports(sizes: seq<nat>): (n: nat)
      decreases |sizes|
    {
      if |sizes| == 0 then 0 else (if Fires(sizes[0]) then 1 else 0) + After(sizes[0]).Reports(sizes[1..])
    }

    predicate PassesAll(sizes: seq<nat>)
      decreases |sizes|
    {
      |sizes| == 0 || (Passes(sizes[0]) && After(sizes[0]).PassesAll(sizes[1..]))
    }

    /** All reads are passed on exactly when the callback agrees to every report. */
    lemma {:induction false} PassesAllIff(sizes: seq<nat>)
      ensures PassesAll(sizes) <==> Granted(answers, Reports(sizes)) == Reports(sizes)
      decreases |sizes|
    {
      if |sizes| != 0 {
        After(sizes[0]).PassesAllIff(sizes[1..]);
      }
    }
  }

  /**
   * What a data connection has still to bring, of which `held` octets are buffered, to a caller with a
   * buffer of max octets, and what serves it.
   */
  datatype Arrival = Arrival(ascii: bool, stream: seq<byte>, held: nat, max: nat, feed: Feed)
  {
    predicate Valid() {
      held <= |stream| && max > 0
    }

    /** The next call that reads: a line of an ASCII connection, otherwise what a single read brings. */
    function Call(): (r: Reading)
      requires Valid()
      ensures r.taken + r.held <= |stream|
      ensures |stream| == 0 ==> !r.IsPiece()
    {
      if ascii then LineOf(stream, held, feed)
      else if Refuses(feed.answers) then Reading(Stopped, 0, 0, feed.(answers := Later(feed.answers)))
      else
        var (c, plan) := NetReads(feed.plan, |stream|, max);
        var later := Feed(plan, Later(feed.answers));
        if c > 0 then Reading(Got, c, 0, later) else Reading(if c == 0 then AtEof else Failed, 0, 0, later)
    }

    /** What it hands to its caller: a line is stripped, what a stopped wait leaves of one is not. */
    function Piece(): (r: seq<byte>)
      requires Valid()
      ensures r != [] <==> Call().IsPiece()
    {
      var r := Call();
      if !r.IsPiece() then []
      else if ascii && r.how == Got then Strip(stream[..r.taken])
      else stream[..r.taken]
    }

    function Next(): (a: Arrival)
      requires Valid()
      ensures a.Valid() && (Piece() != [] ==> |a.stream| < |stream|)
    {
      var r := Call();
      Arrival(ascii, stream[r.taken..], r.held, max, r.feed)
    }

    /** The piece ends between a CR and its LF: the wait for that LF has been refused. */
    predicate Torn()
      requires Valid()
    {
      ascii && Call().how == Stopped && Tears(stream, Call().taken)
    }

    /** The sizes of all pieces, until a call brings none. */
    function Pieces(): (sizes: seq<nat>)
      requires Valid()
      decreases |stream|
    {
      if Piece() == [] then [] else [|Piece()|] + Next().Pieces()
    }

    /** What the whole stream is as a local file. */
    function Whole(): (r: seq<byte>) {
      if ascii then Decode(stream) else stream
    }
  }

  /** What the download loop leaves in the local file. */
  function FileOf(a: Arrival, m: Meter): (file: seq<byte>)
    requires a.Valid()
    decreases |a.stream|
  {
    if a.Piece() == [] || !m.Passes(|a.Piece()|) then []
    else a.Piece() + FileOf(a.Next(), m.After(|a.Piece()|))
  }

  /** What one call adds to a file. */
  lemma FileGrows(file: seq<byte>, a: Arrival, m: Meter)
    requires a.Valid()
    ensures file + FileOf(a, m) ==
      if a.Piece() == [] || !m.Passes(|a.Piece()|) then file
      else (file + a.Piece()) + FileOf(a.Next(), m.After(|a.Piece()|))
  {
    if a.Piece() != [] && m.Passes(|a.Piece()|) {
      ConcatAssociative(file, a.Piece(), FileOf(a.Next(), m.After(|a.Piece()|)));
    } else {
      assert file + [] == file;
    }
  }

  /** One of the pieces that get into the file is torn. */
  predicate TornFile(a: Arrival, m: Meter)
    requires a.Valid()
    decreases |a.stream|
  {
    && a.Piece() != [] && m.Passes(|a.Piece()|)
    && (a.Torn() || TornFile(a.Next(), m.After(|a.Piece()|)))
  }

  /** The calls bring all of the stream, and no piece is torn. */
  predicate Covered(a: Arrival)
    requires a.Valid()
    decreases |a.stream|
  {
    if a.Piece() == [] then |a.stream| == 0 else !a.Torn() && Covered(a.Next())
  }

  lemma {:induction false} LineOfTakes(s: seq<byte>, p: nat, feed: Feed)
    requires p <= |s|
    ensures var r := LineOf(s, p, feed);
            && (r.how == Got ==> s != [] && r.taken == LineEnd(s))
            && (r.how == Stopped ==> LF !in s[..r.taken] && r.held == 0)
            && (r.how == AtEof ==> s == [])
    decreases |s| - p
  {
    if ContentLen(s) >= p && !Refuses(feed.answers) {
      var (c, plan) := NetReads(feed.plan, |s| - p, FTPLIB_BUFSIZ);
      if c > 0 {
        LineOfTakes(s, p + c, Feed(plan, Later(feed.answers)));
      }
    }
  }

  /** What a call on an ASCII connection hands out, by how it ends. */
  lemma LinePiece(a: Arrival)
    requires a.Valid() && a.ascii
    ensures var r, n := a.Call(), LineEnd(a.stream);
      match r.how
      case Got => |a.stream| > 0 && r.taken == n && a.Piece() == Strip(a.stream[..n]) && |a.Piece()| > 0
      case Stopped => LF !in a.stream[..r.taken] && a.Piece() == a.stream[..r.taken]
      case _ => a.Piece() == []
  {
    LineOfTakes(a.stream, a.held, a.feed);
  }

  /** A piece that is not torn is cut off the front of the file; a torn one has a wrong octet. */
  lemma PieceOfWhole(a: Arrival)
    requires a.Valid() && a.Piece() != []
    ensures !a.Torn() ==> a.Whole() == a.Piece() + a.Next().Whole()
    ensures a.Torn() ==>
      var n := |a.Piece()|;
      0 < n <= |a.Whole()| && a.Piece()[n - 1] != a.Whole()[n - 1]
  {
    if a.ascii {
      LineOfTakes(a.stream, a.held, a.feed);
      if a.Call().how == Got {
        FirstLineDecodes(a.stream);
      } else {
        CutDecodes(a.stream, a.Call().taken);
      }
    }
  }

  lemma WholeIsEmptyIff(a: Arrival)
    ensures a.Whole() == [] <==> a.stream == []
  {
    if a.ascii && a.stream != [] {
      FirstLineDecodes(a.stream);
    }
  }

  /** The file is complete exactly when the calls cover the stream and every progress report is agreed to. */
  lemma {:induction false} FileWholeIff(a: Arrival, m: Meter)
    requires a.Valid()
    ensures FileOf(a, m) == a.Whole() <==> Covered(a) && m.PassesAll(a.Pieces())
    decreases |a.stream|
  {
    WholeIsEmptyIff(a);
    if a.Piece() != [] {
      var p, later := a.Piece(), m.After(|a.Piece()|);
      PieceOfWhole(a);
      FileWholeIff(a.Next(), later);
      assert a.Pieces()[0] == |p| && a.Pieces()[1..] == a.Next().Pieces();
      if !a.Torn() {
        SameTail(p, Some(FileOf(a.Next(), later)), a.Next().Whole());
      } else {
        assert m.Passes(|p|) ==> FileOf(a, m)[|p| - 1] == p[|p| - 1];
      }
    }
  }

  /** Two texts differ at a position that both have. */
  ghost predicate Differ(a: seq<byte>, b: seq<byte>) {
    exists i :: 0 <= i < |a| && i < |b| && a[i] != b[i]
  }

  lemma DifferIsNoFront(a: seq<byte>, b: seq<byte>)
    requires Differ(a, b)
    ensures !(a <= b)
  {
  }

  lemma BehindTheSame(p: seq<byte>, a: seq<byte>, b: seq<byte>)
    ensures a <= b ==> p + a <= p + b
    ensures Differ(a, b) ==> Differ(p + a, p + b)
  {
    if Differ(a, b) {
      var i :| 0 <= i < |a| && i < |b| && a[i] != b[i];
      assert (p + a)[|p| + i] != (p + b)[|p| + i];
    }
  }

  /** Otherwise it is a front part of the whole, unless one of its pieces is torn: then it is wrong. */
  lemma {:induction false} FrontOrTorn(a: Arrival, m: Meter)
    requires a.Valid()
    ensures if TornFile(a, m) then Differ(FileOf(a, m), a.Whole()) else FileOf(a, m) <= a.Whole()
    decreases |a.stream|
  {
    if a.Piece() != [] && m.Passes(|a.Piece()|) {
      var p, later := a.Piece(), m.After(|a.Piece()|);
      PieceOfWhole(a);
      if a.Torn() {
        assert FileOf(a, m)[|p| - 1] == p[|p| - 1];
      } else {
        FrontOrTorn(a.Next(), later);
        BehindTheSame(p, FileOf(a.Next(), later), a.Next().Whole());
      }
    }
  }

  /** So the file is a front part of the whole exactly when no piece of it is torn. */
  lemma FrontIff(a: Arrival, m: Meter)
    requires a.Valid()
    ensures FileOf(a, m) <= a.Whole() <==> !TornFile(a, m)
  {
    FrontOrTorn(a, m);
    if TornFile(a, m) {
      DifferIsNoFront(FileOf(a, m), a.Whole());
    }
  }

  // ---------- when the calls cover the stream ----------

  /** The plan that is left when reads into a buffer of max octets get n, if they do before one fails. */
  function ReadsOut(plan: seq<ReadEvent>, n: nat, max: nat): (r: Option<seq<ReadEvent>>)
    requires max > 0
    decreases |plan|
  {
    if n == 0 || plan == [] then Some(plan)
    else match plan[0]
      case ReadRetry => ReadsOut(plan[1..], n, max)
      case ReadFail => None
      case Chunk(k) => ReadsOut(plan[1..], n - Clamp(k, Min(n, max)), max)
  }

  lemma {:induction false} ReadsOutStep(plan: seq<ReadEvent>, n: nat, max: nat)
    requires n > 0 && max > 0
    ensures var (c, left) := NetReads(plan, n, max);
            ReadsOut(plan, n, max) == if c > 0 then ReadsOut(left, n - c, max) else None
    decreases |plan|
  {
    if plan != [] && plan[0].ReadRetry? {
      ReadsOutStep(plan[1..], n, max);
    }
  }

  /** The sizes of those reads. */
  function Chunks(plan: seq<ReadEvent>, n: nat, max: nat): (sizes: seq<nat>)
    decreases n
  {
    if n == 0 then []
    else
      var (c, left) := NetReads(plan, n, max);
      if c > 0 then [c] + Chunks(left, n - c, max) else []
  }

  /** One call on an image connection. */
  lemma ImageCall(a: Arrival)
    requires a.Valid() && !a.ascii && |a.stream| > 0 && !Refuses(a.feed.answers)
    ensures var (c, plan) := NetReads(a.feed.plan, |a.stream|, a.max);
      if c > 0 then
        && a.Piece() == a.stream[..c]
        && a.Next() == Arrival(false, a.stream[c..], 0, a.max, Feed(plan, Later(a.feed.answers)))
      else a.Piece() == []
  {
  }

  /** n octets are read, with a wait granted before each read. */
  predicate Served(n: nat, max: nat, feed: Feed)
    decreases n
  {
    var (c, plan) := NetReads(feed.plan, n, max);
    n == 0 || (!Refuses(feed.answers) && c > 0 && Served(n - c, max, Feed(plan, Later(feed.answers))))
  }

  lemma {:induction false} ServedIff(n: nat, max: nat, feed: Feed)
    requires max > 0
    ensures var k := |Chunks(feed.plan, n, max)|;
            Served(n, max, feed) <==> ReadsOut(feed.plan, n, max).Some? && Granted(feed.answers, k) == k
    decreases n
  {
    if n > 0 {
      var (c, plan) := NetReads(feed.plan, n, max);
      ReadsOutStep(feed.plan, n, max);
      if c > 0 {
        ServedIff(n - c, max, Feed(plan, Later(feed.answers)));
      }
    }
  }

  lemma {:induction false} ImageServed(a: Arrival)
    requires a.Valid() && !a.ascii
    ensures Covered(a) <==> Served(|a.stream|, a.max, a.feed)
    ensures Covered(a) ==> a.Pieces() == Chunks(a.feed.plan, |a.stream|, a.max)
    decreases |a.stream|
  {
    if |a.stream| != 0 {
      if Refuses(a.feed.answers) {
        assert a.Piece() == [];
      } else {
        ImageCall(a);
        if a.Piece() != [] {
          ImageServed(a.Next());
        }
      }
    }
  }

  /** Image mode: the stream is read out before a read fails, and the callback grants every wait for it. */
  lemma ImageCoveredIff(a: Arrival)
    requires a.Valid() && !a.ascii
    ensures var sizes := Chunks(a.feed.plan, |a.stream|, a.max);
      && (Covered(a) <==>
           ReadsOut(a.feed.plan, |a.stream|, a.max).Some? && Granted(a.feed.answers, |sizes|) == |sizes|)
      && (Covered(a) ==> a.Pieces() == sizes)
  {
    ImageServed(a);
    ServedIff(|a.stream|, a.max, a.feed);
  }

  /**
   * ASCII mode, seen from the places p at which all that has been read is also copied; `open` tells
   * that this is within a line of the call under way. A wait may be refused within a line, but
   * neither between a CR and its LF nor twice in a row, and a read must not fail; at the end of the
   * stream it must not within a line, unless the wait for it has been refused.
   */
  predicate Arrives(s: seq<byte>, p: nat, open: bool, feed: Feed)
    requires p <= |s| && (open ==> p > 0)
    decreases |s| - p, open
  {
    var (c, plan) := NetReads(feed.plan, |s| - p, FTPLIB_BUFSIZ);
    var later := Later(feed.answers);
    if p == |s| then open ==> Refuses(feed.answers) || c == 0
    else if Refuses(feed.answers) then
      open && !(s[p - 1] == CR && s[p] == LF) && Arrives(s, p, false, feed.(answers := later))
    else
      c > 0 && Arrives(s, p + c, s[p + c - 1] != LF, Feed(plan, later))
  }

  /** What has been taken before does not matter. */
  lemma {:induction false} ArrivesBehind(s: seq<byte>, k: nat, p: nat, open: bool, feed: Feed)
    requires k <= p <= |s| && (open ==> k < p)
    ensures Arrives(s, p, open, feed) == Arrives(s[k..], p - k, open, feed)
    decreases |s| - p, open
  {
    var (c, plan) := NetReads(feed.plan, |s| - p, FTPLIB_BUFSIZ);
    var later := Later(feed.answers);
    if p < |s| && Refuses(feed.answers) {
      if open {
        ArrivesBehind(s, k, p, false, feed.(answers := later));
      }
    } else if p < |s| && c > 0 {
      ArrivesBehind(s, k, p + c, s[p + c - 1] != LF, Feed(plan, later));
    }
  }

  /** How the rest of the stream arrives, by what the next call finds. */
  predicate GoesOn(s: seq<byte>, r: Reading)
    requires r.taken + r.held <= |s|
  {
    if r.IsPiece() then
      && !(r.how == Stopped && Tears(s, r.taken))
      && Arrives(s, r.taken + r.held, r.held > 0 && s[r.taken + r.held - 1] != LF, r.feed)
    else |s| == 0
  }

  /** All that has arrived is copied within a line, or nothing has arrived. */
  predicate Within(s: seq<byte>, p: nat) {
    p <= |s| && ContentLen(s) >= p
  }

  lemma WithinIsOpen(s: seq<byte>, p: nat)
    requires Within(s, p) && p > 0
    ensures s[p - 1] != LF
  {
    assert s[p - 1] == s[..p][p - 1];
  }

  lemma RefusalArrives(s: seq<byte>, p: nat, feed: Feed)
    requires Within(s, p) && Refuses(feed.answers)
    ensures Arrives(s, p, p > 0, feed) <==> GoesOn(s, LineOf(s, p, feed))
  {
  }

  lemma EndArrives(s: seq<byte>, p: nat, feed: Feed)
    requires Within(s, p) && !Refuses(feed.answers) && NetReads(feed.plan, |s| - p, FTPLIB_BUFSIZ).0 <= 0
    ensures Arrives(s, p, p > 0, feed) <==> GoesOn(s, LineOf(s, p, feed))
  {
  }

  lemma LineArrives(s: seq<byte>, p: nat, feed: Feed)
    requires p <= |s| && !Within(s, p)
    ensures Arrives(s, p, p > 0 && s[p - 1] != LF, feed) <==> GoesOn(s, LineOf(s, p, feed))
  {
  }

  lemma MoreArrives(s: seq<byte>, p: nat, feed: Feed)
    requires Within(s, p) && !Refuses(feed.answers) && NetReads(feed.plan, |s| - p, FTPLIB_BUFSIZ).0 > 0
    ensures var (c, plan) := NetReads(feed.plan, |s| - p, FTPLIB_BUFSIZ);
            var later := Feed(plan, Later(feed.answers));
      && Arrives(s, p, p > 0, feed) == Arrives(s, p + c, s[p + c - 1] != LF, later)
      && LineOf(s, p, feed) == LineOf(s, p + c, later)
  {
  }

  /** One call of readline on a stream, of which p octets have arrived. */
  lemma {:induction false} CallArrives(s: seq<byte>, p: nat, feed: Feed)
    requires p <= |s|
    ensures Arrives(s, p, p > 0 && s[p - 1] != LF, feed) <==> GoesOn(s, LineOf(s, p, feed))
    decreases |s| - p
  {
    if !Within(s, p) {
      LineArrives(s, p, feed);
    } else {
      var (c, plan) := NetReads(feed.plan, |s| - p, FTPLIB_BUFSIZ);
      if p > 0 {
        WithinIsOpen(s, p);
      }
      if Refuses(feed.answers) {
        RefusalArrives(s, p, feed);
      } else if c <= 0 {
        EndArrives(s, p, feed);
      } else {
        MoreArrives(s, p, feed);
        CallArrives(s, p + c, Feed(plan, Later(feed.answers)));
      }
    }
  }

  /** The stream of an ASCII connection arrives whole. */
  predicate Arriving(a: Arrival)
    requires a.Valid()
  {
    Arrives(a.stream, a.held, a.held > 0 && a.stream[a.held - 1] != LF, a.feed)
  }

  lemma LastCall(a: Arrival)
    requires a.Valid() && a.ascii && a.Piece() == []
    ensures Covered(a) == (|a.stream| == 0) == GoesOn(a.stream, a.Call())
  {
  }

  /** Seen from the stream of a call that brings a piece, and from that of the next call. */
  lemma NextArriving(s: seq<byte>, r: Reading, next: Arrival)
    requires r.IsPiece() && r.taken + r.held <= |s| && next.Valid()
    requires next.held == r.held && next.feed == r.feed && next.stream == s[r.taken..]
    ensures GoesOn(s, r) <==> !(r.how == Stopped && Tears(s, r.taken)) && Arriving(next)
  {
    ArrivesBehind(s, r.taken, r.taken + r.held, r.held > 0 && s[r.taken + r.held - 1] != LF, r.feed);
  }

  lemma NotLastCall(a: Arrival)
    requires a.Valid() && a.ascii && a.Piece() != []
    ensures GoesOn(a.stream, a.Call()) <==> !a.Torn() && Arriving(a.Next())
  {
    NextArriving(a.stream, a.Call(), a.Next());
  }

  lemma {:induction false} AsciiCoveredIff(a: Arrival)
    requires a.Valid() && a.ascii
    ensures Covered(a) <==> Arriving(a)
    decreases |a.stream|
  {
    CallArrives(a.stream, a.held, a.feed);
    assert Arriving(a) <==> GoesOn(a.stream, a.Call());
    if a.Piece() == [] {
      LastCall(a);
    } else {
      NotLastCall(a);
      AsciiCoveredIff(a.Next());
    }
  }

  /**
   * Where no callback is asked: the stream is read out before a read fails, and when it does not end
   * with a line's end, the read after it does not fail either.
   */
  lemma {:induction false} UnaskedArrivesIff(s: seq<byte>, p: nat, open: bool, plan: seq<ReadEvent>)
    requires p <= |s| && (open ==> p > 0)
    ensures Arrives(s, p, open, Feed(plan, [])) <==>
      match ReadsOut(plan, |s| - p, FTPLIB_BUFSIZ)
      case None => false
      case Some(left) =>
        (if p == |s| then open else s[|s| - 1] != LF) ==> NetReads(left, 0, FTPLIB_BUFSIZ).0 == 0
    decreases |s| - p
  {
    if p < |s| {
      ReadsOutStep(plan, |s| - p, FTPLIB_BUFSIZ);
      var (c, left) := NetReads(plan, |s| - p, FTPLIB_BUFSIZ);
      if c > 0 {
        UnaskedArrivesIff(s, p + c, s[p + c - 1] != LF, left);
      }
    }
  }

  // ---------- downloads, put together ----------

  /** The calls read the whole stream, as the plan and the callback's answers have it. */
  predicate Comes(a: Arrival)
    requires a.Valid()
  {
    if a.ascii then Arriving(a)
    else
      var n := |Chunks(a.feed.plan, |a.stream|, a.max)|;
      ReadsOut(a.feed.plan, |a.stream|, a.max).Some? && Granted(a.feed.answers, n) == n
  }

  /** The callback agrees to every progress report. */
  predicate Agreed(a: Arrival, m: Meter)
    requires a.Valid()
  {
    Granted(m.answers, m.Reports(a.Pieces())) == m.Reports(a.Pieces())
  }

  /** A download is complete exactly when the stream comes whole and the callback agrees to every report. */
  lemma DownloadCompleteIff(a: Arrival, m: Meter)
    requires a.Valid()
    ensures FileOf(a, m) == a.Whole() <==> Comes(a) && Agreed(a, m)
  {
    FileWholeIff(a, m);
    m.PassesAllIff(a.Pieces());
    if a.ascii {
      AsciiCoveredIff(a);
    } else {
      ImageCoveredIff(a);
    }
  }

  /** The stream is read out before a read fails, and a text that ends within a line needs one read more. */
  predicate AllRead(ascii: bool, stream: seq<byte>, plan: seq<ReadEvent>) {
    match ReadsOut(plan, |stream|, FTPLIB_BUFSIZ)
    case None => false
    case Some(left) =>
      ascii && |stream| > 0 && stream[|stream| - 1] != LF ==> NetReads(left, 0, FTPLIB_BUFSIZ).0 == 0
  }

  lemma UnaskedComes(ascii: bool, stream: seq<byte>, plan: seq<ReadEvent>)
    ensures Comes(Arrival(ascii, stream, 0, FTPLIB_BUFSIZ, Feed(plan, []))) <==> AllRead(ascii, stream, plan)
  {
    if ascii {
      UnaskedArrivesIff(stream, 0, false, plan);
    } else {
      NoAnswersGrant(|Chunks(plan, |stream|, FTPLIB_BUFSIZ)|);
    }
  }

  /** Without a callback a download is complete exactly when no read fails that is needed for it. */
  lemma UnaskedDownloadCompleteIff(ascii: bool, stream: seq<byte>, plan: seq<ReadEvent>, m: Meter)
    requires m.limit == None
    ensures var a := Arrival(ascii, stream, 0, FTPLIB_BUFSIZ, Feed(plan, []));
      FileOf(a, m) == a.Whole() <==> AllRead(ascii, stream, plan)
  {
    var a := Arrival(ascii, stream, 0, FTPLIB_BUFSIZ, Feed(plan, []));
    DownloadCompleteIff(a, m);
    NeverReports(m, a.Pieces());
    UnaskedComes(ascii, stream, plan);
  }

  lemma {:induction false} NeverReports(m: Meter, sizes: seq<nat>)
    requires m.limit == None
    ensures m.Reports(sizes) == 0
    decreases |sizes|
  {
    if |sizes| != 0 {
      NeverReports(m.After(sizes[0]), sizes[1..]);
    }
  }

  lemma {:induction false} NoFailureReads(plan: seq<ReadEvent>, avail: nat, len: nat)
    requires ReadFail !in plan
    ensures var (c, left) := NetReads(plan, avail, len);
            c != -1 && ReadFail !in left
    decreases |plan|
  {
    if plan != [] {
      assert plan[0] in plan && forall e | e in plan[1..] :: e in plan;
      if plan[0].ReadRetry? {
        NoFailureReads(plan[1..], avail, len);
      }
    }
  }

  lemma {:induction false} NoFailureReadsOut(plan: seq<ReadEvent>, n: nat, max: nat)
    requires ReadFail !in plan && max > 0
    ensures ReadsOut(plan, n, max).Some?
    decreases |plan|
  {
    if n > 0 && plan != [] {
      assert plan[0] in plan && forall e | e in plan[1..] :: e in plan;
      match plan[0]
      case ReadRetry => NoFailureReadsOut(plan[1..], n, max);
      case Chunk(k) => NoFailureReadsOut(plan[1..], n - Clamp(k, Min(n, max)), max);
      case ReadFail =>
    }
  }

  lemma {:induction false} NoFailureArrives(s: seq<byte>, p: nat, open: bool, feed: Feed)
    requires p <= |s| && (open ==> p > 0) && ReadFail !in feed.plan && false !in feed.answers
    ensures Arrives(s, p, open, feed)
    decreases |s| - p
  {
    var (c, plan) := NetReads(feed.plan, |s| - p, FTPLIB_BUFSIZ);
    NoFailureReads(feed.plan, |s| - p, FTPLIB_BUFSIZ);
    if p < |s| {
      NoFailureArrives(s, p + c, s[p + c - 1] != LF, Feed(plan, Later(feed.answers)));
    }
  }

  lemma {:induction false} WillingGrants(answers: seq<bool>, n: nat)
    requires false !in answers
    ensures Granted(answers, n) == n
  {
    if n > 0 {
      WillingGrants(Later(answers), n - 1);
    }
  }

  /** What is left fits the reader's buffer, too. */
  lemma NextFits(a: Arrival, max: nat)
    requires a.Valid() && a.ascii && a.Piece() != [] && AllFit(a.stream, max)
    ensures AllFit(a.Next().stream, max)
  {
    LineOfTakes(a.stream, a.held, a.feed);
    if a.Call().how == Stopped {
      TailFits(a.stream, a.Call().taken, max);
    }
  }

  /** When nothing fails and nothing is refused, a download is complete ... */
  lemma CalmDownload(a: Arrival, m: Meter)
    requires a.Valid() && ReadFail !in a.feed.plan && false !in a.feed.answers && false !in m.answers
    ensures FileOf(a, m) == a.Whole()
  {
    DownloadCompleteIff(a, m);
    WillingGrants(m.answers, m.Reports(a.Pieces()));
    if a.ascii {
      NoFailureArrives(a.stream, a.held, a.held > 0 && a.stream[a.held - 1] != LF, a.feed);
    } else {
      NoFailureReadsOut(a.feed.plan, |a.stream|, a.max);
      WillingGrants(a.feed.answers, |Chunks(a.feed.plan, |a.stream|, a.max)|);
    }
  }

  /** ... and so is an upload. */
  lemma CalmUpload(ascii: bool, sink: Sink, file: seq<byte>)
    requires NeverShort(sink.plan) && false !in sink.answers
    ensures UploadOf(ascii, sink, file) == Some(OnTheWire(ascii, file))
  {
    NoEmptyFlush(ascii, file);
    WritesAreTheWire(ascii, file);
    SentWholeIff(Heeded(ascii, sink), WritesOf(ascii, file));
    NothingInTheWay(Heeded(ascii, sink), Flatten(WritesOf(ascii, file)));
  }

  /** A text whose CR LF comes in two reads, with the wait in between refused once: the CR stays in the file. */
  lemma ATornFile()
    ensures var a := Arrival(true, [CR, LF], 0, FTPLIB_BUFSIZ, Feed([Chunk(1)], [true, false]));
            var m := Meter(None, 0, []);
      TornFile(a, m) && FileOf(a, m) == [CR, LF] && a.Whole() == [LF]
  {
    var a := Arrival(true, [CR, LF], 0, FTPLIB_BUFSIZ, Feed([Chunk(1)], [true, false]));
    assert [Chunk(1)][1..] == [];
    assert NetReads([Chunk(1)], 2, FTPLIB_BUFSIZ) == (1, []);
    assert a.feed.answers[1..] == [false] && a.stream[..1] == [CR] && a.stream[1..] == [LF];
    assert LineOf(a.stream, 1, Feed([], [false])) == Reading(Stopped, 1, 0, Feed([], []));
    assert a.Piece() == [CR] && a.Torn();
    var b := a.Next();
    assert b == Arrival(true, [LF], 0, FTPLIB_BUFSIZ, Feed([], []));
    assert LineOf(b.stream, 0, b.feed) == LineOf(b.stream, 1, b.feed) == Reading(Got, 1, 0, b.feed);
    assert b.Piece() == [LF] && b.Next().Piece() == [];
    var m := Meter(None, 0, []);
    assert FileOf(b, m) == [LF] + FileOf(b.Next(), m) == [LF];
    assert FileOf(a, m) == [CR] + FileOf(b, m);
    DecodeLineEnds();
  }
}
