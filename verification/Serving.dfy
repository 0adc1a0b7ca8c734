/**
 * What the environment of a data connection does to it, as functions of the plans of the socket and
 * of the answers of the idle callback: the flushes of a writer, and one call of the line reader.
 */
module Serving {
  import opened Wrappers
  import opened Bytes
  import opened LineCodec
  import opened Chunking
  import opened Wire

  const FTPLIB_BUFSIZ: nat := 8192

  // ---------- the idle callback ----------

  /** The next wait is ended by the callback; one that has no more answers never ends a wait. */
  predicate Refuses(answers: seq<bool>) {
    answers != [] && !answers[0]
  }

  function Later(answers: seq<bool>): (r: seq<bool>) {
    if answers == [] then [] else answers[1..]
  }

  /** How many of n waits the callback lets through before it refuses one. */
  function Granted(answers: seq<bool>, n: nat): (k: nat)
    ensures k <= n
  {
    if n == 0 || Refuses(answers) then 0 else 1 + Granted(Later(answers), n - 1)
  }

  /** It is the position of the first refusal, when that comes before the n-th wait. */
  lemma {:induction false} GrantedIsFirstRefusal(answers: seq<bool>, n: nat)
    ensures var k := Granted(answers, n);
            if k < n then k < |answers| && !answers[k] && false !in answers[..k]
            else forall i | 0 <= i < n && i < |answers| :: answers[i]
  {
    if n > 0 && !Refuses(answers) {
      GrantedIsFirstRefusal(Later(answers), n - 1);
      var k := Granted(Later(answers), n - 1);
      if k < n - 1 {
        assert answers[..k + 1] == [answers[0]] + answers[1..][..k];
      }
      assert forall i | 0 < i < |answers| :: answers[i] == answers[1..][i - 1];
    }
  }

  // ---------- writing ----------

  /** What serves a writer: the system's plan, and the callback's answers. */
  datatype Sink = Sink(plan: seq<WriteEvent>, answers: seq<bool>)

  /** A flush of n octets gets out whole: the callback lets it pass and the system accepts all of it. */
  function AfterFlush(sink: Sink, n: nat): (r: Option<Sink>) {
    if Refuses(sink.answers) then None
    else match NetWrites(sink.plan, n)
      case None => None
      case Some(plan) => Some(Sink(plan, Later(sink.answers)))
  }

  /** What comes of a write: all of it is out, all but a last flush that was refused, or less. */
  datatype Outcome = Everything(sink: Sink) | AllButLast(sink: Sink) | Less

  /** What comes of flushing these blocks one after the other, until one does not get out whole. */
  function Written(sink: Sink, blocks: seq<seq<byte>>): (r: Outcome)
    decreases |blocks|
  {
    if |blocks| == 0 then Everything(sink)
    else match AfterFlush(sink, |blocks[0]|)
      case Some(later) => Written(later, blocks[1..])
      case None =>
        if |blocks| == 1 && Refuses(sink.answers) then AllButLast(sink.(answers := Later(sink.answers))) else Less
  }

  lemma {:induction false} WrittenAppend(sink: Sink, a: seq<seq<byte>>, b: seq<seq<byte>>)
    requires b != []
    ensures Written(sink, a + b) == match Written(sink, a) case Everything(later) => Written(later, b) case _ => Less
    decreases |a|
  {
    if a == [] {
      assert a + b == b;
    } else {
      assert (a + b)[1..] == a[1..] + b;
      match AfterFlush(sink, |a[0]|)
      case None =>
      case Some(later) => WrittenAppend(later, a[1..], b);
    }
  }

  lemma OneFlush(sink: Sink, block: seq<byte>)
    ensures Written(sink, [block]) ==
      match AfterFlush(sink, |block|)
      case Some(later) => Everything(later)
      case None => if Refuses(sink.answers) then AllButLast(sink.(answers := Later(sink.answers))) else Less
  {
    assert |[block][1..]| == 0;
  }

  /** The system accepts these blocks, one after the other, whole. */
  predicate Accepts(plan: seq<WriteEvent>, blocks: seq<seq<byte>>)
    decreases |blocks|
  {
    |blocks| == 0 ||
    match NetWrites(plan, |blocks[0]|)
    case None => false
    case Some(later) => Accepts(later, blocks[1..])
  }

  /** Everything gets out iff the callback grants each flush and the system accepts each block whole. */
  lemma {:induction false} EverythingIff(sink: Sink, blocks: seq<seq<byte>>)
    ensures Written(sink, blocks).Everything? <==>
      Granted(sink.answers, |blocks|) == |blocks| && Accepts(sink.plan, blocks)
    decreases |blocks|
  {
    if |blocks| > 0 && !Refuses(sink.answers) {
      match NetWrites(sink.plan, |blocks[0]|)
      case None =>
      case Some(later) => EverythingIff(Sink(later, Later(sink.answers)), blocks[1..]);
    }
  }

  lemma {:induction false} NeverShortAccepts(plan: seq<WriteEvent>, n: nat)
    requires NeverShort(plan)
    ensures NetWrites(plan, n).Some? && NeverShort(NetWrites(plan, n).value)
    decreases |plan|
  {
    if n > 0 && plan != [] {
      assert plan[0] in plan && forall e | e in plan[1..] :: e in plan;
      match plan[0]
      case WriteRetry => NeverShortAccepts(plan[1..], n);
      case Took(k) => NeverShortAccepts(plan[1..], n - Clamp(k, n));
      case _ =>
    }
  }

  lemma {:induction false} NothingInTheWay(sink: Sink, blocks: seq<seq<byte>>)
    requires NeverShort(sink.plan) && false !in sink.answers
    ensures Written(sink, blocks).Everything?
    decreases |blocks|
  {
    if |blocks| > 0 {
      NeverShortAccepts(sink.plan, |blocks[0]|);
      NothingInTheWay(Sink(NetWrites(sink.plan, |blocks[0]|).value, Later(sink.answers)), blocks[1..]);
    }
  }

  // ---------- reading ----------

  /** How a call of the line reader ends; the caller of the C function sees only the number. */
  datatype LineEnding = Got | AtEof | Failed | Stopped | Refused

  /** What serves a reader: the system's plan, and the callback's answers. */
  datatype Feed = Feed(plan: seq<ReadEvent>, answers: seq<bool>)

  /** A call that reads: the octets it takes off the stream, those left buffered, and what serves the next. */
  datatype Reading = Reading(how: LineEnding, taken: nat, held: nat, feed: Feed)
  {
    predicate IsPiece() {
      (how == Got || how == Stopped) && taken > 0
    }
  }

  /**
   * One call of readline on the stream s, of which p octets have arrived. It waits and reads only
   * when all that has arrived has been copied without a line's end; a read that fails loses what has
   * been copied, and one that finds the end of the stream makes a line of it.
   */
  function LineOf(s: seq<byte>, p: nat, feed: Feed): (r: Reading)
    requires p <= |s|
    ensures r.taken + r.held <= |s| && r.how != Refused
    ensures |s| == 0 ==> !r.IsPiece()
    decreases |s| - p
  {
    if ContentLen(s) < p then Reading(Got, LineEnd(s), p - LineEnd(s), feed)
    else if Refuses(feed.answers) then Reading(Stopped, p, 0, feed.(answers := Later(feed.answers)))
    else
      var (c, plan) := NetReads(feed.plan, |s| - p, FTPLIB_BUFSIZ);
      var later := Feed(plan, Later(feed.answers));
      if c == -1 then Reading(Failed, p, 0, later)
      else if c == 0 then Reading(if p == 0 then AtEof else Got, p, 0, later)
      else LineOf(s, p + c, later)
  }
}
