/**
 * The server's side of the control connection: an arbitrary server that keeps to the grammar of
 * replies and to the command-reply sequences of section 5.4 of RFC 959, given by its answers in
 * the order in which it gives them. It answers every line it is sent.
 */
module FtpServer {
  import opened Bytes
  import opened NetBuf
  import opened Replies

  const ONE: byte := 49
  const TWO: byte := 50
  const THREE: byte := 51
  const FOUR: byte := 52
  const FIVE: byte := 53

  /** An error text the client writes into its own response buffer; such texts start with a letter. */
  predicate IsLocalText(t: seq<byte>) {
    0 < |t| < RESPONSE_BUFSIZ && t[0] > DIGIT9
  }

  /** What `select` and `accept` report while a PORT-mode client waits for the data connection. */
  datatype AcceptEvent =
    | SelectFailed(text: seq<byte>)
    | TimedOut
    | Accepted
    | AcceptFailed(text: seq<byte>)
    | ControlReady
  {
    predicate Legal() {
      (SelectFailed? || AcceptFailed?) ==> IsLocalText(text)
    }
  }

  /**
   * The server's answer to a transfer command: a refusal, or a preliminary reply and a final one.
   * When the octets of a reply arrive is up to the socket.
   */
  datatype TransferAnswer =
    | Declined(refusal: Reply)
    | Started(prelim: Reply, final: Reply, event: AcceptEvent)
  {
    predicate Legal() {
      match this
      case Declined(r) => r.WellFormed() && (r.Digit() == FOUR || r.Digit() == FIVE)
      case Started(p, f, _) =>
        p.WellFormed() && p.Digit() == ONE && f.WellFormed() && Concludes()
    }

    /** A transfer that has started ends with 2yz, 4yz or 5yz. */
    predicate Concludes() {
      Started? ==> event.Legal() && (final.Digit() == TWO || final.Digit() == FOUR || final.Digit() == FIVE)
    }

    function First(): (r: Reply) {
      if Declined? then refusal else prelim
    }

    /** The first reply tells whether the transfer has started; its final reply is then the next. */
    function Rest(): (r: seq<Reply>) {
      if Declined? then [] else [final]
    }

    predicate FirstTells() {
      if Started? then First().Digit() == ONE else First().Digit() == FOUR || First().Digit() == FIVE
    }
  }

  predicate LegalAnswer(r: Reply) {
    r.WellFormed() && TWO <= r.Digit() <= FIVE
  }

  /** What the server says once its script is used up: 500. */
  const UNKNOWN: Reply := Single([53, 48, 48], [])

  function Nth(script: seq<Reply>, i: nat): (r: Reply) {
    if i < |script| then script[i] else UNKNOWN
  }

  function NthTransfer(script: seq<TransferAnswer>, i: nat): (r: TransferAnswer) {
    if i < |script| then script[i] else Declined(UNKNOWN)
  }

  /** The answer to a further line: any replies at all, but at least one. */
  function NthMore(script: seq<seq<Reply>>, i: nat): (r: seq<Reply>) {
    if i < |script| then script[i] else [UNKNOWN]
  }

  /** The answers to k further lines, of which `from` have been answered before. */
  function Extra(script: seq<seq<Reply>>, from: nat, k: nat): (r: seq<Reply>)
    decreases k
  {
    if k == 0 then [] else NthMore(script, from) + Extra(script, from + 1, k - 1)
  }

  predicate AllWhole(replies: seq<Reply>) {
    forall r | r in replies :: r.WellFormed()
  }

  predicate AllAnswers(replies: seq<Reply>) {
    forall r | r in replies :: LegalAnswer(r)
  }

  predicate AllMore(script: seq<seq<Reply>>) {
    forall rs | rs in script :: rs != [] && AllWhole(rs)
  }

  predicate AllTransfers(answers: seq<TransferAnswer>) {
    forall a | a in answers :: a.Legal()
  }

  function Stream(replies: seq<Reply>): (r: seq<byte>) {
    if replies == [] then [] else Stream(replies[..|replies| - 1]) + ReplyBytes(replies[|replies| - 1])
  }

  lemma {:induction false} StreamAppend(a: seq<Reply>, b: seq<Reply>)
    ensures Stream(a + b) == Stream(a) + Stream(b)
  {
    if b == [] {
      assert a + b == a;
    } else {
      var front := b[..|b| - 1];
      assert (a + b)[..|a + b| - 1] == a + front;
      StreamAppend(a, front);
      ConcatAssociative(Stream(a), Stream(front), ReplyBytes(b[|b| - 1]));
    }
  }

  lemma StreamHead(replies: seq<Reply>)
    requires replies != []
    ensures Stream(replies) == ReplyBytes(replies[0]) + Stream(replies[1..])
  {
    assert replies == [replies[0]] + replies[1..] && [replies[0]][..0] == [];
    StreamAppend([replies[0]], replies[1..]);
  }

  lemma NthIsLegal(script: seq<Reply>, i: nat)
    requires AllAnswers(script)
    ensures LegalAnswer(Nth(script, i))
  {
  }

  lemma NthTransferIsLegal(script: seq<TransferAnswer>, i: nat)
    requires AllTransfers(script)
    ensures NthTransfer(script, i).Legal()
  {
  }

  lemma NthMoreIsLegal(script: seq<seq<Reply>>, i: nat)
    requires AllMore(script)
    ensures NthMore(script, i) != [] && AllWhole(NthMore(script, i))
  {
    assert i < |script| ==> script[i] in script;
  }

  /** No further line is left without an answer. */
  lemma {:induction false} ExtraIsLegal(script: seq<seq<Reply>>, from: nat, k: nat)
    requires AllMore(script)
    ensures |Extra(script, from, k)| >= k && AllWhole(Extra(script, from, k))
    decreases k
  {
    if k > 0 {
      NthMoreIsLegal(script, from);
      ExtraIsLegal(script, from + 1, k - 1);
    }
  }

  /** The replies to an ordinary command of k further lines. */
  lemma OrdinaryRepliesAreWhole(script: seq<Reply>, more: seq<seq<Reply>>, asked: nat, extra: nat, k: nat)
    requires AllAnswers(script) && AllMore(more)
    ensures AllWhole([Nth(script, asked)] + Extra(more, extra, k))
  {
    NthIsLegal(script, asked);
    ExtraIsLegal(more, extra, k);
  }

  /** Of the replies that are left and those to the next command the oldest is read first. */
  lemma OldestFirst(before: seq<Reply>, first: Reply, further: seq<Reply>) returns (head: Reply, rest: seq<Reply>)
    ensures before + ([first] + further) == [head] + rest
    ensures if before == [] then head == first && rest == further else |rest| == |before| + |further|
  {
    var all := before + ([first] + further);
    head, rest := all[0], all[1..];
  }

  /** The replies to a transfer command of k further lines: those to the transfer come first. */
  lemma TransferRepliesAreWhole(transfers: seq<TransferAnswer>, more: seq<seq<Reply>>, started: nat, extra: nat, k: nat)
    requires AllTransfers(transfers) && AllMore(more)
    ensures var answer := NthTransfer(transfers, started);
            && AllWhole([answer.First()] + (answer.Rest() + Extra(more, extra, k)))
            && answer.FirstTells() && answer.Concludes()
  {
    var answer := NthTransfer(transfers, started);
    NthTransferIsLegal(transfers, started);
    ExtraIsLegal(more, extra, k);
  }
}
