/**
 * The connection record of ftplib.c with its line reader and its line writer, proved against the
 * line codec: `ReadLine` returns the codec's lines however the network cuts the stream, and
 * `WriteLine` sends the codec's encoding in full blocks however much each write accepts.
 */
module NetBuf {
  import opened Bytes
  import opened Chunking
  import opened LineCodec
  import opened Wrappers
  import opened Wire
  import opened Serving

  const RESPONSE_BUFSIZ: nat := 1024

  datatype Direction = Control | ReadDir | WriteDir

  /** How a call of `WriteLine` ended: everything sent, a failed write, or a callback that stopped it. */
  datatype WriteEnding = Done | WriteFailed | WriteStopped | WrongDirection

  /** A call of writeline: what it found, and the encoding it is to send. */
  datatype Call = Call(sent: seq<byte>, blocks: seq<seq<byte>>, sink: Sink, code: seq<byte>)
  {
    /** The blocks that the encoding is flushed in. */
    ghost function Cut(): (blocks: seq<seq<byte>>) {
      Blocks(code, FTPLIB_BUFSIZ)
    }

    ghost function Total(): (n: nat) {
      |Cut()|
    }

    /** The flushes that the callback grants. */
    ghost function Flushes(): (k: nat)
      ensures k <= Total()
    {
      Granted(sink.answers, Total())
    }
  }

  class NetBuf {
    const dir: Direction
    const sock: Socket
    const buf: array?<byte>      // absent on an image-mode data connection
    var cput: nat                // offsets into buf instead of pointers
    var cget: nat
    var cavail: nat
    var cleft: nat
    const response: array<byte>
    const hasCallback: bool
    var waits: seq<bool>         // answers of the idle callback inside socket_wait, one per wait
    ghost var held: seq<byte>    // the octets buffered between cget and cput
    ghost var blocks: seq<seq<byte>>  // arguments of the net_write calls made by WriteLine

    ghost predicate Valid()
      reads this, buf
    {
      && response.Length == RESPONSE_BUFSIZ
      && (buf != null ==>
          && buf != response
          && buf.Length == FTPLIB_BUFSIZ
          && cget + cavail == cput
          && cput + cleft <= FTPLIB_BUFSIZ
          && held == buf[cget..cput]
          && (dir == WriteDir ==> cavail == 0))
    }

    /** Octets that have arrived or will arrive and that no call has returned yet. */
    ghost function Pending(): (s: seq<byte>)
      reads this`held, sock`incoming
    {
      held + sock.incoming
    }

    /** No read will fail and no callback will interrupt. */
    ghost predicate Undisturbed()
      reads this, sock
    {
      ReadFail !in sock.readPlan && false !in waits
    }

    constructor (dir: Direction, sock: Socket, ascii: bool, hasCallback: bool, waits: seq<bool>)
      ensures Valid() && this.dir == dir && this.sock == sock && this.hasCallback == hasCallback && this.waits == waits
      ensures (buf != null <==> ascii) && blocks == []
      ensures fresh(response) && (buf != null ==> fresh(buf) && Pending() == sock.incoming)
    {
      this.dir, this.sock, this.hasCallback, this.waits := dir, sock, hasCallback, waits;
      this.cput, this.cget, this.cavail, this.cleft := 0, 0, 0, 0;
      this.response := new byte[RESPONSE_BUFSIZ](_ => NUL);
      var memory: array?<byte> := null;
      if ascii {
        memory := new byte[FTPLIB_BUFSIZ];
      }
      this.buf := memory;
      this.blocks, this.held := [], [];
    }

    /** What the idle callback will answer inside socket_wait; a control connection does not ask it. */
    ghost function Answers(): (a: seq<bool>)
      reads this`waits
    {
      if hasCallback && dir != Control then waits else []
    }

    /** What serves the reader. */
    ghost function Source(): (f: Feed)
      reads this`waits, sock`readPlan
    {
      Feed(sock.readPlan, Answers())
    }

    /** What serves the writer. */
    ghost function Outlet(): (k: Sink)
      reads this`waits, sock`writePlan
    {
      Sink(sock.writePlan, Answers())
    }

    /** socket_wait: true unless the idle callback asks to stop. */
    method SocketWait() returns (go: bool)
      modifies this`waits
      ensures go <==> !Refuses(old(Answers()))
      ensures dir == Control ==> waits == old(waits)
      ensures Answers() == Later(old(Answers()))
      ensures false in waits ==> false in old(waits)
    {
      go := true;
      if dir != Control && hasCallback && waits != [] {
        go, waits := waits[0], waits[1..];
      }
    }

    /** memccpy: copies the range w up to and including its first LF, or all of it. */
    static method CopyThroughLF(dst: array<byte>, at: nat, src: array<byte>, from: nat, n: nat, ghost w: seq<byte>)
      returns (copied: nat, found: bool)
      requires dst != src && at + n <= dst.Length && from + n <= src.Length && w == src[from..from + n]
      modifies dst
      ensures copied == LineEnd(w) && (found <==> ContentLen(w) < |w|)
      ensures dst[..at + copied] == old(dst[..at]) + w[..copied]
    {
      copied, found := 0, false;
      while copied < n && !found
        invariant copied <= n
        invariant if found then copied == ContentLen(w) + 1 else LF !in w[..copied]
        invariant dst[..at + copied] == old(dst[..at]) + w[..copied]
      {
        var b := src[from + copied];
        ghost var before := dst[..at + copied];
        dst[at + copied] := b;
        assert b == w[copied];
        PrefixGrows(w, copied);
        assert dst[..at + copied + 1] == before + [b];
        ConcatAssociative(old(dst[..at]), w[..copied], [b]);
        if b == LF {
          found := true;
          ContentLenUnique(w, copied);
        }
        copied := copied + 1;
      }
      if !found {
        ContentLenUnique(w, n);
      }
    }

    /** Scanning no more of a window than fits finds the same line. */
    static lemma WindowScan(w: seq<byte>, x: nat, left: nat)
      requires Fits(w, left) && x == (if left >= |w| then |w| else left - 1)
      ensures LineEnd(w[..x]) == LineEnd(w) && (ContentLen(w[..x]) < x <==> ContentLen(w) < |w|)
      ensures LineEnd(w) + 1 <= left && w[..x][..LineEnd(w)] == w[..LineEnd(w)]
    {
      PrefixOfPrefix(w, x, ContentLen(w));
      PrefixOfPrefix(w, x, LineEnd(w));
      ContentLenUnique(w[..x], ContentLen(w));
    }

    /**
     * The copying half of readline's loop: takes the buffered octets up to and including the first
     * LF, or all of them, and terminates what has been copied with NUL. When they fit, the test of
     * the remaining space against the buffered amount never runs past the destination.
     */
    method TakeBuffered(dst: array<byte>, at: nat, left: nat, ghost w: seq<byte>) returns (copied: nat, found: bool)
      requires Valid() && buf != null && dst != buf && at + left <= dst.Length
      requires cavail > 0 && w == held && Fits(w, left)
      modifies this`cget, this`cavail, this`held, dst
      ensures Valid()
      ensures copied == LineEnd(w) && (found <==> ContentLen(w) < |w|)
      ensures held == w[copied..]
      ensures at + copied < dst.Length && dst[at + copied] == NUL
      ensures dst[..at + copied] == old(dst[..at]) + w[..copied]
    {
      var x := if left >= cavail then cavail else left - 1;
      SliceOfSlice(buf[..], cget, cput, x);
      WindowScan(w, x, left);
      copied, found := CopyThroughLF(dst, at, buf, cget, x, w[..x]);
      ghost var text := dst[..at + copied];
      assert w[copied..] == buf[cget + copied..cput];
      cget, cavail, held := cget + copied, cavail - copied, w[copied..];
      dst[at + copied] := NUL;
      assert dst[..at + copied] == text;
    }

    /** The waiting half of the loop: asks the callback, then does one net_read into a drained buffer. */
    method Refill() returns (go: bool, c: int)
      requires Valid() && buf != null && dir != WriteDir && cget == cput == 0 && cleft == FTPLIB_BUFSIZ
      modifies this`cput, this`cavail, this`cleft, this`held, this`waits, sock`incoming, sock`readPlan, buf
      ensures Valid() && held == buf[..|held|]
      ensures go <==> !Refuses(old(Answers()))
      ensures Answers() == Later(old(Answers()))
      ensures !go ==> dir != Control && hasCallback && false in old(waits)
      ensures !go ==> held == [] && sock.incoming == old(sock.incoming) && sock.readPlan == old(sock.readPlan)
      ensures go ==> (c, sock.readPlan) == NetReads(old(sock.readPlan), |old(sock.incoming)|, FTPLIB_BUFSIZ)
      ensures go ==> |held| == (if c == -1 then 0 else c) && Pending() == old(sock.incoming)
      ensures go && c == -1 ==> ReadFail in old(sock.readPlan)
      ensures go && c > 0 ==> |sock.incoming| < |old(sock.incoming)|
      ensures false in waits ==> false in old(waits)
      ensures ReadFail in sock.readPlan ==> ReadFail in old(sock.readPlan)
    {
      c := 0;
      go := SocketWait();
      if go {
        c := sock.NetRead(buf, cput, cleft);
        if c != -1 {
          cleft, cavail, cput := cleft - c, cavail + c, cput + c;
          held := buf[cget..cput];
        }
      }
    }

    /**
     * One round of copying, seen from the stream s: `at` octets of it have been copied before, w is
     * what is buffered and rest what is still to come.
     */
    static lemma RoundFits(s: seq<byte>, at: nat, w: seq<byte>, rest: seq<byte>, max: nat)
      requires at <= |s| && s[at..] == w + rest && LF !in s[..at] && Fits(s, max)
      ensures at + ContentLen(w) + 2 <= max && Fits(w, max - at)
    {
    }

    static lemma RoundTakes(s: seq<byte>, at: nat, w: seq<byte>, rest: seq<byte>)
      requires at <= |s| && s[at..] == w + rest
      ensures var k := LineEnd(w);
              at + k <= |s| && s[..at] + w[..k] == s[..at + k] && w[k..] + rest == s[at + k..]
    {
      SliceOfConcat(w, rest, LineEnd(w));
      PrefixInTwo(s, at, LineEnd(w));
    }

    /** The first LF of w, if it has one, is that of the stream. */
    static lemma RoundEnds(s: seq<byte>, at: nat, w: seq<byte>, rest: seq<byte>)
      requires at <= |s| && s[at..] == w + rest && LF !in s[..at]
      ensures ContentLen(w) < |w| ==> ContentLen(s) < at + |w|
      ensures ContentLen(w) < |w| ==> 0 < LineEnd(s) == at + LineEnd(w) && s[LineEnd(s) - 1] == LF
      ensures ContentLen(w) == |w| ==> LF !in s[..at + |w|]
    {
      var n := ContentLen(w);
      SliceOfConcat(w, rest, n);
      PrefixInTwo(s, at, n);
      if n < |w| {
        assert s[at + n] == s[at..][n] == w[n];
        ContentLenUnique(s, at + n);
      }
    }

    /** strcmp(bp, "\r\n") on the last two octets of a terminated line, and its replacement. */
    method StripInPlace(dst: array<byte>, n: nat) returns (r: nat)
      requires 0 < n < dst.Length && dst[n] == NUL && dst[n - 1] == LF
      modifies dst
      ensures r == |Strip(old(dst[..n]))| && dst[..r] == Strip(old(dst[..n])) && dst[r] == NUL
    {
      r := n;
      var bp := n - 2;
      if bp >= 0 && dst[bp] == CR && dst[bp + 1] == LF && dst[bp + 2] == NUL {
        dst[bp], dst[bp + 1] := LF, NUL;
        r := r - 1;
      }
    }

    /** What is true of the stream s after `r` octets of its first line are in the caller's buffer. */
    ghost predicate Collected(s: seq<byte>, r: nat, dst: array<byte>, max: nat)
      reads this, sock, dst
    {
      && r <= |s| && r + 2 <= max <= dst.Length && Fits(s, max)
      && Pending() == s[r..] && LF !in s[..r] && dst[..r] == s[..r]
      && (r > 0 ==> dst[r] == NUL)
    }

    /** The caller's buffer holds the first line of s, stripped and terminated; the rest is pending. */
    ghost predicate Delivered(s: seq<byte>, r: int, dst: array<byte>)
      reads this, sock, dst
    {
      var line := Strip(s[..LineEnd(s)]);
      s != [] && r == |line| < dst.Length && dst[..r] == line && dst[r] == NUL && Pending() == s[LineEnd(s)..]
    }

    /** What a round of copying does with the buffered octets w: ends a line, or copies all of them. */
    ghost predicate Copied(w: seq<byte>, at: nat, r: nat, found: bool)
      reads this`held
    {
      if found then ContentLen(w) < |w| && r == at + LineEnd(w) && held == w[LineEnd(w)..]
      else ContentLen(w) == |w| && r == at + |w| && held == []
    }

    lemma StillCollected(s: seq<byte>, r: nat, dst: array<byte>, max: nat)
      requires r <= |s| && r + 2 <= max <= dst.Length && Fits(s, max)
      requires Pending() == s[r..] && LF !in s[..r] && dst[..r] == s[..r] && dst[r] == NUL
      ensures Collected(s, r, dst, max)
    {
    }

    /** The copying half, seen from the stream s. */
    method Take(dst: array<byte>, at: nat, max: nat, ghost s: seq<byte>) returns (r: nat, found: bool)
      requires Valid() && buf != null && dst != buf && Collected(s, at, dst, max) && cavail > 0
      modifies this`cget, this`cavail, this`held, dst
      ensures Valid()
      ensures found ==> 0 < r == LineEnd(s) < dst.Length && Pending() == s[r..]
      ensures found ==> dst[..r] == s[..r] && dst[r - 1] == LF && dst[r] == NUL
      ensures !found ==> r > at && Collected(s, r, dst, max) && cget == cput
      ensures Copied(old(held), at, r, found)
    {
      ghost var w := held;
      RoundFits(s, at, w, sock.incoming, max);
      RoundTakes(s, at, w, sock.incoming);
      RoundEnds(s, at, w, sock.incoming);
      assert 0 < |w| && 0 < LineEnd(w);
      var copied;
      copied, found := TakeBuffered(dst, at, max - at, w);
      r := at + copied;
      assert Pending() == s[r..] && dst[..r] == s[..r];
      if found {
        assert dst[..r][r - 1] == LF;
      } else {
        StillCollected(s, r, dst, max);
      }
    }

    /** One round of readline: either the line is complete or everything buffered has been taken. */
    method Round(dst: array<byte>, at: nat, max: nat, ghost s: seq<byte>) returns (r: nat, done: bool)
      requires Valid() && buf != null && dst != buf && Collected(s, at, dst, max)
      modifies this`cput, this`cget, this`cavail, this`cleft, this`held, dst
      ensures Valid()
      ensures done ==> Delivered(s, r, dst)
      ensures !done ==> Collected(s, r, dst, max) && r >= at && (r == at ==> dst[..] == old(dst[..]))
      ensures !done ==> cput == cget == 0 && cleft == FTPLIB_BUFSIZ
      ensures Copied(old(held), at, if done then LineEnd(s) else r, done)
    {
      r, done := at, false;
      if cavail > 0 {
        r, done := Take(dst, at, max, s);
      }
      if done {
        r := StripInPlace(dst, r);
      } else {
        // The line still fits, so the caller's buffer is not used up here (max - r == 1 cannot occur).
        assert max - r > 1;
        if cput == cget {
          cput, cget, cavail, cleft, held := 0, 0, 0, FTPLIB_BUFSIZ, [];
        }
      }
    }

    /** A callback ended the wait: the octets collected so far are in the caller's buffer, unstripped. */
    ghost predicate Interrupted(s: seq<byte>, r: int, dst: array<byte>)
      reads this, sock, dst
    {
      0 <= r <= |s| && r <= dst.Length && LF !in s[..r] && dst[..r] == s[..r] && Pending() == s[r..]
    }

    /** A call of the reader on the stream s, of which h octets were buffered, went as its environment says. */
    ghost predicate ReadAs(s: seq<byte>, h: nat, feed: Feed, how: LineEnding)
      requires h <= |s|
      reads this`held, this`waits, sock`incoming, sock`readPlan
    {
      var taken := |s| - |Pending()|;
      && taken >= 0 && Pending() == s[taken..]
      && LineOf(s, h, feed) == Reading(how, taken, |held|, Source())
    }

    /** Where a call of the reader stands that has copied r octets. */
    ghost predicate Under(call: Reading, s: seq<byte>, r: nat, eof: bool)
      reads this`held, this`waits, sock`incoming, sock`readPlan
    {
      && r + |held| <= |s| && (eof ==> Pending() == [])
      && call == if eof then Reading(if r == 0 then AtEof else Got, r, 0, Source()) else LineOf(s, r + |held|, Source())
    }

    /** A call of the reader on the stream s that has not come to its end. */
    ghost predicate Going(call: Reading, s: seq<byte>, r: int, dst: array<byte>, was: seq<byte>, max: nat, eof: bool)
      reads this, sock, dst
    {
      0 <= r && Collected(s, r, dst, max) && (r == 0 ==> dst[..] == was) && Under(call, s, r, eof)
    }

    /** What has been found at its end, with what of s has been taken and what serves the next call. */
    ghost predicate Over(call: Reading, s: seq<byte>, r: int, how: LineEnding, dst: array<byte>, was: seq<byte>)
      reads this, sock, dst
    {
      var taken := |s| - |Pending()|;
      && taken >= 0 && Pending() == s[taken..] && call == Reading(how, taken, |held|, Source())
      && match how
         case Got => Delivered(s, r, dst)
         case AtEof => r == -1 && s == [] && dst[..] == was
         case Failed => r == -1
         case Stopped => Interrupted(s, r, dst)
         case Refused => false
    }

    ghost predicate Drained()
      reads this`held, this`cput, this`cget, this`cleft
    {
      held == [] && cput == cget == 0 && cleft == FTPLIB_BUFSIZ
    }

    /** The copying half, seen as part of the call. */
    method CopyHalf(dst: array<byte>, at: nat, max: nat, ghost s: seq<byte>, ghost was: seq<byte>, ghost call: Reading,
                    eof: bool) returns (r: nat, done: bool)
      requires Valid() && buf != null && dst != buf && Going(call, s, at, dst, was, max, eof)
      modifies this`cput, this`cget, this`cavail, this`cleft, this`held, dst
      ensures Valid()
      ensures if done then Over(call, s, r, Got, dst, was) else Drained() && Going(call, s, r, dst, was, max, eof)
    {
      ghost var feed, n := Source(), at + |held|;
      RoundEnds(s, at, held, sock.incoming);
      r, done := Round(dst, at, max, s);
      assert Source() == feed;
      if done {
        assert |Pending()| == |s| - LineEnd(s) && LineEnd(s) + |held| == n;
      } else {
        assert r == n && |held| == 0;
      }
    }

    /** The waiting half. */
    method WaitHalf(dst: array<byte>, at: nat, max: nat, ghost s: seq<byte>, ghost was: seq<byte>, ghost call: Reading)
      returns (r: int, how: LineEnding, over: bool, eof: bool)
      requires Valid() && dir != WriteDir && buf != null && dst != buf
      requires Drained() && Going(call, s, at, dst, was, max, false)
      modifies this`cput, this`cavail, this`cleft, this`held, this`waits, sock`incoming, sock`readPlan, buf
      ensures Valid() && if over then Over(call, s, r, how, dst, was) else Going(call, s, r, dst, was, max, eof)
      ensures over && how == Failed ==> ReadFail in old(sock.readPlan)
      ensures over && how == Stopped ==> dir != Control && hasCallback && false in old(waits)
      ensures !over ==> eof || |sock.incoming| < |old(sock.incoming)|
      ensures false in waits ==> false in old(waits)
      ensures ReadFail in sock.readPlan ==> ReadFail in old(sock.readPlan)
    {
      r, how, over, eof := at, Got, false, false;
      assert ContentLen(s) >= at;
      var go, c := Refill();
      if !go {
        over, how := true, Stopped;
      } else if c == -1 {
        over, r, how := true, -1, Failed;
      } else {
        eof := c == 0;
      }
    }

    /** One turn of the loop of readline. */
    method Turn(dst: array<byte>, at: nat, max: nat, ghost s: seq<byte>, ghost was: seq<byte>, ghost call: Reading,
                atEof: bool) returns (r: int, how: LineEnding, over: bool, eof: bool)
      requires Valid() && dir != WriteDir && buf != null && dst != buf && Going(call, s, at, dst, was, max, atEof)
      modifies this`cput, this`cget, this`cavail, this`cleft, this`held, this`waits
      modifies sock`incoming, sock`readPlan, buf, dst
      ensures Valid() && if over then Over(call, s, r, how, dst, was) else Going(call, s, r, dst, was, max, eof)
      ensures over && how == Failed ==> ReadFail in old(sock.readPlan)
      ensures over && how == Stopped ==> dir != Control && hasCallback && false in old(waits)
      ensures !over ==> if eof then !atEof else |sock.incoming| < |old(sock.incoming)|
      ensures false in waits ==> false in old(waits)
      ensures ReadFail in sock.readPlan ==> ReadFail in old(sock.readPlan)
    {
      how, eof := Got, atEof;
      r, over := CopyHalf(dst, at, max, s, was, call, eof);
      if !over {
        if !eof {
          r, how, over, eof := WaitHalf(dst, r, max, s, was, call);
        } else {
          over := true;
          if r == 0 {
            r, how := -1, AtEof;
          }
        }
      }
    }

    /** The loop of readline. */
    method CollectLine(dst: array<byte>, max: nat) returns (r: int, ghost how: LineEnding)
      requires Valid() && dir != WriteDir && buf != null && dst != buf && max <= dst.Length && Fits(Pending(), max)
      modifies this`cput, this`cget, this`cavail, this`cleft, this`held, this`waits
      modifies sock`incoming, sock`readPlan, buf, dst
      ensures Valid() && how != Refused
      ensures how == Got ==> Delivered(old(Pending()), r, dst)
      ensures how == AtEof ==> r == -1 && old(Pending()) == [] && Pending() == [] && dst[..] == old(dst[..])
      ensures how == Failed ==> r == -1 && ReadFail in old(sock.readPlan)
      ensures how == Stopped ==> Interrupted(old(Pending()), r, dst)
      ensures how == Stopped ==> dir != Control && hasCallback && false in old(waits)
      ensures ReadAs(old(Pending()), |old(held)|, old(Source()), how)
      ensures false in waits ==> false in old(waits)
      ensures ReadFail in sock.readPlan ==> ReadFail in old(sock.readPlan)
    {
      ghost var s, was, call := Pending(), dst[..], LineOf(Pending(), |held|, Source());
      var eof, over, ending := false, false, Got;
      r := 0;
      while !over
        invariant Valid() && if over then Over(call, s, r, ending, dst, was) else Going(call, s, r, dst, was, max, eof)
        invariant over && ending == Failed ==> ReadFail in old(sock.readPlan)
        invariant over && ending == Stopped ==> dir != Control && hasCallback && false in old(waits)
        invariant false in waits ==> false in old(waits)
        invariant ReadFail in sock.readPlan ==> ReadFail in old(sock.readPlan)
        decreases !over, !eof, |sock.incoming|
      {
        r, ending, over, eof := Turn(dst, r, max, s, was, call, eof);
      }
      how := ending;
    }

    /**
     * readline. For a line that fits the caller's buffer the result does not depend on how the
     * network cuts the stream: the first line of what is pending, with a final CR LF turned into
     * LF, and the rest stays pending for the next call.
     */
    method ReadLine(dst: array<byte>, max: nat) returns (r: int, ghost how: LineEnding)
      requires Valid() && dst != buf && max <= dst.Length
      requires dir != WriteDir ==> buf != null
      requires dir != WriteDir && max > 0 ==> Fits(Pending(), max)
      modifies this`cput, this`cget, this`cavail, this`cleft, this`held, this`waits
      modifies sock`incoming, sock`readPlan, buf, dst
      ensures Valid()
      ensures dir == WriteDir || max == 0 <==> how == Refused
      ensures how == Refused ==> r == (if dir == WriteDir then -1 else 0)
      ensures how == Refused ==> dst[..] == old(dst[..]) && Pending() == old(Pending())
      ensures how == Got ==> Delivered(old(Pending()), r, dst)
      ensures how == AtEof ==> r == -1 && old(Pending()) == [] && Pending() == [] && dst[..] == old(dst[..])
      ensures how == Failed ==> r == -1 && ReadFail in old(sock.readPlan)
      ensures how == Stopped ==> Interrupted(old(Pending()), r, dst)
      ensures how == Stopped ==> dir != Control && hasCallback && false in old(waits)
      ensures how != Refused ==> ReadAs(old(Pending()), |old(held)|, old(Source()), how)
      ensures false in waits ==> false in old(waits)
      ensures ReadFail in sock.readPlan ==> ReadFail in old(sock.readPlan)
    {
      if dir == WriteDir {
        r, how := -1, Refused;
      } else if max == 0 {
        r, how := 0, Refused;
      } else {
        r, how := CollectLine(dst, max);
      }
    }

    /** socket_wait followed by one net_write of the first n octets of the buffer. */
    method Flush(n: nat) returns (how: WriteEnding)
      requires Valid() && buf != null && dir == WriteDir && 0 < n <= FTPLIB_BUFSIZ
      modifies this`waits, this`blocks, sock`sent, sock`writePlan
      ensures how != WrongDirection && Keeps(how)
      ensures how == Done ==> sock.sent == old(sock.sent) + buf[..n] && blocks == old(blocks) + [buf[..n]]
      ensures how != Done ==> blocks == old(blocks) && Short(old(sock.sent), buf[..n])
      ensures how == WriteStopped ==> sock.sent == old(sock.sent) && sock.writePlan == old(sock.writePlan)
      ensures how == WriteStopped <==> Refuses(old(Answers()))
      ensures Answers() == Later(old(Answers()))
      ensures AfterFlush(old(Outlet()), n) == if how == Done then Some(Outlet()) else None
    {
      var go := SocketWait();
      if !go {
        how := WriteStopped;
      } else {
        var w := sock.NetWrite(buf, 0, n);
        if w != n {
          how := WriteFailed;
        } else {
          how := Done;
          blocks := blocks + [buf[..n]];
        }
      }
    }

    /** What every step of the writer keeps, and what it takes for it to fail. */
    twostate predicate Keeps(how: WriteEnding)
      reads this, sock
    {
      && (how == WriteStopped ==> hasCallback && false in old(waits))
      && (how == WriteFailed ==> !NeverShort(old(sock.writePlan)))
      && (false in waits ==> false in old(waits))
      && (NeverShort(old(sock.writePlan)) ==> NeverShort(sock.writePlan))
    }

    /** A flush of w on top of `before` that did not go through: only a proper prefix of w got out. */
    ghost predicate Short(before: seq<byte>, w: seq<byte>)
      reads sock
    {
      var d := |sock.sent| - |before|;
      0 <= d < |w| && sock.sent == before + w[..d]
    }

    /**
     * The writer half way: what has been sent since the call began, the n buffered octets and the
     * encoding of the input still to come make up the whole code; so do the blocks they are cut
     * into; the callback grants as many more flushes as it grants in all; and the flushes still to
     * be made go as all of them do.
     */
    ghost predicate Progress(c: Call, n: nat, rest: seq<byte>)
      requires buf != null && n <= buf.Length
      reads this, sock, buf
    {
      && |sock.sent| >= |c.sent| && |blocks| >= |c.blocks|
      && sock.sent + (buf[..n] + rest) == c.sent + c.code
      && blocks + Blocks(buf[..n] + rest, FTPLIB_BUFSIZ) == c.blocks + Blocks(c.code, FTPLIB_BUFSIZ)
      && c.Flushes() ==
           |blocks| - |c.blocks| + Granted(Answers(), |Blocks(buf[..n] + rest, FTPLIB_BUFSIZ)|)
      && Written(c.sink, c.Cut()) == Written(Outlet(), Blocks(buf[..n] + rest, FTPLIB_BUFSIZ))
    }

    /** What has been sent is exactly the blocks that the callback grants. */
    ghost predicate AsGranted(c: Call)
      reads this, sock
    {
      && blocks == c.blocks + Blocks(c.code, FTPLIB_BUFSIZ)[..c.Flushes()]
      && sock.sent == c.sent + Flatten(Blocks(c.code, FTPLIB_BUFSIZ)[..c.Flushes()])
    }

    /** A flush that falls short of w falls short of any code that continues after w. */
    static lemma ShortOfAll(s0: seq<byte>, before: seq<byte>, w: seq<byte>, rest: seq<byte>, code: seq<byte>, d: nat)
      requires before + (w + rest) == s0 + code && |before| >= |s0| && d < |w|
      ensures |before| + d - |s0| < |code|
      ensures before + w[..d] == s0 + code[..|before| + d - |s0|]
    {
      var n := |before| + d;
      assert before + w[..d] == (before + (w + rest))[..n];
      assert (s0 + code)[..n] == s0 + code[..n - |s0|];
    }

    /** A full buffer with more to come is a block of the code, and not the last one. */
    static lemma FullBlock(b0: seq<seq<byte>>, sent: seq<seq<byte>>, w: seq<byte>, rest: seq<byte>, code: seq<byte>)
      requires sent + Blocks(w + rest, FTPLIB_BUFSIZ) == b0 + Blocks(code, FTPLIB_BUFSIZ)
      requires |w| == FTPLIB_BUFSIZ && rest != []
      ensures sent + [w] + Blocks(rest, FTPLIB_BUFSIZ) == b0 + Blocks(code, FTPLIB_BUFSIZ)
      ensures |Blocks(w + rest, FTPLIB_BUFSIZ)| == 1 + |Blocks(rest, FTPLIB_BUFSIZ)| >= 2
      ensures Blocks(w + rest, FTPLIB_BUFSIZ) == [w] + Blocks(rest, FTPLIB_BUFSIZ)
    {
      BlocksStep(w, rest, FTPLIB_BUFSIZ);
      assert ([w] + Blocks(rest, FTPLIB_BUFSIZ))[1..] == Blocks(rest, FTPLIB_BUFSIZ);
      ConcatAssociative(sent, [w], Blocks(rest, FTPLIB_BUFSIZ));
    }

    /** Between two flushes what has been sent is whole blocks of the code. */
    static lemma SentIsBlocks(c: Call, sent: seq<byte>, blocks: seq<seq<byte>>, left: seq<byte>)
      requires |sent| >= |c.sent| && |blocks| >= |c.blocks| && sent + left == c.sent + c.code
      requires blocks + Blocks(left, FTPLIB_BUFSIZ) == c.blocks + Blocks(c.code, FTPLIB_BUFSIZ)
      ensures var k := |blocks| - |c.blocks|;
              && k + |Blocks(left, FTPLIB_BUFSIZ)| == c.Total()
              && blocks == c.blocks + Blocks(c.code, FTPLIB_BUFSIZ)[..k]
              && sent == c.sent + Flatten(Blocks(c.code, FTPLIB_BUFSIZ)[..k])
    {
      var all, k := Blocks(c.code, FTPLIB_BUFSIZ), |blocks| - |c.blocks|;
      assert blocks == (blocks + Blocks(left, FTPLIB_BUFSIZ))[..|blocks|] == c.blocks + all[..k];
      assert Blocks(left, FTPLIB_BUFSIZ) == (blocks + Blocks(left, FTPLIB_BUFSIZ))[|blocks|..] == all[k..];
      assert all == all[..k] + all[k..];
      BlocksAreFile(c.code, FTPLIB_BUFSIZ);
      BlocksAreFile(left, FTPLIB_BUFSIZ);
      FlattenAppend(all[..k], all[k..]);
      ConcatAssociative(c.sent, Flatten(all[..k]), left);
      assert sent == (sent + left)[..|sent|] == (c.sent + Flatten(all[..k]) + left)[..|sent|];
    }

    /** The same for the last block, which may be shorter. */
    static lemma LastBlock(c: Call, sent: seq<byte>, blocks: seq<seq<byte>>, w: seq<byte>)
      requires |sent| >= |c.sent| && |blocks| >= |c.blocks| && sent + w == c.sent + c.code && 0 < |w| <= FTPLIB_BUFSIZ
      requires blocks + Blocks(w, FTPLIB_BUFSIZ) == c.blocks + Blocks(c.code, FTPLIB_BUFSIZ)
      ensures var all := Blocks(c.code, FTPLIB_BUFSIZ);
              && Blocks(w, FTPLIB_BUFSIZ) == [w] && all[..|all|] == all
              && blocks + [w] == c.blocks + all && sent + w == c.sent + Flatten(all)
    {
      BlocksAreFile(c.code, FTPLIB_BUFSIZ);
    }

    /** Flushes the full output buffer, with more to come. */
    method FlushFull(ghost rest: seq<byte>, ghost c: Call) returns (how: WriteEnding)
      requires Valid() && buf != null && dir == WriteDir && rest != [] && Progress(c, FTPLIB_BUFSIZ, rest)
      modifies this`waits, this`blocks, sock`sent, sock`writePlan
      ensures how != WrongDirection && Keeps(how)
      ensures how == Done ==> Progress(c, 0, rest)
      ensures how != Done ==> Short(c.sent, c.code) && Written(c.sink, c.Cut()) == Less
      ensures how == WriteStopped ==> AsGranted(c) && c.Flushes() + 2 <= c.Total()
    {
      ghost var before, w, b := sock.sent, buf[..FTPLIB_BUFSIZ], blocks;
      FullBlock(c.blocks, b, w, rest, c.code);
      SentIsBlocks(c, before, b, w + rest);
      ConcatAssociative(before, w, rest);
      how := Flush(FTPLIB_BUFSIZ);
      if how == Done {
        assert buf[..0] + rest == rest;
      } else {
        ShortOfAll(c.sent, before, w, rest, c.code, |sock.sent| - |before|);
      }
    }

    /** Appends one octet to the output buffer, flushing it first when it is full. */
    method Put(nb: nat, b: byte, ghost rest: seq<byte>, ghost c: Call) returns (next: nat, how: WriteEnding)
      requires Valid() && buf != null && dir == WriteDir && nb <= FTPLIB_BUFSIZ
      requires Progress(c, nb, [b] + rest)
      modifies this`waits, this`blocks, sock`sent, sock`writePlan, buf
      ensures Valid() && 0 < next <= FTPLIB_BUFSIZ && how != WrongDirection && Keeps(how)
      ensures how == Done ==> Progress(c, next, rest)
      ensures how != Done ==> Short(c.sent, c.code) && Written(c.sink, c.Cut()) == Less
      ensures how == WriteStopped ==> AsGranted(c) && c.Flushes() + 2 <= c.Total()
    {
      next, how := nb, Done;
      if nb == FTPLIB_BUFSIZ {
        how := FlushFull([b] + rest, c);
        next := 0;
      }
      ghost var kept := buf[..next];
      if how == Done {
        buf[next] := b;
        assert buf[..next + 1] + rest == kept + ([b] + rest);
      }
      next := next + 1;
    }

    /** One octet of input: a CR first when it is an LF that follows anything but a CR. */
    method PutExpanded(nb: nat, lc: byte, b: byte, ghost rest: seq<byte>, ghost c: Call)
      returns (next: nat, how: WriteEnding)
      requires Valid() && buf != null && dir == WriteDir && nb <= FTPLIB_BUFSIZ
      requires Progress(c, nb, (if b == LF && lc != CR then [CR, LF] else [b]) + rest)
      modifies this`waits, this`blocks, sock`sent, sock`writePlan, buf
      ensures Valid() && 0 < next <= FTPLIB_BUFSIZ && how != WrongDirection && Keeps(how)
      ensures how == Done ==> Progress(c, next, rest)
      ensures how != Done ==> Short(c.sent, c.code) && Written(c.sink, c.Cut()) == Less
      ensures how == WriteStopped ==> AsGranted(c) && c.Flushes() + 2 <= c.Total()
    {
      next, how := nb, Done;
      if b == LF && lc != CR {
        assert [CR, LF] + rest == [CR] + ([LF] + rest);
        next, how := Put(nb, CR, [LF] + rest, c);
      }
      if how == Done {
        next, how := Put(next, b, rest, c);
      }
    }

    /** The flush after the last octet, of what is left in the buffer. */
    method FlushRest(n: nat, ghost c: Call) returns (how: WriteEnding)
      requires Valid() && buf != null && dir == WriteDir && n <= FTPLIB_BUFSIZ && Progress(c, n, [])
      modifies this`waits, this`blocks, sock`sent, sock`writePlan
      ensures how != WrongDirection && Keeps(how)
      ensures how == Done ==> AsGranted(c) && c.Flushes() == c.Total()
      ensures how == WriteStopped ==> AsGranted(c) && c.Flushes() + 1 == c.Total()
      ensures how == WriteFailed ==> Short(c.sent, c.code)
      ensures Written(c.sink, c.Cut()) ==
        if how == Done then Everything(Outlet()) else if how == WriteStopped then AllButLast(Outlet()) else Less
    {
      ghost var before, w, b := sock.sent, buf[..n], blocks;
      assert w + [] == w;
      SentIsBlocks(c, before, b, w);
      how := Done;
      if n > 0 {
        LastBlock(c, before, b, w);
        OneFlush(Outlet(), w);
        how := Flush(n);
        if how != Done {
          ShortOfAll(c.sent, before, w, [], c.code, |sock.sent| - |before|);
        }
      }
    }

    /** The loop of writeline: every octet of the input through the output buffer. */
    method PutAll(data: seq<byte>, ghost c: Call) returns (x: nat, nb: nat, st: WriteEnding)
      requires Valid() && buf != null && dir == WriteDir && c.code == Encode(0, data)
      requires c.sent == sock.sent && c.blocks == blocks && c.sink == Outlet()
      modifies this`waits, this`blocks, sock`sent, sock`writePlan, buf
      ensures Valid() && x <= |data| && nb <= FTPLIB_BUFSIZ && st != WrongDirection && Keeps(st)
      ensures st == Done ==> x == |data| && Progress(c, nb, []) && (data != [] ==> nb > 0)
      ensures st != Done ==> x < |data| && Short(c.sent, c.code) && Written(c.sink, c.Cut()) == Less
      ensures st == WriteStopped ==> AsGranted(c) && c.Flushes() + 2 <= c.Total()
    {
      x, nb, st := 0, 0, Done;
      var lc := NUL;
      assert buf[..0] + c.code == c.code && data[0..] == data;
      while x < |data| && st == Done
        invariant Valid() && x <= |data| && nb <= FTPLIB_BUFSIZ && st != WrongDirection && Keeps(st)
        invariant st == Done ==> Progress(c, nb, Encode(lc, data[x..]))
        invariant st == Done && x > 0 ==> nb > 0
        invariant st != Done ==> x < |data| && Short(c.sent, c.code) && Written(c.sink, c.Cut()) == Less
        invariant st == WriteStopped ==> AsGranted(c) && c.Flushes() + 2 <= c.Total()
        decreases |data| - x, st == Done
      {
        ghost var rest := Encode(data[x], data[x + 1..]);
        assert data[x..][1..] == data[x + 1..];
        nb, st := PutExpanded(nb, lc, data[x], rest, c);
        if st == Done {
          lc, x := data[x], x + 1;
        }
      }
    }

    static lemma WholeCode(c: Call)
      ensures var all := Blocks(c.code, FTPLIB_BUFSIZ);
              all[..|all|] == all && Flatten(all) == c.code
    {
      BlocksAreFile(c.code, FTPLIB_BUFSIZ);
    }

    /**
     * writeline. When nothing fails, the callback decides: of the blocks of the encoding, which are
     * of FTPLIB_BUFSIZ octets each but for the last, exactly those before its first refusal are
     * sent. When it refuses none of them the number returned is len; and also when it refuses the
     * last one. A write that fails leaves a proper prefix of the encoding sent.
     */
    method WriteLine(data: seq<byte>) returns (r: int, ghost how: WriteEnding)
      requires Valid() && (dir == WriteDir ==> buf != null)
      modifies this`waits, this`blocks, sock`sent, sock`writePlan, buf
      ensures Valid() && Keeps(how)
      ensures how == WrongDirection <==> dir != WriteDir
      ensures how == WrongDirection ==> r == -1 && sock.sent == old(sock.sent) && blocks == old(blocks)
      ensures how == WriteFailed ==> r == -1 && Short(old(sock.sent), Encode(0, data))
      ensures how == Done ==> sock.sent == old(sock.sent) + Encode(0, data)
      ensures how == Done || how == WriteStopped ==>
        var all := Blocks(Encode(0, data), FTPLIB_BUFSIZ);
        var k := Granted(old(Answers()), |all|);
        && (how == Done <==> k == |all|)
        && blocks == old(blocks) + all[..k] && sock.sent == old(sock.sent) + Flatten(all[..k])
        && 0 <= r <= |data| && (r == |data| <==> k + 1 >= |all|)
      ensures dir == WriteDir ==>
        Written(old(Outlet()), Blocks(Encode(0, data), FTPLIB_BUFSIZ)) ==
          if how == Done then Everything(Outlet())
          else if how == WriteStopped && r == |data| then AllButLast(Outlet()) else Less
    {
      if dir != WriteDir {
        r, how := -1, WrongDirection;
      } else {
        ghost var c := Call(sock.sent, blocks, Outlet(), Encode(0, data));
        var x, nb, st := PutAll(data, c);
        if st == Done {
          st := FlushRest(nb, c);
        }
        WholeCode(c);
        how := st;
        r := if st == Done then |data| else if st == WriteStopped then x else -1;
      }
    }
  }

  /** A short write whose only flush the callback stops: the full length is reported and nothing is sent. */
  method StoppedWriteReportsAll(data: seq<byte>) returns (r: int, sent: seq<byte>)
    requires 0 < |Encode(0, data)| <= FTPLIB_BUFSIZ
    ensures r == |data| && sent == []
  {
    var sock := new Socket([], [], []);
    var nb := new NetBuf(WriteDir, sock, true, true, [false]);
    ghost var how;
    r, how := nb.WriteLine(data);
    sent := sock.sent;
  }

  /**
   * Repeated calls of readline return exactly the lines of the stream, one after the other, and then
   * -1, whatever pieces the network delivers them in.
   */
  method ReadEveryLine(nb: NetBuf, max: nat) returns (lines: seq<seq<byte>>)
    requires nb.Valid() && nb.dir != WriteDir && nb.buf != null && nb.Undisturbed() && AllFit(nb.Pending(), max)
    modifies nb, nb.sock, nb.buf
    ensures nb.Valid() && lines == Lines(old(nb.Pending())) && nb.Pending() == []
  {
    lines := [];
    var line := new byte[max];
    var r := 0;
    while r != -1
      invariant nb.Valid() && nb.Undisturbed() && AllFit(nb.Pending(), max)
      invariant lines + Lines(nb.Pending()) == Lines(old(nb.Pending()))
      invariant r == -1 ==> nb.Pending() == []
      decreases |nb.Pending()|, r != -1
    {
      ghost var how;
      r, how := nb.ReadLine(line, max);
      if r != -1 {
        ConcatAssociative(lines, [line[..r]], Lines(nb.Pending()));
        lines := lines + [line[..r]];
      }
    }
  }
}
