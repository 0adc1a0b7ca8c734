/**
 * The operating system's side of a socket. What the peer sends is a fixed stream; how `read` cuts
 * it into pieces, how much each `write` accepts, and when either is interrupted or fails is an
 * arbitrary finite plan. Once a plan is used up every further call is served in full.
 */
module Wire {
  import opened Wrappers
  import opened Bytes

  datatype ReadEvent = Chunk(n: nat) | ReadRetry | ReadFail

  datatype WriteEvent = Took(n: nat) | WriteRetry | WriteFail | WriteNone

  predicate NeverShort(plan: seq<WriteEvent>) {
    WriteFail !in plan && WriteNone !in plan
  }

  function Clamp(n: nat, limit: nat): (k: nat)
    requires limit > 0
    ensures 1 <= k <= limit
  {
    if n == 0 then 1 else if n > limit then limit else n
  }

  function Min(a: nat, b: nat): (m: nat) {
    if a < b then a else b
  }

  /**
   * What net_read of `len` octets answers when `avail` octets are still to come, and the plan that
   * is left: interruptions are passed over, and a chunk is of one octet at least.
   */
  function NetReads(plan: seq<ReadEvent>, avail: nat, len: nat): (r: (int, seq<ReadEvent>))
    ensures -1 <= r.0 <= Min(avail, len) && (r.0 == 0 ==> Min(avail, len) == 0)
    ensures r.0 > 0 ==> avail > 0
    decreases |plan|
  {
    if plan == [] then (Min(avail, len), [])
    else match plan[0]
      case ReadRetry => NetReads(plan[1..], avail, len)
      case ReadFail => (-1, plan[1..])
      case Chunk(n) => (if Min(avail, len) == 0 then 0 else Clamp(n, Min(avail, len)), plan[1..])
  }

  /** The plan that is left when net_write gets all of n octets out, if it does. */
  function NetWrites(plan: seq<WriteEvent>, n: nat): (r: Option<seq<WriteEvent>>)
    decreases |plan|
  {
    if n == 0 || plan == [] then Some(plan)
    else match plan[0]
      case WriteRetry => NetWrites(plan[1..], n)
      case WriteFail => None
      case WriteNone => None
      case Took(k) => NetWrites(plan[1..], n - Clamp(k, n))
  }

  class Socket {
    var incoming: seq<byte>      // the peer's octets that have not been read yet; the peer then closes
    var readPlan: seq<ReadEvent>
    var sent: seq<byte>          // octets the system has accepted, in order
    var writePlan: seq<WriteEvent>

    constructor (incoming: seq<byte>, readPlan: seq<ReadEvent>, writePlan: seq<WriteEvent>)
      ensures this.incoming == incoming && this.readPlan == readPlan && this.writePlan == writePlan && sent == []
    {
      this.incoming, this.readPlan, this.sent, this.writePlan := incoming, readPlan, [], writePlan;
    }

    /** read(2): -1 with or without a reason to retry, 0 at the end of the stream, or some octets. */
    method Read(len: nat) returns (c: int, again: bool, data: seq<byte>)
      modifies this`incoming, this`readPlan
      ensures readPlan == if old(readPlan) == [] then [] else old(readPlan)[1..]
      ensures c == -1 <==> old(readPlan) != [] && !old(readPlan)[0].Chunk?
      ensures c == -1 ==> again == old(readPlan)[0].ReadRetry? && incoming == old(incoming) && data == []
      ensures c != -1 ==> 0 <= c <= len && (c == 0 <==> len == 0 || old(incoming) == [])
      ensures c != -1 ==> |data| == c && old(incoming) == data + incoming
      ensures var some := Min(len, |old(incoming)|);
              c > 0 ==> c == if old(readPlan) == [] then some else Clamp(old(readPlan)[0].n, some)
    {
      var event := Chunk(len);
      if readPlan != [] {
        event, readPlan := readPlan[0], readPlan[1..];
      }
      if !event.Chunk? {
        return -1, event.ReadRetry?, [];
      }
      if len == 0 || incoming == [] {
        return 0, false, [];
      }
      var k := Clamp(event.n, if len < |incoming| then len else |incoming|);
      c, again, data, incoming := k, false, incoming[..k], incoming[k..];
    }

    /**
     * net_read: retries until the system answers with something other than EINTR/EAGAIN, and
     * leaves what it answered with in the buffer.
     */
    method NetRead(buf: array<byte>, at: nat, len: nat) returns (c: int)
      requires at + len <= buf.Length
      modifies this`incoming, this`readPlan, buf
      ensures c == -1 ==> ReadFail in old(readPlan) && incoming == old(incoming) && buf[..] == old(buf[..])
      ensures ReadFail !in old(readPlan) ==> ReadFail !in readPlan
      ensures (c, readPlan) == NetReads(old(readPlan), |old(incoming)|, len)
      ensures c != -1 ==> 0 <= c <= len && (c == 0 <==> len == 0 || old(incoming) == [])
      ensures c != -1 ==> old(incoming) == buf[at..at + c] + incoming
      ensures c != -1 ==> buf[..at] == old(buf[..at]) && buf[at + c..] == old(buf[at + c..])
    {
      var again, data;
      ghost var first := readPlan;
      c, again, data := Read(len);
      assert first != [] ==> first[0] in first && (first[0].Chunk? || first[0].ReadRetry? || first[0].ReadFail?);
      while c == -1 && again
        modifies this`incoming, this`readPlan
        invariant c == -1 && !again ==> ReadFail in old(readPlan)
        invariant NetReads(old(readPlan), |old(incoming)|, len) ==
          if c == -1 && again then NetReads(readPlan, |old(incoming)|, len) else (c, readPlan)
        invariant ReadFail in readPlan ==> ReadFail in old(readPlan)
        invariant c == -1 ==> incoming == old(incoming)
        invariant c != -1 ==> 0 <= c <= len && (c == 0 <==> len == 0 || old(incoming) == [])
        invariant c != -1 ==> |data| == c && old(incoming) == data + incoming
        decreases c == -1 && again, |readPlan|
      {
        ghost var plan := readPlan;
        c, again, data := Read(len);
        assert plan != [] ==> plan[0] in plan && (plan[0].Chunk? || plan[0].ReadRetry? || plan[0].ReadFail?);
      }
      if c != -1 {
        forall i | 0 <= i < c {
          buf[at + i] := data[i];
        }
        assert buf[at..at + c] == data;
      }
    }

    /** write(2) of a non-empty range: -1, 0, or the number of octets accepted. */
    method Write(buf: array<byte>, at: nat, len: nat) returns (c: int, again: bool)
      requires 0 < len && at + len <= buf.Length
      modifies this`sent, this`writePlan
      ensures writePlan == if old(writePlan) == [] then [] else old(writePlan)[1..]
      ensures c == -1 <==> old(writePlan) != [] && (old(writePlan)[0].WriteRetry? || old(writePlan)[0].WriteFail?)
      ensures c == -1 ==> again == old(writePlan)[0].WriteRetry?
      ensures c == 0 <==> old(writePlan) != [] && old(writePlan)[0].WriteNone?
      ensures c <= 0 ==> sent == old(sent)
      ensures -1 <= c <= len && (c > 0 ==> sent == old(sent) + buf[at..at + c])
      ensures c > 0 ==> c == if old(writePlan) == [] then len else Clamp(old(writePlan)[0].n, len)
    {
      var event := Took(len);
      if writePlan != [] {
        event, writePlan := writePlan[0], writePlan[1..];
      }
      match event
      case WriteRetry => c, again := -1, true;
      case WriteFail => c, again := -1, false;
      case WriteNone => c, again := 0, false;
      case Took(n) =>
        c, again := Clamp(n, len), false;
        sent := sent + buf[at..at + c];
    }

    /**
     * net_write: whatever the system does, the octets it accepted are a prefix of the range, in
     * order; a non-negative result is the length of that prefix, and it is `len` iff all was sent.
     */
    method NetWrite(buf: array<byte>, at: nat, len: nat) returns (done: int)
      requires at + len <= buf.Length
      modifies this`sent, this`writePlan
      ensures var d := |sent| - |old(sent)|; 0 <= d <= len && sent == old(sent) + buf[at..at + d]
      ensures done == -1 || done == |sent| - |old(sent)|
      ensures done == len <==> sent == old(sent) + buf[at..at + len]
      ensures if done == len then NetWrites(old(writePlan), len) == Some(writePlan)
              else NetWrites(old(writePlan), len) == None
      ensures done == -1 ==> WriteFail in old(writePlan)
      ensures 0 <= done < len ==> WriteNone in old(writePlan)
      ensures NeverShort(old(writePlan)) ==> NeverShort(writePlan)
    {
      done := 0;
      var left, from := len, at;
      ghost var used := 0;
      while left > 0
        invariant from == at + done && left == len - done && 0 <= done <= len
        invariant sent == old(sent) + buf[at..from]
        invariant NetWrites(old(writePlan), len) == NetWrites(writePlan, left)
        invariant used <= |old(writePlan)| && writePlan == old(writePlan)[used..]
        decreases left, |writePlan|
      {
        used := if writePlan == [] then used else used + 1;
        var c, again := Write(buf, from, left);
        if c == -1 {
          if !again {
            return -1;
          }
        } else if c == 0 {
          return;
        } else {
          from, done, left := from + c, done + c, left - c;
        }
      }
    }
  }
}
