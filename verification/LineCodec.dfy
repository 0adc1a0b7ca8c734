/**
 * The text-line codec of ftplib.c as functions on octet sequences: what `readline` returns for a
 * byte stream (Decode), what `writeline` emits for a buffer (Encode), and the laws that tie them.
 */
module LineCodec {
  import opened Bytes

  // ---------- the reader's side ----------

  /** Number of octets before the first LF, or the whole length when there is none. */
  function ContentLen(s: seq<byte>): (n: nat)
    ensures n <= |s|
    ensures LF !in s[..n]
    ensures n < |s| ==> s[n] == LF
  {
    FirstLF(s, 0)
  }

  /** The first LF at position i or behind it. */
  function FirstLF(s: seq<byte>, i: nat): (n: nat)
    requires i <= |s| && LF !in s[..i]
    ensures i <= n <= |s| && LF !in s[..n]
    ensures n < |s| ==> s[n] == LF
    decreases |s| - i
  {
    if i == |s| || s[i] == LF then i else FirstLF(s, i + 1)
  }

  /** Number of octets of the first line, its LF included when it has one. */
  function LineEnd(s: seq<byte>): (n: nat)
    ensures n <= |s|
    ensures s != [] ==> n > 0
  {
    if ContentLen(s) < |s| then ContentLen(s) + 1 else |s|
  }

  lemma ContentLenUnique(s: seq<byte>, n: nat)
    requires n <= |s| && LF !in s[..n]
    requires n < |s| ==> s[n] == LF
    ensures ContentLen(s) == n
  {
  }

  lemma ContentLenAtLeast(s: seq<byte>, n: nat)
    requires n <= |s| && LF !in s[..n]
    ensures ContentLen(s) >= n
  {
  }

  /** A final CR LF becomes LF; any other line is kept as it is. */
  function Strip(line: seq<byte>): (r: seq<byte>)
    ensures line != [] ==> r != []
  {
    if |line| >= 2 && line[|line| - 2] == CR && line[|line| - 1] == LF
    then line[..|line| - 2] + [LF]
    else line
  }

  /** What repeated calls of `readline` return for the stream s, one line after the other. */
  function Lines(s: seq<byte>): (r: seq<seq<byte>>)
    decreases |s|
  {
    if s == [] then [] else [Strip(s[..LineEnd(s)])] + Lines(s[LineEnd(s)..])
  }

  /** The first line and its terminating NUL fit a buffer of max octets. */
  predicate Fits(s: seq<byte>, max: nat) {
    ContentLen(s) + 2 <= max
  }

  /** Every line of s fits a buffer of max octets. */
  predicate AllFit(s: seq<byte>, max: nat)
    decreases |s|
  {
    Fits(s, max) && (s != [] ==> AllFit(s[LineEnd(s)..], max))
  }

  /** The same text seen octet by octet: every CR that is directly followed by LF disappears. */
  function Decode(s: seq<byte>): (r: seq<byte>) {
    if s == [] then []
    else if |s| >= 2 && s[0] == CR && s[1] == LF then Decode(s[1..])
    else [s[0]] + Decode(s[1..])
  }

  predicate EndsWithCR(s: seq<byte>) {
    s != [] && s[|s| - 1] == CR
  }

  predicate StartsWithLF(s: seq<byte>) {
    s != [] && s[0] == LF
  }

  /** Decoding can be cut anywhere except between a CR and an LF. */
  lemma {:induction false} DecodeAppend(a: seq<byte>, b: seq<byte>)
    requires !(EndsWithCR(a) && StartsWithLF(b))
    ensures Decode(a + b) == Decode(a) + Decode(b)
  {
    if |a| <= 1 {
      assert a == [] ==> a + b == b;
      assert a != [] ==> (a + b)[1..] == b && Decode(a[1..]) == [];
    } else {
      assert (a + b)[1..] == a[1..] + b && (a + b)[1] == a[1];
      DecodeAppend(a[1..], b);
    }
  }

  lemma {:induction false} DecodeWithoutLF(s: seq<byte>)
    requires LF !in s
    ensures Decode(s) == s
  {
    if s != [] {
      DecodeWithoutLF(s[1..]);
    }
  }

  lemma DecodeLineEnds()
    ensures Decode([LF]) == [LF] && Decode([CR, LF]) == [LF]
  {
  }

  lemma DecodeLFLine(body: seq<byte>)
    requires LF !in body
    ensures Decode(body + [LF]) == Strip(body + [LF])
  {
    DecodeLineEnds();
    if EndsWithCR(body) {
      var head := body[..|body| - 1];
      assert body + [LF] == head + [CR, LF];
      assert forall b | b in head :: b in body;
      DecodeWithoutLF(head);
      DecodeAppend(head, [CR, LF]);
    } else {
      DecodeWithoutLF(body);
      DecodeAppend(body, [LF]);
    }
  }

  /** Reading line by line and concatenating gives the octet-wise decoding of the stream. */
  lemma {:induction false} LinesAreDecode(s: seq<byte>)
    ensures Flatten(Lines(s)) == Decode(s)
    decreases |s|
  {
    if s != [] {
      var n := ContentLen(s);
      if n == |s| {
        assert s[..n] == s && s[n..] == [];
        DecodeWithoutLF(s);
      } else {
        var line, rest := s[..n + 1], s[n + 1..];
        assert line == s[..n] + [LF] && s == line + rest;
        DecodeLFLine(s[..n]);
        DecodeAppend(line, rest);
        LinesAreDecode(rest);
      }
    }
  }

  /** One call of the reader takes the first line off the text. */
  lemma FirstLineDecodes(s: seq<byte>)
    requires s != []
    ensures Decode(s) == Strip(s[..LineEnd(s)]) + Decode(s[LineEnd(s)..])
  {
    LinesAreDecode(s);
    LinesAreDecode(s[LineEnd(s)..]);
  }

  /** A cut between CR and LF: the r octets in front of it end with a CR that the text does not have. */
  predicate Tears(s: seq<byte>, r: nat)
    requires r <= |s|
  {
    0 < r < |s| && s[r - 1] == CR && s[r] == LF
  }

  /** A call that is stopped within a line takes the octets as they are. */
  lemma CutDecodes(s: seq<byte>, r: nat)
    requires 0 < r <= |s| && LF !in s[..r]
    ensures !Tears(s, r) ==> Decode(s) == s[..r] + Decode(s[r..])
    ensures Tears(s, r) ==> |Decode(s)| >= r && Decode(s)[r - 1] == LF
  {
    if !Tears(s, r) {
      DecodeWithoutLF(s[..r]);
      assert s == s[..r] + s[r..];
      DecodeAppend(s[..r], s[r..]);
    } else {
      var head, tail := s[..r - 1], s[r - 1..];
      assert s == head + tail && forall b | b in head :: b in s[..r];
      DecodeWithoutLF(head);
      DecodeAppend(head, tail);
      assert tail[0] == s[..r][r - 1] == CR && tail[1] == s[r..][0] && tail[1..] == s[r..];
    }
  }

  /** What is left of a line fits, too. */
  lemma TailFits(s: seq<byte>, r: nat, max: nat)
    requires r <= |s| && LF !in s[..r] && AllFit(s, max)
    ensures AllFit(s[r..], max)
  {
    var n := ContentLen(s);
    ContentLenAtLeast(s, r);
    PrefixInTwo(s, r, n - r);
    ContentLenUnique(s[r..], n - r);
    if s[r..] != [] {
      assert s[r..][LineEnd(s[r..])..] == s[LineEnd(s)..];
    }
  }

  // ---------- the writer's side ----------

  /** CR is inserted before each LF whose predecessor is not CR; `last` is the octet before s. */
  function Encode(last: byte, s: seq<byte>): (r: seq<byte>)
    decreases |s|
  {
    if s == [] then []
    else (if s[0] == LF && last != CR then [CR, LF] else [s[0]]) + Encode(s[0], s[1..])
  }

  /** Number of LF octets not preceded by CR. */
  function BareLFs(last: byte, s: seq<byte>): (n: nat)
    decreases |s|
  {
    if s == [] then 0
    else (if s[0] == LF && last != CR then 1 else 0) + BareLFs(s[0], s[1..])
  }

  /** The octet that precedes whatever follows s. */
  function LastOf(last: byte, s: seq<byte>): (r: byte) {
    if s == [] then last else s[|s| - 1]
  }

  lemma {:induction false} EncodeLength(last: byte, s: seq<byte>)
    ensures |Encode(last, s)| == |s| + BareLFs(last, s)
    decreases |s|
  {
    if s != [] {
      EncodeLength(s[0], s[1..]);
    }
  }

  /** On the wire every LF follows a CR. */
  lemma {:induction false} EncodedLineEnds(last: byte, s: seq<byte>, i: nat)
    requires i < |Encode(last, s)| && Encode(last, s)[i] == LF
    ensures if i == 0 then last == CR else Encode(last, s)[i - 1] == CR
    decreases |s|
  {
    var first := if s[0] == LF && last != CR then [CR, LF] else [s[0]];
    var rest := Encode(s[0], s[1..]);
    assert Encode(last, s) == first + rest;
    if i >= |first| {
      assert rest[i - |first|] == LF;
      EncodedLineEnds(s[0], s[1..], i - |first|);
    }
  }

  lemma {:induction false} EncodeAppend(last: byte, a: seq<byte>, b: seq<byte>)
    ensures Encode(last, a + b) == Encode(last, a) + Encode(LastOf(last, a), b)
    decreases |a|
  {
    if a == [] {
      assert a + b == b;
    } else {
      assert (a + b)[1..] == a[1..] + b;
      EncodeAppend(a[0], a[1..], b);
    }
  }

  lemma EncodeStep(last: byte, b: byte, rest: seq<byte>)
    ensures Encode(last, [b] + rest) == (if b == LF && last != CR then [CR, LF] else [b]) + Encode(b, rest)
  {
    assert ([b] + rest)[1..] == rest;
  }

  /** Encoding text that already has its CRs changes nothing. */
  lemma {:induction false} EncodeIdempotent(last: byte, s: seq<byte>)
    ensures Encode(last, Encode(last, s)) == Encode(last, s)
    decreases |s|
  {
    if s != [] {
      EncodeIdempotent(s[0], s[1..]);
      var rest := Encode(s[0], s[1..]);
      if s[0] == LF && last != CR {
        assert [CR, LF] + rest == [CR] + ([LF] + rest);
        EncodeStep(last, CR, [LF] + rest);
        EncodeStep(CR, LF, rest);
      } else {
        EncodeStep(last, s[0], rest);
      }
    }
  }

  /** The reader cannot tell encoded text from the original. */
  lemma {:induction false} DecodeEncode(last: byte, s: seq<byte>)
    ensures Decode(Encode(last, s)) == Decode(s)
    decreases |s|
  {
    if s != [] {
      var rest := Encode(s[0], s[1..]);
      DecodeEncode(s[0], s[1..]);
      if s[0] == LF && last != CR {
        assert ([CR, LF] + rest)[1..] == [LF] + rest;
        assert ([LF] + rest)[1..] == rest;
      } else {
        assert ([s[0]] + rest)[1..] == rest;
        assert s[0] == CR ==> (StartsWithLF(rest) <==> StartsWithLF(s[1..]));
      }
    }
  }

  /** Number of CR LF pairs. */
  function Pairs(s: seq<byte>): (n: nat) {
    if |s| < 2 then 0
    else (if s[0] == CR && s[1] == LF then 1 else 0) + Pairs(s[1..])
  }

  /** Decoding loses exactly one octet for each CR LF pair. */
  lemma {:induction false} DecodeLength(s: seq<byte>)
    ensures |Decode(s)| == |s| - Pairs(s)
  {
    if s != [] {
      DecodeLength(s[1..]);
      if |s| == 1 {
        assert Decode(s[1..]) == [];
      }
    }
  }

  lemma {:induction false} DecodeWithoutPairs(s: seq<byte>)
    requires Pairs(s) == 0
    ensures Decode(s) == s
  {
    if s != [] {
      DecodeWithoutPairs(s[1..]);
    }
  }

  // ---------- uploads, one block at a time ----------

  /** What an upload puts on the wire: `writeline` restarts its memory of the last octet on each block. */
  function BlockEncode(f: seq<byte>, size: nat): (r: seq<byte>)
    requires size > 0
    decreases |f|
  {
    if |f| <= size then Encode(0, f)
    else Encode(0, f[..size]) + BlockEncode(f[size..], size)
  }

  /** Number of block boundaries that fall between a CR and an LF. */
  function Seams(f: seq<byte>, size: nat): (n: nat)
    requires size > 0
    decreases |f|
  {
    if |f| <= size then 0
    else (if f[size - 1] == CR && f[size] == LF then 1 else 0) + Seams(f[size..], size)
  }

  lemma EncodeRestart(last: byte, s: seq<byte>)
    ensures !(last == CR && StartsWithLF(s)) ==> Encode(last, s) == Encode(0, s)
    ensures last == CR && StartsWithLF(s) ==> |Encode(last, s)| + 1 == |Encode(0, s)|
  {
  }

  /** Each seam costs exactly one extra CR on the wire ... */
  lemma {:induction false} SeamCost(f: seq<byte>, size: nat)
    requires size > 0
    ensures |BlockEncode(f, size)| == |Encode(0, f)| + Seams(f, size)
    ensures Seams(f, size) == 0 ==> BlockEncode(f, size) == Encode(0, f)
    decreases |f|
  {
    if |f| > size {
      var a, b := f[..size], f[size..];
      assert f == a + b;
      EncodeAppend(0, a, b);
      EncodeRestart(a[size - 1], b);
      SeamCost(b, size);
    }
  }

  /** ... so encoding block by block equals encoding the file whole exactly when there is no seam. */
  lemma SeamLaw(f: seq<byte>, size: nat)
    requires size > 0
    ensures BlockEncode(f, size) == Encode(0, f) <==> Seams(f, size) == 0
  {
    SeamCost(f, size);
  }

  lemma {:induction false} PairsTail(f: seq<byte>, k: nat)
    requires k < |f|
    ensures Pairs(f[k..]) <= Pairs(f)
    ensures k > 0 && f[k - 1] == CR && f[k] == LF ==> Pairs(f) > 0
    decreases k
  {
    if k > 0 {
      assert f[1..][k - 1..] == f[k..];
      PairsTail(f[1..], k - 1);
    } else {
      assert f[0..] == f;
    }
  }

  /** A file without CR LF has no seam, whatever the block size. */
  lemma {:induction false} NoPairsNoSeams(f: seq<byte>, size: nat)
    requires size > 0 && Pairs(f) == 0
    ensures Seams(f, size) == 0
    decreases |f|
  {
    if |f| > size {
      PairsTail(f, size);
      NoPairsNoSeams(f[size..], size);
    }
  }

  /** Number of CR LF pairs that lie inside one block. */
  function InnerPairs(f: seq<byte>, size: nat): (n: nat)
    requires size > 0
    decreases |f|
  {
    if |f| <= size then Pairs(f) else Pairs(f[..size]) + InnerPairs(f[size..], size)
  }

  lemma BlockEncodeNeverStartsWithLF(f: seq<byte>, size: nat)
    requires size > 0
    ensures !StartsWithLF(BlockEncode(f, size))
  {
  }

  /** One block, encoded and decoded again, loses exactly its own CR LF pairs. */
  lemma OneBlockDecodes(a: seq<byte>)
    ensures |Decode(Encode(0, a))| == |a| - Pairs(a)
    ensures Pairs(a) == 0 ==> Decode(Encode(0, a)) == a
  {
    DecodeEncode(0, a);
    DecodeLength(a);
    if Pairs(a) == 0 {
      DecodeWithoutPairs(a);
    }
  }

  /** The wire can be decoded block by block, because no encoded block starts with LF. */
  lemma BlockwiseDecode(f: seq<byte>, size: nat)
    requires 0 < size < |f|
    ensures Decode(BlockEncode(f, size)) == Decode(Encode(0, f[..size])) + Decode(BlockEncode(f[size..], size))
  {
    BlockEncodeNeverStartsWithLF(f[size..], size);
    DecodeAppend(Encode(0, f[..size]), BlockEncode(f[size..], size));
  }

  lemma {:induction false} BlockDecodeLength(f: seq<byte>, size: nat)
    requires size > 0
    ensures |Decode(BlockEncode(f, size))| == |f| - InnerPairs(f, size)
    ensures InnerPairs(f, size) == 0 ==> Decode(BlockEncode(f, size)) == f
    decreases |f|
  {
    if |f| <= size {
      OneBlockDecodes(f);
    } else {
      OneBlockDecodes(f[..size]);
      BlockDecodeLength(f[size..], size);
      BlockwiseDecode(f, size);
      if InnerPairs(f, size) == 0 {
        assert f[..size] + f[size..] == f;
      }
    }
  }

  /**
   * ASCII round trip (section 3.1.1.1 of RFC 959): what is uploaded block by block and read back
   * line by line is the file again exactly when no block contains a CR LF pair.
   */
  lemma UploadRoundTrip(f: seq<byte>, size: nat)
    requires size > 0
    ensures Flatten(Lines(BlockEncode(f, size))) == f <==> InnerPairs(f, size) == 0
  {
    LinesAreDecode(BlockEncode(f, size));
    BlockDecodeLength(f, size);
  }

  lemma {:induction false} PairsAppend(a: seq<byte>, b: seq<byte>)
    ensures Pairs(a) + Pairs(b) <= Pairs(a + b)
  {
    if a == [] {
      assert a + b == b;
    } else {
      assert (a + b)[1..] == a[1..] + b;
      PairsAppend(a[1..], b);
      if |a| == 1 {
        assert a[1..] + b == b;
      }
    }
  }

  /** In particular every file without CR LF survives, whatever the block size. */
  lemma {:induction false} NoPairsNoInnerPairs(f: seq<byte>, size: nat)
    requires size > 0 && Pairs(f) == 0
    ensures InnerPairs(f, size) == 0
    decreases |f|
  {
    if |f| > size {
      assert f == f[..size] + f[size..];
      PairsAppend(f[..size], f[size..]);
      NoPairsNoInnerPairs(f[size..], size);
    }
  }

  // ---------- line lengths on the wire ----------

  /** AllFit with k octets of the current line already seen. */
  predicate FitFrom(k: nat, s: seq<byte>, max: nat)
    decreases |s|
  {
    if s == [] then k + 2 <= max
    else if s[0] == LF then k + 2 <= max && FitFrom(0, s[1..], max)
    else FitFrom(k + 1, s[1..], max)
  }

  lemma {:induction false} FitFromWithoutLF(k: nat, a: seq<byte>, b: seq<byte>, max: nat)
    requires LF !in a
    ensures FitFrom(k, a + b, max) == FitFrom(k + |a|, b, max)
    decreases |a|
  {
    if a == [] {
      assert a + b == b;
    } else {
      assert (a + b)[1..] == a[1..] + b;
      FitFromWithoutLF(k + 1, a[1..], b, max);
    }
  }

  lemma {:induction false} FitFromIsAllFit(s: seq<byte>, max: nat)
    ensures FitFrom(0, s, max) == AllFit(s, max)
    decreases |s|
  {
    var n := ContentLen(s);
    assert s == s[..n] + s[n..];
    FitFromWithoutLF(0, s[..n], s[n..], max);
    if n < |s| {
      assert s[n..][1..] == s[n + 1..];
      FitFromIsAllFit(s[n + 1..], max);
    } else if s != [] {
      FitFromIsAllFit(s[LineEnd(s)..], max);
    }
  }

  lemma {:induction false} FitFromEncode(k: nat, last: byte, s: seq<byte>, rest: seq<byte>, wire: seq<byte>, max: nat)
    requires FitFrom(k, s + rest, max)
    requires forall j: nat | FitFrom(j, rest, max) :: FitFrom(j, wire, max + 1)
    ensures FitFrom(k, Encode(last, s) + wire, max + 1)
    decreases |s|
  {
    if s == [] {
      assert s + rest == rest && Encode(last, s) + wire == wire;
    } else {
      assert (s + rest)[1..] == s[1..] + rest;
      var tail := Encode(s[0], s[1..]) + wire;
      var k' := if s[0] == LF then 0 else k + 1;
      FitFromEncode(k', s[0], s[1..], rest, wire, max);
      if s[0] == LF && last != CR {
        assert Encode(last, s) + wire == [CR] + ([LF] + tail);
        assert ([CR] + ([LF] + tail))[1..] == [LF] + tail;
        assert ([LF] + tail)[1..] == tail;
      } else {
        assert Encode(last, s) + wire == [s[0]] + tail;
        assert ([s[0]] + tail)[1..] == tail;
      }
    }
  }

  lemma {:induction false} FitFromBlockEncode(k: nat, f: seq<byte>, size: nat, max: nat)
    requires size > 0 && FitFrom(k, f, max)
    ensures FitFrom(k, BlockEncode(f, size), max + 1)
    decreases |f|
  {
    if |f| <= size {
      assert f + [] == f && Encode(0, f) + [] == Encode(0, f);
      FitFromEncode(k, 0, f, [], [], max);
    } else {
      var a, b := f[..size], f[size..];
      assert f == a + b;
      forall j: nat | FitFrom(j, b, max) ensures FitFrom(j, BlockEncode(b, size), max + 1) {
        FitFromBlockEncode(j, b, size, max);
      }
      FitFromEncode(k, 0, a, b, BlockEncode(b, size), max);
    }
  }

  /** A file whose lines fit a buffer of max octets goes on the wire with lines that fit max + 1. */
  lemma UploadLinesFit(f: seq<byte>, size: nat, max: nat)
    requires size > 0 && AllFit(f, max)
    ensures AllFit(BlockEncode(f, size), max + 1)
  {
    FitFromIsAllFit(f, max);
    FitFromBlockEncode(0, f, size, max);
    FitFromIsAllFit(BlockEncode(f, size), max + 1);
  }
}
