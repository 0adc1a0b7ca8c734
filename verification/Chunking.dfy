/** Cutting a sequence of octets into blocks of one size, the last one possibly shorter. */
module Chunking {
  import opened Bytes

  /** A file as a block-by-block loop cuts it: blocks of `size` octets, the last one possibly shorter. */
  function Blocks(f: seq<byte>, size: nat): (r: seq<seq<byte>>)
    requires size > 0
    decreases |f|
  {
    if f == [] then []
    else if |f| <= size then [f]
    else [f[..size]] + Blocks(f[size..], size)
  }

  /** The least number of blocks of `size` octets that hold n octets: n / size rounded up. */
  function BlockCount(n: nat, size: nat): (r: nat)
    requires size > 0
    decreases n
  {
    if n == 0 then 0 else if n <= size then 1 else 1 + BlockCount(n - size, size)
  }

  lemma {:induction false} BlockCountIsCeiling(n: nat, size: nat)
    requires size > 0
    ensures BlockCount(n, size) * size >= n
    ensures n > 0 ==> (BlockCount(n, size) - 1) * size < n
    decreases n
  {
    if n > size {
      BlockCountIsCeiling(n - size, size);
      var c := BlockCount(n - size, size);
      assert (c + 1) * size == c * size + size;
      assert (c - 1) * size + size == c * size;
    }
  }

  /** A full block in front of something more is cut off as it is. */
  lemma BlocksStep(full: seq<byte>, rest: seq<byte>, size: nat)
    requires |full| == size > 0 && rest != []
    ensures Blocks(full + rest, size) == [full] + Blocks(rest, size)
  {
  }

  /** Blocks are the file; none is empty and there are ceil(|f| / size) of them ... */
  lemma {:induction false} BlocksAreFile(f: seq<byte>, size: nat)
    requires size > 0
    ensures Flatten(Blocks(f, size)) == f
    ensures |Blocks(f, size)| == BlockCount(|f|, size)
    decreases |f|
  {
    if f == [] {
    } else if |f| <= size {
      assert [f][1..] == [] && f + Flatten([]) == f;
    } else {
      BlocksAreFile(f[size..], size);
      assert Blocks(f, size)[1..] == Blocks(f[size..], size);
      assert f == f[..size] + f[size..];
    }
  }

  /** ... and all but the last are full. */
  lemma {:induction false} BlocksAreFull(f: seq<byte>, size: nat, i: nat)
    requires size > 0 && i < |Blocks(f, size)|
    ensures 0 < |Blocks(f, size)[i]| <= size
    ensures i < |Blocks(f, size)| - 1 ==> |Blocks(f, size)[i]| == size
    decreases |f|
  {
    if |f| > size && i > 0 {
      BlocksAreFull(f[size..], size, i - 1);
    }
  }
}
