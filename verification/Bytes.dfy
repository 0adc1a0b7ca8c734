/** Octets, the two line-end octets, and a few facts about sequences that every codec here needs. */
module Bytes {

  type byte = b: int | 0 <= b < 256

  const NUL: byte := 0
  const LF: byte := 10
  const CR: byte := 13
  const DIGIT0: byte := 48
  const DIGIT9: byte := 57

  predicate IsDigit(b: byte) {
    DIGIT0 <= b <= DIGIT9
  }

  function Flatten<T>(parts: seq<seq<T>>): (s: seq<T>) {
    if parts == [] then [] else parts[0] + Flatten(parts[1..])
  }

  lemma {:induction false} FlattenAppend<T>(a: seq<seq<T>>, b: seq<seq<T>>)
    ensures Flatten(a + b) == Flatten(a) + Flatten(b)
  {
    if a == [] {
      assert a + b == b;
    } else {
      assert (a + b)[1..] == a[1..] + b;
      FlattenAppend(a[1..], b);
    }
  }

  lemma SliceOfSlice<T>(a: seq<T>, i: nat, j: nat, k: nat)
    requires i + k <= j <= |a|
    ensures a[i..j][..k] == a[i..i + k]
    ensures a[i..j][k..] == a[i + k..j]
  {
  }

  lemma PrefixGrows<T>(a: seq<T>, k: nat)
    requires k < |a|
    ensures a[..k + 1] == a[..k] + [a[k]]
  {
  }

  lemma PrefixOfPrefix<T>(a: seq<T>, i: nat, k: nat)
    requires k <= i <= |a|
    ensures a[..i][..k] == a[..k]
  {
  }

  lemma ConcatAssociative<T>(a: seq<T>, b: seq<T>, c: seq<T>)
    ensures (a + b) + c == a + (b + c)
  {
  }

  lemma NothingBefore<T>(a: seq<T>)
    ensures [] + a == a
  {
  }

  lemma NothingBehind<T>(a: seq<T>)
    ensures a + [] == a
  {
  }

  lemma HeadMoves<T>(a: seq<T>, b: seq<T>)
    requires b != []
    ensures a + b == (a + [b[0]]) + b[1..]
  {
  }

  lemma SliceOfConcat<T>(a: seq<T>, b: seq<T>, k: nat)
    requires k <= |a|
    ensures (a + b)[..k] == a[..k] && (a + b)[k..] == a[k..] + b
  {
  }

  lemma PrefixInTwo<T>(s: seq<T>, i: nat, k: nat)
    requires i + k <= |s|
    ensures s[..i + k] == s[..i] + s[i..][..k] && s[i..][k..] == s[i + k..]
  {
  }

  /** The part of a buffer that C's string functions see: everything before the first NUL. */
  function CString(s: seq<byte>): (r: seq<byte>)
    ensures |r| <= |s| && r == s[..|r|]
    ensures NUL !in r
    ensures |r| < |s| ==> s[|r|] == NUL
  {
    if s == [] || s[0] == NUL then [] else [s[0]] + CString(s[1..])
  }

  /** What follows the terminating NUL does not matter. */
  lemma {:induction false} CStringPrefix(s: seq<byte>, t: seq<byte>)
    requires t == [] || t[0] == NUL
    ensures CString(s + t) == CString(s)
  {
    if s == [] {
      assert s + t == t;
    } else {
      assert (s + t)[1..] == s[1..] + t;
      CStringPrefix(s[1..], t);
    }
  }
}
