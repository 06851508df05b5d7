/** Octets, options, histories, and the small amount of arithmetic and sequence reasoning that the
    other modules share. */
module Bytes {

  type byte = bv8

  function Min(a: int, b: int): int {
    if a <= b then a else b
  }

  datatype Option<+T> = None | Some(value: T)

  /** An offset that was moved on, brought back to the start at the end of `size` places. */
  function Wrap(size: nat, p: nat): nat {
    if p >= size then 0 else p
  }

  /** The first `n` elements of `s`, or all of it when it is shorter. */
  function Prefix<T>(s: seq<T>, n: nat): seq<T> {
    if n <= |s| then s[..n] else s
  }

  /** What is left of `s` after dropping at most `n` elements. */
  function Suffix<T>(s: seq<T>, n: nat): seq<T> {
    if n <= |s| then s[n..] else []
  }

  lemma PrefixSuffix<T>(s: seq<T>, n: nat)
    ensures Prefix(s, n) + Suffix(s, n) == s
  {
  }

  lemma Associate<T>(a: seq<T>, b: seq<T>, c: seq<T>)
    ensures a + b + c == a + (b + c)
  {
  }

  lemma FirstAndRest<T>(s: seq<T>, i: nat, j: nat)
    requires i < j <= |s|
    ensures s[i..j] == [s[i]] + s[i + 1..j]
  {
  }

  /** `dst` with `src` copied over it from offset `at`. */
  function Overlay<T>(dst: seq<T>, at: nat, src: seq<T>): (r: seq<T>)
    requires at + |src| <= |dst|
    ensures |r| == |dst|
  {
    dst[..at] + src + dst[at + |src|..]
  }

  /** `s` is `t` with some elements left out. */
  predicate IsSubsequence<T(==)>(s: seq<T>, t: seq<T>)
    decreases |t|
  {
    if s == [] then true
    else if t == [] then false
    else
      || (s[|s| - 1] == t[|t| - 1] && IsSubsequence(s[..|s| - 1], t[..|t| - 1]))
      || IsSubsequence(s, t[..|t| - 1])
  }

  lemma {:induction false} SubsequenceOfItself<T>(s: seq<T>)
    ensures IsSubsequence(s, s)
    decreases |s|
  {
    if s != [] {
      SubsequenceOfItself(s[..|s| - 1]);
    }
  }

  lemma {:induction false} SubsequencesJoin<T>(a: seq<T>, b: seq<T>, c: seq<T>, d: seq<T>)
    requires IsSubsequence(a, b) && IsSubsequence(c, d)
    ensures IsSubsequence(a + c, b + d)
    decreases |d|
  {
    if d == [] {
      assert a + c == a && b + d == b;
    } else {
      var d' := d[..|d| - 1];
      assert (b + d)[..|b + d| - 1] == b + d' && (b + d)[|b + d| - 1] == d[|d| - 1];
      if c == [] {
        SubsequencesJoin(a, b, c, d');
      } else if IsSubsequence(c, d') {
        SubsequencesJoin(a, b, c, d');
      } else {
        var c' := c[..|c| - 1];
        assert (a + c)[..|a + c| - 1] == a + c' && (a + c)[|a + c| - 1] == c[|c| - 1];
        SubsequencesJoin(a, b, c', d');
      }
    }
  }

  lemma {:induction false} SubsequencesChain<T>(a: seq<T>, b: seq<T>, c: seq<T>)
    requires IsSubsequence(a, b) && IsSubsequence(b, c)
    ensures IsSubsequence(a, c)
    decreases |c|, |b|
  {
    if a != [] {
      var c' := c[..|c| - 1];
      if IsSubsequence(b, c') {
        SubsequencesChain(a, b, c');
      } else {
        var b' := b[..|b| - 1];
        if IsSubsequence(a, b') {
          SubsequencesChain(a, b', c');
        } else {
          SubsequencesChain(a[..|a| - 1], b', c');
        }
      }
    }
  }

  /** A finite history of steps, the latest on the outside. */
  datatype Trace<+T> = Begin | After(past: Trace<T>, step: T)
}
