/** Sequence operations the code performs on buffers. */
module Seqs {

  /** `b` with `data` written at index `at`. */
  function Overwrite<T>(b: seq<T>, at: nat, data: seq<T>): seq<T>
    requires at + |data| <= |b|
  {
    b[..at] + data + b[at + |data|..]
  }

  lemma OverwriteNothing<T>(b: seq<T>, at: nat)
    requires at <= |b|
    ensures Overwrite(b, at, []) == b
  {
  }

  lemma OverwriteTwice<T>(b: seq<T>, at: nat, x: seq<T>, y: seq<T>)
    requires at + |x| + |y| <= |b|
    ensures Overwrite(Overwrite(b, at, x), at + |x|, y) == Overwrite(b, at, x + y)
  {
  }

  lemma OverwriteOne<T>(b: seq<T>, at: nat, x: seq<T>, c: T)
    requires at + |x| < |b|
    ensures Overwrite(b, at, x)[at + |x| := c] == Overwrite(b, at, x + [c])
  {
  }

  function Reversed<T>(s: seq<T>): (r: seq<T>)
    ensures |r| == |s|
  {
    seq(|s|, i requires 0 <= i < |s| => s[|s| - 1 - i])
  }

  lemma ReversedTwice<T>(s: seq<T>)
    ensures Reversed(Reversed(s)) == s
  {
  }

  lemma ReversedConcat<T>(s: seq<T>, t: seq<T>)
    ensures Reversed(s + t) == Reversed(t) + Reversed(s)
  {
  }
}
