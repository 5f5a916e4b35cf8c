/** Pipes (kernel/pipe.c): a byte ring filled and emptied in contiguous chunks. */
module Pipe {
  import opened Bits
  import opened Seqs
  import Queue

  const ERR_FAIL := -1
  const PIPE_MIN_SIZE: nat := 4
  const PIPE_MAX_SIZE: nat := 32768

  type byte = x: nat | x < 256

  function Min(a: nat, b: nat): nat {
    if a < b then a else b
  }

  function Clamped(size: nat): nat {
    if size < PIPE_MIN_SIZE then PIPE_MIN_SIZE else if size > PIPE_MAX_SIZE then PIPE_MAX_SIZE else size
  }

  /** A pipe holds at least the bytes asked for, less than twice as many, and between 4 and 32768. */
  lemma SizeFacts(size: nat)
    ensures var n := CeilPow2(Clamped(size));
      && 4 <= n <= 32768 && (4 <= size <= 32768 ==> size <= n < 2 * size)
      && (size < 4 ==> n == 4) && (size > 32768 ==> n == 32768)
  {
    var c := Clamped(size);
    assert Pow2(5) == 32 && Pow2(10) == 32 * Pow2(5) && Pow2(15) == 32 * Pow2(10);
    CeilPow2Bounds(c);
    CeilPow2AtMost(c, 15);
    if size < 4 { CeilPow2AtMost(c, 2); }
  }

  /** The stored bytes, oldest first. */
  ghost function Stored(b: seq<byte>, head: nat, used: nat): (s: seq<byte>)
    requires head < |b| && used <= |b|
    ensures |s| == used
  {
    seq(used, i requires 0 <= i < used => b[Queue.Slot(head, i, |b|)])
  }

  /** The part of `data` that fits into `room` places. */
  function Fitting(data: seq<byte>, room: nat): seq<byte> {
    data[..Min(|data|, room)]
  }

  lemma SliceMore(s: seq<byte>, a: seq<byte>, from: nat, n: nat, k: nat)
    requires from + n + k <= |a|
    ensures s + a[from..from + n] + a[from + n..from + n + k] == s + a[from..from + n + k]
  {
  }

  lemma FittingSlice(a: seq<byte>, from: nat, n: nat, room: nat)
    requires from + n <= |a|
    ensures Fitting(a[from..from + n], room) == a[from..from + Min(n, room)]
  {
  }

  /** A contiguous chunk at the head is a prefix of the stored bytes. */
  lemma ReadChunk(b: seq<byte>, head: nat, used: nat, k: nat)
    requires head < |b| && used <= |b| && k <= used && head + k <= |b|
    ensures b[head..head + k] == Stored(b, head, used)[..k]
    ensures Stored(b, Queue.Slot(head, k, |b|), used - k) == Stored(b, head, used)[k..]
  {
  }

  /** A contiguous chunk written at the tail is appended to the stored bytes. */
  lemma WriteChunk(b: seq<byte>, head: nat, used: nat, data: seq<byte>)
    requires head < |b| && used + |data| <= |b| && Queue.Slot(head, used, |b|) + |data| <= |b|
    ensures Stored(Overwrite(b, Queue.Slot(head, used, |b|), data), head, used + |data|) == Stored(b, head, used) + data
  {
  }

  class PipeObject {
    var buf: array<byte>
    var mask: nat
    var head: nat
    var tail: nat
    var used: nat

    ghost predicate Valid()
      reads this
    {
      && mask > 0 && buf.Length == mask + 1 && IsPowerOf2(mask + 1)
      && head <= mask && used <= mask + 1 && tail == Queue.Slot(head, used, mask + 1)
    }

    ghost function Contents(): (s: seq<byte>)
      requires Valid()
      reads this, buf
      ensures |s| == used <= mask + 1
    {
      Stored(buf[..], head, used)
    }

    /** `mo_pipe_create` with successful allocations. */
    constructor (size: nat)
      requires size < 65536
      ensures Valid() && fresh(buf) && Contents() == []
      ensures mask + 1 == CeilPow2(Clamped(size)) && 4 <= mask + 1 <= 32768
      ensures 4 <= size <= 32768 ==> size <= mask + 1 < 2 * size
      ensures size < 4 ==> mask + 1 == 4
      ensures size > 32768 ==> mask + 1 == 32768
    {
      hide CeilPow2, IsPowerOf2;
      var n := size;
      if n < PIPE_MIN_SIZE {
        n := PIPE_MIN_SIZE;
      }
      if n > PIPE_MAX_SIZE {
        n := PIPE_MAX_SIZE;
      }
      SizeFacts(size);
      Queue.RingSizeFacts(n);
      assert n == Clamped(size) <= TWO31;
      if !IsPowerOf2(n) {
        n := NextPowerOf2(n);
      }
      buf := new byte[n];
      mask := n - 1;
      head, tail, used := 0, 0, 0;
    }

    /** One iteration of `pipe_bulk_read`: a chunk that does not cross the end of the buffer. */
    method ReadContiguous(dst: array<byte>, at: nat, want: nat) returns (k: nat)
      requires Valid() && dst != buf && 0 < want <= used && at + want <= dst.Length
      modifies this`head, this`used, dst
      ensures Valid() && 0 < k <= want && used == old(used) - k
      ensures dst[..] == Overwrite(old(dst[..]), at, old(Contents())[..k]) && Contents() == old(Contents())[k..]
    {
      hide Stored, And, IsPowerOf2, Overwrite;
      k := Min(want, mask + 1 - head);
      ReadChunk(buf[..], head, used, k);
      Queue.MaskWraps(head + k, mask + 1);
      CopyBytes(dst, at, buf, head, k);
      head := And(head + k, mask);
      used := used - k;
    }

    /** `pipe_bulk_read`: takes as many bytes as wanted and available, in order. */
    method BulkRead(dst: array<byte>, at: nat, maxBytes: nat) returns (n: nat)
      requires Valid() && dst != buf && at + maxBytes <= dst.Length
      modifies this`head, this`used, dst
      ensures Valid() && n == Min(maxBytes, old(used))
      ensures dst[..] == Overwrite(old(dst[..]), at, Fitting(old(Contents()), maxBytes)) && Contents() == old(Contents())[n..]
    {
      hide Stored, And, IsPowerOf2, Overwrite;
      n := 0;
      var toRead := Min(maxBytes, used);
      ghost var s, d := Contents(), dst[..];
      OverwriteNothing(d, at);
      while n < toRead
        invariant Valid() && n <= toRead && used == |s| - n
        invariant dst[..] == Overwrite(d, at, s[..n])
        invariant Contents() == s[n..]
      {
        var k := ReadContiguous(dst, at + n, toRead - n);
        OverwriteTwice(d, at, s[..n], s[n..][..k]);
        assert s[..n] + s[n..][..k] == s[..n + k];
        n := n + k;
      }
    }

    /** One iteration of `pipe_bulk_write`. */
    method WriteContiguous(src: array<byte>, from: nat, left: nat) returns (k: nat)
      requires Valid() && src != buf && 0 < left <= mask + 1 - used && from + left <= src.Length
      modifies this`tail, this`used, buf
      ensures Valid() && 0 < k <= left && used == old(used) + k
      ensures Contents() == old(Contents()) + src[from..from + k]
    {
      hide Stored, And, IsPowerOf2, Overwrite;
      k := Min(left, mask + 1 - tail);
      WriteChunk(buf[..], head, used, src[from..from + k]);
      Queue.MaskWraps(tail + k, mask + 1);
      CopyBytes(buf, tail, src, from, k);
      tail := And(tail + k, mask);
      used := used + k;
    }

    /** `pipe_bulk_write`: appends as many bytes as offered and as fit, in order. */
    method BulkWrite(src: array<byte>, from: nat, maxBytes: nat) returns (n: nat)
      requires Valid() && src != buf && from + maxBytes <= src.Length
      modifies this`tail, this`used, buf
      ensures Valid() && n == Min(maxBytes, old(mask + 1 - used))
      ensures Contents() == old(Contents()) + Fitting(src[from..from + maxBytes], old(mask + 1 - used))
    {
      hide Stored, And, IsPowerOf2;
      n := 0;
      var toWrite := Min(maxBytes, mask + 1 - used);
      ghost var s, a := Contents(), src[..];
      assert s == s + a[from..from];
      while n < toWrite
        invariant Valid() && n <= toWrite && used == |s| + n && src[..] == a
        invariant Contents() == s + a[from..from + n]
      {
        var k := WriteContiguous(src, from + n, toWrite - n);
        SliceMore(s, a, from, n, k);
        n := n + k;
      }
      assert src[from..from + maxBytes] == src[..][from..from + maxBytes];
      FittingSlice(a, from, maxBytes, old(mask + 1 - used));
    }

    /** `mo_pipe_flush`. */
    method Flush()
      requires Valid()
      modifies this`head, this`tail, this`used
      ensures Valid() && Contents() == []
    {
      head, tail, used := 0, 0, 0;
    }

    /** `mo_pipe_nbread`. */
    method NbRead(dst: array?<byte>, len: nat) returns (r: int)
      requires Valid() && dst != buf && (dst != null ==> len <= dst.Length)
      modifies this`head, this`used, dst
      ensures Valid()
      ensures dst == null || len == 0 ==> r == ERR_FAIL && Contents() == old(Contents())
      ensures dst != null && len > 0 ==>
        && r == Min(len, old(used)) && Contents() == old(Contents())[r..]
        && dst[..] == old(Contents())[..r] + old(dst[r..])
    {
      if dst == null || len == 0 {
        return ERR_FAIL;
      }
      r := BulkRead(dst, 0, len);
    }

    /** `mo_pipe_nbwrite`. */
    method NbWrite(src: array?<byte>, len: nat) returns (r: int)
      requires Valid() && src != buf && (src != null ==> len <= src.Length)
      modifies this`tail, this`used, buf
      ensures Valid()
      ensures src == null || len == 0 ==> r == ERR_FAIL && Contents() == old(Contents())
      ensures src != null && len > 0 ==>
        r == Min(len, old(mask + 1 - used)) && Contents() == old(Contents()) + src[..r]
    {
      if src == null || len == 0 {
        return ERR_FAIL;
      }
      r := BulkWrite(src, 0, len);
    }
  }

  /** The bytes moved by one `memcpy` between different buffers. */
  method CopyBytes(dst: array<byte>, at: nat, src: array<byte>, from: nat, n: nat)
    requires dst != src && at + n <= dst.Length && from + n <= src.Length
    modifies dst
    ensures dst[..] == Overwrite(old(dst[..]), at, src[from..from + n])
  {
    forall i | 0 <= i < n {
      dst[at + i] := src[from + i];
    }
  }
}
