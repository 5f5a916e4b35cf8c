/** The power-of-two ring of lib/queue.c and include/lib/queue.h, holding pointers (0 is NULL). */
module Queue {
  import opened Bits

  const ERR_OK := 0
  const ERR_FAIL := -1
  const POINTER_SIZE: nat := 4
  const MALLOC_MAX_SIZE: nat := 0x7FFF_FFFF
  /** The largest capacity whose ring can be allocated. */
  const MAX_CAPACITY: nat := 0x1000_0000

  /** Index `i` places after `head` in a ring of `n` slots. */
  function Slot(head: nat, i: nat, n: nat): nat {
    if head + i < n then head + i else head + i - n
  }

  function Used(head: nat, tail: nat, n: nat): nat
    requires head < n
  {
    if head <= tail then tail - head else tail + n - head
  }

  /** The stored items, oldest first. */
  ghost function Items(b: seq<nat>, head: nat, tail: nat): (s: seq<nat>)
    requires head < |b| && tail < |b|
    ensures |s| == Used(head, tail, |b|)
  {
    seq(Used(head, tail, |b|), i requires 0 <= i < Used(head, tail, |b|) => b[Slot(head, i, |b|)])
  }

  lemma ModOnce(x: nat, n: nat)
    requires n > 0 && x < 2 * n
    ensures x % n == if x < n then x else x - n
  {
  }

  /** Masking advances an index around the ring. */
  lemma MaskWraps(x: nat, n: nat)
    requires IsPowerOf2(n) && x < 2 * n
    ensures And(x, n - 1) == if x < n then x else x - n
  {
    MaskIsMod(x, n);
    ModOnce(x, n);
  }

  lemma EnqueueItems(b: seq<nat>, head: nat, tail: nat, x: nat)
    requires head < |b| && tail < |b| && Slot(tail, 1, |b|) != head
    ensures Items(b[tail := x], head, Slot(tail, 1, |b|)) == Items(b, head, tail) + [x]
  {
  }

  lemma DequeueItems(b: seq<nat>, head: nat, tail: nat)
    requires head < |b| && tail < |b| && head != tail
    ensures Items(b, head, tail)[0] == b[head]
    ensures Items(b, Slot(head, 1, |b|), tail) == Items(b, head, tail)[1..]
  {
  }

  /** The capacity `queue_create` allocates for a request. */
  function RingSize(capacity: int): nat {
    CeilPow2(if capacity < 2 then 2 else capacity)
  }

  lemma RingSizeFacts(capacity: int)
    ensures var n := RingSize(capacity);
      && n >= 2 && n >= capacity && IsPowerOf2(n)
      && var c := if capacity < 2 then 2 else capacity; n < 2 * c && (IsPowerOf2(c) ==> n == c)
  {
    var c := if capacity < 2 then 2 else capacity;
    CeilPow2Bounds(c);
    if IsPowerOf2(c) {
      var k := Log2(c);
      if k > 0 { assert Pow2(k) == 2 * Pow2(k - 1); }
      CeilPow2IsLeast(c, k);
    }
  }

  class Ring {
    var buf: array<nat>
    var size: nat
    var mask: nat
    var head: nat
    var tail: nat

    ghost predicate Valid()
      reads this
    {
      && buf.Length == size && size >= 2 && IsPowerOf2(size) && mask == size - 1
      && head < size && tail < size
    }

    ghost function Contents(): (s: seq<nat>)
      requires Valid()
      reads this, buf
      ensures |s| < size
    {
      Items(buf[..], head, tail)
    }

    /** The initialisation in `queue_create`, with successful allocations. */
    constructor (capacity: int)
      requires capacity <= MAX_CAPACITY
      ensures Valid() && fresh(buf) && Contents() == [] && size == RingSize(capacity)
    {
      var c := if capacity < 2 then 2 else capacity;
      RingSizeFacts(capacity);
      if !IsPowerOf2(c) {
        c := NextPowerOf2(c);
      }
      buf := new nat[c];
      size := c;
      mask := c - 1;
      head, tail := 0, 0;
    }

    predicate IsEmpty()
      reads this
    {
      head == tail
    }

    /** `queue_count` is the length of the contents. */
    method Count() returns (n: nat)
      requires Valid()
      ensures n == |Contents()|
    {
      MaskWraps(tail + size - head, size);
      n := And(tail + size - head, mask);
    }

    /** `queue_is_full` holds at `size - 1` items. */
    method IsFull() returns (full: bool)
      requires Valid()
      ensures full <==> |Contents()| == size - 1
    {
      MaskWraps(tail + 1, size);
      full := And(tail + 1, mask) == head;
    }

    method Enqueue(x: nat) returns (err: int)
      requires Valid()
      modifies this`tail, buf
      ensures Valid()
      ensures old(|Contents()|) == size - 1 ==> err == ERR_FAIL && Contents() == old(Contents())
      ensures old(|Contents()|) < size - 1 ==> err == ERR_OK && Contents() == old(Contents()) + [x]
    {
      var full := IsFull();
      if full {
        return ERR_FAIL;
      }
      MaskWraps(tail + 1, size);
      EnqueueItems(buf[..], head, tail, x);
      ghost var b := buf[..];
      buf[tail] := x;
      assert buf[..] == b[tail := x];
      tail := And(tail + 1, mask);
      err := ERR_OK;
    }

    method Dequeue() returns (x: nat)
      requires Valid()
      modifies this`head
      ensures Valid()
      ensures old(Contents()) == [] ==> x == 0 && Contents() == []
      ensures old(Contents()) != [] ==> x == old(Contents())[0] && Contents() == old(Contents())[1..]
    {
      if IsEmpty() {
        return 0;
      }
      MaskWraps(head + 1, size);
      DequeueItems(buf[..], head, tail);
      x := buf[head];
      head := And(head + 1, mask);
    }

    method Peek() returns (x: nat)
      requires Valid()
      ensures x == if Contents() == [] then 0 else Contents()[0]
    {
      if IsEmpty() {
        return 0;
      }
      x := buf[head];
    }
  }

  /** `queue_create` on a heap with room: NULL exactly for a capacity whose ring of pointers, in bytes and
      modulo 2^32, is a size `malloc` refuses. */
  method Create(capacity: int) returns (q: Ring?)
    requires -0x8000_0000 <= capacity < TWO31
    ensures q == null <==> capacity > MAX_CAPACITY
    ensures q != null ==> q.Valid() && fresh(q) && q.Contents() == [] && q.size == RingSize(capacity)
  {
    hide IsPowerOf2, CeilPow2;
    var c := if capacity < 2 then 2 else capacity;
    RingSizeFacts(capacity);
    RingBytes(c);
    if !IsPowerOf2(c) {
      c := NextPowerOf2(c);
    }
    var bytes := c * POINTER_SIZE % TWO32;
    if bytes == 0 || bytes > MALLOC_MAX_SIZE {
      return null;
    }
    q := new Ring(capacity);
  }

  lemma HighPowers()
    ensures Pow2(28) == 0x1000_0000 && Pow2(29) == 0x2000_0000 && Pow2(30) == 0x4000_0000 && Pow2(31) == TWO31
  {
    Pow2Words();
  }

  lemma SmallRing(c: nat)
    requires 2 <= c <= MAX_CAPACITY
    ensures 2 <= CeilPow2(c) <= MAX_CAPACITY
  {
    hide CeilPow2, Pow2;
    HighPowers();
    CeilPow2Bounds(c);
    var k := Log2(CeilPow2(c));
    if k > 28 { Pow2Monotone(29, k); } else { Pow2Monotone(k, 28); }
  }

  lemma LargeRing(c: nat)
    requires MAX_CAPACITY < c < TWO31
    ensures CeilPow2(c) in {0x2000_0000, 0x4000_0000, 0x8000_0000}
  {
    hide CeilPow2, Pow2;
    HighPowers();
    CeilPow2IsLeast(c, if c <= 0x2000_0000 then 29 else if c <= 0x4000_0000 then 30 else 31);
  }

  /** The size in bytes of the ring for `c` entries is refused exactly above 2^28 entries. */
  lemma RingBytes(c: nat)
    requires 2 <= c < TWO31
    ensures var bytes := CeilPow2(c) * POINTER_SIZE % TWO32;
      bytes == 0 || bytes > MALLOC_MAX_SIZE <==> c > MAX_CAPACITY
  {
    hide CeilPow2;
    if c <= MAX_CAPACITY { SmallRing(c); } else { LargeRing(c); }
  }
}
