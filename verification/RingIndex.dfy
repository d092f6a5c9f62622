/** The address arithmetic of `put` and `get`, on addresses as they are stored in the control block. */
module RingIndex {
  import opened Bytes
  import opened Ring

  /** Where the reader moves `exe_index`, and where it finds a body behind a header. */
  function ReaderNext(size: nat, index: nat, n: nat): int
    requires size > 0
  {
    if index + n < size then index + n else Q_CONTROL_SIZE + (index + n) % size
  }

  /** Where the writer moves `alloc_index`. */
  function WriterNext(size: nat, index: nat, n: nat): int
  {
    var endOfBufferSpace := size - index;
    if n >= endOfBufferSpace then Q_CONTROL_SIZE + (n - endOfBufferSpace) else index + n
  }

  predicate Legal(size: nat, index: nat, n: nat) {
    MIN_Q_SIZE <= size && Q_CONTROL_SIZE <= index < size && n <= size - Q_CONTROL_SIZE
  }

  lemma ModUnique(x: int, d: int, r: nat, m: nat)
    requires r < m && x == d * m + r
    ensures x % m == r
  {
    var k, r' := x / m - d, x % m;
    assert k * m == (x / m) * m - d * m == r - r';
    Multiples(k, m);
  }

  /** The reader wraps with `% size`, the writer with what is left over; both are
      ring addition modulo `size - 64`, and both are `Fwd`. */
  lemma BothAreRingAddition(size: nat, index: nat, n: nat)
    requires Legal(size, index, n)
    ensures ReaderNext(size, index, n) == WriterNext(size, index, n)
    ensures WriterNext(size, index, n)
         == Q_CONTROL_SIZE + (index - Q_CONTROL_SIZE + n) % (size - Q_CONTROL_SIZE)
    ensures WriterNext(size, index, n)
         == Q_CONTROL_SIZE + Fwd(index - Q_CONTROL_SIZE, n, size - Q_CONTROL_SIZE)
  {
    var ring := size - Q_CONTROL_SIZE;
    var x := index - Q_CONTROL_SIZE + n;
    if index + n < size {
      ModUnique(x, 0, x, ring);
    } else {
      ModUnique(index + n, 1, index + n - size, size);
      ModUnique(x, 1, x - ring, ring);
    }
  }

  predicate AllLegal(size: nat, frames: seq<nat>) {
    forall i :: 0 <= i < |frames| ==> frames[i] <= size - Q_CONTROL_SIZE
  }

  function WriterStart(size: nat, frames: seq<nat>): (r: nat)
    requires AllLegal(size, frames)
    requires MIN_Q_SIZE <= size
    ensures Q_CONTROL_SIZE <= r < size
  {
    if |frames| == 0 then Q_CONTROL_SIZE
    else WriterNext(size, WriterStart(size, frames[..|frames| - 1]), frames[|frames| - 1])
  }

  function ReaderStart(size: nat, frames: seq<nat>): int
    requires size > 0
  {
    if |frames| == 0 then Q_CONTROL_SIZE
    else
      var start := ReaderStart(size, frames[..|frames| - 1]);
      if start < 0 then start else ReaderNext(size, start, frames[|frames| - 1])
  }

  function Total(frames: seq<nat>): nat {
    if |frames| == 0 then 0 else Total(frames[..|frames| - 1]) + frames[|frames| - 1]
  }

  lemma ModStep(a: nat, n: nat, m: nat)
    requires 0 < m && n <= m
    ensures (a % m + n) % m == (a + n) % m
  {
    var d, r := a / m, a % m;
    assert a == d * m + r;
    if r + n < m {
      ModUnique(a + n, d, r + n, m);
      ModUnique(r + n, 0, r + n, m);
    } else {
      assert (d + 1) * m == d * m + m;
      ModUnique(a + n, d + 1, r + n - m, m);
      ModUnique(r + n, 1, r + n - m, m);
    }
  }

  lemma NextStart(size: nat, start: nat, total: nat, n: nat)
    requires Legal(size, start, n) && start == Q_CONTROL_SIZE + total % (size - Q_CONTROL_SIZE)
    ensures WriterNext(size, start, n) == ReaderNext(size, start, n)
         == Q_CONTROL_SIZE + (total + n) % (size - Q_CONTROL_SIZE)
  {
    BothAreRingAddition(size, start, n);
    ModStep(total, n, size - Q_CONTROL_SIZE);
  }

  /** Over any sequence of frames both processes visit the same frame starts, and
      the start after `frames` is their total size modulo the ring. */
  lemma {:induction false} SameStartsForever(size: nat, frames: seq<nat>)
    requires MIN_Q_SIZE <= size
    requires AllLegal(size, frames)
    ensures WriterStart(size, frames) == ReaderStart(size, frames)
         == Q_CONTROL_SIZE + Total(frames) % (size - Q_CONTROL_SIZE)
    decreases |frames|
  {
    if |frames| > 0 {
      var most, n := frames[..|frames| - 1], frames[|frames| - 1];
      SameStartsForever(size, most);
      NextStart(size, WriterStart(size, most), Total(most), n);
    }
  }
}
