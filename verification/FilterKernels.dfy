/** The bitmap kernels of the loader's filter, run by a pool of threads over ranges of bitmap bytes. */
module FilterKernels {
  import opened Bags
  import opened Bits
  import opened Bitmaps
  import opened Pages

  // FilterThreadPool::begin_idx.

  /** Thread t gets the tasks BeginIdx(t) up to BeginIdx(t + 1). */
  function BeginIdx(tasks: nat, threads: nat, t: nat): nat
    requires threads > 0
  {
    t * (tasks / threads) + (if t < tasks % threads then t else tasks % threads)
  }

  /** The ranges lie one behind the other, cover all tasks, and differ by at most one in size. */
  lemma RangesPartition(tasks: nat, threads: nat, t: nat)
    requires 0 < threads && t < threads
    ensures BeginIdx(tasks, threads, 0) == 0 && BeginIdx(tasks, threads, threads) == tasks
    ensures BeginIdx(tasks, threads, t + 1) - BeginIdx(tasks, threads, t)
         == tasks / threads + (if t < tasks % threads then 1 else 0)
  {
    assert (t + 1) * (tasks / threads) == t * (tasks / threads) + tasks / threads;
    assert threads * (tasks / threads) + tasks % threads == tasks;
  }

  lemma {:induction false} BeginMonotone(tasks: nat, threads: nat, t: nat, u: nat)
    requires 0 < threads && t <= u <= threads
    ensures BeginIdx(tasks, threads, t) <= BeginIdx(tasks, threads, u) <= tasks
    decreases threads - u
  {
    RangesPartition(tasks, threads, 0);
    if u < threads {
      RangesPartition(tasks, threads, u);
      BeginMonotone(tasks, threads, t, u + 1);
    }
    BeginUp(tasks, threads, t, u);
  }

  lemma {:induction false} BeginUp(tasks: nat, threads: nat, t: nat, u: nat)
    requires 0 < threads && t <= u <= threads
    ensures BeginIdx(tasks, threads, t) <= BeginIdx(tasks, threads, u)
    decreases u - t
  {
    if t < u {
      hide BeginIdx;
      RangesPartition(tasks, threads, u - 1);
      BeginUp(tasks, threads, t, u - 1);
    }
  }

  /** No byte belongs to two threads: a byte is in at most one range, and in at least one. */
  lemma {:induction false} OneOwner(tasks: nat, threads: nat, i: nat, n: nat) returns (t: nat)
    requires 0 < threads && n <= threads && i < BeginIdx(tasks, threads, n)
    ensures t < n && BeginIdx(tasks, threads, t) <= i < BeginIdx(tasks, threads, t + 1)
    ensures forall u: nat :: u < threads && BeginIdx(tasks, threads, u) <= i < BeginIdx(tasks, threads, u + 1) ==>
      u == t
  {
    RangesPartition(tasks, threads, 0);
    if n > 0 && i >= BeginIdx(tasks, threads, n - 1) {
      t := n - 1;
    } else {
      t := OneOwner(tasks, threads, i, n - 1);
    }
    forall u: nat | u < threads && BeginIdx(tasks, threads, u) <= i < BeginIdx(tasks, threads, u + 1) ensures u == t {
      if u < t { BeginUp(tasks, threads, u + 1, t); }
      if t < u { BeginUp(tasks, threads, t + 1, u); }
    }
  }

  // Kernels.

  lemma {:induction false} AndMask(x: nat, k: nat)
    ensures And(x, Pow2(k)) == if Bit(x, k) then Pow2(k) else 0
    decreases k
  {
    if k > 0 {
      AndMask(x / 2, k - 1);
      assert Pow2(k) / 2 == Pow2(k - 1) && Pow2(k) % 2 == 0;
    } else {
      AndZero(x / 2);
    }
  }

  /** What row k of a byte contributes: its null bit and its test, at place k. */
  function RowMask(bits: U8, k: nat, test: bool): nat {
    And(And(bits, Pow2(k)), if test then Pow2(k) else 0)
  }

  lemma RowMaskIs(bits: U8, k: nat, test: bool)
    ensures RowMask(bits, k, test) == if Bit(bits, k) && test then Pow2(k) else 0
  {
    AndMask(bits, k);
    if Bit(bits, k) {
      AndMask(Pow2(k), k);
      Pow2Bit(k, k);
      AndZero(Pow2(k));
    } else {
      AndZero(if test then Pow2(k) else 0);
    }
  }

  /** One row of a comparison kernel. */
  method KernelRow(bitmap: seq<U8>, test: nat -> bool, output: array<U8>, i: nat)
    requires |bitmap| == output.Length && i / 8 < |bitmap|
    modifies output
    ensures output[..] == if TestBit(bitmap, i) && test(i) then SetBit(old(output[..]), i) else old(output[..])
  {
    var b, k := i / 8, i % 8;
    RowMaskIs(bitmap[b], k, test(i));
    TestIsBit(bitmap, i);
    SmallPow2(k);
    OrBound(8, output[b], RowMask(bitmap[b], k, test(i)));
    OrZero(output[b]);
    hide Or, RowMask, Bit, TestBit;
    output[b] := Or(output[b], RowMask(bitmap[b], k, test(i)));
  }

  ghost predicate Progressed(output: seq<U8>, bitmap: seq<U8>, test: nat -> bool, done: seq<bool>) {
    && BitmapSize(|done|) == |output| == |bitmap|
    && forall i: nat :: i < |done| ==> TestBit(output, i) == (done[i] && TestBit(bitmap, i) && test(i))
  }

  lemma RowProgressed(output: seq<U8>, bitmap: seq<U8>, test: nat -> bool, done: seq<bool>, i: nat)
    requires Progressed(output, bitmap, test, done) && i < |done|
    ensures i / 8 < |bitmap|
    ensures Progressed(if TestBit(bitmap, i)
      && test(i) then SetBit(output, i) else output, bitmap, test, done[i := true])
  {
    hide TestBit, SetBit;
    forall j: nat | j < |done| ensures TestBit(SetBit(output, i), j) == (i == j || TestBit(output, j)) {
      SetBitLaw(output, i, j);
    }
  }

  /** Rows at which thread t starts and, if there are that many, ends. */
  function RowBegin(n: nat, threads: nat, t: nat): nat
    requires threads > 0
  {
    var i := 8 * BeginIdx(BitmapSize(n), threads, t);
    if i < n then i else n
  }

  lemma NothingMarked(output: seq<U8>, bitmap: seq<U8>, test: nat -> bool, done: seq<bool>)
    requires BitmapSize(|done|) == |output| == |bitmap| && (forall b :: 0 <= b < |output| ==> output[b] == 0)
    requires forall i :: 0 <= i < |done| ==> !done[i]
    ensures Progressed(output, bitmap, test, done)
  {
    forall i: nat | i < |done| ensures !TestBit(output, i) {
      TestIsBit(output, i);
      ZeroBit(i % 8);
    }
  }

  /** Thread t has handled the rows of its range below pos[t]. */
  ghost predicate Handled(n: nat, threads: nat, pos: seq<nat>, done: seq<bool>)
    requires threads > 0
  {
    && |pos| == threads && |done| == n
    && (forall t :: 0 <= t < threads ==> RowBegin(n, threads, t) <= pos[t] <= n)
    && (forall t, i :: 0 <= t < threads && RowBegin(n, threads, t) <= i < pos[t] ==> done[i])
  }

  lemma HandledNext(n: nat, threads: nat, pos: seq<nat>, done: seq<bool>, t: nat)
    requires threads > 0 && Handled(n, threads, pos, done) && t < threads && pos[t] < RowBegin(n, threads, t + 1)
    ensures pos[t] < n && Handled(n, threads, pos[t := pos[t] + 1], done[pos[t] := true])
  {
    hide BeginIdx, BitmapSize;
    assert RowBegin(n, threads, t + 1) <= n;
    hide RowBegin;
  }

  /** When every thread has reached the end of its range, every row has been handled. */
  lemma AllHandled(n: nat, threads: nat, pos: seq<nat>, done: seq<bool>)
    requires threads > 0 && Handled(n, threads, pos, done)
    requires forall t :: 0 <= t < threads ==> RowBegin(n, threads, t + 1) <= pos[t]
    ensures forall i :: 0 <= i < n ==> done[i]
  {
    forall i | 0 <= i < n ensures done[i] {
      RangesPartition(BitmapSize(n), threads, 0);
      var t := OneOwner(BitmapSize(n), threads, i / 8, threads);
      hide BeginIdx;
      assert RowBegin(n, threads, t) <= i < pos[t];
    }
  }

  ghost function RowsLeft(pos: seq<nat>, n: nat): seq<nat> {
    seq(|pos|, (t: int) requires 0 <= t < |pos| => if pos[t] <= n then n - pos[t] else 0)
  }

  lemma RowsLeftDrops(pos: seq<nat>, n: nat, t: nat)
    requires t < |pos| && pos[t] < n
    ensures Total(RowsLeft(pos[t := pos[t] + 1], n)) == Total(RowsLeft(pos, n)) - 1
  {
    TotalDrops(RowsLeft(pos, n), t);
    assert RowsLeft(pos[t := pos[t] + 1], n) == RowsLeft(pos, n)[t := n - pos[t] - 1];
  }

  /** A comparison kernel under any schedule: any thread with rows left in its byte range handles its next row. */
  method RunKernel(bitmap: seq<U8>, test: nat -> bool, n: nat, threads: nat) returns (ret: seq<U8>)
    requires threads > 0 && |bitmap| == BitmapSize(n)
    ensures |ret| == |bitmap| && forall i: nat :: i < n ==> TestBit(ret, i) == (TestBit(bitmap, i) && test(i))
  {
    hide TestBit, SetBit, RowBegin, BeginIdx, Progressed, Handled, Total, RowsLeft;
    var output := new U8[|bitmap|](i => 0);
    var pos: seq<nat> := seq(threads, (t: int) requires 0 <= t < threads => RowBegin(n, threads, t));
    ghost var done := seq(n, i => false);
    NothingMarked(output[..], bitmap, test, done);
    NothingHandled(n, threads, pos, done);
    while exists t :: 0 <= t < threads && pos[t] < RowBegin(n, threads, t + 1)
      invariant output.Length == |bitmap| && fresh(output) && |pos| == threads && |done| == n
      invariant Progressed(output[..], bitmap, test, done) && Handled(n, threads, pos, done)
      decreases Total(RowsLeft(pos, n))
    {
      var t :| 0 <= t < threads && pos[t] < RowBegin(n, threads, t + 1);
      var i := pos[t];
      HandledNext(n, threads, pos, done, t);
      RowProgressed(output[..], bitmap, test, done, i);
      RowsLeftDrops(pos, n, t);
      KernelRow(bitmap, test, output, i);
      done, pos := done[i := true], pos[t := i + 1];
    }
    ret := output[..];
    AllHandled(n, threads, pos, done);
    AllMarked(ret, bitmap, test, done);
  }

  lemma NothingHandled(n: nat, threads: nat, pos: seq<nat>, done: seq<bool>)
    requires threads > 0 && |pos| == threads && |done| == n
    requires forall t :: 0 <= t < threads ==> pos[t] == RowBegin(n, threads, t)
    ensures Handled(n, threads, pos, done)
  {
    hide BeginIdx, BitmapSize;
  }

  lemma AllMarked(output: seq<U8>, bitmap: seq<U8>, test: nat -> bool, done: seq<bool>)
    requires Progressed(output, bitmap, test, done) && forall i :: 0 <= i < |done| ==> done[i]
    ensures |output| == |bitmap| == BitmapSize(|done|)
    ensures forall i: nat :: i < |done| ==> TestBit(output, i) == (TestBit(bitmap, i) && test(i))
  {
    hide TestBit;
  }

  // bitmap_not, bitmap_and, bitmap_or: the threads' byte ranges, one after the other.

  function NotByte(b: U8): U8 {
    WordSizes();
    Not(8, b)
  }

  function AndByte(a: U8, b: U8): U8 {
    WordSizes();
    AndBound(8, a, b);
    And(a, b)
  }

  function OrByte(a: U8, b: U8): U8 {
    WordSizes();
    OrBound(8, a, b);
    Or(a, b)
  }

  method BitmapNot(bitmap: seq<U8>, threads: nat) returns (ret: seq<U8>)
    requires threads > 0
    ensures |ret| == |bitmap| && forall b :: 0 <= b < |ret| ==> ret[b] == NotByte(bitmap[b])
  {
    hide BeginIdx, NotByte;
    var output := new U8[|bitmap|](i requires 0 <= i < |bitmap| => bitmap[i]);
    RangesPartition(|bitmap|, threads, 0);
    for t := 0 to threads
      invariant forall b :: 0 <= b < output.Length ==>
        output[b] == if b < BeginIdx(|bitmap|, threads, t) then NotByte(bitmap[b]) else bitmap[b]
    {
      BeginMonotone(|bitmap|, threads, t, t + 1);
      for i := BeginIdx(|bitmap|, threads, t) to BeginIdx(|bitmap|, threads, t + 1)
        invariant forall b :: 0 <= b < output.Length ==> output[b] == if b < i then NotByte(bitmap[b]) else bitmap[b]
      {
        output[i] := NotByte(output[i]);
      }
    }
    ret := output[..];
  }

  method BitmapAnd(lhs: seq<U8>, rhs: seq<U8>, threads: nat) returns (ret: seq<U8>)
    requires threads > 0 && |lhs| == |rhs|
    ensures |ret| == |lhs| && forall b :: 0 <= b < |ret| ==> ret[b] == AndByte(lhs[b], rhs[b])
  {
    hide BeginIdx, AndByte;
    var output := new U8[|lhs|](i => 0);
    RangesPartition(|lhs|, threads, 0);
    for t := 0 to threads
      invariant forall b :: 0 <= b < output.Length && b < BeginIdx(|lhs|, threads, t) ==>
        output[b] == AndByte(lhs[b], rhs[b])
    {
      BeginMonotone(|lhs|, threads, t, t + 1);
      for i := BeginIdx(|lhs|, threads, t) to BeginIdx(|lhs|, threads, t + 1)
        invariant forall b :: 0 <= b < output.Length && b < i ==> output[b] == AndByte(lhs[b], rhs[b])
      {
        output[i] := AndByte(lhs[i], rhs[i]);
      }
    }
    ret := output[..];
  }

  method BitmapOr(lhs: seq<U8>, rhs: seq<U8>, threads: nat) returns (ret: seq<U8>)
    requires threads > 0 && |lhs| == |rhs|
    ensures |ret| == |lhs| && forall b :: 0 <= b < |ret| ==> ret[b] == OrByte(lhs[b], rhs[b])
  {
    hide BeginIdx, OrByte;
    var output := new U8[|lhs|](i => 0);
    RangesPartition(|lhs|, threads, 0);
    for t := 0 to threads
      invariant forall b :: 0 <= b < output.Length && b < BeginIdx(|lhs|, threads, t) ==>
        output[b] == OrByte(lhs[b], rhs[b])
    {
      BeginMonotone(|lhs|, threads, t, t + 1);
      for i := BeginIdx(|lhs|, threads, t) to BeginIdx(|lhs|, threads, t + 1)
        invariant forall b :: 0 <= b < output.Length && b < i ==> output[b] == OrByte(lhs[b], rhs[b])
      {
        output[i] := OrByte(lhs[i], rhs[i]);
      }
    }
    ret := output[..];
  }

  /** On bitmaps of rows the byte operations are negation, conjunction and disjunction. */
  lemma ByteOperations(a: seq<U8>, b: seq<U8>, i: nat)
    requires i / 8 < |a| == |b|
    ensures Bit(NotByte(a[i / 8]), i % 8) == !TestBit(a, i)
    ensures Bit(AndByte(a[i / 8], b[i / 8]), i % 8) == (TestBit(a, i) && TestBit(b, i))
    ensures Bit(OrByte(a[i / 8], b[i / 8]), i % 8) == (TestBit(a, i) || TestBit(b, i))
  {
    WordSizes();
    TestIsBit(a, i);
    TestIsBit(b, i);
    NotBit(8, a[i / 8], i % 8);
    AndBit(a[i / 8], b[i / 8], i % 8);
    OrBit(a[i / 8], b[i / 8], i % 8);
  }
}
