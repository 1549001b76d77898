/**
 Pre-allocation of guest memory: the pages of a mapping are split among a few threads,
 each of which touches every page of its slice once.
 */
module Preallocation {
  import opened Prelude

  const PAGE_SIZE: int := 4096
  const MAX_PRE_ALLOC_THREAD: int := 16

  function Pages(size: u64): nat { size / PAGE_SIZE }

  /** One thread for every 4 GiB begun, sixteen at most. */
  function Threads(size: u64): (n: nat)
    ensures 1 <= n <= MAX_PRE_ALLOC_THREAD
  {
    Min(size / 0x1_0000_0000 + 1, MAX_PRE_ALLOC_THREAD)
  }

  lemma ThreadsBySize(size: u64)
    ensures var n := Threads(size);
      (n - 1) * 0x1_0000_0000 <= size && (n < MAX_PRE_ALLOC_THREAD ==> size < n * 0x1_0000_0000)
  {
  }

  function SliceStart(size: u64, n: nat): nat { (Pages(size) / Threads(size)) * n }

  function SliceEnd(size: u64, n: nat): nat {
    if n == Threads(size) - 1 then Pages(size) else (Pages(size) / Threads(size)) * (n + 1)
  }

  predicate InSlice(size: u64, n: nat, page: int) { SliceStart(size, n) <= page < SliceEnd(size, n) }

  lemma MulMonotone(a: nat, b: nat, n: nat)
    requires a <= b
    ensures n * a <= n * b
  {
  }

  lemma SlicesOrdered(size: u64, n: nat)
    requires n < Threads(size)
    ensures SliceStart(size, n) <= SliceEnd(size, n) <= Pages(size)
    ensures n + 1 < Threads(size) ==> SliceEnd(size, n) == SliceStart(size, n + 1)
  {
    var per, t := Pages(size) / Threads(size), Threads(size);
    MulMonotone(n, n + 1, per);
    MulMonotone(n + 1, t, per);
    assert per * t <= Pages(size);
  }

  /** Every thread but the last has the same number of pages, and the last fewer than a page per thread more. */
  lemma SlicesBalanced(size: u64, n: nat)
    requires n < Threads(size)
    ensures var mine, first := SliceEnd(size, n) - SliceStart(size, n), SliceEnd(size, 0) - SliceStart(size, 0);
      && (n + 1 < Threads(size) ==> mine == first == size / PAGE_SIZE / Threads(size))
      && size / PAGE_SIZE / Threads(size) <= mine < size / PAGE_SIZE / Threads(size) + Threads(size)
  {
    var per, t := Pages(size) / Threads(size), Threads(size);
    assert per * (n + 1) == per * n + per;
    assert per * t <= Pages(size) < per * t + t;
  }

  /** Every page is in the slice of exactly one thread, and slices hold nothing but pages. */
  lemma SlicesPartition(size: u64, page: int)
    ensures 0 <= page < Pages(size) <==> exists n | 0 <= n < Threads(size) :: InSlice(size, n, page)
    ensures forall m, n | 0 <= m < n < Threads(size) :: !(InSlice(size, m, page) && InSlice(size, n, page))
  {
    forall n | 0 <= n < Threads(size) && InSlice(size, n, page) ensures 0 <= page < Pages(size) {
      SlicesOrdered(size, n);
    }
    forall m, n | 0 <= m < n < Threads(size) ensures !(InSlice(size, m, page) && InSlice(size, n, page)) {
      MulMonotone(m + 1, n, Pages(size) / Threads(size));
    }
    if 0 <= page < Pages(size) {
      var n := OwnerOf(size, page, Threads(size) - 1);
      assert InSlice(size, n, page);
    }
  }

  lemma {:induction false} OwnerOf(size: u64, page: nat, last: nat) returns (n: nat)
    requires last < Threads(size) && page < SliceEnd(size, last)
    ensures n <= last && InSlice(size, n, page)
  {
    if SliceStart(size, last) <= page {
      n := last;
    } else {
      SlicesOrdered(size, last - 1);
      n := OwnerOf(size, page, last - 1);
    }
  }

  /** The addresses a thread touches when it is not stopped: its pages in order. */
  function Touches(addr: u64, from: nat, to: nat): seq<int>
    requires from <= to
  {
    seq(to - from, k requires 0 <= k => addr + (from + k) * PAGE_SIZE)
  }

  lemma PageInside(size: u64, page: nat)
    requires page < Pages(size)
    ensures (page + 1) * PAGE_SIZE <= size && (page * PAGE_SIZE) % PAGE_SIZE == 0
  {
  }

  /** Every touched address, and the rest of its page, lies inside the mapping. */
  lemma TouchedInside(addr: u64, size: u64, n: nat)
    requires n < Threads(size)
    ensures SliceStart(size, n) <= SliceEnd(size, n)
    ensures forall a <- Touches(addr, SliceStart(size, n), SliceEnd(size, n)) ::
      addr <= a && a + PAGE_SIZE <= addr + size && (a - addr) % PAGE_SIZE == 0
  {
    SlicesOrdered(size, n);
    hide Pages, SliceStart, SliceEnd;
    forall a <- Touches(addr, SliceStart(size, n), SliceEnd(size, n))
      ensures addr <= a && a + PAGE_SIZE <= addr + size && (a - addr) % PAGE_SIZE == 0
    {
      var from := SliceStart(size, n);
      var ts := Touches(addr, from, SliceEnd(size, n));
      var k :| 0 <= k < |ts| && ts[k] == a;
      PageInside(size, from + k);
    }
  }

  /** Some thread touches address `a`. */
  ghost predicate TouchedAt(touched: seq<seq<int>>, a: int) {
    exists n, k | 0 <= n < |touched| && 0 <= k < |touched[n]| :: touched[n][k] == a
  }

  /** Whenever an address is touched it is touched here only. */
  ghost predicate TouchedOnlyAt(touched: seq<seq<int>>, n: nat, k: nat)
    requires n < |touched| && k < |touched[n]|
  {
    forall m, j | 0 <= m < |touched| && 0 <= j < |touched[m]| && touched[m][j] == touched[n][k] :: m == n && j == k
  }

  /** The address of a page of the mapping. */
  function PageAddress(addr: u64, page: nat): int { addr + page * 4096 }

  ghost predicate IsPage(addr: u64, size: u64, a: int) {
    exists page | 0 <= page < size / 4096 :: a == PageAddress(addr, page)
  }

  /** Each page of the mapping is touched at its start, once, and nothing else is touched. */
  ghost predicate EachPageOnce(addr: u64, size: u64, touched: seq<seq<int>>) {
    && (forall page | 0 <= page < size / 4096 :: TouchedAt(touched, PageAddress(addr, page)))
    && (forall n, k | 0 <= n < |touched| && 0 <= k < |touched[n]| ::
          TouchedOnlyAt(touched, n, k) && IsPage(addr, size, touched[n][k]))
  }

  ghost predicate AreTouches(addr: u64, size: u64, touched: seq<seq<int>>) {
    |touched| == Threads(size) && forall n | 0 <= n < |touched| ::
      SliceStart(size, n) <= SliceEnd(size, n) && touched[n] == Touches(addr, SliceStart(size, n), SliceEnd(size, n))
  }

  lemma PageTouched(addr: u64, size: u64, touched: seq<seq<int>>, page: nat)
    requires AreTouches(addr, size, touched) && page < Pages(size)
    ensures TouchedAt(touched, PageAddress(addr, page))
  {
    var n := OwnerOf(size, page, Threads(size) - 1);
    assert touched[n][page - SliceStart(size, n)] == addr + page * PAGE_SIZE;
  }

  /** The `k`-th touch of a thread is that of the `k`-th page of its slice. */
  lemma TouchIsPage(addr: u64, size: u64, touched: seq<seq<int>>, n: nat, k: nat)
    requires AreTouches(addr, size, touched) && n < |touched| && k < |touched[n]|
    ensures var page := SliceStart(size, n) + k;
      InSlice(size, n, page) && page < Pages(size) && touched[n][k] == PageAddress(addr, page)
  {
    SlicesOrdered(size, n);
  }

  lemma TouchedOnce(addr: u64, size: u64, touched: seq<seq<int>>, n: nat, k: nat)
    requires AreTouches(addr, size, touched) && n < |touched| && k < |touched[n]|
    ensures TouchedOnlyAt(touched, n, k)
  {
    TouchIsPage(addr, size, touched, n, k);
    forall m, j | 0 <= m < |touched| && 0 <= j < |touched[m]| && touched[m][j] == touched[n][k]
      ensures m == n && j == k
    {
      TouchIsPage(addr, size, touched, m, j);
      SlicesPartition(size, SliceStart(size, n) + k);
    }
  }

  /** The slices together touch each page of the mapping once. */
  lemma TouchesCover(addr: u64, size: u64, touched: seq<seq<int>>)
    requires AreTouches(addr, size, touched)
    ensures EachPageOnce(addr, size, touched)
  {
    hide AreTouches, TouchedAt, TouchedOnlyAt;
    forall page | 0 <= page < size / 4096 ensures TouchedAt(touched, PageAddress(addr, page)) {
      PageTouched(addr, size, touched, page);
    }
    forall n, k | 0 <= n < |touched| && 0 <= k < |touched[n]|
      ensures TouchedOnlyAt(touched, n, k) && IsPage(addr, size, touched[n][k])
    {
      TouchedOnce(addr, size, touched, n, k);
      TouchIsPage(addr, size, touched, n, k);
    }
  }

  /** The loop that plans and runs the threads; each list is what one thread touches. */
  method Preallocate(addr: u64, size: u64) returns (touched: seq<seq<int>>)
    ensures |touched| == Threads(size) && EachPageOnce(addr, size, touched)
    ensures forall n | 0 <= n < |touched| :: |touched[n]| == SliceEnd(size, n) - SliceStart(size, n)
  {
    var npage := size / PAGE_SIZE;
    var threads := size / 0x1_0000_0000 + 1;
    if threads > MAX_PRE_ALLOC_THREAD { threads := MAX_PRE_ALLOC_THREAD; }
    var per := npage / threads;
    touched := [];
    for n := 0 to threads
      invariant |touched| == n
      invariant forall m | 0 <= m < n ::
        SliceStart(size, m) <= SliceEnd(size, m) && touched[m] == Touches(addr, SliceStart(size, m), SliceEnd(size, m))
    {
      SlicesOrdered(size, n);
      var from := per * n;
      var to := if n == threads - 1 then npage else per * (n + 1);
      var mine, at := [], addr + from * PAGE_SIZE;
      for page := from to to
        invariant at == addr + page * PAGE_SIZE && mine == Touches(addr, from, page)
      {
        mine, at := mine + [at], at + PAGE_SIZE;
      }
      touched := touched + [mine];
    }
    TouchesCover(addr, size, touched);
  }
}
