/**
 Allocation and release on an interval tree, proved against the plain view of a pool: a
 set of free identifiers and a set of ranges in use.
 */
module ResourcePools {
  import opened Prelude
  import opened IntervalTrees

  datatype Constraint = Constraint(size: u64, min: u64, max: u64, align: u64)

  /** `Constraint::new`: anywhere, unaligned. */
  function Anywhere(size: u64): Constraint { Constraint(size, 0, U64_MAX, 1) }

  // ---------------------------------------------------------------- the plain view

  predicate FreeIn(es: set<Entry>, a: int) {
    exists e <- es :: e.state.Free? && e.key.Has(a)
  }

  predicate FreeAt(t: Tree, a: int) { FreeIn(Entries(t), a) }

  /** Every identifier of the pool, free or in use. */
  predicate Covers(t: Tree, a: int) {
    exists e <- Entries(t) :: e.key.Has(a)
  }

  function HeldIn(es: set<Entry>): set<Entry> {
    set e <- es | !e.state.Free?
  }

  function Held(t: Tree): set<Entry> { HeldIn(Entries(t)) }

  predicate Coalesced(es: set<Entry>) {
    forall e <- es, f <- es | e.state.Free? && f.state.Free? :: e.key.max + 1 != f.key.min
  }

  predicate Disjoint(es: set<Entry>) {
    && (forall e <- es :: e.key.Proper())
    && (forall e <- es, f <- es | e != f :: !e.key.Meets(f.key))
  }

  /** A sound tree in which no two free ranges touch: each maximal free run is one node. */
  predicate Pool(t: Tree) { Valid(t) && Coalesced(Entries(t)) }

  // ---------------------------------------------------------------- tree operations, packaged

  lemma InsertSpec(t: Tree, key: Range)
    requires Valid(t) && key.Proper() && Clear(t, key)
    ensures !Blocked(t, key) && Valid(Insert(t, key))
    ensures Entries(Insert(t, key)) == Entries(t) + {Entry(key, Free)}
  {
    InsertPanics(t, key, 0, U64_MAX + 1);
    InsertWithin(t, key, 0, U64_MAX + 1);
    InsertAdds(t, key);
  }

  lemma DeleteSpec(t: Tree, key: Range)
    requires Valid(t)
    ensures Valid(Delete(t, key)) && Entries(Delete(t, key)) == Others(t, key)
  {
    DeleteWithin(t, key, 0, U64_MAX + 1);
    DeleteRemoves(t, key, 0, U64_MAX + 1);
  }

  lemma UpdateSpec(t: Tree, key: Range, from: NodeState, to: NodeState)
    requires Valid(t) && Entry(key, from) in Entries(t) && MayBecome(from, to)
    ensures !UpdatePanics(t, key, to) && Valid(Update(t, key, to))
    ensures Entries(Update(t, key, to)) == Others(t, key) + {Entry(key, to)}
  {
    UpdateSetsState(t, key, from, to, 0, U64_MAX + 1);
    UpdateWithin(t, key, to, 0, U64_MAX + 1);
  }

  lemma DisjointSpec(t: Tree)
    requires Valid(t)
    ensures Disjoint(Entries(t))
  {
    EntriesWithin(t, 0, U64_MAX + 1);
    forall e <- Entries(t), f <- Entries(t) | e != f
      ensures !e.key.Meets(f.key)
    {
      EntriesDisjoint(t, 0, U64_MAX + 1, e, f);
    }
  }

  // ---------------------------------------------------------------- alignment

  /** `n & (n - 1) == 0` for a positive `n`. */
  predicate PowerOfTwo(n: int) {
    n == 1 || (n > 1 && n % 2 == 0 && PowerOfTwo(n / 2))
  }

  predicate Alignable(align: u64) { align <= 1 || PowerOfTwo(align) }

  predicate Aligned(a: int, align: u64) { align <= 1 || a % align == 0 }

  /** `Range::align_to`: move `min` up to the alignment. */
  function AlignTo(r: Range, align: u64): Option<Range> {
    if align <= 1 then Some(r)
    else if !PowerOfTwo(align) then None
    else
      var v := r.min + (align - 1);
      var m := v - v % align;
      if v <= U64_MAX && m <= r.max then Some(Range(m, r.max)) else None
  }

  lemma MulMonotone(a: int, b: int, n: int)
    requires n >= 0 && a <= b
    ensures a * n <= b * n
  {
  }

  lemma ModUnique(x: int, n: int, q: int, r: int)
    requires n > 0 && 0 <= r < n && x == q * n + r
    ensures x % n == r && x / n == q
  {
    if q < x / n {
      MulMonotone(q + 1, x / n, n);
    } else {
      MulMonotone(x / n, q, n);
      if x / n < q {
        MulMonotone(x / n + 1, q, n);
      }
    }
  }

  /** Rounding `lo + align - 1` down gives the least multiple of `align` from `lo` on. */
  lemma LeastMultiple(lo: int, align: int)
    requires align > 1
    ensures var v := lo + (align - 1); var m := v - v % align;
      lo <= m && m % align == 0 && forall a | lo <= a && a % align == 0 :: m <= a
  {
    var v := lo + (align - 1);
    var q := v / align;
    ModUnique(q * align, align, q, 0);
    forall a | lo <= a && a % align == 0
      ensures q * align <= a
    {
      LeastMultipleOf(lo, align, a);
    }
  }

  lemma LeastMultipleOf(lo: int, align: int, a: int)
    requires align > 1 && lo <= a && a % align == 0
    ensures ((lo + (align - 1)) / align) * align <= a
  {
    var q, p := (lo + (align - 1)) / align, a / align;
    if p < q {
      MulMonotone(p + 1, q, align);
    } else {
      MulMonotone(q, p, align);
    }
  }

  /** The largest multiple of `align` up to `v` is no less than any other one. */
  lemma LargestMultiple(v: int, align: int, x: int)
    requires align > 1 && x <= v && x % align == 0
    ensures x <= v - v % align
  {
    if x / align > v / align {
      MulMonotone(v / align + 1, x / align, align);
    } else {
      MulMonotone(x / align, v / align, align);
    }
  }

  lemma {:induction false} PowersDivide(n: int, m: int)
    requires PowerOfTwo(n) && PowerOfTwo(m) && n <= m
    ensures m % n == 0
  {
    if n > 1 {
      PowersDivide(n / 2, m / 2);
      var q := (m / 2) / (n / 2);
      assert m == q * n by {
        assert m / 2 == q * (n / 2);
      }
      ModUnique(m, n, q, 0);
    }
  }

  lemma Double(n: int)
    requires PowerOfTwo(n)
    ensures PowerOfTwo(2 * n)
  {
    assert (2 * n) / 2 == n;
  }

  lemma Times16(n: int)
    requires PowerOfTwo(n)
    ensures PowerOfTwo(16 * n)
  {
    hide PowerOfTwo;
    Double(n);
    Double(2 * n);
    Double(4 * n);
    Double(8 * n);
  }

  lemma Times256(n: int)
    requires PowerOfTwo(n)
    ensures PowerOfTwo(256 * n)
  {
    hide PowerOfTwo;
    Times16(n);
    Times16(16 * n);
  }

  lemma WordSizeIsPower()
    ensures PowerOfTwo(U64_MAX + 1)
  {
    assert PowerOfTwo(1);
    hide PowerOfTwo;
    Times256(1);
    Times256(0x100);
    Times256(0x1_0000);
    Times256(0x100_0000);
    Times256(0x1_0000_0000);
    Times256(0x100_0000_0000);
    Times256(0x1_0000_0000_0000);
    Times256(0x100_0000_0000_0000);
  }

  /** `align_to` finds the least aligned start, and the overflow check loses none. */
  lemma AlignToIsLeast(r: Range, align: u64)
    requires r.Proper()
    ensures var s := AlignTo(r, align);
      && (s.Some? ==> Alignable(align) && Aligned(s.value.min, align) && r.min <= s.value.min <= s.value.max == r.max)
      && forall b | r.Has(b) && Alignable(align) && Aligned(b, align) :: s.Some? && s.value.min <= b
  {
    if align > 1 && PowerOfTwo(align) {
      LeastMultiple(r.min, align);
      var v := r.min + (align - 1);
      if v > U64_MAX {
        WordSizeIsPower();
        PowersDivide(align, U64_MAX + 1);
        LargestMultiple(v, align, U64_MAX + 1);
      }
    }
  }

  // ---------------------------------------------------------------- first match

  /** Where a request of size at least one fits in a free range, as `allocate` computes it. */
  function Candidate(key: Range, c: Constraint): Option<Range> {
    var lo, hi := Max(key.min, c.min), Min(key.max, c.max);
    if hi < lo then None
    else
      var aligned := AlignTo(Range(lo, hi), c.align);
      if aligned.Some? && c.size <= aligned.value.Len() then aligned else None
  }

  /** `b` is a base address that meets the bounds and the alignment of `c`. */
  predicate Suits(c: Constraint, b: int) {
    && c.size > 0 && c.min <= b && b + c.size - 1 <= c.max
    && Alignable(c.align) && Aligned(b, c.align)
  }

  /** The candidate is the least suitable base inside the range; there is none otherwise. */
  lemma CandidateIsLeast(key: Range, c: Constraint)
    requires key.Proper() && c.size > 0
    ensures var r := Candidate(key, c);
      && (r.Some? ==> Suits(c, r.value.min) && key.Contains(Range(r.value.min, r.value.min + c.size - 1)))
      && forall b | Suits(c, b) && key.Contains(Range(b, b + c.size - 1)) :: r.Some? && r.value.min <= b
  {
    var span := Range(Max(key.min, c.min), Min(key.max, c.max));
    if span.min <= span.max {
      AlignToIsLeast(span, c.align);
    }
  }

  predicate Serves(e: Entry, c: Constraint) { e.state.Free? && Candidate(e.key, c).Some? }

  function FirstMatch(t: Tree, c: Constraint): (r: Option<Entry>)
    ensures r.Some? ==> r.value in Entries(t) && Serves(r.value, c)
    ensures r.None? ==> forall e <- Entries(t) :: !Serves(e, c)
  {
    if t.Leaf? then None
    else
      var l := FirstMatch(t.left, c);
      if l.Some? then l
      else if Serves(Entry(t.key, t.state), c) then Some(Entry(t.key, t.state))
      else FirstMatch(t.right, c)
  }

  /** The first match is the lowest range that serves the request. */
  lemma {:induction false} FirstMatchIsLowest(t: Tree, c: Constraint, lo: int, hi: int)
    requires Within(t, lo, hi) && FirstMatch(t, c).Some?
    ensures forall e <- Entries(t) | Serves(e, c) :: FirstMatch(t, c).value.key.min <= e.key.min
  {
    EntriesWithin(t.left, lo, t.key.min);
    EntriesWithin(t.right, t.key.max + 1, hi);
    if FirstMatch(t.left, c).Some? {
      FirstMatchIsLowest(t.left, c, lo, t.key.min);
    } else if !Serves(Entry(t.key, t.state), c) {
      FirstMatchIsLowest(t.right, c, t.key.max + 1, hi);
    }
  }

  // ---------------------------------------------------------------- allocate

  /** Insert a piece of a split node, unless the piece is empty. */
  function InsertPiece(t: Tree, piece: Range): (r: Tree)
    requires Sound(t)
    ensures Sound(r)
  {
    if piece.min <= piece.max then Insert(t, piece) else t
  }

  lemma InsertPieceSpec(t: Tree, piece: Range)
    requires Valid(t) && (piece.min <= piece.max ==> piece.Proper() && Clear(t, piece))
    ensures !PiecePanics(t, piece)
    ensures Valid(InsertPiece(t, piece))
    ensures Entries(InsertPiece(t, piece)) == Entries(t) + PieceEntry(piece)
  {
    if piece.min <= piece.max {
      InsertSpec(t, piece);
    }
  }

  function PieceEntry(piece: Range): set<Entry> {
    if piece.min <= piece.max then {Entry(piece, Free)} else {}
  }

  /** The first half of a split: `key` is gone, its low piece and `r` are in. */
  function SplitLow(t: Tree, key: Range, r: Range): (s: Tree)
    requires Sound(t)
    ensures Sound(s)
  {
    Insert(InsertPiece(Delete(t, key), Range(key.min, r.min - 1)), r)
  }

  /** Split a free node: delete it and insert its pieces. */
  function Split(t: Tree, key: Range, r: Range): (s: Tree)
    requires Sound(t)
    ensures Sound(s)
  {
    InsertPiece(SplitLow(t, key, r), Range(r.max + 1, key.max))
  }

  function Allocate(t: Tree, c: Constraint): (g: Option<(Range, Tree)>)
    requires Sound(t)
    ensures g.Some? ==> Sound(g.value.1)
  {
    var found := FirstMatch(t, c);
    if c.size == 0 || found.None? then None
    else
      var key := found.value.key;
      var base := Candidate(key, c).value.min;
      var r := Range(base, base + c.size - 1);
      Some((r, Carve(t, key, r)))
  }

  /** The pieces of a split node: what is left of it on either side. */
  function Pieces(key: Range, r: Range): set<Entry> {
    PieceEntry(Range(key.min, r.min - 1)) + PieceEntry(Range(r.max + 1, key.max))
  }

  /** An insertion of the split panics, for the piece or range would meet what is in the tree. */
  predicate SplitPanics(t: Tree, key: Range, r: Range)
    requires Sound(t)
  {
    || PiecePanics(Delete(t, key), Range(key.min, r.min - 1))
    || Blocked(InsertPiece(Delete(t, key), Range(key.min, r.min - 1)), r)
    || PiecePanics(SplitLow(t, key, r), Range(r.max + 1, key.max))
  }

  predicate PiecePanics(t: Tree, piece: Range) {
    piece.min <= piece.max && Blocked(t, piece)
  }

  lemma SplitLowSpec(t: Tree, key: Range, r: Range)
    requires Valid(t) && Entry(key, Free) in Entries(t) && key.Contains(r) && r.min <= r.max
    ensures !PiecePanics(Delete(t, key), Range(key.min, r.min - 1))
    ensures !Blocked(InsertPiece(Delete(t, key), Range(key.min, r.min - 1)), r)
    ensures Valid(SplitLow(t, key, r))
    ensures Entries(SplitLow(t, key, r)) ==
      Others(t, key) + PieceEntry(Range(key.min, r.min - 1)) + {Entry(r, Free)}
  {
    hide Entries, Insert, Delete, Within, Sound, Blocked, InsertPiece, PiecePanics;
    DisjointSpec(t);
    DeleteSpec(t, key);
    var left := Range(key.min, r.min - 1);
    InsertPieceSpec(Delete(t, key), left);
    InsertSpec(InsertPiece(Delete(t, key), left), r);
  }

  /** None of the panics of the split is reachable, and it replaces exactly one entry. */
  lemma SplitSpec(t: Tree, key: Range, r: Range)
    requires Valid(t) && Entry(key, Free) in Entries(t) && key.Contains(r) && r.min <= r.max
    ensures !SplitPanics(t, key, r) && Valid(Split(t, key, r))
    ensures Entries(Split(t, key, r)) == Others(t, key) + Pieces(key, r) + {Entry(r, Free)}
  {
    hide Entries, Insert, Delete, Within, Sound, Blocked, InsertPiece, PiecePanics, SplitLow;
    SplitLowSpec(t, key, r);
    DisjointSpec(t);
    InsertPieceSpec(SplitLow(t, key, r), Range(r.max + 1, key.max));
  }

  /** What taking range `r` out of the free entries means, entry set by entry set. */
  ghost predicate Taken(es: set<Entry>, r: Range, es': set<Entry>) {
    && HeldIn(es') == HeldIn(es) + {Entry(r, Allocated)}
    && (forall a :: FreeIn(es', a) <==> FreeIn(es, a) && !r.Has(a))
    && (forall a | r.Has(a) :: FreeIn(es, a))
    && (Coalesced(es) ==> Coalesced(es'))
  }

  /** Replacing a free entry by its pieces and an allocated middle takes the middle. */
  lemma ReplacedIsTaken(others: set<Entry>, key: Range, r: Range)
    requires Disjoint(others + {Entry(key, Free)}) && Entry(key, Free) !in others
    requires r.min <= r.max && key.Contains(r)
    ensures Taken(others + {Entry(key, Free)}, r, others + Pieces(key, r) + {Entry(r, Allocated)})
  {
    var es, es' := others + {Entry(key, Free)}, others + Pieces(key, r) + {Entry(r, Allocated)};
    assert HeldIn(es') == HeldIn(es) + {Entry(r, Allocated)};
    forall a
      ensures FreeIn(es', a) <==> FreeIn(es, a) && !r.Has(a)
    {
      ReplacedFreeAt(others, key, r, a);
    }
    forall a | r.Has(a) ensures FreeIn(es, a) {
      assert Entry(key, Free) in es;
    }
    if Coalesced(es) {
      ReplacedCoalesced(others, key, r);
    }
  }

  lemma ReplacedFreeAt(others: set<Entry>, key: Range, r: Range, a: int)
    requires Disjoint(others + {Entry(key, Free)}) && Entry(key, Free) !in others
    requires r.min <= r.max && key.Contains(r)
    ensures FreeIn(others + Pieces(key, r) + {Entry(r, Allocated)}, a)
       <==> FreeIn(others + {Entry(key, Free)}, a) && !r.Has(a)
  {
    var es, es' := others + {Entry(key, Free)}, others + Pieces(key, r) + {Entry(r, Allocated)};
    var e := Entry(key, Free);
    assert e in es;
    if key.Has(a) {
      assert forall f <- others :: !f.key.Has(a);
      if a < r.min {
        assert Entry(Range(key.min, r.min - 1), Free) in es';
      } else if r.max < a {
        assert Entry(Range(r.max + 1, key.max), Free) in es';
      }
    } else if FreeIn(es, a) {
      var f :| f in es && f.state.Free? && f.key.Has(a);
      assert f in es';
    }
  }

  lemma ReplacedCoalesced(others: set<Entry>, key: Range, r: Range)
    requires Disjoint(others + {Entry(key, Free)}) && Entry(key, Free) !in others
    requires Coalesced(others + {Entry(key, Free)}) && r.min <= r.max && key.Contains(r)
    ensures Coalesced(others + Pieces(key, r) + {Entry(r, Allocated)})
  {
    var es' := others + Pieces(key, r) + {Entry(r, Allocated)};
    assert Entry(key, Free) in others + {Entry(key, Free)};
    forall e <- es', f <- es' | e.state.Free? && f.state.Free?
      ensures e.key.max + 1 != f.key.min
    {
      assert e in others ==> !e.key.Meets(key);
      assert f in others ==> !f.key.Meets(key);
    }
  }

  /** Mark `r`, a part of a free node, allocated: split the node unless `r` is all of it. */
  function Carve(t: Tree, key: Range, r: Range): (t': Tree)
    requires Sound(t)
    ensures Sound(t')
  {
    if key == r then Update(t, key, Allocated) else Update(Split(t, key, r), r, Allocated)
  }

  predicate CarvePanics(t: Tree, key: Range, r: Range)
    requires Sound(t)
  {
    if key == r then UpdatePanics(t, key, Allocated)
    else SplitPanics(t, key, r) || UpdatePanics(Split(t, key, r), r, Allocated)
  }

  /** An allocation panics: in the split of the node it found, or in marking its range. */
  predicate AllocatePanics(t: Tree, c: Constraint)
    requires Sound(t)
  {
    var found := FirstMatch(t, c);
    c.size != 0 && found.Some? &&
    var key := found.value.key;
    var base := Candidate(key, c).value.min;
    CarvePanics(t, key, Range(base, base + c.size - 1))
  }

  lemma CarveSpec(t: Tree, key: Range, r: Range)
    requires Valid(t) && Entry(key, Free) in Entries(t) && key.Contains(r) && r.min <= r.max
    ensures !CarvePanics(t, key, r) && Valid(Carve(t, key, r))
    ensures Entries(Carve(t, key, r)) == Others(t, key) + Pieces(key, r) + {Entry(r, Allocated)}
  {
    hide Entries, Within, Sound, Insert, Delete, Update, Split, SplitPanics, UpdatePanics;
    if key == r {
      UpdateSpec(t, key, Free, Allocated);
      assert Pieces(key, r) == {};
    } else {
      SplitSpec(t, key, r);
      DisjointSpec(t);
      assert Others(Split(t, key, r), r) == Others(t, key) + Pieces(key, r);
      UpdateSpec(Split(t, key, r), r, Free, Allocated);
    }
  }

  /**
   Allocation: on success the granted range has the requested size, bounds and alignment,
   was wholly free, and is the only thing that changes hands. No panic is reachable.
   */
  lemma AllocateGrants(t: Tree, c: Constraint)
    requires Valid(t) && Allocate(t, c).Some?
    ensures var (r, t') := Allocate(t, c).value;
      && Valid(t') && r.Proper() && r.Len() == c.size && Suits(c, r.min)
      && Taken(Entries(t), r, Entries(t')) && !AllocatePanics(t, c)
  {
    hide Entries, Within, Sound, Carve, CarvePanics, FirstMatch, Candidate;
    var (r, t') := Allocate(t, c).value;
    var key := FirstMatch(t, c).value.key;
    DisjointSpec(t);
    CandidateIsLeast(key, c);
    assert Entries(t) == Others(t, key) + {Entry(key, Free)};
    CarveSpec(t, key, r);
    ReplacedIsTaken(Others(t, key), key, r);
  }

  /** Every identifier from `b` on, `n` of them, is free. */
  predicate FreeRun(es: set<Entry>, b: int, n: int) {
    forall a | b <= a < b + n :: FreeIn(es, a)
  }

  /** In a coalesced pool a free run lies inside one free entry. */
  lemma {:induction false} FreeRunInOneEntry(es: set<Entry>, b: int, n: int) returns (e: Entry)
    requires Disjoint(es) && Coalesced(es) && n > 0 && FreeRun(es, b, n)
    ensures e in es && e.state.Free? && e.key.Contains(Range(b, b + n - 1))
    decreases n
  {
    var last := b + n - 1;
    assert FreeIn(es, last);
    var f :| f in es && f.state.Free? && f.key.Has(last);
    if n == 1 {
      e := f;
    } else {
      e := FreeRunInOneEntry(es, b, n - 1);
    }
  }

  /**
   First fit over the free set: allocation fails exactly when no suitable run of free
   identifiers exists, and otherwise grants the lowest one, whatever the tree's shape.
   */
  lemma AllocateIsFirstFit(t: Tree, c: Constraint, b: int)
    requires Pool(t) && Suits(c, b) && FreeRun(Entries(t), b, c.size)
    ensures Allocate(t, c).Some? && Allocate(t, c).value.0.min <= b
  {
    DisjointSpec(t);
    var e := FreeRunInOneEntry(Entries(t), b, c.size);
    CandidateIsLeast(e.key, c);
    assert Serves(e, c);
    var f := FirstMatch(t, c).value;
    FirstMatchIsLowest(t, c, 0, U64_MAX + 1);
    CandidateIsLeast(f.key, c);
  }

  /** Every request is served from the lowest suitable run of free identifiers, if there is one. */
  ghost predicate FirstFit(t: Tree)
    requires Sound(t)
  {
    forall c: Constraint, b: int | Suits(c, b) && FreeRun(Entries(t), b, c.size) ::
      Allocate(t, c).Some? && Allocate(t, c).value.0.min <= b
  }

  /** A request across the seam of two touching free entries is refused. */
  lemma SeamIsRefused(t: Tree, e: Entry, f: Entry)
    requires Valid(t) && e in Entries(t) && f in Entries(t) && e.state.Free? && f.state.Free?
    requires e.key.max + 1 == f.key.min
    ensures e.key.Proper() && f.key.Proper() && 0 <= e.key.max && f.key.min <= U64_MAX
    ensures var c := Constraint(2, e.key.max, f.key.min, 1);
      Suits(c, e.key.max) && FreeRun(Entries(t), e.key.max, 2) && Allocate(t, c).None?
  {
    DisjointSpec(t);
    EntriesWithin(t, 0, U64_MAX + 1);
    var c := Constraint(2, e.key.max, f.key.min, 1);
    forall g <- Entries(t) ensures !Serves(g, c) {
      CandidateIsLeast(g.key, c);
      hide Entries, Candidate, FirstMatch, Within, Sound;
      assert g != e ==> !g.key.Meets(e.key);
      assert g != f ==> !g.key.Meets(f.key);
    }
    hide Candidate, Within, Sound;
    assert FreeIn(Entries(t), e.key.max) && FreeIn(Entries(t), f.key.min);
  }

  /** Wherever a tree has a seam, a request for the two identifiers beside it is refused. */
  lemma SeamAt(t: Tree) returns (b: u64)
    requires Valid(t) && !Coalesced(Entries(t))
    ensures b < U64_MAX && FreeAt(t, b) && FreeAt(t, b + 1) && Allocate(t, Constraint(2, b, b + 1, 1)).None?
  {
    var e, f :| e in Entries(t) && f in Entries(t) && e.state.Free? && f.state.Free? && e.key.max + 1 == f.key.min;
    SeamIsRefused(t, e, f);
    hide Entries, Allocate, Suits, Sound, Within;
    b := e.key.max;
    assert e.key.Has(b) && f.key.Has(b + 1);
  }

  /** Allocation is first fit over the plain free set exactly when no two free entries touch. */
  lemma FirstFitExactly(t: Tree)
    requires Valid(t)
    ensures FirstFit(t) <==> Coalesced(Entries(t))
  {
    if Coalesced(Entries(t)) {
      forall c: Constraint, b: int | Suits(c, b) && FreeRun(Entries(t), b, c.size)
        ensures Allocate(t, c).Some? && Allocate(t, c).value.0.min <= b
      {
        AllocateIsFirstFit(t, c, b);
      }
    } else {
      var e, f :| e in Entries(t) && f in Entries(t) && e.state.Free? && f.state.Free? && e.key.max + 1 == f.key.min;
      SeamIsRefused(t, e, f);
    }
  }

  /** A free entry beside others keeps them apart exactly when its two neighbours are not free. */
  lemma AddedCoalesced(es: set<Entry>, r: Range)
    requires Disjoint(es + {Entry(r, Free)}) && Coalesced(es) && Entry(r, Free) !in es
    ensures Coalesced(es + {Entry(r, Free)}) <==> !FreeIn(es, r.min - 1) && !FreeIn(es, r.max + 1)
  {
    var added, all := Entry(r, Free), es + {Entry(r, Free)};
    assert added in all && r.Proper();
    forall e <- es ensures e in all && !e.key.Meets(r) && e.key.Proper() {
    }
    if FreeIn(es, r.min - 1) {
      var e :| e in es && e.state.Free? && e.key.Has(r.min - 1);
      assert e.key.max + 1 == r.min;
    }
    if FreeIn(es, r.max + 1) {
      var e :| e in es && e.state.Free? && e.key.Has(r.max + 1);
      assert r.max + 1 == e.key.min;
    }
  }

  // ---------------------------------------------------------------- free

  /** The low end of `key` after merging with a free entry that ends just below it. */
  function MergedMin(t: Tree, key: Range): (m: int)
    requires key.Proper()
    ensures m <= key.min
  {
    if key.min == 0 then 0
    else
      var s := Superset(t, Range(key.min - 1, key.min - 1));
      if s.Some? && s.value.state.Free? then s.value.key.min else key.min
  }

  /** The high end of `key` after merging with a free entry that starts just above it. */
  function MergedMax(t: Tree, key: Range): (m: int)
    requires key.Proper()
    ensures key.max <= m
  {
    if key.max == U64_MAX then U64_MAX
    else
      var s := Superset(t, Range(key.max + 1, key.max + 1));
      if s.Some? && s.value.state.Free? then s.value.key.max else key.max
  }

  /** The free range that `free` inserts in the end. */
  function Merged(t: Tree, key: Range): (m: Range)
    requires Sound(t) && key.Proper()
    ensures m.Contains(key)
  {
    Range(MergedMin(Delete(t, key), key), MergedMax(Delete(t, key), key))
  }

  function DeletePiece(t: Tree, piece: Range): (r: Tree)
    requires Sound(t)
    ensures Sound(r)
  {
    if piece.min <= piece.max then Delete(t, piece) else t
  }

  /** The tree without `key` and without the free neighbours it is merged with. */
  function Cleared(t: Tree, key: Range): (r: Tree)
    requires Sound(t) && key.Proper()
    ensures Sound(r)
  {
    var m := Merged(t, key);
    DeletePiece(DeletePiece(Delete(t, key), Range(m.min, key.min - 1)), Range(key.max + 1, m.max))
  }

  predicate ReleasePanics(t: Tree, key: Range)
    requires Sound(t) && key.Proper()
  {
    Blocked(Cleared(t, key), Merged(t, key))
  }

  /** `free`: remove the node, merge it with free neighbours, insert the result as free. */
  function Release(t: Tree, key: Range): (r: Tree)
    requires Sound(t) && key.Proper()
    ensures Sound(r)
  {
    Insert(Cleared(t, key), Merged(t, key))
  }

  /** The caller names a node of the tree, or a range that meets none. */
  predicate Releasable(t: Tree, key: Range) {
    forall e <- Others(t, key) :: !e.key.Meets(key)
  }

  /** The entry a point lookup finds just below (or above) a range, if it is free. */
  lemma LookupSpec(t: Tree, a: int)
    requires Valid(t) && 0 <= a <= U64_MAX
    ensures var s := Superset(t, Range(a, a));
      && (s.Some? ==> s.value in Entries(t) && s.value.key.Has(a))
      && (s.None? ==> forall e <- Entries(t) :: !e.key.Has(a))
  {
    if Superset(t, Range(a, a)).None? {
      SupersetFinds(t, Range(a, a), 0, U64_MAX + 1);
    }
  }

  function Neighbours(m: Range, key: Range): set<Entry> {
    PieceEntry(Range(m.min, key.min - 1)) + PieceEntry(Range(key.max + 1, m.max))
  }

  lemma ClearedSpec(t: Tree, key: Range)
    requires Valid(t) && key.Proper()
    ensures var m := Merged(t, key);
      && Valid(Cleared(t, key)) && 0 <= m.min && m.max <= U64_MAX
      && Entries(Cleared(t, key)) == set e <- Others(t, key) |
           e.key != Range(m.min, key.min - 1) && e.key != Range(key.max + 1, m.max)
  {
    hide Entries, Within, Sound, Delete, Superset;
    var t0 := Delete(t, key);
    DeleteSpec(t, key);
    DisjointSpec(t0);
    var m := Merged(t, key);
    var low, high := Range(m.min, key.min - 1), Range(key.max + 1, m.max);
    if key.min > 0 { LookupSpec(t0, key.min - 1); }
    if key.max < U64_MAX { LookupSpec(t0, key.max + 1); }
    DeleteSpec(t0, low);
    var t1 := DeletePiece(t0, low);
    assert Entries(t1) == set e <- Entries(t0) | e.key != low;
    DeleteSpec(t1, high);
  }

  /** With a releasable key, the merged range is the key and its free neighbours. */
  lemma NeighboursSpec(t: Tree, key: Range)
    requires Valid(t) && key.Proper() && Releasable(t, key)
    ensures Neighbours(Merged(t, key), key) <= Others(t, key)
    ensures forall e <- Others(t, key) | e.state.Free? && e.key.max + 1 == key.min ::
      e.key == Range(Merged(t, key).min, key.min - 1)
    ensures forall e <- Others(t, key) | e.state.Free? && key.max + 1 == e.key.min ::
      e.key == Range(key.max + 1, Merged(t, key).max)
  {
    hide Entries, Within, Sound, Delete, Superset;
    var t0 := Delete(t, key);
    DeleteSpec(t, key);
    DisjointSpec(t0);
    if key.min > 0 { LookupSpec(t0, key.min - 1); }
    if key.max < U64_MAX { LookupSpec(t0, key.max + 1); }
  }

  /**
   `free` panics exactly when the range shares an identifier with a node other than its
   own. Freeing one slot of a wider grant, or a part of a free range, is such a case.
   */
  lemma ReleasePanicsExactly(t: Tree, key: Range)
    requires Valid(t) && key.Proper() && Merged(t, key).Proper()
    ensures ReleasePanics(t, key) <==> !Releasable(t, key)
  {
    hide Entries, Within, Sound, Delete, Blocked, Cleared, Merged;
    ClearedSpec(t, key);
    DisjointSpec(t);
    InsertPanics(Cleared(t, key), Merged(t, key), 0, U64_MAX + 1);
    if Releasable(t, key) {
      NeighboursSpec(t, key);
      MergedIsClear(Others(t, key), key, Merged(t, key));
    } else {
      var e :| e in Others(t, key) && e.key.Meets(key);
      assert e in Entries(Cleared(t, key)) && e.key.Meets(Merged(t, key));
    }
  }

  lemma MergedIsClear(others: set<Entry>, key: Range, m: Range)
    requires Disjoint(others) && key.Proper() && m.Contains(key) && Neighbours(m, key) <= others
    requires forall e <- others :: !e.key.Meets(key)
    ensures forall e <- others |
      e.key != Range(m.min, key.min - 1) && e.key != Range(key.max + 1, m.max) :: !e.key.Meets(m)
  {
    forall e <- others | e.key != Range(m.min, key.min - 1) && e.key != Range(key.max + 1, m.max)
      ensures !e.key.Meets(m)
    {
      var low, high := Entry(Range(m.min, key.min - 1), Free), Entry(Range(key.max + 1, m.max), Free);
      assert m.min < key.min ==> low in others && !e.key.Meets(low.key);
      assert key.max < m.max ==> high in others && !e.key.Meets(high.key);
    }
  }

  /** What giving range `key` back to the pool means, entry set by entry set. */
  ghost predicate Returned(es: set<Entry>, key: Range, es': set<Entry>) {
    && HeldIn(es') == (set e <- HeldIn(es) | e.key != key)
    && (forall a :: FreeIn(es', a) <==> FreeIn(es, a) || key.Has(a))
    && (Coalesced(es) ==> Coalesced(es'))
  }

  /** `key` and its free neighbours are replaced by the one free range `m`. */
  predicate MergeStep(es: set<Entry>, key: Range, m: Range, es': set<Entry>) {
    var others := set e <- es | e.key != key;
    && Disjoint(es) && key.Proper() && m.Contains(key) && Neighbours(m, key) <= others
    && (forall e <- others :: !e.key.Meets(key))
    && (forall e <- others | e.state.Free? && e.key.max + 1 == key.min :: e.key == Range(m.min, key.min - 1))
    && (forall e <- others | e.state.Free? && key.max + 1 == e.key.min :: e.key == Range(key.max + 1, m.max))
    && es' == (set e <- others | e.key != Range(m.min, key.min - 1) && e.key != Range(key.max + 1, m.max))
              + {Entry(m, Free)}
  }

  lemma MergeStepFree(es: set<Entry>, key: Range, m: Range, es': set<Entry>, a: int)
    requires MergeStep(es, key, m, es')
    ensures FreeIn(es', a) <==> FreeIn(es, a) || key.Has(a)
  {
    var others := set e <- es | e.key != key;
    var low, high := Entry(Range(m.min, key.min - 1), Free), Entry(Range(key.max + 1, m.max), Free);
    assert m.min < key.min ==> low in others;
    assert key.max < m.max ==> high in others;
    assert Entry(m, Free) in es';
    if FreeIn(es, a) && !m.Has(a) {
      var e :| e in es && e.state.Free? && e.key.Has(a);
      assert e in es';
    }
  }

  lemma MergeStepCoalesced(es: set<Entry>, key: Range, m: Range, es': set<Entry>)
    requires MergeStep(es, key, m, es') && Coalesced(es)
    ensures Coalesced(es')
  {
    var others := set e <- es | e.key != key;
    var low, high := Entry(Range(m.min, key.min - 1), Free), Entry(Range(key.max + 1, m.max), Free);
    assert m.min < key.min ==> low in others;
    assert key.max < m.max ==> high in others;
  }

  lemma MergedIsReturned(es: set<Entry>, key: Range, m: Range, es': set<Entry>)
    requires MergeStep(es, key, m, es')
    ensures Returned(es, key, es')
  {
    var others := set e <- es | e.key != key;
    var low, high := Entry(Range(m.min, key.min - 1), Free), Entry(Range(key.max + 1, m.max), Free);
    assert HeldIn(es') == (set e <- HeldIn(es) | e.key != key) by {
      assert m.min < key.min ==> low in others;
      assert key.max < m.max ==> high in others;
    }
    forall a ensures FreeIn(es', a) <==> FreeIn(es, a) || key.Has(a) {
      MergeStepFree(es, key, m, es', a);
    }
    if Coalesced(es) {
      MergeStepCoalesced(es, key, m, es');
    }
  }

  /** An identifier outside both the pool and the range keeps the merged range proper. */
  lemma MergedProper(t: Tree, key: Range, hole: u64)
    requires Valid(t) && key.Proper() && !Covers(t, hole) && !key.Has(hole)
    ensures Merged(t, key).Proper()
  {
    hide Entries, Within, Sound, Delete, Superset;
    ClearedSpec(t, key);
    DeleteSpec(t, key);
    var t0 := Delete(t, key);
    if key.min > 0 { LookupSpec(t0, key.min - 1); }
    if key.max < U64_MAX { LookupSpec(t0, key.max + 1); }
  }

  /** A release that does not panic gives back exactly the named range. */
  lemma ReleaseReturns(t: Tree, key: Range, hole: u64)
    requires Valid(t) && key.Proper() && Releasable(t, key) && !Covers(t, hole) && !key.Has(hole)
    ensures !ReleasePanics(t, key) && Valid(Release(t, key))
    ensures Returned(Entries(t), key, Entries(Release(t, key)))
  {
    MergedProper(t, key, hole);
    ReleasePanicsExactly(t, key);
    hide Entries, Within, Sound, Delete, Insert, Cleared, Merged, Blocked;
    ClearedSpec(t, key);
    NeighboursSpec(t, key);
    DisjointSpec(t);
    var m := Merged(t, key);
    InsertPanics(Cleared(t, key), m, 0, U64_MAX + 1);
    InsertSpec(Cleared(t, key), m);
    MergedIsReturned(Entries(t), key, m, Entries(Release(t, key)));
  }

  // ---------------------------------------------------------------- whole runs

  /** The ranges in use. */
  function HeldKeys(t: Tree): set<Range> { set e <- Entries(t) | !e.state.Free? :: e.key }

  lemma CoversIsFreeOrHeld(t: Tree, a: int)
    requires Valid(t)
    ensures Covers(t, a) <==> FreeAt(t, a) || exists r <- HeldKeys(t) :: r.Has(a)
    ensures !(FreeAt(t, a) && exists r <- HeldKeys(t) :: r.Has(a))
  {
    DisjointSpec(t);
    hide Entries, Within, Sound;
    if e :| e in Entries(t) && e.key.Has(a) {
      assert !e.state.Free? ==> e.key in HeldKeys(t);
    }
  }

  /** `allocate`, then `update` where the pool marks its grants with a value. */
  function Take(t: Tree, c: Constraint, mark: bool): (g: Option<(Range, Tree)>)
    requires Sound(t)
    ensures g.Some? ==> Sound(g.value.1)
  {
    var a := Allocate(t, c);
    if a.None? || !mark then a
    else Some((a.value.0, Update(a.value.1, a.value.0, Valued)))
  }

  /** The effect of a grant on the plain view. */
  ghost predicate Grants(t: Tree, c: Constraint, r: Range, t': Tree) {
    && Valid(t') && (Coalesced(Entries(t)) ==> Coalesced(Entries(t')))
    && r.Proper() && r.Len() == c.size && Suits(c, r.min)
    && r !in HeldKeys(t) && HeldKeys(t') == HeldKeys(t) + {r}
    && (forall a :: FreeAt(t', a) <==> FreeAt(t, a) && !r.Has(a))
    && (forall a | r.Has(a) :: FreeAt(t, a))
  }

  lemma TakenGrants(t: Tree, c: Constraint, r: Range, t': Tree)
    requires Valid(t) && Valid(t') && r.Proper() && r.Len() == c.size && Suits(c, r.min)
    requires Taken(Entries(t), r, Entries(t'))
    ensures Grants(t, c, r, t') && Entry(r, Allocated) in Entries(t')
  {
    hide Entries, Within, Sound;
    assert Entry(r, Allocated) in HeldIn(Entries(t'));
    assert FreeAt(t, r.min);
    CoversIsFreeOrHeld(t, r.min);
    assert HeldKeys(t') == set e <- HeldIn(Entries(t')) :: e.key;
    assert HeldKeys(t) == set e <- HeldIn(Entries(t)) :: e.key;
  }

  lemma MarkedGrants(t: Tree, c: Constraint, r: Range, t': Tree)
    requires Grants(t, c, r, t') && Entry(r, Allocated) in Entries(t')
    ensures Grants(t, c, r, Update(t', r, Valued))
  {
    hide Entries, Within, Sound, Update, HeldKeys, FreeAt, Coalesced;
    MarkedView(t', r);
  }

  lemma MarkedView(t: Tree, r: Range)
    requires Valid(t) && Entry(r, Allocated) in Entries(t)
    ensures var t' := Update(t, r, Valued);
      && Valid(t') && HeldKeys(t') == HeldKeys(t) && (forall a :: FreeAt(t', a) <==> FreeAt(t, a))
      && (Coalesced(Entries(t)) ==> Coalesced(Entries(t')))
  {
    DisjointSpec(t);
    hide Entries, Within, Sound, Update;
    UpdateSpec(t, r, Allocated, Valued);
    assert Entries(t) == Others(t, r) + {Entry(r, Allocated)};
    hide Others, Coalesced;
    MarkKeepsView(Others(t, r), r);
  }

  lemma MarkKeepsView(others: set<Entry>, r: Range)
    ensures var es, es' := others + {Entry(r, Allocated)}, others + {Entry(r, Valued)};
      && (set e <- es | !e.state.Free? :: e.key) == (set e <- es' | !e.state.Free? :: e.key)
      && (forall a :: FreeIn(es', a) <==> FreeIn(es, a))
      && (Coalesced(es) ==> Coalesced(es'))
  {
    var es, es' := others + {Entry(r, Allocated)}, others + {Entry(r, Valued)};
    assert Entry(r, Allocated) in es && Entry(r, Valued) in es';
  }

  lemma TakeGrants(t: Tree, c: Constraint, mark: bool)
    requires Valid(t) && Take(t, c, mark).Some?
    ensures var (r, t') := Take(t, c, mark).value; Grants(t, c, r, t')
  {
    AllocateGrants(t, c);
    hide Entries, Within, Sound, Allocate, Update;
    var (r, t1) := Allocate(t, c).value;
    TakenGrants(t, c, r, t1);
    MarkedGrants(t, c, r, t1);
  }

  ghost predicate Gives(t: Tree, r: Range, t': Tree) {
    && Valid(t') && (Coalesced(Entries(t)) ==> Coalesced(Entries(t')))
    && HeldKeys(t') == HeldKeys(t) - {r}
    && (forall a :: FreeAt(t', a) <==> FreeAt(t, a) || r.Has(a))
  }

  /** Giving back a range in use never panics and frees exactly that range. */
  lemma ReleaseGives(t: Tree, r: Range, hole: u64)
    requires Valid(t) && r in HeldKeys(t) && !Covers(t, hole)
    ensures r.Proper() && !ReleasePanics(t, r) && Gives(t, r, Release(t, r))
  {
    DisjointSpec(t);
    hide Entries, Within, Sound, Release, ReleasePanics;
    ReleaseReturns(t, r, hole);
    var t' := Release(t, r);
    ReturnedGives(t, r, t');
  }

  lemma ReturnedGives(t: Tree, r: Range, t': Tree)
    requires Valid(t) && Valid(t') && Returned(Entries(t), r, Entries(t'))
    ensures Gives(t, r, t')
  {
    hide Entries, Within, Sound;
    assert HeldKeys(t') == set e <- HeldIn(Entries(t')) :: e.key;
    assert HeldKeys(t) == set e <- HeldIn(Entries(t)) :: e.key;
  }

  /** Neither a grant nor a release changes what the pool consists of. */
  lemma GrantsKeepCover(t: Tree, c: Constraint, r: Range, t': Tree)
    requires Valid(t) && Grants(t, c, r, t')
    ensures forall a :: Covers(t', a) <==> Covers(t, a)
  {
    hide Entries, Within, Sound, Covers, FreeAt, HeldKeys;
    forall a ensures Covers(t', a) <==> Covers(t, a) {
      CoversIsFreeOrHeld(t, a);
      CoversIsFreeOrHeld(t', a);
      assert r in HeldKeys(t');
    }
  }

  lemma GivesKeepCover(t: Tree, r: Range, t': Tree)
    requires Valid(t) && r in HeldKeys(t) && Gives(t, r, t')
    ensures forall a :: Covers(t', a) <==> Covers(t, a)
  {
    hide Entries, Within, Sound, Covers, FreeAt, HeldKeys;
    forall a ensures Covers(t', a) <==> Covers(t, a) {
      CoversIsFreeOrHeld(t, a);
      CoversIsFreeOrHeld(t', a);
    }
  }

  lemma GrantTransfers(t: Tree, u: Tree, c: Constraint)
    requires Pool(t) && Pool(u) && Allocate(t, c).Some?
    requires forall a :: FreeAt(t, a) <==> FreeAt(u, a)
    ensures Allocate(u, c).Some? && Allocate(u, c).value.0.min <= Allocate(t, c).value.0.min
  {
    AllocateGrants(t, c);
    hide Entries, Within, Sound, Allocate, Coalesced, HeldIn;
    var r := Allocate(t, c).value.0;
    forall a | r.min <= a < r.min + c.size
      ensures FreeIn(Entries(u), a)
    {
      assert r.Has(a) && FreeAt(t, a) && FreeAt(u, a);
    }
    AllocateIsFirstFit(u, c, r.min);
  }

  /** Two pools with the same free identifiers answer every request alike. */
  lemma SameFreeSameGrant(t: Tree, u: Tree, c: Constraint)
    requires Pool(t) && Pool(u) && forall a :: FreeAt(t, a) <==> FreeAt(u, a)
    ensures Allocate(t, c).Some? <==> Allocate(u, c).Some?
    ensures Allocate(t, c).Some? ==> Allocate(t, c).value.0 == Allocate(u, c).value.0
  {
    hide Entries, Within, Sound, Allocate;
    if Allocate(t, c).Some? {
      GrantTransfers(t, u, c);
      GrantTransfers(u, t, c);
      AllocateGrants(t, c);
      AllocateGrants(u, c);
    } else if Allocate(u, c).Some? {
      GrantTransfers(u, t, c);
    }
  }
}
