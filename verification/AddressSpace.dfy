/**
 Planning the guest physical address space: NUMA memory is laid out around the MMIO hole,
 then every planned region is claimed from the resource manager together with a KVM slot.
 */
module AddressSpaces {
  import opened Prelude
  import opened IntervalTrees
  import opened ResourcePools
  import opened ResourceManagers

  const MINIMAL_SPLIT_SPACE: u64 := 0x800_0000

  /** Sizes are in MiB; the guest node defaults to zero. */
  datatype NumaRegionInfo = NumaRegionInfo(size: u64, guestNode: Option<u32>) {
    function Node(): u32 { if guestNode.None? then 0 else guestNode.value }

    /** `checked_shl(20)` never fails: it drops the bits shifted out of the word. */
    function Bytes(): u64 { AsU64(size * 0x10_0000) }
  }

  datatype Region = Region(start: u64, len: u64, node: u32) {
    function End(): int { start + len }
  }

  datatype PlanError = InvalidOperation | NoAvailableMemAddress | NoAvailableKvmSlot

  // ---------------------------------------------------------------- planning

  /** Regions for one NUMA entry from `start` on, and where the next entry starts. */
  function PlanOne(l: Layout, start: u64, size: u64, node: u32): Option<(seq<Region>, u64)> {
    if start > l.mmioLowEnd || AsU64(start + size) <= l.mmioLowStart then
      if start + size > U64_MAX then None else Some(([Region(start, size, node)], start + size))
    else if l.mmioLowStart < start then None
    else
      var room := l.mmioLowStart - start;
      var below := if room < MINIMAL_SPLIT_SPACE then 0 else room;
      if size < below || l.mmioLowEnd + 1 + (size - below) > U64_MAX then None
      else
        var above := Region(l.mmioLowEnd + 1, size - below, node);
        Some(((if below == 0 then [] else [Region(start, below, node)]) + [above], above.End()))
  }

  function Plan(l: Layout, start: u64, infos: seq<NumaRegionInfo>): Option<seq<Region>>
    decreases |infos|
  {
    if infos == [] then Some([])
    else
      var first := PlanOne(l, start, infos[0].Bytes(), infos[0].Node());
      if first.None? then None
      else
        var rest := Plan(l, first.value.1, infos[1..]);
        if rest.None? then None else Some(first.value.0 + rest.value)
  }

  /** Inside the MMIO hole proper; its first address still ends a region below it. */
  predicate InHole(l: Layout, a: int) { l.mmioLowStart < a <= l.mmioLowEnd }

  /** Where an entry ends in unbounded arithmetic. */
  function NextStart(l: Layout, start: int, size: int): int {
    if start > l.mmioLowEnd || start + size <= l.mmioLowStart then start + size
    else
      var room := l.mmioLowStart - start;
      l.mmioLowEnd + 1 + (size - if room < MINIMAL_SPLIT_SPACE then 0 else room)
  }

  function FinalStart(l: Layout, start: int, infos: seq<NumaRegionInfo>): int
    decreases |infos|
  {
    if infos == [] then start else FinalStart(l, NextStart(l, start, infos[0].Bytes()), infos[1..])
  }

  lemma PlanOneSucceeds(l: Layout, start: u64, size: u64, node: u32)
    requires Sane(l)
    ensures PlanOne(l, start, size, node).Some? <==>
      !InHole(l, start) && NextStart(l, start, size) <= U64_MAX
    ensures PlanOne(l, start, size, node).Some? ==>
      PlanOne(l, start, size, node).value.1 == NextStart(l, start, size)
  {
    assert AsU64(start + size) == if start + size <= U64_MAX then start + size else start + size - (U64_MAX + 1);
  }

  lemma NextStartBounds(l: Layout, start: int, size: int)
    requires Sane(l) && size >= 0 && !InHole(l, start)
    ensures start + size <= NextStart(l, start, size) && !InHole(l, NextStart(l, start, size))
  {
  }

  lemma {:induction false} FinalStartGrows(l: Layout, start: int, infos: seq<NumaRegionInfo>)
    requires Sane(l) && !InHole(l, start)
    ensures start <= FinalStart(l, start, infos)
    decreases |infos|
  {
    if infos != [] {
      NextStartBounds(l, start, infos[0].Bytes());
      FinalStartGrows(l, NextStart(l, start, infos[0].Bytes()), infos[1..]);
    }
  }

  /** Planning fails exactly when it starts inside the hole or runs past the 64-bit space. */
  lemma {:induction false} PlanSucceeds(l: Layout, start: u64, infos: seq<NumaRegionInfo>)
    requires Sane(l)
    ensures Plan(l, start, infos).Some? <==>
      infos == [] || (!InHole(l, start) && FinalStart(l, start, infos) <= U64_MAX)
    decreases |infos|
  {
    if infos != [] {
      var size := infos[0].Bytes();
      PlanOneSucceeds(l, start, size, infos[0].Node());
      if !InHole(l, start) {
        var next := NextStart(l, start, size);
        NextStartBounds(l, start, size);
        FinalStartGrows(l, next, infos[1..]);
        if next <= U64_MAX {
          PlanSucceeds(l, next, infos[1..]);
        }
      }
    }
  }

  // ---------------------------------------------------------------- what a plan looks like

  predicate Ascending(regs: seq<Region>, from: int) {
    && (forall r <- regs :: from <= r.start)
    && (forall i, j | 0 <= i < j < |regs| :: regs[i].End() <= regs[j].start)
  }

  predicate AvoidsHole(l: Layout, r: Region) { r.End() <= l.mmioLowStart || l.mmioLowEnd < r.start }

  function BytesOf(regs: seq<Region>, node: u32): int {
    if regs == [] then 0 else (if regs[0].node == node then regs[0].len else 0) + BytesOf(regs[1..], node)
  }

  /** The entry is for this guest node, which is node zero unless it says otherwise. */
  predicate ForNode(info: NumaRegionInfo, node: u32) {
    info.guestNode == Some(node) || (info.guestNode.None? && node == 0)
  }

  function Requested(infos: seq<NumaRegionInfo>, node: u32): int {
    if infos == [] then 0
    else (if ForNode(infos[0], node) then infos[0].Bytes() else 0) + Requested(infos[1..], node)
  }

  lemma {:induction false} BytesOfConcat(a: seq<Region>, b: seq<Region>, node: u32)
    ensures BytesOf(a + b, node) == BytesOf(a, node) + BytesOf(b, node)
  {
    if a == [] {
      assert a + b == b;
    } else {
      assert (a + b)[1..] == a[1..] + b;
      BytesOfConcat(a[1..], b, node);
    }
  }

  /** One entry: at most two regions, in order, off the hole, and worth exactly its bytes. */
  lemma PlanOneSpec(l: Layout, start: u64, size: u64, node: u32)
    requires Sane(l) && PlanOne(l, start, size, node).Some?
    ensures var (regs, next) := PlanOne(l, start, size, node).value;
      && 1 <= |regs| <= 2 && (|regs| == 2 ==> l.mmioLowEnd < next)
      && (|regs| == 2 <==> start + 0x800_0000 <= l.mmioLowStart < start + size)
      && Ascending(regs, start) && (forall r <- regs :: AvoidsHole(l, r) && r.End() <= next)
      && (size > 0 ==> forall r <- regs :: r.len > 0)
      && forall n :: BytesOf(regs, n) == if n == node then size else 0
  {
    assert AsU64(start + size) == if start + size <= U64_MAX then start + size else start + size - (U64_MAX + 1);
    var (regs, next) := PlanOne(l, start, size, node).value;
    forall n ensures BytesOf(regs, n) == if n == node then size else 0 {
      if |regs| == 2 {
        assert regs == [regs[0]] + [regs[1]];
        BytesOfConcat([regs[0]], [regs[1]], n);
      }
    }
  }

  ghost predicate WellPlanned(l: Layout, start: u64, infos: seq<NumaRegionInfo>, regs: seq<Region>) {
    && Ascending(regs, start) && (forall r <- regs :: AvoidsHole(l, r) && r.End() <= U64_MAX)
    && (forall n :: BytesOf(regs, n) == Requested(infos, n))
    && |infos| <= |regs| <= |infos| + (if start <= l.mmioLowStart then 1 else 0)
    && ((forall i <- infos :: i.Bytes() > 0) ==> forall r <- regs :: r.len > 0)
  }

  lemma JoinPlans(l: Layout, start: u64, info: NumaRegionInfo, infos: seq<NumaRegionInfo>, rest: seq<Region>)
    requires Sane(l) && PlanOne(l, start, info.Bytes(), info.Node()).Some?
    requires WellPlanned(l, PlanOne(l, start, info.Bytes(), info.Node()).value.1, infos, rest)
    ensures WellPlanned(l, start, [info] + infos, PlanOne(l, start, info.Bytes(), info.Node()).value.0 + rest)
  {
    PlanOneSucceeds(l, start, info.Bytes(), info.Node());
    PlanOneSpec(l, start, info.Bytes(), info.Node());
    NextStartBounds(l, start, info.Bytes());
    hide PlanOne, NextStart, BytesOf;
    var (regs, next) := PlanOne(l, start, info.Bytes(), info.Node()).value;
    var all := [info] + infos;
    forall n ensures BytesOf(regs + rest, n) == Requested(all, n) {
      BytesOfConcat(regs, rest, n);
      assert all[1..] == infos;
    }
    assert Ascending(regs + rest, start);
    assert forall r <- regs + rest :: r in regs || r in rest;
    assert forall i <- infos :: i in all;
    assert info in all;
  }

  /**
   A plan lists its regions in increasing order without overlap, keeps off the MMIO hole,
   gives each guest node exactly the bytes asked for it, and splits at most one entry.
   */
  lemma {:induction false} PlanIsWellPlanned(l: Layout, start: u64, infos: seq<NumaRegionInfo>)
    requires Sane(l) && Plan(l, start, infos).Some?
    ensures WellPlanned(l, start, infos, Plan(l, start, infos).value)
    decreases |infos|
  {
    if infos != [] {
      var next := PlanOne(l, start, infos[0].Bytes(), infos[0].Node()).value.1;
      PlanIsWellPlanned(l, next, infos[1..]);
      JoinPlans(l, start, infos[0], infos[1..], Plan(l, next, infos[1..]).value);
      assert [infos[0]] + infos[1..] == infos;
    }
  }

  /** Below 2^44 MiB the shift loses nothing; from there on it silently does. */
  lemma ShiftExact(info: NumaRegionInfo)
    ensures info.Bytes() == info.size * 0x10_0000 <==> info.size < 0x1000_0000_0000
  {
  }

  // ---------------------------------------------------------------- claiming

  /** The fixed-address request for a region. */
  function ClaimOf(r: Region): Constraint {
    Constraint(r.len, r.start, AsU64(r.start + r.len - 1), 1)
  }

  datatype Claim = Refused(error: PlanError, pools: Pools) | Granted(pools: Pools, slot: u32)

  /** Claim the memory of a region, then a KVM slot for it. */
  function ClaimOne(p: Pools, r: Region): (c: Claim)
    requires AllSound(p)
    ensures AllSound(c.pools)
  {
    var mem := Take(p.Get(Mem), ClaimOf(r), Marks(Mem));
    if mem.None? then Refused(NoAvailableMemAddress, p)
    else
      var p1 := p.Set(Mem, mem.value.1);
      var slot := Take(p1.Get(KvmSlots), Anywhere(1), Marks(KvmSlots));
      if slot.None? then Refused(NoAvailableKvmSlot, p1)
      else Granted(p1.Set(KvmSlots, slot.value.1), AsU32(slot.value.0.min))
  }

  datatype Claimed = Claimed(error: Option<PlanError>, pools: Pools, slots: map<u64, u32>)

  /** Claim region after region from `i` on, recording the slot of each. */
  function ClaimFrom(p: Pools, regs: seq<Region>, i: nat, m: map<u64, u32>): (c: Claimed)
    requires AllSound(p) && i <= |regs|
    ensures AllSound(c.pools)
    decreases |regs| - i
  {
    if i == |regs| then Claimed(None, p, m)
    else
      match ClaimOne(p, regs[i])
      case Refused(e, q) => Claimed(Some(e), q, m)
      case Granted(q, slot) => ClaimFrom(q, regs, i + 1, m[regs[i].start := slot])
  }

  /** On a fresh manager, after claims for the first `i` regions and for `k` slots. */
  ghost predicate Progress(l: Layout, slots: u32, regs: seq<Region>, i: nat, k: nat, p: Pools) {
    && Managed(l, slots, p) && Pool(p.Get(Mem)) && Pool(p.Get(KvmSlots))
    && (forall a :: FreeAt(p.Get(KvmSlots), a) <==> k <= a <= slots)
    && (forall a :: FreeAt(p.Get(Mem), a) <==> InPool(l, slots, Mem, a) && ClearOf(regs, i, a))
  }

  /** `a` lies in none of the first `i` regions. */
  predicate ClearOf(regs: seq<Region>, i: nat, a: int) {
    forall j | 0 <= j < i && j < |regs| :: !(regs[j].start <= a < regs[j].End())
  }

  lemma FreshProgress(l: Layout, slots: u32, regs: seq<Region>)
    requires Sane(l) && NewPools(l, slots).Some?
    ensures Progress(l, slots, regs, 0, 0, NewPools(l, slots).value)
    ensures AllSound(NewPools(l, slots).value)
  {
    var p := NewPools(l, slots).value;
    NewIsManaged(l, slots);
    ManagedIsSound(l, slots, p);
    assert ManagedPool(l, slots, Mem, p.Get(Mem)) && ManagedPool(l, slots, KvmSlots, p.Get(KvmSlots));
    BuildMemSpec(l, slots);
    SingleSpec(Range(0, slots));
    hide Entries, Managed, Sound, Within, Covers, Insert, ManagedPool;
    FreshView(l, slots, regs, p);
  }

  lemma FreshView(l: Layout, slots: u32, regs: seq<Region>, p: Pools)
    requires Sane(l) && Managed(l, slots, p)
    requires ManagedPool(l, slots, Mem, p.Get(Mem)) && ManagedPool(l, slots, KvmSlots, p.Get(KvmSlots))
    requires Entries(p.Get(Mem)) == set r <- Seeds(l, slots, Mem) :: Entry(r, Free)
    requires Entries(p.Get(KvmSlots)) == {Entry(Range(0, slots), Free)}
    ensures Progress(l, slots, regs, 0, 0, p)
  {
    hide Entries, Managed, Sound, Within, Covers;
    FreshIsFree(p.Get(Mem));
    FreshIsFree(p.Get(KvmSlots));
    assert Range(0, slots) in Seeds(l, slots, KvmSlots);
  }

  lemma FreshIsFree(t: Tree)
    requires forall e <- Entries(t) :: e.state.Free?
    ensures forall a :: FreeAt(t, a) <==> Covers(t, a)
  {
    hide Entries;
  }

  /** A planned region inside guest memory consists of free identifiers. */
  lemma RegionIsFree(l: Layout, slots: u32, regs: seq<Region>, i: nat, k: nat, p: Pools)
    requires Sane(l) && Progress(l, slots, regs, i, k, p) && i < |regs| && Ascending(regs, l.memStart)
    requires AvoidsHole(l, regs[i]) && regs[i].len > 0 && regs[i].End() - 1 <= l.memEnd
    ensures FreeRun(Entries(p.Get(Mem)), regs[i].start, regs[i].len)
  {
    var r := regs[i];
    hide Entries, Managed, Sound;
    forall a | r.start <= a < r.End() ensures FreeIn(Entries(p.Get(Mem)), a) {
      var seed := if NoHole(l) then Range(l.memStart, l.memEnd)
                  else if a < l.mmioLowStart then Range(l.memStart, l.mmioLowStart - 1)
                  else Range(l.mmioLowEnd + 1, l.memEnd);
      assert r in regs;
      assert seed in Seeds(l, slots, Mem) && seed.Has(a);
      assert FreeAt(p.Get(Mem), a);
    }
  }

  /** The claim for region `i` succeeds exactly when the region ends inside guest memory. */
  lemma MemClaim(l: Layout, slots: u32, regs: seq<Region>, i: nat, k: nat, p: Pools)
    requires Sane(l) && Progress(l, slots, regs, i, k, p) && i < |regs| && Ascending(regs, l.memStart)
    requires AvoidsHole(l, regs[i]) && regs[i].len > 0 && regs[i].End() <= U64_MAX
    ensures Take(p.Get(Mem), ClaimOf(regs[i]), Marks(Mem)).Some? <==> regs[i].End() - 1 <= l.memEnd
    ensures Take(p.Get(Mem), ClaimOf(regs[i]), Marks(Mem)).Some? ==>
      Take(p.Get(Mem), ClaimOf(regs[i]), Marks(Mem)).value.0 == Range(regs[i].start, regs[i].End() - 1)
  {
    var r, t, c := regs[i], p.Get(Mem), ClaimOf(regs[i]);
    assert c.max == r.End() - 1;
    if r.End() - 1 <= l.memEnd {
      RegionIsFree(l, slots, regs, i, k, p);
      AllocateIsFirstFit(t, c, r.start);
    }
    hide Entries, Managed, Sound, Allocate;
    if Take(t, c, Marks(Mem)).Some? {
      TakeGrants(t, c, Marks(Mem));
      var g := Take(t, c, Marks(Mem)).value.0;
      assert g.min == r.start;
      assert g.Has(r.End() - 1) && FreeAt(t, r.End() - 1);
      PoolBounds(l, slots, Mem, r.End() - 1);
    }
  }

  /** The slot claim after `i` others succeeds exactly when slot `i` exists, and gets it. */
  lemma SlotClaim(t: Tree, i: nat, slots: u32)
    requires Pool(t) && forall a :: FreeAt(t, a) <==> i <= a <= slots
    ensures Take(t, Anywhere(1), true).Some? <==> i <= slots
    ensures Take(t, Anywhere(1), true).Some? ==> Take(t, Anywhere(1), true).value.0 == Range(i, i)
  {
    hide Entries, Sound, Within, Allocate;
    if i <= slots {
      assert FreeRun(Entries(t), i, 1) by {
        assert FreeAt(t, i);
      }
      AllocateIsFirstFit(t, Anywhere(1), i);
    }
    if Take(t, Anywhere(1), true).Some? {
      TakeGrants(t, Anywhere(1), true);
      var g := Take(t, Anywhere(1), true).value.0;
      assert g.Has(g.min) && FreeAt(t, g.min);
    }
  }

  lemma MemStep(l: Layout, slots: u32, regs: seq<Region>, i: nat, k: nat, p: Pools)
    requires Sane(l) && AllSound(p) && Progress(l, slots, regs, i, k, p) && i < |regs|
    requires Take(p.Get(Mem), ClaimOf(regs[i]), Marks(Mem)).Some?
    requires Take(p.Get(Mem), ClaimOf(regs[i]), Marks(Mem)).value.0 == Range(regs[i].start, regs[i].End() - 1)
    ensures Progress(l, slots, regs, i + 1, k, p.Set(Mem, Take(p.Get(Mem), ClaimOf(regs[i]), Marks(Mem)).value.1))
  {
    hide Entries, Managed, Sound, Within, Take, FreeAt, Coalesced, InPool, HeldKeys;
    TakeFromPool(l, slots, p, Mem, ClaimOf(regs[i]));
    forall a ensures ClearOf(regs, i + 1, a) <==> ClearOf(regs, i, a) && !(regs[i].start <= a < regs[i].End()) {
    }
  }

  lemma SlotStep(l: Layout, slots: u32, regs: seq<Region>, i: nat, k: nat, p: Pools)
    requires Sane(l) && AllSound(p) && Progress(l, slots, regs, i, k, p) && k <= slots
    ensures var slot := Take(p.Get(KvmSlots), Anywhere(1), Marks(KvmSlots));
      && slot.Some? && slot.value.0 == Range(k, k)
      && Progress(l, slots, regs, i, k + 1, p.Set(KvmSlots, slot.value.1))
  {
    SlotClaim(p.Get(KvmSlots), k, slots);
    hide Entries, Managed, Sound, Within, Take, FreeAt, Coalesced, InPool, HeldKeys, ClearOf;
    TakeFromPool(l, slots, p, KvmSlots, Anywhere(1));
  }

  /** Region `i` gets slot `i`, unless it ends outside guest memory or the slots have run out. */
  lemma ClaimOneSpec(l: Layout, slots: u32, regs: seq<Region>, i: nat, p: Pools)
    requires Sane(l) && AllSound(p) && Progress(l, slots, regs, i, i, p) && i < |regs|
    requires Ascending(regs, l.memStart) && AvoidsHole(l, regs[i]) && regs[i].End() <= U64_MAX && regs[i].len > 0
    ensures var c := ClaimOne(p, regs[i]);
      && (c.Refused? && c.error == NoAvailableMemAddress <==> l.memEnd < regs[i].End() - 1)
      && (c.Refused? && c.error == NoAvailableKvmSlot <==> regs[i].End() - 1 <= l.memEnd && slots < i)
      && (c.Refused? ==> c.error != InvalidOperation)
      && (c.Granted? ==> c.slot == i && Progress(l, slots, regs, i + 1, i + 1, c.pools))
  {
    hide Managed, Sound, Take, Progress;
    MemClaim(l, slots, regs, i, i, p);
    if regs[i].End() - 1 <= l.memEnd {
      MemStep(l, slots, regs, i, i, p);
      var p1 := p.Set(Mem, Take(p.Get(Mem), ClaimOf(regs[i]), Marks(Mem)).value.1);
      if i <= slots {
        SlotStep(l, slots, regs, i + 1, i, p1);
      } else {
        NoSlotLeft(l, slots, regs, i + 1, i, p1);
      }
    }
  }

  lemma NoSlotLeft(l: Layout, slots: u32, regs: seq<Region>, i: nat, k: nat, p: Pools)
    requires AllSound(p) && Progress(l, slots, regs, i, k, p) && slots < k
    ensures Take(p.Get(KvmSlots), Anywhere(1), Marks(KvmSlots)).None?
  {
    SlotClaim(p.Get(KvmSlots), k, slots);
  }

  predicate Fits(l: Layout, slots: u32, regs: seq<Region>, j: nat)
    requires j < |regs|
  {
    regs[j].End() - 1 <= l.memEnd && j <= slots
  }

  predicate FitFrom(l: Layout, slots: u32, regs: seq<Region>, i: nat) {
    forall j | i <= j < |regs| :: Fits(l, slots, regs, j)
  }

  lemma FitFromNext(l: Layout, slots: u32, regs: seq<Region>, i: nat)
    requires i < |regs|
    ensures FitFrom(l, slots, regs, i) <==> Fits(l, slots, regs, i) && FitFrom(l, slots, regs, i + 1)
  {
  }

  predicate SlotsRecorded(regs: seq<Region>, i: nat, before: map<u64, u32>, after: map<u64, u32>) {
    && (forall j | i <= j < |regs| :: regs[j].start in after && after[regs[j].start] == j)
    && (forall a | a in before && (forall j | i <= j < |regs| :: regs[j].start != a) ::
          a in after && after[a] == before[a])
    && (forall a <- after :: a in before || exists j | i <= j < |regs| :: regs[j].start == a)
  }

  /** Every claim from region `i` on, on a manager that has served the first `i` regions. */
  lemma {:induction false} ClaimsFrom(l: Layout, slots: u32, regs: seq<Region>, i: nat, p: Pools, m: map<u64, u32>)
    requires Sane(l) && AllSound(p) && i <= |regs| && Progress(l, slots, regs, i, i, p) && Ascending(regs, l.memStart)
    requires forall r <- regs :: AvoidsHole(l, r) && r.End() <= U64_MAX && r.len > 0
    ensures var c := ClaimFrom(p, regs, i, m);
      && (c.error.None? <==> FitFrom(l, slots, regs, i))
      && (c.error.None? ==> SlotsRecorded(regs, i, m, c.slots))
    decreases |regs| - i
  {
    hide Progress, AllSound, ClaimOne, SlotsRecorded, AvoidsHole, Sane, Ascending, Fits, FitFrom;
    if i == |regs| {
      NothingRecorded(regs, m);
      FitFromEnd(l, slots, regs);
    } else {
      assert regs[i] in regs;
      ClaimOneSpec(l, slots, regs, i, p);
      var c := ClaimOne(p, regs[i]);
      FitFromNext(l, slots, regs, i);
      assert c.Granted? <==> Fits(l, slots, regs, i) by { FitsMeans(l, slots, regs, i); }
      if c.Granted? {
        var m1 := m[regs[i].start := c.slot];
        ClaimsFrom(l, slots, regs, i + 1, c.pools, m1);
        var done := ClaimFrom(c.pools, regs, i + 1, m1);
        if done.error.None? {
          StartsDiffer(l, regs, i);
          RecordStep(regs, i, m, done.slots);
        }
      }
    }
  }

  /** Why a claim is refused: the slots have run out, or a region ends outside guest memory. */
  lemma {:induction false} ClaimErrors(l: Layout, slots: u32, regs: seq<Region>, i: nat, p: Pools, m: map<u64, u32>)
    requires Sane(l) && AllSound(p) && i <= |regs| && Progress(l, slots, regs, i, i, p) && Ascending(regs, l.memStart)
    requires forall r <- regs :: AvoidsHole(l, r) && r.End() <= U64_MAX && r.len > 0
    ensures var c := ClaimFrom(p, regs, i, m);
      && (c.error == Some(NoAvailableKvmSlot) ==> slots + 1 < |regs|)
      && (c.error == Some(NoAvailableMemAddress) ==> exists r <- regs :: l.memEnd < r.End() - 1)
    decreases |regs| - i
  {
    hide Progress, AllSound, ClaimOne, AvoidsHole, Sane, Ascending;
    if i < |regs| {
      assert regs[i] in regs;
      ClaimOneSpec(l, slots, regs, i, p);
      var c := ClaimOne(p, regs[i]);
      if c.Granted? {
        ClaimErrors(l, slots, regs, i + 1, c.pools, m[regs[i].start := c.slot]);
      }
    }
  }

  lemma FitFromEnd(l: Layout, slots: u32, regs: seq<Region>)
    ensures FitFrom(l, slots, regs, |regs|)
  {
  }

  lemma FitsMeans(l: Layout, slots: u32, regs: seq<Region>, j: nat)
    requires j < |regs|
    ensures Fits(l, slots, regs, j) <==> regs[j].End() - 1 <= l.memEnd && j <= slots
  {
  }

  lemma StartsDiffer(l: Layout, regs: seq<Region>, i: nat)
    requires i < |regs| && Ascending(regs, l.memStart) && regs[i].len > 0
    ensures forall j | i < j < |regs| :: regs[i].start != regs[j].start
  {
  }

  lemma NothingRecorded(regs: seq<Region>, m: map<u64, u32>)
    ensures SlotsRecorded(regs, |regs|, m, m)
  {
  }

  lemma RecordStep(regs: seq<Region>, i: nat, m: map<u64, u32>, after: map<u64, u32>)
    requires i < |regs| && i <= U32_MAX && SlotsRecorded(regs, i + 1, m[regs[i].start := i], after)
    requires forall j | i < j < |regs| :: regs[i].start != regs[j].start
    ensures SlotsRecorded(regs, i, m, after)
  {
    var m1 := m[regs[i].start := i];
    assert regs[i].start in m1;
    forall a <- after ensures a in m || exists j | i <= j < |regs| :: regs[j].start == a {
      assert a in m1 || exists j | i + 1 <= j < |regs| :: regs[j].start == a;
    }
  }

  /**
   A plan claimed from a fresh manager: it goes through exactly when every region ends
   inside guest memory and there is a slot for each, and then region `i` holds slot `i`.
   */
  lemma FreshClaims(l: Layout, slots: u32, infos: seq<NumaRegionInfo>)
    requires Sane(l) && NewPools(l, slots).Some?
    requires Plan(l, l.memStart, infos).Some? && forall i <- infos :: i.Bytes() > 0
    ensures var regs := Plan(l, l.memStart, infos).value;
      var c := ClaimFrom(NewPools(l, slots).value, regs, 0, map[]);
      && (c.error.None? <==> (forall r <- regs :: r.End() - 1 <= l.memEnd) && |regs| <= slots + 1)
      && (c.error == Some(NoAvailableKvmSlot) ==> slots + 1 < |regs|)
      && (c.error.None? ==>
            && c.slots.Keys == (set r <- regs :: r.start)
            && (forall i | 0 <= i < |regs| :: regs[i].start in c.slots && c.slots[regs[i].start] == i))
  {
    hide Progress, AllSound, NewPools, Plan, ClaimFrom;
    var regs := Plan(l, l.memStart, infos).value;
    PlanIsWellPlanned(l, l.memStart, infos);
    FreshProgress(l, slots, regs);
    ClaimsFrom(l, slots, regs, 0, NewPools(l, slots).value, map[]);
    ClaimErrors(l, slots, regs, 0, NewPools(l, slots).value, map[]);
    AllFit(l, slots, regs);
  }

  lemma AllFit(l: Layout, slots: u32, regs: seq<Region>)
    ensures (forall j | 0 <= j < |regs| :: Fits(l, slots, regs, j)) <==>
      ((forall r <- regs :: r.End() - 1 <= l.memEnd) && |regs| <= slots + 1)
  {
    if forall j | 0 <= j < |regs| :: Fits(l, slots, regs, j) {
      if regs != [] { assert Fits(l, slots, regs, |regs| - 1); }
      forall r <- regs ensures r.End() - 1 <= l.memEnd {
        var j :| 0 <= j < |regs| && regs[j] == r;
        assert Fits(l, slots, regs, j);
      }
    } else {
      var j :| 0 <= j < |regs| && !Fits(l, slots, regs, j);
      assert regs[j] in regs;
    }
  }

  // ---------------------------------------------------------------- the address space manager

  /** The regions of one guest node, in order. */
  function OfNode(regs: seq<Region>, node: u32): seq<Region> {
    if regs == [] then []
    else
      var front, last := regs[..|regs| - 1], regs[|regs| - 1];
      if last.node == node then OfNode(front, node) + [last] else OfNode(front, node)
  }

  class AddressSpaceMgr {
    var regions: seq<Region>
    var baseToSlot: map<u64, u32>
    var numaNodes: map<u32, seq<Region>>

    constructor ()
      ensures regions == [] && baseToSlot == map[] && numaNodes == map[]
    {
      regions, baseToSlot, numaNodes := [], map[], map[];
    }

    /** Every region is listed under its node, and nothing else is. */
    ghost predicate NodesListed(regs: seq<Region>)
      reads this
    {
      forall n: u32 :: (if n in numaNodes then numaNodes[n] else []) == OfNode(regs, n)
    }

    /** `create_region`: record a region under its guest node. */
    method CreateRegion(regs: seq<Region>, r: Region) returns (regs': seq<Region>)
      requires NodesListed(regs)
      modifies this`numaNodes
      ensures regs' == regs + [r] && NodesListed(regs')
    {
      regs' := regs + [r];
      assert regs'[..|regs|] == regs;
      var known := if r.node in numaNodes then numaNodes[r.node] else [];
      numaNodes := numaNodes[r.node := known + [r]];
    }

    /** One round of the planning loop of `create_address_space`. */
    method PlanEntry(l: Layout, regs: seq<Region>, start: u64, size: u64, node: u32)
      returns (regs': seq<Region>, next: Option<u64>)
      requires Sane(l) && NodesListed(regs)
      modifies this`numaNodes
      ensures next.None? <==> PlanOne(l, start, size, node).None?
      ensures next.Some? ==>
        && NodesListed(regs') && next.value == PlanOne(l, start, size, node).value.1
        && regs' == regs + PlanOne(l, start, size, node).value.0
    {
      if start > l.mmioLowEnd || AsU64(start + size) <= l.mmioLowStart {
        if start + size > U64_MAX { return regs, None; }
        regs' := CreateRegion(regs, Region(start, size, node));
        next := Some(start + size);
      } else {
        if l.mmioLowStart < start { return regs, None; }
        var below := l.mmioLowStart - start;
        regs' := regs;
        if below < MINIMAL_SPLIT_SPACE {
          below := 0;
        } else {
          regs' := CreateRegion(regs', Region(start, below, node));
        }
        if size < below || l.mmioLowEnd + 1 + (size - below) > U64_MAX { return regs', None; }
        var above := Region(l.mmioLowEnd + 1, size - below, node);
        regs' := CreateRegion(regs', above);
        next := Some(above.End());
        ghost var placed := (if below == 0 then [] else [Region(start, below, node)]) + [above];
        assert PlanOne(l, start, size, node) == Some((placed, next.value)) && regs' == regs + placed;
      }
    }

    /** The planning loop of `create_address_space`. */
    method PlanRegions(l: Layout, infos: seq<NumaRegionInfo>) returns (planned: Option<seq<Region>>)
      requires Sane(l) && numaNodes == map[]
      modifies this`numaNodes
      ensures planned == Plan(l, l.memStart, infos)
      ensures planned.Some? ==> NodesListed(planned.value)
    {
      hide PlanOne;
      var regs: seq<Region>, start: u64, i := [], l.memStart, 0;
      ghost var whole := Plan(l, start, infos);
      assert infos[0..] == infos && (whole.Some? ==> [] + whole.value == whole.value);
      while i < |infos|
        invariant 0 <= i <= |infos| && NodesListed(regs)
        invariant Plan(l, l.memStart, infos) ==
          var rest := Plan(l, start, infos[i..]); if rest.None? then None else Some(regs + rest.value)
      {
        assert infos[i..][1..] == infos[i + 1..];
        ghost var before := regs;
        ghost var placed := PlanOne(l, start, infos[i].Bytes(), infos[i].Node());
        var next;
        regs, next := PlanEntry(l, regs, start, infos[i].Bytes(), infos[i].Node());
        if next.None? { return None; }
        start, i := next.value, i + 1;
        ghost var rest := Plan(l, start, infos[i..]);
        assert rest.Some? ==> before + (placed.value.0 + rest.value) == regs + rest.value;
      }
      assert infos[i..] == [] && regs + [] == regs;
      planned := Some(regs);
    }

    /** The claims of one region: its memory, then a slot. */
    method ClaimRegion(rm: ResourceManager, r: Region) returns (error: Option<PlanError>, slot: u32)
      requires rm.Valid()
      modifies rm`pools
      ensures rm.Valid() && AllSound(old(rm.pools))
      ensures ClaimOne(old(rm.pools), r) ==
        if error.Some? then Refused(error.value, rm.pools) else Granted(rm.pools, slot)
    {
      hide Managed, Sound, Seamless, Suits, FreeRun, Grants, Take, Entries, ClaimOf;
      slot := 0;
      var mem := rm.AllocateFrom(Mem, ClaimOf(r));
      if mem.None? { return Some(NoAvailableMemAddress), slot; }
      var base := rm.AllocateFrom(KvmSlots, Anywhere(1));
      if base.None? { return Some(NoAvailableKvmSlot), slot; }
      error, slot := None, AsU32(base.value);
    }

    /** Plan the regions, then claim memory and a slot for each; see `FreshClaims`. */
    method CreateAddressSpace(rm: ResourceManager, infos: seq<NumaRegionInfo>) returns (error: Option<PlanError>)
      requires rm.Valid() && numaNodes == map[]
      modifies this, rm`pools
      ensures rm.Valid()
      ensures Plan(rm.layout, rm.layout.memStart, infos).None? ==>
        error == Some(InvalidOperation) && rm.pools == old(rm.pools)
      ensures Plan(rm.layout, rm.layout.memStart, infos).Some? ==>
        var regs := Plan(rm.layout, rm.layout.memStart, infos).value;
        Claimed(error, rm.pools, baseToSlot) == ClaimFrom(old(rm.pools), regs, 0, old(baseToSlot)) &&
        (error.None? ==> regions == regs && NodesListed(regs))
    {
      hide Managed, Sound, AllSound, Plan, ClaimOne;
      var planned := PlanRegions(rm.layout, infos);
      if planned.None? { return Some(InvalidOperation); }
      var regs, i := planned.value, 0;
      while i < |regs|
        invariant 0 <= i <= |regs| && rm.Valid() && AllSound(old(rm.pools)) && NodesListed(regs)
        invariant ClaimFrom(rm.pools, regs, i, baseToSlot) == ClaimFrom(old(rm.pools), regs, 0, old(baseToSlot))
      {
        var refused, slot := ClaimRegion(rm, regs[i]);
        if refused.Some? { return refused; }
        baseToSlot := baseToSlot[regs[i].start := slot];
        i := i + 1;
      }
      regions := regs;
      error := None;
    }
  }
}
