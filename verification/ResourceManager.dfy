/**
 The resource manager of a virtual machine: six pools, their allocate and free calls, and
 the device-level request list with its rollback.
 */
module ResourceManagers {
  import opened Prelude
  import opened IntervalTrees
  import opened ResourcePools

  datatype PoolId = LegacyIrqs | MsiIrqs | Pio | Mmio | Mem | KvmSlots

  /** The architecture constants; `irqBase` is also the shared interrupt. */
  datatype Layout = Layout(
    x86: bool, irqBase: u32, irqMax: u32, msiBase: u32, msiMax: u32,
    memStart: u64, memEnd: u64, physEnd: u64, mmioLowStart: u64, mmioLowEnd: u64)

  const MMIO_SPACE_RESERVED: u64 := 0x400_0000

  datatype ResourceError = InvalidResourceRange | NoAvailResource

  /** A call returns, fails, or panics and leaves the manager unusable. */
  datatype Outcome<+T> = Ok(value: T) | Err(error: ResourceError) | Panicked

  datatype ResourceConstraint =
    | PioAddress(pioRange: Option<(u16, u16)>, pioAlign: u16, pioSize: u16)
    | MmioAddress(range: Option<(u64, u64)>, align: u64, size: u64)
    | MemAddress(range: Option<(u64, u64)>, align: u64, size: u64)
    | LegacyIrq(irq: Option<u32>)
    | PciMsiIrq(count: u32)
    | PciMsixIrq(count: u32)
    | GenericIrq(count: u32)
    | KvmMemSlot(slot: Option<u32>, slots: u32)

  datatype MsiIrqType = PciMsi | PciMsix | GenericMsi

  datatype Resource =
    | PioAddressRange(pioBase: u16, pioSize: u16)
    | MmioAddressRange(base: u64, size: u64)
    | MemAddressRange(base: u64, size: u64)
    | LegacyIrqNumber(irq: u32)
    | MsiIrq(ty: MsiIrqType, irqs: u32, count: u32)
    | KvmSlot(slot: u32)
    | MacAddress

  datatype Pools = Pools(legacy: Tree, msi: Tree, pio: Tree, mmio: Tree, mem: Tree, kvm: Tree) {
    function Get(id: PoolId): Tree {
      match id
      case LegacyIrqs => legacy
      case MsiIrqs => msi
      case Pio => pio
      case Mmio => mmio
      case Mem => mem
      case KvmSlots => kvm
    }

    function Set(id: PoolId, t: Tree): (p: Pools)
      ensures p.Get(id) == t && forall other | other != id :: p.Get(other) == Get(other)
    {
      match id
      case LegacyIrqs => this.(legacy := t)
      case MsiIrqs => this.(msi := t)
      case Pio => this.(pio := t)
      case Mmio => this.(mmio := t)
      case Mem => this.(mem := t)
      case KvmSlots => this.(kvm := t)
    }
  }

  // ---------------------------------------------------------------- building the pools

  /** The guest memory range and the low MMIO window do not share an address, or the window is one address. */
  predicate NoHole(l: Layout) {
    l.memEnd < l.mmioLowStart || l.memStart > l.mmioLowEnd || l.mmioLowStart == l.mmioLowEnd
  }

  /** A layout whose constants are ordered and leave the last 64-bit address alone. */
  predicate Sane(l: Layout) {
    && l.irqBase < l.irqMax && l.msiBase <= l.msiMax < U32_MAX
    && l.memStart <= l.memEnd <= l.physEnd < U64_MAX
    && l.mmioLowStart <= l.mmioLowEnd < U64_MAX
  }

  /** The ranges the builder inserts, pool by pool; `slots` is the highest KVM slot. */
  function Seeds(l: Layout, slots: u32, id: PoolId): set<Range> {
    match id
    case LegacyIrqs => {Range(l.irqBase + 1, l.irqMax)}
    case MsiIrqs => {Range(l.msiBase, l.msiMax)}
    case Pio => {Range(0, U16_MAX)}
    case Mmio =>
      {Range(l.mmioLowStart, l.mmioLowEnd)} +
      if l.memEnd < l.physEnd then {Range(l.memEnd + 1, l.physEnd)} else {}
    case Mem =>
      if NoHole(l) then {Range(l.memStart, l.memEnd)}
      else
        (if l.memStart < l.mmioLowStart then {Range(l.memStart, l.mmioLowStart - 1)} else {}) +
        (if l.mmioLowEnd < l.memEnd then {Range(l.mmioLowEnd + 1, l.memEnd)} else {})
    case KvmSlots => {Range(0, slots)}
  }

  predicate InPool(l: Layout, slots: u32, id: PoolId, a: int) {
    exists r <- Seeds(l, slots, id) :: r.Has(a)
  }

  /** Insert a seed; `None` is the panic on a range that meets another one. */
  function InsertSeed(t: Tree, r: Range): (s: Option<Tree>)
    requires Sound(t)
    ensures s.Some? ==> Sound(s.value)
  {
    if Blocked(t, r) then None else Some(Insert(t, r))
  }

  function BuildMem(l: Layout): (t: Option<Tree>)
    ensures t.Some? ==> Sound(t.value)
  {
    if NoHole(l) then InsertSeed(Leaf, Range(l.memStart, l.memEnd))
    else
      var low := if l.memStart < l.mmioLowStart
                 then Insert(Leaf, Range(l.memStart, l.mmioLowStart - 1)) else Leaf;
      if l.mmioLowEnd < l.memEnd then InsertSeed(low, Range(l.mmioLowEnd + 1, l.memEnd)) else Some(low)
  }

  /** The request that sets the top of the low window aside on x86. */
  function Reservation(l: Layout): Constraint
    requires MMIO_SPACE_RESERVED <= l.mmioLowEnd
  {
    Constraint(MMIO_SPACE_RESERVED, l.mmioLowEnd - MMIO_SPACE_RESERVED, 0xffff_ffff, 1)
  }

  /** The low window with, on x86, its top 64 MiB set aside. */
  function LowWindow(l: Layout): (t: Option<Tree>)
    ensures t.Some? ==> Sound(t.value)
  {
    var window := Insert(Leaf, Range(l.mmioLowStart, l.mmioLowEnd));
    if NoHole(l) || !l.x86 then Some(window)
    else if l.mmioLowEnd < MMIO_SPACE_RESERVED then None
    else
      var taken := Take(window, Reservation(l), true);
      if taken.None? then None else Some(taken.value.1)
  }

  function BuildMmio(l: Layout): (t: Option<Tree>)
    ensures t.Some? ==> Sound(t.value)
  {
    var low := LowWindow(l);
    if low.None? || l.physEnd <= l.memEnd then low
    else InsertSeed(low.value, Range(l.memEnd + 1, l.physEnd))
  }

  function NewPools(l: Layout, slots: u32): (p: Option<Pools>)
    ensures p.Some? ==> AllSound(p.value)
  {
    var mmio, mem := BuildMmio(l), BuildMem(l);
    if mmio.None? || mem.None? then None
    else Some(Pools(
      Insert(Leaf, Range(l.irqBase + 1, l.irqMax)), Insert(Leaf, Range(l.msiBase, l.msiMax)),
      Insert(Leaf, Range(0, U16_MAX)), mmio.value, mem.value, Insert(Leaf, Range(0, slots))))
  }

  /** Where the x86 reservation starts. */
  function ReservedFrom(l: Layout): int {
    Max(l.mmioLowStart, l.mmioLowEnd - MMIO_SPACE_RESERVED)
  }

  /** `a` is an address of the low window that the builder leaves free. */
  predicate LowFree(l: Layout, a: int) {
    && l.mmioLowStart <= a <= l.mmioLowEnd
    && (NoHole(l) || !l.x86 || !(ReservedFrom(l) <= a < ReservedFrom(l) + MMIO_SPACE_RESERVED))
  }

  /** The free part of the low window and the high window touch, so the MMIO pool starts with a seam. */
  predicate Touching(l: Layout) {
    l.memEnd < l.physEnd && (LowFree(l, l.memEnd) || LowFree(l, l.physEnd + 1))
  }

  predicate Seamless(l: Layout, id: PoolId) { id != Mmio || !Touching(l) }

  /**
   Pool `id` is a sound tree made of exactly the identifiers the builder put there, in which
   no two free entries touch unless the layout made them.
   */
  ghost predicate ManagedPool(l: Layout, slots: u32, id: PoolId, t: Tree) {
    && Valid(t) && (Seamless(l, id) ==> Coalesced(Entries(t)))
    && forall a :: Covers(t, a) <==> InPool(l, slots, id, a)
  }

  ghost predicate Managed(l: Layout, slots: u32, p: Pools) {
    forall id :: ManagedPool(l, slots, id, p.Get(id))
  }

  lemma SeedPanics(t: Tree, r: Range)
    requires Valid(t) && r.Proper()
    ensures InsertSeed(t, r).Some? <==> Clear(t, r)
  {
    InsertPanics(t, r, 0, U64_MAX + 1);
  }

  lemma SeedSpec(t: Tree, r: Range)
    requires Valid(t) && r.Proper()
    ensures Clear(t, r) ==>
      && InsertSeed(t, r).Some?
      && Valid(InsertSeed(t, r).value)
      && Entries(InsertSeed(t, r).value) == Entries(t) + {Entry(r, Free)}
      && forall a :: Covers(InsertSeed(t, r).value, a) <==> Covers(t, a) || r.Has(a)
  {
    InsertPanics(t, r, 0, U64_MAX + 1);
    hide Entries, Within, Sound, Insert, Blocked;
    if Clear(t, r) {
      InsertSpec(t, r);
      assert Entry(r, Free) in Entries(Insert(t, r));
    }
  }

  lemma SingleSpec(r: Range)
    requires r.Proper()
    ensures Valid(Insert(Leaf, r)) && Entries(Insert(Leaf, r)) == {Entry(r, Free)}
    ensures InsertSeed(Leaf, r) == Some(Insert(Leaf, r))
    ensures forall a :: Covers(Insert(Leaf, r), a) <==> r.Has(a)
  {
    SeedSpec(Leaf, r);
  }

  lemma BuildMemEntries(l: Layout, slots: u32)
    requires Sane(l)
    ensures BuildMem(l).Some? && Valid(BuildMem(l).value)
    ensures Entries(BuildMem(l).value) == set r <- Seeds(l, slots, Mem) :: Entry(r, Free)
  {
    hide Insert, InsertSeed;
    if NoHole(l) {
      SingleSpec(Range(l.memStart, l.memEnd));
    } else {
      var low, high := Range(l.memStart, l.mmioLowStart - 1), Range(l.mmioLowEnd + 1, l.memEnd);
      var t := if l.memStart < l.mmioLowStart then Insert(Leaf, low) else Leaf;
      if l.memStart < l.mmioLowStart { SingleSpec(low); }
      if l.mmioLowEnd < l.memEnd { SeedSpec(t, high); }
    }
  }

  lemma BuildMemSpec(l: Layout, slots: u32)
    requires Sane(l)
    ensures BuildMem(l).Some? && ManagedPool(l, slots, Mem, BuildMem(l).value)
    ensures Entries(BuildMem(l).value) == set r <- Seeds(l, slots, Mem) :: Entry(r, Free)
  {
    hide Valid, BuildMem, Entries;
    BuildMemEntries(l, slots);
    var t := BuildMem(l).value;
    assert Coalesced(Entries(t));
    hide Seeds;
    forall a ensures Covers(t, a) <==> InPool(l, slots, Mem, a) {
      if InPool(l, slots, Mem, a) {
        var r :| r in Seeds(l, slots, Mem) && r.Has(a);
        assert Entry(r, Free) in Entries(t);
      }
    }
  }

  lemma LowWindowSpec(l: Layout)
    requires Sane(l) && LowWindow(l).Some?
    ensures Pool(LowWindow(l).value)
    ensures forall a :: Covers(LowWindow(l).value, a) <==> Range(l.mmioLowStart, l.mmioLowEnd).Has(a)
    ensures forall a :: FreeAt(LowWindow(l).value, a) <==> LowFree(l, a)
  {
    var r := Range(l.mmioLowStart, l.mmioLowEnd);
    SingleSpec(r);
    assert forall a :: FreeAt(Insert(Leaf, r), a) <==> r.Has(a) by {
      assert Entry(r, Free) in Entries(Insert(Leaf, r));
    }
    hide Entries, Within, Sound, Insert, Take, Covers, FreeAt;
    if !NoHole(l) && l.x86 {
      var window := Insert(Leaf, r);
      ReservationTaken(l);
      TakeGrants(window, Reservation(l), true);
      var (g, t) := Take(window, Reservation(l), true).value;
      GrantsKeepCover(window, Reservation(l), g, t);
    }
  }

  /** The reservation takes its 64 MiB from the lowest address its bounds allow. */
  lemma ReservationTaken(l: Layout)
    requires l.mmioLowStart <= l.mmioLowEnd && MMIO_SPACE_RESERVED <= l.mmioLowEnd
    ensures var taken := Take(Insert(Leaf, Range(l.mmioLowStart, l.mmioLowEnd)), Reservation(l), true);
      && (taken.Some? <==> ReservedFrom(l) + MMIO_SPACE_RESERVED - 1 <= Min(l.mmioLowEnd, 0xffff_ffff))
      && (taken.Some? ==> taken.value.0 == Range(ReservedFrom(l), ReservedFrom(l) + MMIO_SPACE_RESERVED - 1))
  {
    var r, c := Range(l.mmioLowStart, l.mmioLowEnd), Reservation(l);
    var window := Insert(Leaf, r);
    assert Candidate(r, c) ==
      if ReservedFrom(l) + MMIO_SPACE_RESERVED - 1 <= Min(l.mmioLowEnd, 0xffff_ffff)
      then Some(Range(ReservedFrom(l), Min(l.mmioLowEnd, 0xffff_ffff))) else None;
    assert FirstMatch(window, c) == if Candidate(r, c).Some? then Some(Entry(r, Free)) else None;
    hide Update, Carve, Candidate, FirstMatch, Insert, Sound;
    assert Candidate(r, c).Some? ==>
      Allocate(window, c).value.0 == Range(ReservedFrom(l), ReservedFrom(l) + MMIO_SPACE_RESERVED - 1);
  }

  lemma CoverMeansClear(t: Tree, whole: Range, r: Range)
    requires Valid(t) && r.Proper() && forall a :: Covers(t, a) <==> whole.Has(a)
    ensures Clear(t, r) <==> !whole.Meets(r)
  {
    DisjointSpec(t);
    hide Entries, Within, Sound;
    forall e <- Entries(t) | e.key.Meets(r) ensures whole.Meets(r) {
      assert Covers(t, Max(e.key.min, r.min));
    }
    if whole.Meets(r) {
      assert Covers(t, Max(whole.min, r.min));
    }
  }

  lemma MmioSeeds(l: Layout, slots: u32, a: int)
    ensures InPool(l, slots, Mmio, a) <==>
      Range(l.mmioLowStart, l.mmioLowEnd).Has(a) || (l.memEnd < l.physEnd && Range(l.memEnd + 1, l.physEnd).Has(a))
  {
    var low, high := Range(l.mmioLowStart, l.mmioLowEnd), Range(l.memEnd + 1, l.physEnd);
    assert low in Seeds(l, slots, Mmio);
    assert l.memEnd < l.physEnd ==> high in Seeds(l, slots, Mmio);
  }

  lemma BuildMmioSpec(l: Layout, slots: u32)
    requires Sane(l) && BuildMmio(l).Some?
    ensures ManagedPool(l, slots, Mmio, BuildMmio(l).value)
  {
    hide Valid, Insert, Covers, LowWindow, InsertSeed, InPool, Clear, Entries, Sound, Coalesced, Touching;
    LowWindowSpec(l);
    MmioSeam(l);
    if l.memEnd < l.physEnd {
      var high := Range(l.memEnd + 1, l.physEnd);
      SeedPanics(LowWindow(l).value, high);
      SeedSpec(LowWindow(l).value, high);
    }
    forall a ensures Covers(BuildMmio(l).value, a) <==> InPool(l, slots, Mmio, a) {
      MmioSeeds(l, slots, a);
    }
  }

  /** The MMIO pool starts without a seam exactly when its two windows do not touch. */
  lemma MmioSeam(l: Layout)
    requires Sane(l) && BuildMmio(l).Some?
    ensures Coalesced(Entries(BuildMmio(l).value)) <==> !Touching(l)
  {
    hide Insert, Covers, LowWindow, InsertSeed, Clear, Entries, Sound, Coalesced, FreeIn, LowFree;
    LowWindowSpec(l);
    if l.memEnd < l.physEnd {
      var t, high := LowWindow(l).value, Range(l.memEnd + 1, l.physEnd);
      SeedPanics(t, high);
      SeedSpec(t, high);
      DisjointSpec(InsertSeed(t, high).value);
      ClearHasNot(t, high);
      AddedCoalesced(Entries(t), high);
      assert FreeAt(t, l.memEnd) <==> LowFree(l, l.memEnd);
      assert FreeAt(t, l.physEnd + 1) <==> LowFree(l, l.physEnd + 1);
    }
  }

  lemma ClearHasNot(t: Tree, r: Range)
    requires Clear(t, r) && r.Proper()
    ensures Entry(r, Free) !in Entries(t)
  {
    hide Entries;
  }

  lemma SinglePool(l: Layout, slots: u32, id: PoolId, r: Range)
    requires r.Proper() && Seeds(l, slots, id) == {r}
    ensures ManagedPool(l, slots, id, Insert(Leaf, r))
  {
    hide Entries, Valid, Insert, Covers, Seeds, Seamless;
    SingleSpec(r);
    forall a ensures InPool(l, slots, id, a) <==> r.Has(a) {
      assert r in Seeds(l, slots, id);
    }
  }

  /** A freshly built manager is managed. */
  lemma NewIsManaged(l: Layout, slots: u32)
    requires Sane(l) && NewPools(l, slots).Some?
    ensures Managed(l, slots, NewPools(l, slots).value)
  {
    hide ManagedPool, Insert, BuildMem, BuildMmio, Entries;
    BuildMemSpec(l, slots);
    BuildMmioSpec(l, slots);
    SinglePool(l, slots, LegacyIrqs, Range(l.irqBase + 1, l.irqMax));
    SinglePool(l, slots, MsiIrqs, Range(l.msiBase, l.msiMax));
    SinglePool(l, slots, Pio, Range(0, U16_MAX));
    SinglePool(l, slots, KvmSlots, Range(0, slots));
  }

  /**
   Guest memory and MMIO share an address in exactly one kind of layout: a low window of
   a single address that lies inside guest memory. The pools keep what they were built
   from, so this settles the question for every later state as well.
   */
  lemma MemoryMeetsMmioExactly(l: Layout, slots: u32, p: Pools)
    requires Sane(l) && Managed(l, slots, p)
    ensures (exists a :: Covers(p.Get(Mem), a) && Covers(p.Get(Mmio), a))
       <==> l.mmioLowStart == l.mmioLowEnd && l.memStart <= l.mmioLowStart <= l.memEnd
  {
    assert ManagedPool(l, slots, Mem, p.Get(Mem)) && ManagedPool(l, slots, Mmio, p.Get(Mmio));
    hide Covers;
    var a := l.mmioLowStart;
    if l.mmioLowStart == l.mmioLowEnd && l.memStart <= a <= l.memEnd {
      assert Range(l.memStart, l.memEnd) in Seeds(l, slots, Mem);
      assert Range(l.mmioLowStart, l.mmioLowEnd) in Seeds(l, slots, Mmio);
      assert InPool(l, slots, Mem, a) && InPool(l, slots, Mmio, a);
    }
  }

  /**
   The x86 reservation is one address low: it spans `[end - 64 MiB, end - 1]`, so the last
   address of the window stays free although it lies in the range meant to be set aside.
   */
  lemma ReservationIsOneLow(l: Layout)
    requires Sane(l) && l.x86 && !NoHole(l)
    requires l.mmioLowStart + MMIO_SPACE_RESERVED <= l.mmioLowEnd <= 0xffff_ffff
    ensures LowWindow(l).Some?
    ensures HeldKeys(LowWindow(l).value) == {Range(l.mmioLowEnd - MMIO_SPACE_RESERVED, l.mmioLowEnd - 1)}
    ensures FreeAt(LowWindow(l).value, l.mmioLowEnd)
  {
    LowWindowExists(l);
    var r, c := Range(l.mmioLowStart, l.mmioLowEnd), Reservation(l);
    SingleSpec(r);
    ReservationTaken(l);
    LowWindowSpec(l);
    hide Entries, Insert, Sound, Within, Take, Covers, FreeAt;
    var window := Insert(Leaf, r);
    assert HeldKeys(window) == {};
    TakeGrants(window, c, true);
  }

  /** When the low window can be set up: on x86 with a hole, the reservation has to fit. */
  predicate ReservationFits(l: Layout) {
    NoHole(l) || !l.x86 ||
    (&& MMIO_SPACE_RESERVED <= l.mmioLowEnd
     && ReservedFrom(l) + MMIO_SPACE_RESERVED - 1 <= Min(l.mmioLowEnd, 0xffff_ffff))
  }

  lemma LowWindowExists(l: Layout)
    requires Sane(l)
    ensures LowWindow(l).Some? <==> ReservationFits(l)
  {
    if !NoHole(l) && l.x86 && MMIO_SPACE_RESERVED <= l.mmioLowEnd {
      hide Insert, Take;
      ReservationTaken(l);
    }
  }

  lemma BuildMmioExists(l: Layout)
    requires Sane(l) && LowWindow(l).Some? && l.memEnd < l.physEnd
    ensures BuildMmio(l).Some? <==> l.mmioLowEnd <= l.memEnd || l.physEnd < l.mmioLowStart
  {
    hide Entries, Within, Sound, Insert, Covers, LowWindow, Clear, InsertSeed;
    LowWindowSpec(l);
    var low, high := Range(l.mmioLowStart, l.mmioLowEnd), Range(l.memEnd + 1, l.physEnd);
    SeedPanics(LowWindow(l).value, high);
    CoverMeansClear(LowWindow(l).value, low, high);
  }

  /** The builder panics exactly when the reservation does not fit or the two MMIO ranges meet. */
  lemma NewPanicsExactly(l: Layout, slots: u32)
    requires Sane(l)
    ensures NewPools(l, slots).Some? <==>
      && ReservationFits(l)
      && (l.memEnd < l.physEnd ==> l.mmioLowEnd <= l.memEnd || l.physEnd < l.mmioLowStart)
  {
    BuildMemSpec(l, slots);
    LowWindowExists(l);
    hide Insert, LowWindow, BuildMem, ReservationFits;
    if LowWindow(l).Some? && l.memEnd < l.physEnd {
      BuildMmioExists(l);
    }
  }

  // ---------------------------------------------------------------- one request

  /** Pools other than memory and MMIO mark their grants with a value. */
  predicate Marks(id: PoolId) { id != Mmio && id != Mem }

  function Bounded(size: u64, align: u64, range: Option<(u64, u64)>): Constraint {
    match range
    case None => Constraint(size, 0, U64_MAX, align)
    case Some((lo, hi)) => Constraint(size, lo, hi, align)
  }

  function Fixed(size: u32, at: Option<u32>): Constraint {
    match at
    case None => Anywhere(size)
    case Some(v) => Constraint(size, v, v, 1)
  }

  /** The pool a request goes to and the constraint it is turned into. */
  function Wants(req: ResourceConstraint): (PoolId, Constraint) {
    match req
    case PioAddress(range, align, size) =>
      (Pio, Bounded(size, align, if range.None? then None else Some((range.value.0, range.value.1))))
    case MmioAddress(range, align, size) => (Mmio, Bounded(size, align, range))
    case MemAddress(range, align, size) => (Mem, Bounded(size, align, range))
    case LegacyIrq(irq) => (LegacyIrqs, Fixed(1, irq))
    case PciMsiIrq(count) => (MsiIrqs, Anywhere(count).(align := count))
    case PciMsixIrq(count) => (MsiIrqs, Anywhere(count))
    case GenericIrq(count) => (MsiIrqs, Anywhere(count))
    case KvmMemSlot(slot, slots) => (KvmSlots, Fixed(slots, slot))
  }

  function AsU16(x: int): u16 { x % (U16_MAX + 1) }

  function AsU32(x: int): u32 { x % (U32_MAX + 1) }

  function AsU64(x: int): u64 { x % (U64_MAX + 1) }

  /** The resource recorded for a grant; the Rust casts are explicit. */
  function Describe(req: ResourceConstraint, base: u64): Resource {
    match req
    case PioAddress(_, _, size) => PioAddressRange(AsU16(base), size)
    case MmioAddress(_, _, size) => MmioAddressRange(base, size)
    case MemAddress(_, _, size) => MemAddressRange(base, size)
    case LegacyIrq(_) => LegacyIrqNumber(AsU32(base))
    case PciMsiIrq(count) => MsiIrq(PciMsi, AsU32(base), count)
    case PciMsixIrq(count) => MsiIrq(PciMsix, AsU32(base), count)
    case GenericIrq(count) => MsiIrq(GenericMsi, AsU32(base), count)
    case KvmMemSlot(_, _) => KvmSlot(AsU32(base))
  }

  /** A recorded resource together with what was really taken, if anything. */
  datatype Grant = Grant(res: Resource, taken: Option<(PoolId, Range)>)

  predicate AllSound(p: Pools) { forall id :: Sound(p.Get(id)) }

  function AllocOne(l: Layout, p: Pools, req: ResourceConstraint, shared: bool): (g: Option<(Grant, Pools)>)
    requires AllSound(p)
    ensures g.Some? ==> AllSound(g.value.1)
  {
    if req.LegacyIrq? && shared then Some((Grant(LegacyIrqNumber(l.irqBase), None), p))
    else if req.LegacyIrq? && req.irq == Some(l.irqBase) then None
    else
      var (id, c) := Wants(req);
      var taken := Take(p.Get(id), c, Marks(id));
      if taken.None? then None
      else
        var (r, t) := taken.value;
        Some((Grant(Describe(req, AsU64(r.min)), Some((id, r))), p.Set(id, t)))
  }

  /** The ranges a list of grants takes from one pool. */
  function TakenIn(gs: seq<Grant>, id: PoolId): set<Range> {
    set g <- gs | g.taken.Some? && g.taken.value.0 == id :: g.taken.value.1
  }

  predicate TakesAt(gs: seq<Grant>, id: PoolId, a: int) {
    exists r <- TakenIn(gs, id) :: r.Has(a)
  }

  /** The pool that serves a kind of request. */
  function PoolFor(req: ResourceConstraint): PoolId {
    if req.PioAddress? then Pio
    else if req.MmioAddress? then Mmio
    else if req.MemAddress? then Mem
    else if req.LegacyIrq? then LegacyIrqs
    else if req.KvmMemSlot? then KvmSlots
    else MsiIrqs
  }

  /** A range of the size asked for, inside the bounds asked for, whose start has the alignment asked for. */
  predicate Placed(r: Range, size: int, align: u64, range: Option<(int, int)>) {
    && r.Len() == size && Alignable(align) && (align > 1 ==> r.min % align == 0)
    && (range.Some? ==> range.value.0 <= r.min && r.max <= range.value.1)
  }

  /** A range of identifiers that meets a request, by the request's own fields. */
  predicate Serves(req: ResourceConstraint, r: Range) {
    r.Proper() &&
    match req
    case PioAddress(range, align, size) =>
      Placed(r, size, align, if range.Some? then Some((range.value.0 as int, range.value.1 as int)) else None)
    case MmioAddress(range, align, size) =>
      Placed(r, size, align, if range.Some? then Some((range.value.0 as int, range.value.1 as int)) else None)
    case MemAddress(range, align, size) =>
      Placed(r, size, align, if range.Some? then Some((range.value.0 as int, range.value.1 as int)) else None)
    case LegacyIrq(irq) => r.min == r.max && (irq.Some? ==> irq.value == r.min)
    case PciMsiIrq(n) => r.Len() == n && Alignable(n) && r.min % n == 0
    case PciMsixIrq(n) => r.Len() == n
    case GenericIrq(n) => r.Len() == n
    case KvmMemSlot(slot, n) => r.Len() == n && (slot.Some? ==> slot.value == r.min == r.max)
  }

  /** The resource names the range: its kind, its first identifier and its size, where it has one. */
  predicate Names(res: Resource, req: ResourceConstraint, r: Range) {
    match req
    case PioAddress(_, _, _) => res.PioAddressRange? && res.pioBase == r.min && res.pioSize == r.Len()
    case MmioAddress(_, _, _) => res.MmioAddressRange? && res.base == r.min && res.size == r.Len()
    case MemAddress(_, _, _) => res.MemAddressRange? && res.base == r.min && res.size == r.Len()
    case LegacyIrq(_) => res.LegacyIrqNumber? && res.irq == r.min
    case PciMsiIrq(_) => res.MsiIrq? && res.ty == PciMsi && res.irqs == r.min && res.count == r.Len()
    case PciMsixIrq(_) => res.MsiIrq? && res.ty == PciMsix && res.irqs == r.min && res.count == r.Len()
    case GenericIrq(_) => res.MsiIrq? && res.ty == GenericMsi && res.irqs == r.min && res.count == r.Len()
    case KvmMemSlot(_, _) => res.KvmSlot? && res.slot == r.min
  }

  lemma WantsFromPool(req: ResourceConstraint)
    ensures Wants(req).0 == PoolFor(req)
  {
  }

  /** The constraint a request is turned into admits exactly the ranges that serve it. */
  lemma WantsIsServes(req: ResourceConstraint, r: Range)
    requires r.Proper()
    ensures Wants(req).0 == PoolFor(req)
    ensures Serves(req, r) <==> r.Len() == Wants(req).1.size && Suits(Wants(req).1, r.min)
  {
    hide PowerOfTwo;
  }

  /** The grant meets its request: a range of the right pool that serves it, named by the resource. */
  ghost predicate Answers(l: Layout, slots: u32, req: ResourceConstraint, shared: bool, g: Grant) {
    if req.LegacyIrq? && shared then g == Grant(LegacyIrqNumber(l.irqBase), None)
    else
      && g.taken.Some? && g.taken.value.0 == PoolFor(req)
      && var r := g.taken.value.1;
         && Serves(req, r) && Names(g.res, req, r)
         && (forall a | r.Has(a) :: InPool(l, slots, PoolFor(req), a))
  }

  /** Some range serves the request and all of it is free. */
  ghost predicate Available(p: Pools, req: ResourceConstraint) {
    exists r: Range :: Serves(req, r) && forall a | r.Has(a) :: FreeAt(p.Get(PoolFor(req)), a)
  }

  /** `q` is `p` with exactly the grants `gs` moved from free to in use. */
  ghost predicate Moved(p: Pools, gs: seq<Grant>, q: Pools) {
    && (forall id, a :: FreeAt(q.Get(id), a) <==> FreeAt(p.Get(id), a) && !TakesAt(gs, id, a))
    && (forall id, a | TakesAt(gs, id, a) :: FreeAt(p.Get(id), a))
    && (forall id :: HeldKeys(q.Get(id)) == HeldKeys(p.Get(id)) + TakenIn(gs, id))
    && (forall id :: HeldKeys(p.Get(id)) !! TakenIn(gs, id))
  }

  lemma ManagedIsSound(l: Layout, slots: u32, p: Pools)
    requires Managed(l, slots, p)
    ensures AllSound(p)
  {
    forall id ensures Sound(p.Get(id)) {
      assert ManagedPool(l, slots, id, p.Get(id));
    }
  }

  /** Replacing one pool by another made of the same identifiers keeps the manager managed. */
  lemma SetKeepsManaged(l: Layout, slots: u32, p: Pools, id: PoolId, t: Tree)
    requires Managed(l, slots, p) && Valid(t) && forall a :: Covers(t, a) <==> Covers(p.Get(id), a)
    requires Coalesced(Entries(p.Get(id))) ==> Coalesced(Entries(t))
    ensures Managed(l, slots, p.Set(id, t))
  {
    hide Entries, Within, Sound, Covers, InPool, Coalesced, Seamless;
    forall other ensures ManagedPool(l, slots, other, p.Set(id, t).Get(other)) {
      assert ManagedPool(l, slots, other, p.Get(other));
    }
  }

  lemma PoolBounds(l: Layout, slots: u32, id: PoolId, a: int)
    requires Sane(l) && InPool(l, slots, id, a)
    ensures 0 <= a < U64_MAX
    ensures id == Pio ==> a <= U16_MAX
    ensures id == LegacyIrqs ==> l.irqBase < a <= l.irqMax
    ensures id == MsiIrqs ==> l.msiBase <= a <= l.msiMax
    ensures id == KvmSlots ==> a <= slots
    ensures id == Mem ==> l.memStart <= a <= l.memEnd
  {
  }

  /** A grant from any pool of a managed set stays inside the pool and keeps the set managed. */
  lemma TakeFromPool(l: Layout, slots: u32, p: Pools, id: PoolId, c: Constraint)
    requires Managed(l, slots, p) && AllSound(p) && Take(p.Get(id), c, Marks(id)).Some?
    ensures var (r, t) := Take(p.Get(id), c, Marks(id)).value;
      && Grants(p.Get(id), c, r, t) && Managed(l, slots, p.Set(id, t))
      && forall a | r.Has(a) :: InPool(l, slots, id, a)
  {
    hide Entries, Within, Sound, Covers, InPool, Take, FreeAt, HeldKeys;
    var t := p.Get(id);
    assert ManagedPool(l, slots, id, t);
    TakeGrants(t, c, Marks(id));
    var (r, t') := Take(t, c, Marks(id)).value;
    GrantsKeepCover(t, c, r, t');
    SetKeepsManaged(l, slots, p, id, t');
    forall a | r.Has(a) ensures InPool(l, slots, id, a) {
      CoversIsFreeOrHeld(t, a);
    }
  }

  lemma GrantAnswers(l: Layout, slots: u32, req: ResourceConstraint, shared: bool, r: Range)
    requires Sane(l) && !(req.LegacyIrq? && shared)
    requires r.Proper() && r.Len() == Wants(req).1.size && Suits(Wants(req).1, r.min)
    requires forall a | r.Has(a) :: InPool(l, slots, Wants(req).0, a)
    ensures Answers(l, slots, req, shared, Grant(Describe(req, r.min), Some((Wants(req).0, r))))
  {
    WantsIsServes(req, r);
    NamedBy(l, slots, req, r);
    hide InPool, Suits, Describe, Serves, Names, Wants;
  }

  lemma NamedBy(l: Layout, slots: u32, req: ResourceConstraint, r: Range)
    requires Sane(l) && Serves(req, r) && InPool(l, slots, PoolFor(req), r.min)
    ensures Names(Describe(req, r.min), req, r)
  {
    PoolBounds(l, slots, PoolFor(req), r.min);
    hide InPool, AsU16, AsU32, Alignable;
    assert r.min <= U16_MAX ==> AsU16(r.min) == r.min by { AsU16Fits(r.min); }
    assert r.min <= U32_MAX ==> AsU32(r.min) == r.min by { AsU32Fits(r.min); }
  }

  lemma AsU16Fits(x: nat)
    ensures x <= U16_MAX ==> AsU16(x) == x
  {
  }

  lemma AsU32Fits(x: nat)
    ensures x <= U32_MAX ==> AsU32(x) == x
  {
  }

  lemma AsU64Fits(x: nat)
    ensures x <= U64_MAX ==> AsU64(x) == x
  {
  }

  lemma NothingTakenIsMoved(p: Pools, g: Grant)
    requires g.taken.None?
    ensures Moved(p, [g], p)
  {
    forall id ensures TakenIn([g], id) == {} {
    }
    hide FreeAt, HeldKeys;
  }

  lemma AllocOneSpec(l: Layout, slots: u32, p: Pools, req: ResourceConstraint, shared: bool)
    requires Sane(l) && Managed(l, slots, p) && AllSound(p) && AllocOne(l, p, req, shared).Some?
    ensures var (g, q) := AllocOne(l, p, req, shared).value;
      Managed(l, slots, q) && Answers(l, slots, req, shared, g) && Moved(p, [g], q)
  {
    hide Sound, InPool, Take, FreeAt, HeldKeys, Managed, Moved, Describe, Wants, Valid, Suits;
    var (g, q) := AllocOne(l, p, req, shared).value;
    if req.LegacyIrq? && shared {
      NothingTakenIsMoved(p, g);
    } else {
      hide Answers;
      var (id, c) := Wants(req);
      TakeFromPool(l, slots, p, id, c);
      var (r, t') := Take(p.Get(id), c, Marks(id)).value;
      GrantAnswers(l, slots, req, shared, r);
      GrantedIsMoved(p, g, id, c, r, t');
    }
  }

  lemma GrantedIsMoved(p: Pools, g: Grant, id: PoolId, c: Constraint, r: Range, t': Tree)
    requires g.taken == Some((id, r)) && Grants(p.Get(id), c, r, t')
    ensures Moved(p, [g], p.Set(id, t'))
  {
    hide Entries, Within, Sound, Covers, FreeAt, HeldKeys;
    assert g in [g];
    forall other ensures TakenIn([g], other) == if other == id then {r} else {} {
    }
  }

  // ---------------------------------------------------------------- the request list

  /** Grant requests from the front until one fails: the grants, the pools, and whether all were met. */
  function AllocAll(l: Layout, p: Pools, reqs: seq<ResourceConstraint>, shared: bool): (r: (seq<Grant>, Pools, bool))
    requires AllSound(p)
    decreases |reqs|
    ensures AllSound(r.1) && |r.0| <= |reqs| && (r.2 <==> |r.0| == |reqs|)
  {
    if reqs == [] then ([], p, true)
    else
      var first := AllocOne(l, p, reqs[0], shared);
      if first.None? then ([], p, false)
      else
        var (gs, q, done) := AllocAll(l, first.value.1, reqs[1..], shared);
        ([first.value.0] + gs, q, done)
  }

  /** Two grants from the same pool share no identifier. */
  predicate Apart(a: Grant, b: Grant) {
    a.taken.Some? && b.taken.Some? && a.taken.value.0 == b.taken.value.0 ==>
      !a.taken.value.1.Meets(b.taken.value.1)
  }

  predicate AllApart(gs: seq<Grant>) {
    forall i, j | 0 <= i < j < |gs| :: Apart(gs[i], gs[j])
  }

  ghost predicate AllAnswer(l: Layout, slots: u32, reqs: seq<ResourceConstraint>, shared: bool, gs: seq<Grant>) {
    |gs| <= |reqs| && forall i | 0 <= i < |gs| :: Answers(l, slots, reqs[i], shared, gs[i])
  }

  lemma TakenInCons(g: Grant, gs: seq<Grant>, id: PoolId)
    ensures TakenIn([g] + gs, id) == TakenIn([g], id) + TakenIn(gs, id)
  {
    forall x ensures x in [g] + gs <==> x in [g] || x in gs {
    }
  }

  lemma MovedTrans(p: Pools, g: Grant, p1: Pools, gs: seq<Grant>, q: Pools)
    requires Moved(p, [g], p1) && Moved(p1, gs, q)
    ensures Moved(p, [g] + gs, q)
  {
    hide FreeAt, HeldKeys, TakenIn;
    forall id ensures TakenIn([g] + gs, id) == TakenIn([g], id) + TakenIn(gs, id) {
      TakenInCons(g, gs, id);
    }
  }

  lemma LaterIsApart(p: Pools, g: Grant, p1: Pools, gs: seq<Grant>, q: Pools)
    requires Moved(p, [g], p1) && Moved(p1, gs, q)
    ensures forall h <- gs :: Apart(g, h)
  {
    hide FreeAt, HeldKeys;
    forall h <- gs ensures Apart(g, h) {
      if g.taken.Some? && h.taken.Some? && g.taken.value.0 == h.taken.value.0 {
        var id, r, s := g.taken.value.0, g.taken.value.1, h.taken.value.1;
        assert g in [g] && r in TakenIn([g], id) && s in TakenIn(gs, id);
        var a := Max(r.min, s.min);
        if r.Has(a) {
          assert TakesAt([g], id, a);
          assert !FreeAt(p1.Get(id), a);
          assert !TakesAt(gs, id, a);
        }
      }
    }
  }

  /** What a partial or complete run over the request list has done. */
  lemma {:induction false} AllocAllSpec(l: Layout, slots: u32, p: Pools, reqs: seq<ResourceConstraint>, shared: bool)
    requires Sane(l) && Managed(l, slots, p) && AllSound(p)
    ensures var (gs, q, done) := AllocAll(l, p, reqs, shared);
      && Managed(l, slots, q) && AllAnswer(l, slots, reqs, shared, gs)
      && Moved(p, gs, q) && AllApart(gs)
    decreases |reqs|
  {
    hide Sound, FreeAt, HeldKeys, Managed, Moved, Answers, TakenIn, AllocOne, Apart;
    var (gs, q, done) := AllocAll(l, p, reqs, shared);
    if gs == [] {
      NoGrantsMoved(p);
    } else {
      var (g, p1) := AllocOne(l, p, reqs[0], shared).value;
      AllocOneSpec(l, slots, p, reqs[0], shared);
      AllocAllSpec(l, slots, p1, reqs[1..], shared);
      var rest := AllocAll(l, p1, reqs[1..], shared).0;
      assert gs == [g] + rest;
      MovedTrans(p, g, p1, rest, q);
      LaterIsApart(p, g, p1, rest, q);
    }
  }

  lemma NoGrantsMoved(p: Pools)
    ensures Moved(p, [], p)
  {
    hide FreeAt, HeldKeys;
    forall id ensures TakenIn([], id) == {} {
    }
  }

  // ---------------------------------------------------------------- freeing

  /** The range checks of the `free_*` calls. */
  predicate FreeAccepts(l: Layout, res: Resource) {
    match res
    case PioAddressRange(base, size) => base + size <= U16_MAX
    case MmioAddressRange(base, size) => base + size <= U64_MAX
    case MemAddressRange(base, size) => base + size <= U64_MAX && l.memStart <= base && base + size <= l.memEnd
    case LegacyIrqNumber(irq) => l.irqBase <= irq <= l.irqMax
    case MsiIrq(_, irqs, count) =>
      l.msiBase <= irqs && count > 0 && irqs + count <= U32_MAX && irqs + count - 1 <= l.msiMax
    case KvmSlot(_) => true
    case MacAddress => true
  }

  /** The range a `free_*` call gives back; the shared interrupt and MAC addresses have none. */
  function Freed(l: Layout, res: Resource): Option<(PoolId, Range)> {
    match res
    case PioAddressRange(base, size) => Some((Pio, Range(base, base + size - 1)))
    case MmioAddressRange(base, size) => Some((Mmio, Range(base, base + size - 1)))
    case MemAddressRange(base, size) => Some((Mem, Range(base, base + size - 1)))
    case LegacyIrqNumber(irq) => if irq == l.irqBase then None else Some((LegacyIrqs, Range(irq, irq)))
    case MsiIrq(_, irqs, count) => Some((MsiIrqs, Range(irqs, irqs + count - 1)))
    case KvmSlot(slot) => Some((KvmSlots, Range(slot, slot)))
    case MacAddress => None
  }

  /**
   What the checks of the `free_*` calls amount to: an interrupt must be one of its pool, a port
   range or memory range must end before the last one, and no check is made of a slot.
   */
  lemma FreeAcceptsExactly(l: Layout, slots: u32, res: Resource)
    requires Sane(l) && Freed(l, res).Some? && Freed(l, res).value.1.Proper()
    ensures var (id, r) := Freed(l, res).value;
      FreeAccepts(l, res) <==>
        (id == LegacyIrqs || id == MsiIrqs ==> InPool(l, slots, id, r.min) && InPool(l, slots, id, r.max))
        && (id == Pio ==> r.max < U16_MAX)
        && (id == Mem ==> l.memStart <= r.min && r.max < l.memEnd)
        && (id == Mmio ==> r.max < U64_MAX)
  {
    var (id, r) := Freed(l, res).value;
    if id == LegacyIrqs || id == MsiIrqs {
      var seed := if id == MsiIrqs then Range(l.msiBase, l.msiMax) else Range(l.irqBase + 1, l.irqMax);
      assert Seeds(l, slots, id) == {seed};
      assert forall a :: InPool(l, slots, id, a) <==> seed.Has(a);
    }
    hide InPool;
  }

  /** Release a range; `Range::new` panics on an empty one. */
  function GiveBack(p: Pools, id: PoolId, key: Range): (r: Outcome<Pools>)
    requires AllSound(p) && 0 <= key.min && key.max < U64_MAX
    ensures r.Ok? ==> AllSound(r.value)
  {
    if key.max < key.min || ReleasePanics(p.Get(id), key) then Panicked
    else Ok(p.Set(id, Release(p.Get(id), key)))
  }

  function FreeOne(l: Layout, p: Pools, res: Resource): (r: Outcome<Pools>)
    requires AllSound(p)
    ensures r.Ok? ==> AllSound(r.value)
  {
    if !FreeAccepts(l, res) then Err(InvalidResourceRange)
    else
      match Freed(l, res)
      case None => Ok(p)
      case Some((id, key)) => GiveBack(p, id, key)
  }

  /** `free_device_resources`: free in order, stop at the first refusal. */
  function FreeAll(l: Layout, p: Pools, rs: seq<Resource>): (r: (Outcome<()>, Pools))
    requires AllSound(p)
    decreases |rs|
    ensures AllSound(r.1)
  {
    if rs == [] then (Ok(()), p)
    else
      match FreeOne(l, p, rs[0])
      case Ok(q) => FreeAll(l, q, rs[1..])
      case Err(e) => (Err(e), p)
      case Panicked => (Panicked, p)
  }

  /**
   A grant can be handed back: the range check of its `free_*` call lets it through and
   the call gives back all that was taken.
   */
  predicate Refundable(l: Layout, g: Grant) {
    FreeAccepts(l, g.res) && Freed(l, g.res) == g.taken
  }

  /** The grant does not end with the last port or the last address of guest memory, and has one slot at most. */
  predicate HandsBack(l: Layout, g: Grant) {
    g.taken.Some? ==>
      var (id, r) := g.taken.value;
      && (id == Pio ==> r.max < U16_MAX)
      && (id == Mem ==> r.max < l.memEnd)
      && (id == KvmSlots ==> r.min == r.max)
  }

  /** Exactly when an answered grant can be handed back. */
  lemma RefundableExactly(l: Layout, slots: u32, req: ResourceConstraint, shared: bool, g: Grant)
    requires Sane(l) && Answers(l, slots, req, shared, g)
    ensures Refundable(l, g) <==> HandsBack(l, g)
  {
    if g.taken.Some? {
      PoolBounds(l, slots, g.taken.value.0, g.taken.value.1.min);
      PoolBounds(l, slots, g.taken.value.0, g.taken.value.1.max);
    }
    hide InPool, Alignable;
  }

  /** `q` is `p` with exactly the grants `gs` moved from in use to free. */
  ghost predicate MovedBack(p: Pools, gs: seq<Grant>, q: Pools) {
    && (forall id, a :: FreeAt(q.Get(id), a) <==> FreeAt(p.Get(id), a) || TakesAt(gs, id, a))
    && (forall id :: HeldKeys(q.Get(id)) == HeldKeys(p.Get(id)) - TakenIn(gs, id))
  }

  predicate HoldsAll(p: Pools, gs: seq<Grant>) {
    forall g <- gs | g.taken.Some? :: g.taken.value.1 in HeldKeys(p.Get(g.taken.value.0))
  }

  /** Giving back a held range of any pool keeps the set managed. */
  lemma GiveToPool(l: Layout, slots: u32, p: Pools, id: PoolId, r: Range)
    requires Sane(l) && Managed(l, slots, p) && AllSound(p) && r in HeldKeys(p.Get(id))
    ensures r.Proper() && r.max < U64_MAX && !ReleasePanics(p.Get(id), r)
    ensures Gives(p.Get(id), r, Release(p.Get(id), r))
    ensures Managed(l, slots, p.Set(id, Release(p.Get(id), r)))
  {
    hide Entries, Within, Sound, Covers, InPool, Release, ReleasePanics, FreeAt, HeldKeys;
    var t := p.Get(id);
    assert ManagedPool(l, slots, id, t);
    NoTop(l, slots, id);
    ReleaseGives(t, r, U64_MAX);
    GivesKeepCover(t, r, Release(t, r));
    SetKeepsManaged(l, slots, p, id, Release(t, r));
    CoversIsFreeOrHeld(t, r.max);
    PoolBounds(l, slots, id, r.max);
  }

  lemma NoTop(l: Layout, slots: u32, id: PoolId)
    requires Sane(l)
    ensures !InPool(l, slots, id, U64_MAX)
  {
    if InPool(l, slots, id, U64_MAX) {
      PoolBounds(l, slots, id, U64_MAX);
    }
  }

  lemma FreeOneRefunds(l: Layout, slots: u32, p: Pools, g: Grant)
    requires Sane(l) && Managed(l, slots, p) && AllSound(p) && HoldsAll(p, [g]) && Refundable(l, g)
    ensures FreeOne(l, p, g.res).Ok?
    ensures Managed(l, slots, FreeOne(l, p, g.res).value) && MovedBack(p, [g], FreeOne(l, p, g.res).value)
  {
    assert g in [g];
    hide Sound, Release, ReleasePanics, FreeAt, HeldKeys, Managed, MovedBack, Valid, Gives, Freed;
    if g.taken.Some? {
      var (id, r) := g.taken.value;
      GiveToPool(l, slots, p, id, r);
      assert FreeOne(l, p, g.res) == Ok(p.Set(id, Release(p.Get(id), r)));
      GivenIsMovedBack(p, g, id, r, Release(p.Get(id), r));
    } else {
      assert FreeOne(l, p, g.res) == Ok(p);
      NothingMovedBack(p, g);
    }
  }

  lemma GivenIsMovedBack(p: Pools, g: Grant, id: PoolId, r: Range, t': Tree)
    requires g.taken == Some((id, r)) && Gives(p.Get(id), r, t')
    ensures MovedBack(p, [g], p.Set(id, t'))
  {
    hide Entries, Within, Sound, Covers, FreeAt, HeldKeys;
    assert g in [g];
    forall other ensures TakenIn([g], other) == if other == id then {r} else {} {
    }
  }

  lemma NothingMovedBack(p: Pools, g: Grant)
    requires g.taken.None?
    ensures MovedBack(p, [g], p)
  {
    forall id ensures TakenIn([g], id) == {} {
    }
    hide FreeAt, HeldKeys;
  }

  function Recorded(gs: seq<Grant>): (rs: seq<Resource>)
    ensures |rs| == |gs|
  {
    seq(|gs|, i requires 0 <= i < |gs| => gs[i].res)
  }

  lemma RecordedCons(g: Grant, gs: seq<Grant>)
    ensures Recorded([g] + gs)[0] == g.res && Recorded([g] + gs)[1..] == Recorded(gs)
  {
    assert forall i | 0 <= i < |gs| :: ([g] + gs)[i + 1] == gs[i];
  }

  lemma MovedBackTrans(p: Pools, g: Grant, p1: Pools, gs: seq<Grant>, q: Pools)
    requires MovedBack(p, [g], p1) && MovedBack(p1, gs, q)
    ensures MovedBack(p, [g] + gs, q)
  {
    hide FreeAt, HeldKeys, TakenIn;
    forall id ensures TakenIn([g] + gs, id) == TakenIn([g], id) + TakenIn(gs, id) {
      TakenInCons(g, gs, id);
    }
  }

  /** Grants apart from one that is handed back are still held afterwards. */
  lemma StillHeld(p: Pools, g: Grant, gs: seq<Grant>, p1: Pools)
    requires HoldsAll(p, gs) && MovedBack(p, [g], p1)
    requires forall h <- gs :: Apart(g, h) && (h.taken.Some? ==> h.taken.value.1.Proper())
    ensures HoldsAll(p1, gs)
  {
    hide FreeAt, HeldKeys;
    forall h <- gs | h.taken.Some? ensures h.taken.value.1 in HeldKeys(p1.Get(h.taken.value.0)) {
      var (id, r) := h.taken.value;
      assert HeldKeys(p1.Get(id)) == HeldKeys(p.Get(id)) - TakenIn([g], id);
      assert r !in TakenIn([g], id);
    }
  }

  predicate AllProper(gs: seq<Grant>) {
    forall g <- gs | g.taken.Some? :: g.taken.value.1.Proper()
  }

  /** What is true of the grants left to hand back, at every point of the rollback. */
  ghost predicate Pending(l: Layout, slots: u32, p: Pools, gs: seq<Grant>) {
    Managed(l, slots, p) && AllSound(p) && HoldsAll(p, gs) && AllApart(gs) && AllProper(gs)
  }

  /** One refund of the rollback. */
  lemma PendingStep(l: Layout, slots: u32, p: Pools, gs: seq<Grant>)
    requires Sane(l) && gs != [] && Pending(l, slots, p, gs) && Refundable(l, gs[0])
    ensures FreeOne(l, p, gs[0].res).Ok?
    ensures Pending(l, slots, FreeOne(l, p, gs[0].res).value, gs[1..])
    ensures MovedBack(p, [gs[0]], FreeOne(l, p, gs[0].res).value)
  {
    hide FreeAt, HeldKeys, Sound, Managed, MovedBack, FreeOne, Refundable;
    var g, rest := gs[0], gs[1..];
    assert g in gs && forall h <- rest :: h in gs;
    FreeOneRefunds(l, slots, p, g);
    forall h <- rest ensures Apart(g, h) {
      var i :| 0 <= i < |rest| && rest[i] == h;
      assert gs[i + 1] == h;
    }
    StillHeld(p, g, rest, FreeOne(l, p, g.res).value);
  }

  lemma {:induction false} FreeAllRefunds(l: Layout, slots: u32, p: Pools, gs: seq<Grant>)
    requires Sane(l) && Pending(l, slots, p, gs) && forall g <- gs :: Refundable(l, g)
    ensures var (o, q) := FreeAll(l, p, Recorded(gs));
      o == Ok(()) && Managed(l, slots, q) && MovedBack(p, gs, q)
    decreases |gs|
  {
    hide FreeAt, HeldKeys, Sound, Managed, MovedBack, FreeOne, Refundable, HoldsAll, AllApart, Apart, AllProper;
    if gs == [] {
      NoneMovedBack(p);
    } else {
      assert gs == [gs[0]] + gs[1..];
      RecordedCons(gs[0], gs[1..]);
      PendingStep(l, slots, p, gs);
      var p1 := FreeOne(l, p, gs[0].res).value;
      FreeAllRefunds(l, slots, p1, gs[1..]);
      MovedBackTrans(p, gs[0], p1, gs[1..], FreeAll(l, p1, Recorded(gs[1..])).1);
    }
  }

  lemma NoneMovedBack(p: Pools)
    ensures MovedBack(p, [], p)
  {
    hide FreeAt, HeldKeys;
    forall id ensures TakenIn([], id) == {} {
    }
  }

  /** A grant that cannot be handed back stops the rollback with its range still in use, or panics. */
  lemma {:induction false} FreeAllStops(l: Layout, slots: u32, p: Pools, gs: seq<Grant>)
    requires Sane(l) && Pending(l, slots, p, gs) && exists g <- gs :: !Refundable(l, g)
    requires forall g <- gs | !Refundable(l, g) :: Stuck(l, slots, g)
    ensures var (o, q) := FreeAll(l, p, Recorded(gs));
      o.Panicked? ||
      (o == Err(InvalidResourceRange) && Managed(l, slots, q) && exists g <- gs :: g.taken.Some? && HoldsAll(q, [g]))
    decreases |gs|
  {
    hide FreeAt, HeldKeys, Sound, Managed, MovedBack, FreeOne, Refundable, AllApart, Apart, AllProper, Stuck;
    var g, rest := gs[0], gs[1..];
    assert gs == [g] + rest;
    RecordedCons(g, rest);
    if Refundable(l, g) {
      PendingStep(l, slots, p, gs);
      FreeAllStops(l, slots, FreeOne(l, p, g.res).value, rest);
    } else {
      assert g in gs && HoldsAll(p, [g]);
      StuckStops(l, slots, p, g);
    }
  }

  /** Why an answered grant may not be refundable: its check refuses it, or it is a wide slot grant. */
  predicate Stuck(l: Layout, slots: u32, g: Grant) {
    g.taken.Some? && g.taken.value.1.Proper() &&
    (|| !FreeAccepts(l, g.res)
     || (&& g.res.KvmSlot? && g.taken.value.0 == KvmSlots
         && g.taken.value.1.min == g.res.slot < g.taken.value.1.max))
  }

  /** Freeing the first slot of a wider grant panics: the node for the whole grant is in the way. */
  lemma WideSlotPanics(l: Layout, slots: u32, p: Pools, slot: u32, r: Range)
    requires Sane(l) && Managed(l, slots, p) && AllSound(p)
    requires r in HeldKeys(p.Get(KvmSlots)) && r.min == slot < r.max
    ensures ReleasePanics(p.Get(KvmSlots), Range(slot, slot))
  {
    var key, t := Range(slot, slot), p.Get(KvmSlots);
    assert ManagedPool(l, slots, KvmSlots, t);
    NoTop(l, slots, KvmSlots);
    hide Entries, Within, Sound, Delete, ReleasePanics, InPool, Covers, Merged;
    MergedProper(t, key, U64_MAX);
    var e :| e in Entries(t) && !e.state.Free? && e.key == r;
    assert e in Others(t, key) && e.key.Meets(key);
    ReleasePanicsExactly(t, key);
  }

  lemma FreeKvmSlot(l: Layout, p: Pools, slot: u32)
    requires AllSound(p) && ReleasePanics(p.Get(KvmSlots), Range(slot, slot))
    ensures FreeOne(l, p, KvmSlot(slot)).Panicked?
  {
    hide Sound, ReleasePanics, Release;
  }

  lemma FreeRefused(l: Layout, p: Pools, res: Resource)
    requires AllSound(p) && !FreeAccepts(l, res)
    ensures FreeOne(l, p, res) == Err(InvalidResourceRange)
  {
  }

  lemma StuckStops(l: Layout, slots: u32, p: Pools, g: Grant)
    requires Sane(l) && Managed(l, slots, p) && AllSound(p) && Stuck(l, slots, g) && HoldsAll(p, [g])
    ensures g.taken.Some?
    ensures FreeOne(l, p, g.res) == if FreeAccepts(l, g.res) then Panicked else Err(InvalidResourceRange)
  {
    assert g in [g];
    hide Managed, Sound, HeldKeys, ReleasePanics, FreeOne, AllSound, FreeAccepts;
    if FreeAccepts(l, g.res) {
      WideSlotPanics(l, slots, p, g.res.slot, g.taken.value.1);
      FreeKvmSlot(l, p, g.res.slot);
    } else {
      FreeRefused(l, p, g.res);
    }
  }

  // ---------------------------------------------------------------- the device call

  /** `allocate_device_resources`: all requests are granted, or the granted ones are handed back. */
  function AllocDevice(l: Layout, p: Pools, reqs: seq<ResourceConstraint>, shared: bool)
    : (r: (Outcome<seq<Resource>>, Pools))
    requires AllSound(p)
    ensures AllSound(r.1)
  {
    var (gs, q, done) := AllocAll(l, p, reqs, shared);
    if done then (Ok(Recorded(gs)), q)
    else
      match FreeAll(l, q, Recorded(gs))
      case (Ok(_), r) => (Err(NoAvailResource), r)
      case (Err(e), r) => (Err(e), r)
      case (Panicked, r) => (Panicked, r)
  }

  ghost predicate SamePools(p: Pools, q: Pools) {
    && (forall id, a :: FreeAt(p.Get(id), a) <==> FreeAt(q.Get(id), a))
    && (forall id :: HeldKeys(p.Get(id)) == HeldKeys(q.Get(id)))
  }

  lemma AnsweredGrants(l: Layout, slots: u32, req: ResourceConstraint, shared: bool, g: Grant)
    requires Sane(l) && Answers(l, slots, req, shared, g)
    ensures g.taken.Some? ==> g.taken.value.1.Proper()
    ensures !Refundable(l, g) ==> Stuck(l, slots, g)
  {
    if g.taken.Some? {
      PoolBounds(l, slots, g.taken.value.0, g.taken.value.1.min);
      PoolBounds(l, slots, g.taken.value.0, g.taken.value.1.max);
    }
    hide InPool, Suits;
  }

  lemma GrantsArePending(l: Layout, slots: u32, p: Pools, reqs: seq<ResourceConstraint>, shared: bool)
    requires Sane(l) && Managed(l, slots, p) && AllSound(p)
    ensures var (gs, q, done) := AllocAll(l, p, reqs, shared);
      && Pending(l, slots, q, gs) && Moved(p, gs, q)
      && (forall g <- gs | !Refundable(l, g) :: Stuck(l, slots, g))
      && forall g <- gs :: Refundable(l, g) <==> HandsBack(l, g)
  {
    AllocAllSpec(l, slots, p, reqs, shared);
    hide FreeAt, HeldKeys, Sound, Managed, AllocAll, Answers, Refundable, Stuck, AllApart, HandsBack;
    var (gs, q, done) := AllocAll(l, p, reqs, shared);
    forall g <- gs
      ensures g.taken.Some? ==> g.taken.value.1.Proper()
      ensures !Refundable(l, g) ==> Stuck(l, slots, g)
      ensures Refundable(l, g) <==> HandsBack(l, g)
    {
      var i :| 0 <= i < |gs| && gs[i] == g;
      AnsweredGrants(l, slots, reqs[i], shared, g);
      RefundableExactly(l, slots, reqs[i], shared, g);
    }
    forall g <- gs | g.taken.Some? ensures g.taken.value.1 in HeldKeys(q.Get(g.taken.value.0)) {
      assert g.taken.value.1 in TakenIn(gs, g.taken.value.0);
    }
  }

  /**
   All or nothing, exactly when it holds: a failed call leaves every pool as it was if and
   only if no grant made before the failure ends with the last port or the last address of
   guest memory or has more than one slot.
   */
  lemma RollbackExactly(l: Layout, slots: u32, p: Pools, reqs: seq<ResourceConstraint>, shared: bool)
    requires Sane(l) && Managed(l, slots, p) && AllSound(p) && !AllocAll(l, p, reqs, shared).2
    ensures var (o, r) := AllocDevice(l, p, reqs, shared);
      && ((forall g <- AllocAll(l, p, reqs, shared).0 :: HandsBack(l, g))
            <==> (o == Err(NoAvailResource) && SamePools(p, r)))
      && (o.Err? && SamePools(p, r) ==> o == Err(NoAvailResource))
  {
    hide FreeAt, HeldKeys, Sound, Managed, AllocAll, Refundable, Stuck, Pending, Moved, MovedBack, SamePools, FreeAll;
    hide HandsBack;
    GrantsArePending(l, slots, p, reqs, shared);
    var (gs, q, done) := AllocAll(l, p, reqs, shared);
    if forall g <- gs :: Refundable(l, g) {
      FreeAllRefunds(l, slots, q, gs);
      ThereAndBack(p, gs, q, FreeAll(l, q, Recorded(gs)).1);
    } else {
      FreeAllStops(l, slots, q, gs);
      var (o, r) := FreeAll(l, q, Recorded(gs));
      if !o.Panicked? {
        var g :| g in gs && g.taken.Some? && HoldsAll(r, [g]);
        HeldIsDifferent(p, gs, q, g, r);
      }
    }
  }

  /** Unless it panics, the call leaves each pool made of the same identifiers. */
  lemma DeviceCallKeepsManaged(l: Layout, slots: u32, p: Pools, reqs: seq<ResourceConstraint>, shared: bool)
    requires Sane(l) && Managed(l, slots, p) && AllSound(p)
    ensures var (o, q) := AllocDevice(l, p, reqs, shared); !o.Panicked? ==> Managed(l, slots, q)
  {
    hide FreeAt, HeldKeys, Sound, Managed, AllocAll, Refundable, Stuck, Moved, MovedBack, FreeAll;
    hide HoldsAll, AllApart, AllProper;
    GrantsArePending(l, slots, p, reqs, shared);
    var (gs, q, done) := AllocAll(l, p, reqs, shared);
    if forall g <- gs :: Refundable(l, g) {
      FreeAllRefunds(l, slots, q, gs);
    } else {
      FreeAllStops(l, slots, q, gs);
    }
  }

  lemma ThereAndBack(p: Pools, gs: seq<Grant>, q: Pools, r: Pools)
    requires Moved(p, gs, q) && MovedBack(q, gs, r)
    ensures SamePools(p, r)
  {
    hide FreeAt, HeldKeys, TakenIn;
  }

  lemma HeldIsDifferent(p: Pools, gs: seq<Grant>, q: Pools, g: Grant, r: Pools)
    requires Moved(p, gs, q) && g in gs && g.taken.Some? && HoldsAll(r, [g])
    ensures !SamePools(p, r)
  {
    hide FreeAt, HeldKeys;
    assert g in [g];
    var (id, k) := g.taken.value;
    assert k in TakenIn(gs, id) && k in HeldKeys(r.Get(id));
    assert k !in HeldKeys(p.Get(id));
  }

  /** A request whose grant can always be handed back, judged by the request alone. */
  predicate SafeRequest(l: Layout, req: ResourceConstraint) {
    match req
    case PioAddress(range, _, _) => range.Some? && range.value.1 < U16_MAX
    case MemAddress(range, _, _) => range.Some? && range.value.1 < l.memEnd
    case KvmMemSlot(_, n) => n == 1
    case _ => true
  }

  lemma SafeGrant(l: Layout, slots: u32, req: ResourceConstraint, shared: bool, g: Grant)
    requires Sane(l) && Answers(l, slots, req, shared, g) && SafeRequest(l, req)
    ensures HandsBack(l, g)
  {
    hide InPool, Alignable;
  }

  /** A list of safe requests is all-or-nothing. */
  lemma SafeRequestsRollBack(l: Layout, slots: u32, p: Pools, reqs: seq<ResourceConstraint>, shared: bool)
    requires Sane(l) && Managed(l, slots, p) && AllSound(p) && forall r <- reqs :: SafeRequest(l, r)
    ensures var (o, r) := AllocDevice(l, p, reqs, shared);
      o.Ok? || (o == Err(NoAvailResource) && SamePools(p, r))
  {
    AllocAllSpec(l, slots, p, reqs, shared);
    hide Managed, Sound, AllocAll, Answers, HandsBack, SafeRequest, SamePools, FreeAll, Moved, AllApart;
    var (gs, q, done) := AllocAll(l, p, reqs, shared);
    forall g <- gs ensures HandsBack(l, g) {
      var i :| 0 <= i < |gs| && gs[i] == g;
      SafeGrant(l, slots, reqs[i], shared, g);
    }
    if !done {
      RollbackExactly(l, slots, p, reqs, shared);
    }
  }

  /** A request of size zero is never granted. */
  const NEVER: ResourceConstraint := MmioAddress(None, 1, 0)

  lemma NeverGranted(l: Layout, p: Pools, shared: bool)
    requires AllSound(p)
    ensures AllocOne(l, p, NEVER, shared).None?
  {
  }

  /** The failing family: one grant followed by a request that cannot be met. */
  lemma OneGrantThenFailure(l: Layout, p: Pools, req: ResourceConstraint, shared: bool)
    requires AllSound(p) && AllocOne(l, p, req, shared).Some?
    ensures var (g, q) := AllocOne(l, p, req, shared).value;
      AllocAll(l, p, [req, NEVER], shared) == ([g], q, false) && Recorded([g]) == [g.res]
  {
    hide Sound, AllocOne, AllSound;
    var (g, q) := AllocOne(l, p, req, shared).value;
    assert [req, NEVER][1..] == [NEVER];
    NeverGranted(l, q, shared);
    assert AllocAll(l, q, [NEVER], shared) == ([], q, false);
    assert Recorded([g]) == [g.res] && [g] + [] == [g];
  }

  lemma FreeSingle(l: Layout, p: Pools, res: Resource)
    requires AllSound(p) && !FreeOne(l, p, res).Ok?
    ensures FreeAll(l, p, [res]) ==
      if FreeOne(l, p, res).Panicked? then (Panicked, p) else (Err(FreeOne(l, p, res).error), p)
  {
    hide Sound, FreeOne, AllSound;
  }

  /** A request that some free range serves is granted. */
  lemma GrantedWhenFree(l: Layout, slots: u32, p: Pools, req: ResourceConstraint, shared: bool, r: Range)
    requires Managed(l, slots, p) && AllSound(p) && Seamless(l, PoolFor(req)) && req != LegacyIrq(Some(l.irqBase))
    requires Serves(req, r) && forall a | r.Has(a) :: FreeAt(p.Get(PoolFor(req)), a)
    ensures AllocOne(l, p, req, shared).Some?
  {
    var (id, c) := Wants(req);
    WantsIsServes(req, r);
    PoolIsFirstFit(l, slots, p, id);
    hide Managed, Sound, Allocate, Suits, Wants, Describe, Entries, Update, Serves;
    assert FreeRun(Entries(p.Get(id)), r.min, c.size) by {
      forall a | r.min <= a < r.min + c.size ensures FreeIn(Entries(p.Get(id)), a) {
        assert FreeAt(p.Get(id), a);
      }
    }
    assert Take(p.Get(id), c, Marks(id)).Some?;
  }

  /** The list is granted up to the first request that is refused in the state reached. */
  lemma {:induction false} StopsAtRefusal(l: Layout, p: Pools, reqs: seq<ResourceConstraint>, shared: bool)
    requires AllSound(p) && !AllocAll(l, p, reqs, shared).2
    ensures var (gs, q, _) := AllocAll(l, p, reqs, shared); AllocOne(l, q, reqs[|gs|], shared).None?
    decreases |reqs|
  {
    hide AllocOne, AllSound;
    var first := AllocOne(l, p, reqs[0], shared);
    if first.Some? { StopsAtRefusal(l, first.value.1, reqs[1..], shared); }
  }

  /** A list fails only where no free range serves the next request, or it names the shared interrupt. */
  lemma FailsWhereNothingServes(l: Layout, slots: u32, p: Pools, reqs: seq<ResourceConstraint>, shared: bool)
    requires Sane(l) && Managed(l, slots, p) && AllSound(p) && !AllocAll(l, p, reqs, shared).2
    ensures var (gs, q, _) := AllocAll(l, p, reqs, shared); var next := reqs[|gs|];
      Seamless(l, PoolFor(next)) ==> next == LegacyIrq(Some(l.irqBase)) || !Available(q, next)
  {
    var (gs, q, _) := AllocAll(l, p, reqs, shared);
    var next := reqs[|gs|];
    StopsAtRefusal(l, p, reqs, shared);
    AllocAllSpec(l, slots, p, reqs, shared);
    hide AllocAll, AllocOne, Managed, Sound, Serves, FreeAt, Moved, Answers, AllApart, Seamless;
    if Seamless(l, PoolFor(next)) && next != LegacyIrq(Some(l.irqBase)) {
      forall r: Range | Serves(next, r) ensures exists a :: r.Has(a) && !FreeAt(q.Get(PoolFor(next)), a) {
        if forall a | r.Has(a) :: FreeAt(q.Get(PoolFor(next)), a) {
          GrantedWhenFree(l, slots, q, next, shared, r);
          assert false;
        }
      }
    }
  }

  /** A pool without a seam serves every request first fit. */
  lemma PoolIsFirstFit(l: Layout, slots: u32, p: Pools, id: PoolId)
    requires Managed(l, slots, p) && AllSound(p) && Seamless(l, id)
    ensures FirstFit(p.Get(id))
  {
    assert ManagedPool(l, slots, id, p.Get(id));
    FirstFitExactly(p.Get(id));
  }

  /** Wherever two or more slots in a row are free, taking them and failing later ends in a panic. */
  lemma WideSlotRollbackPanics(l: Layout, slots: u32, p: Pools, n: u32, b: nat, shared: bool)
    requires Sane(l) && Managed(l, slots, p) && AllSound(p) && n > 1
    requires b + n - 1 <= slots && forall a | b <= a < b + n :: FreeAt(p.Get(KvmSlots), a)
    ensures AllocDevice(l, p, [KvmMemSlot(None, n), NEVER], shared).0.Panicked?
  {
    hide Sound, Managed, AllocOne, FreeAll, AllocAll, HeldKeys, FreeAt, InPool, FreeOne, AllSound, Answers, Stuck;
    var req := KvmMemSlot(None, n);
    GrantedWhenFree(l, slots, p, req, shared, Range(b, b + n - 1));
    AllocOneSpec(l, slots, p, req, shared);
    OneGrantThenFailure(l, p, req, shared);
    var (g, q) := AllocOne(l, p, req, shared).value;
    WideSlotGrant(l, slots, n, shared, g);
    assert g in [g] && g.taken.value.1 in TakenIn([g], KvmSlots) && HoldsAll(q, [g]);
    StuckStops(l, slots, q, g);
    FreeSingle(l, q, g.res);
  }

  lemma WideSlotGrant(l: Layout, slots: u32, n: u32, shared: bool, g: Grant)
    requires n > 1 && Answers(l, slots, KvmMemSlot(None, n), shared, g)
    ensures g.taken.Some? && Stuck(l, slots, g) && FreeAccepts(l, g.res) && g.taken.value.0 == KvmSlots
  {
    hide InPool;
  }

  /** A grant of one identifier that its `free_*` call refuses stays in use after a later failure. */
  lemma RefusedGrantLeaks(l: Layout, slots: u32, p: Pools, req: ResourceConstraint, shared: bool, a: int)
    requires Sane(l) && Managed(l, slots, p) && AllSound(p) && AllocOne(l, p, req, shared).Some?
    requires var g := AllocOne(l, p, req, shared).value.0;
      !FreeAccepts(l, g.res) && g.taken.Some? && g.taken.value == (PoolFor(req), Range(a, a))
    ensures var (o, r) := AllocDevice(l, p, [req, NEVER], shared); var id := PoolFor(req);
      o == Err(InvalidResourceRange) && FreeAt(p.Get(id), a) && !FreeAt(r.Get(id), a)
  {
    hide Sound, Managed, AllocOne, FreeAll, AllocAll, HeldKeys, FreeAt, InPool, AllSound, PoolFor, Answers;
    AllocOneSpec(l, slots, p, req, shared);
    OneGrantThenFailure(l, p, req, shared);
    var (g, q) := AllocOne(l, p, req, shared).value;
    FreeRefused(l, q, g.res);
    FreeSingle(l, q, g.res);
    var id := PoolFor(req);
    assert g in [g] && g.taken.value.1 in TakenIn([g], id) && TakesAt([g], id, a);
  }

  /** Nothing that the constraint admits is free: no free range serves the request. */
  lemma NothingAvailable(p: Pools, req: ResourceConstraint)
    requires var (id, c) := Wants(req); forall b :: !(Suits(c, b) && FreeRun(Entries(p.Get(id)), b, c.size))
    ensures !Available(p, req)
  {
    var (id, c) := Wants(req);
    forall r: Range | Serves(req, r) ensures exists a :: r.Has(a) && !FreeAt(p.Get(PoolFor(req)), a) {
      WantsIsServes(req, r);
      hide Serves, Suits, Wants, Entries;
      assert !FreeRun(Entries(p.Get(id)), r.min, c.size);
      var a :| r.min <= a < r.min + c.size && !FreeIn(Entries(p.Get(id)), a);
      assert r.Has(a) && !FreeAt(p.Get(id), a);
    }
  }

  lemma TopPortRefused(l: Layout, slots: u32, shared: bool, g: Grant)
    requires Answers(l, slots, PioAddress(Some((U16_MAX, U16_MAX)), 1, 1), shared, g)
    ensures !FreeAccepts(l, g.res) && g.taken == Some((Pio, Range(U16_MAX, U16_MAX)))
  {
    hide InPool, Alignable, Aligned;
  }

  lemma TopMemoryRefused(l: Layout, slots: u32, shared: bool, g: Grant)
    requires Answers(l, slots, MemAddress(Some((l.memEnd, l.memEnd)), 1, 1), shared, g)
    ensures !FreeAccepts(l, g.res) && g.taken == Some((Mem, Range(l.memEnd, l.memEnd)))
  {
    hide InPool, Alignable, Aligned;
  }

  /** Wherever port 0xFFFF is free, taking it and failing later leaves it in use. */
  lemma TopPortLeaks(l: Layout, slots: u32, p: Pools, shared: bool)
    requires Sane(l) && Managed(l, slots, p) && AllSound(p) && FreeAt(p.Get(Pio), U16_MAX)
    ensures var (o, r) := AllocDevice(l, p, [PioAddress(Some((U16_MAX, U16_MAX)), 1, 1), NEVER], shared);
      o == Err(InvalidResourceRange) && !FreeAt(r.Get(Pio), U16_MAX)
  {
    var req := PioAddress(Some((U16_MAX, U16_MAX)), 1, 1);
    GrantedWhenFree(l, slots, p, req, shared, Range(U16_MAX, U16_MAX));
    hide Sound, Managed, AllocOne, FreeAt, InPool, AllSound, Moved, Answers, AllocDevice;
    AllocOneSpec(l, slots, p, req, shared);
    TopPortRefused(l, slots, shared, AllocOne(l, p, req, shared).value.0);
    RefusedGrantLeaks(l, slots, p, req, shared, U16_MAX);
  }

  /** Wherever the last address of guest memory is free, taking it and failing later leaves it in use. */
  lemma TopMemoryLeaks(l: Layout, slots: u32, p: Pools, shared: bool)
    requires Sane(l) && Managed(l, slots, p) && AllSound(p) && FreeAt(p.Get(Mem), l.memEnd)
    ensures var (o, r) := AllocDevice(l, p, [MemAddress(Some((l.memEnd, l.memEnd)), 1, 1), NEVER], shared);
      o == Err(InvalidResourceRange) && !FreeAt(r.Get(Mem), l.memEnd)
  {
    var req := MemAddress(Some((l.memEnd, l.memEnd)), 1, 1);
    GrantedWhenFree(l, slots, p, req, shared, Range(l.memEnd, l.memEnd));
    hide Sound, Managed, AllocOne, FreeAt, InPool, AllSound, Moved, Answers, AllocDevice;
    AllocOneSpec(l, slots, p, req, shared);
    TopMemoryRefused(l, slots, shared, AllocOne(l, p, req, shared).value.0);
    RefusedGrantLeaks(l, slots, p, req, shared, l.memEnd);
  }

  lemma FreshEntries(l: Layout, slots: u32, id: PoolId)
    requires Sane(l) && NewPools(l, slots).Some? && id != Mmio
    ensures Entries(NewPools(l, slots).value.Get(id)) == set r <- Seeds(l, slots, id) :: Entry(r, Free)
  {
    hide Insert, BuildMem, BuildMmio, Entries, Valid, ManagedPool, NoHole;
    match id
    case LegacyIrqs => SingleSpec(Range(l.irqBase + 1, l.irqMax));
    case MsiIrqs => SingleSpec(Range(l.msiBase, l.msiMax));
    case Pio => SingleSpec(Range(0, U16_MAX));
    case Mem => hide Seeds; BuildMemSpec(l, slots);
    case KvmSlots => SingleSpec(Range(0, slots));
  }

  /** Everything in a freshly built pool is free, but for the x86 reservation. */
  lemma FreshIsFree(l: Layout, slots: u32, id: PoolId, a: int)
    requires Sane(l) && NewPools(l, slots).Some? && id != Mmio
    ensures FreeAt(NewPools(l, slots).value.Get(id), a) <==> InPool(l, slots, id, a)
  {
    hide Insert, Entries, Seeds, NewPools;
    FreshEntries(l, slots, id);
    if InPool(l, slots, id, a) {
      var r :| r in Seeds(l, slots, id) && r.Has(a);
      assert Entry(r, Free) in Entries(NewPools(l, slots).value.Get(id));
    }
  }

  /** All three families are reached from a freshly built manager: slots first. */
  lemma FreshWideSlotPanics(l: Layout, slots: u32, n: u32, shared: bool)
    requires Sane(l) && NewPools(l, slots).Some? && 1 < n <= slots + 1
    ensures AllocDevice(l, NewPools(l, slots).value, [KvmMemSlot(None, n), NEVER], shared).0.Panicked?
  {
    hide NewPools, Managed, AllSound, AllocDevice, FreeAt;
    var p := NewPools(l, slots).value;
    NewIsManaged(l, slots);
    forall a | 0 <= a < n ensures FreeAt(p.Get(KvmSlots), a) {
      assert Range(0, slots) in Seeds(l, slots, KvmSlots);
      FreshIsFree(l, slots, KvmSlots, a);
    }
    WideSlotRollbackPanics(l, slots, p, n, 0, shared);
  }

  lemma FreshTopPortLeaks(l: Layout, slots: u32, shared: bool)
    requires Sane(l) && NewPools(l, slots).Some?
    ensures var p := NewPools(l, slots).value;
      var (o, r) := AllocDevice(l, p, [PioAddress(Some((U16_MAX, U16_MAX)), 1, 1), NEVER], shared);
      o == Err(InvalidResourceRange) && FreeAt(p.Get(Pio), U16_MAX) && !FreeAt(r.Get(Pio), U16_MAX)
  {
    hide NewPools, Managed, AllSound, AllocDevice, FreeAt;
    NewIsManaged(l, slots);
    assert Range(0, U16_MAX) in Seeds(l, slots, Pio);
    FreshIsFree(l, slots, Pio, U16_MAX);
    TopPortLeaks(l, slots, NewPools(l, slots).value, shared);
  }

  lemma FreshTopMemoryLeaks(l: Layout, slots: u32, shared: bool)
    requires Sane(l) && NewPools(l, slots).Some?
    requires NoHole(l) || l.mmioLowEnd < l.memEnd
    ensures var p := NewPools(l, slots).value;
      var (o, r) := AllocDevice(l, p, [MemAddress(Some((l.memEnd, l.memEnd)), 1, 1), NEVER], shared);
      o == Err(InvalidResourceRange) && FreeAt(p.Get(Mem), l.memEnd) && !FreeAt(r.Get(Mem), l.memEnd)
  {
    hide NewPools, Managed, AllSound, AllocDevice, FreeAt;
    NewIsManaged(l, slots);
    var top := if NoHole(l) then Range(l.memStart, l.memEnd) else Range(l.mmioLowEnd + 1, l.memEnd);
    assert top in Seeds(l, slots, Mem);
    FreshIsFree(l, slots, Mem, l.memEnd);
    TopMemoryLeaks(l, slots, NewPools(l, slots).value, shared);
  }

  // ---------------------------------------------------------------- whole runs

  datatype Call =
    | TakeCall(id: PoolId, c: Constraint)
    | GiveCall(id: PoolId, r: Range)
    | DeviceCall(reqs: seq<ResourceConstraint>, shared: bool)

  /** A free is legal when it names a range in use; a run ends at a call that panics. */
  predicate Legal(l: Layout, p: Pools, call: Call)
    requires AllSound(p)
  {
    match call
    case TakeCall(_, _) => true
    case GiveCall(id, r) => r in HeldKeys(p.Get(id)) && r.Proper()
    case DeviceCall(reqs, shared) => !AllocDevice(l, p, reqs, shared).0.Panicked?
  }

  function Step(l: Layout, p: Pools, call: Call): (q: Pools)
    requires AllSound(p) && Legal(l, p, call)
    ensures AllSound(q)
  {
    match call
    case TakeCall(id, c) =>
      var taken := Take(p.Get(id), c, Marks(id));
      if taken.None? then p else p.Set(id, taken.value.1)
    case GiveCall(id, r) => p.Set(id, Release(p.Get(id), r))
    case DeviceCall(reqs, shared) => AllocDevice(l, p, reqs, shared).1
  }

  predicate LegalRun(l: Layout, p: Pools, calls: seq<Call>)
    requires AllSound(p)
    decreases |calls|
  {
    calls == [] || (Legal(l, p, calls[0]) && LegalRun(l, Step(l, p, calls[0]), calls[1..]))
  }

  function Run(l: Layout, p: Pools, calls: seq<Call>): (q: Pools)
    requires AllSound(p) && LegalRun(l, p, calls)
    ensures AllSound(q)
    decreases |calls|
  {
    if calls == [] then p else Run(l, Step(l, p, calls[0]), calls[1..])
  }

  lemma StepKeepsManaged(l: Layout, slots: u32, p: Pools, call: Call)
    requires Sane(l) && Managed(l, slots, p) && AllSound(p) && Legal(l, p, call)
    ensures Managed(l, slots, Step(l, p, call))
  {
    hide Managed, Sound, HeldKeys, Take, Release, Valid, FreeAt, InPool, Gives, Grants, AllocDevice;
    match call {
      case TakeCall(id, c) =>
        if Take(p.Get(id), c, Marks(id)).Some? {
          TakeFromPool(l, slots, p, id, c);
        }
      case GiveCall(id, r) => GiveToPool(l, slots, p, id, r);
      case DeviceCall(reqs, shared) => DeviceCallKeepsManaged(l, slots, p, reqs, shared);
    }
  }

  predicate HeldAt(t: Tree, a: int) {
    exists r <- HeldKeys(t) :: r.Has(a)
  }

  /**
   The pool consists of exactly the identifiers it was built from, each of them free or in a
   held range and never both, and held ranges are pairwise disjoint.
   */
  ghost predicate Conserved(l: Layout, slots: u32, id: PoolId, t: Tree) {
    && (forall a :: InPool(l, slots, id, a) <==> FreeAt(t, a) || HeldAt(t, a))
    && (forall a :: !(FreeAt(t, a) && HeldAt(t, a)))
    && (forall r <- HeldKeys(t), s <- HeldKeys(t) | r != s :: !r.Meets(s))
  }

  lemma ManagedConserves(l: Layout, slots: u32, p: Pools, id: PoolId)
    requires Managed(l, slots, p)
    ensures Conserved(l, slots, id, p.Get(id))
  {
    assert ManagedPool(l, slots, id, p.Get(id));
    hide Managed, Sound, Within, Entries, Covers, InPool, HeldKeys, FreeAt, Coalesced;
    forall a ensures InPool(l, slots, id, a) <==> FreeAt(p.Get(id), a) || HeldAt(p.Get(id), a)
      ensures !(FreeAt(p.Get(id), a) && HeldAt(p.Get(id), a))
    {
      CoversIsFreeOrHeld(p.Get(id), a);
    }
    HeldDisjoint(p.Get(id));
  }

  lemma {:induction false} RunKeepsManaged(l: Layout, slots: u32, p: Pools, calls: seq<Call>)
    requires Sane(l) && Managed(l, slots, p) && AllSound(p) && LegalRun(l, p, calls)
    ensures Managed(l, slots, Run(l, p, calls))
    decreases |calls|
  {
    hide Sound, Managed, Step, Legal;
    if calls != [] {
      StepKeepsManaged(l, slots, p, calls[0]);
      RunKeepsManaged(l, slots, Step(l, p, calls[0]), calls[1..]);
    }
  }

  /** Every legal run conserves every pool. */
  lemma RunConserves(l: Layout, slots: u32, p: Pools, calls: seq<Call>)
    requires Sane(l) && Managed(l, slots, p) && AllSound(p) && LegalRun(l, p, calls)
    ensures Managed(l, slots, Run(l, p, calls))
    ensures forall id :: Conserved(l, slots, id, Run(l, p, calls).Get(id))
  {
    hide Managed, Run, LegalRun, AllSound, Conserved;
    RunKeepsManaged(l, slots, p, calls);
    var q := Run(l, p, calls);
    forall id ensures Conserved(l, slots, id, q.Get(id)) { ManagedConserves(l, slots, q, id); }
  }

  /** After every run, every pool without a seam is first fit over its free identifiers. */
  lemma RunIsFirstFit(l: Layout, slots: u32, calls: seq<Call>, id: PoolId)
    requires Sane(l) && NewPools(l, slots).Some?
    requires LegalRun(l, NewPools(l, slots).value, calls) && Seamless(l, id)
    ensures FirstFit(Run(l, NewPools(l, slots).value, calls).Get(id))
  {
    hide Managed, Sound, Run, LegalRun, FirstFit, NewPools;
    NewIsManaged(l, slots);
    RunKeepsManaged(l, slots, NewPools(l, slots).value, calls);
    PoolIsFirstFit(l, slots, Run(l, NewPools(l, slots).value, calls), id);
  }

  ghost predicate StaysFirstFit(l: Layout, p: Pools, id: PoolId)
    requires AllSound(p)
  {
    forall calls | LegalRun(l, p, calls) :: FirstFit(Run(l, p, calls).Get(id))
  }

  lemma StartsFirstFit(l: Layout, p: Pools, id: PoolId)
    requires AllSound(p) && StaysFirstFit(l, p, id)
    ensures FirstFit(p.Get(id))
  {
    hide FirstFit, Sound, Step, Legal;
    var none: seq<Call> := [];
    assert LegalRun(l, p, none);
    assert FirstFit(Run(l, p, none).Get(id));
  }

  /** A pool is first fit after every run exactly when the layout gives it no seam; only MMIO can have one. */
  lemma FirstFitForEveryRunExactly(l: Layout, slots: u32, id: PoolId)
    requires Sane(l) && NewPools(l, slots).Some?
    ensures StaysFirstFit(l, NewPools(l, slots).value, id) <==> Seamless(l, id)
  {
    var p := NewPools(l, slots).value;
    assert p.Get(Mmio) == BuildMmio(l).value;
    hide Sound, NewPools, BuildMmio, FirstFit, Touching, Run, LegalRun, Coalesced, Entries;
    if Seamless(l, id) {
      forall calls | LegalRun(l, p, calls) ensures FirstFit(Run(l, p, calls).Get(id)) {
        RunIsFirstFit(l, slots, calls, id);
      }
    } else {
      hide StaysFirstFit;
      MmioHasSeam(l);
      FirstFitExactly(p.Get(Mmio));
      if StaysFirstFit(l, p, id) {
        StartsFirstFit(l, p, id);
        assert false;
      }
    }
  }

  /** Across the seam a request for two free addresses is refused. */
  lemma SeamRequestRefused(l: Layout, slots: u32, shared: bool) returns (b: u64)
    requires Sane(l) && NewPools(l, slots).Some? && Touching(l)
    ensures b < U64_MAX
    ensures var p := NewPools(l, slots).value;
      && FreeAt(p.Get(Mmio), b) && FreeAt(p.Get(Mmio), b + 1)
      && AllocOne(l, p, MmioAddress(Some((b, b + 1)), 1, 2), shared).None?
  {
    var p := NewPools(l, slots).value;
    assert p.Get(Mmio) == BuildMmio(l).value;
    hide NewPools, BuildMmio, Touching, Allocate, AllocOne, FreeAt, Coalesced, AllSound;
    MmioHasSeam(l);
    b := SeamAt(p.Get(Mmio));
    RefusedIsNone(l, p, b, shared);
  }

  lemma MmioHasSeam(l: Layout)
    requires Sane(l) && BuildMmio(l).Some? && Touching(l)
    ensures Valid(BuildMmio(l).value) && !Coalesced(Entries(BuildMmio(l).value))
  {
    hide BuildMmio, Touching, Entries, Sound, InPool, Covers;
    BuildMmioSpec(l, 0);
    MmioSeam(l);
  }

  lemma RefusedIsNone(l: Layout, p: Pools, b: u64, shared: bool)
    requires b < U64_MAX && AllSound(p) && Allocate(p.Get(Mmio), Constraint(2, b, b + 1, 1)).None?
    ensures AllocOne(l, p, MmioAddress(Some((b, b + 1)), 1, 2), shared).None?
  {
    hide Sound, Allocate;
  }

  /** Managers of one layout with equal free sets answer alike, whatever calls led to them. */
  lemma SameFreeSameAnswers(l: Layout, slots: u32, p: Pools, q: Pools, id: PoolId, c: Constraint)
    requires Managed(l, slots, p) && Managed(l, slots, q) && AllSound(p) && AllSound(q) && Seamless(l, id)
    requires forall a :: FreeAt(p.Get(id), a) <==> FreeAt(q.Get(id), a)
    ensures var t, u := Take(p.Get(id), c, Marks(id)), Take(q.Get(id), c, Marks(id));
      (t.Some? <==> u.Some?) && (t.Some? ==> t.value.0 == u.value.0)
  {
    assert ManagedPool(l, slots, id, p.Get(id)) && ManagedPool(l, slots, id, q.Get(id));
    hide FreeAt, Allocate, Update, Sound, Covers, Managed;
    SameFreeSameGrant(p.Get(id), q.Get(id), c);
  }

  lemma HeldDisjoint(t: Tree)
    requires Valid(t)
    ensures forall r <- HeldKeys(t), s <- HeldKeys(t) | r != s :: !r.Meets(s)
  {
    DisjointSpec(t);
    hide Entries, Within, Sound;
  }

  // ---------------------------------------------------------------- the request loop

  lemma TakeIsLowest(l: Layout, slots: u32, p: Pools, id: PoolId, c: Constraint)
    requires Managed(l, slots, p) && AllSound(p)
    ensures var taken := Take(p.Get(id), c, Marks(id));
      Seamless(l, id) ==>
        forall b | Suits(c, b) && FreeRun(Entries(p.Get(id)), b, c.size) :: taken.Some? && taken.value.0.min <= b
  {
    if Seamless(l, id) {
      PoolIsFirstFit(l, slots, p, id);
      hide Managed, Sound, Suits, FreeRun, Entries, Allocate, Update;
    }
  }

  lemma SetSame(p: Pools, id: PoolId)
    ensures p.Set(id, p.Get(id)) == p
  {
  }

  /** The grants made so far, followed by what the rest of the list gives from here, are the whole result. */
  predicate GrantsLead(l: Layout, all: (seq<Grant>, Pools, bool), grants: seq<Grant>, p: Pools,
                       reqs: seq<ResourceConstraint>, i: nat, shared: bool)
    requires AllSound(p) && i <= |reqs|
  {
    var rest := AllocAll(l, p, reqs[i..], shared);
    all == (grants + rest.0, rest.1, rest.2)
  }

  lemma GrantStart(l: Layout, p: Pools, reqs: seq<ResourceConstraint>, shared: bool)
    requires AllSound(p)
    ensures GrantsLead(l, AllocAll(l, p, reqs, shared), [], p, reqs, 0, shared)
  {
    hide AllocAll, AllSound;
    assert reqs[0..] == reqs;
    assert [] + AllocAll(l, p, reqs, shared).0 == AllocAll(l, p, reqs, shared).0;
  }

  lemma GrantStep(l: Layout, all: (seq<Grant>, Pools, bool), grants: seq<Grant>, p: Pools,
                  reqs: seq<ResourceConstraint>, i: nat, shared: bool)
    requires AllSound(p) && i < |reqs| && GrantsLead(l, all, grants, p, reqs, i, shared)
    ensures var g := AllocOne(l, p, reqs[i], shared);
      if g.None? then all == (grants, p, false)
      else GrantsLead(l, all, grants + [g.value.0], g.value.1, reqs, i + 1, shared)
  {
    hide AllocOne, AllSound;
    assert reqs[i..][0] == reqs[i] && reqs[i..][1..] == reqs[i + 1..];
    var g := AllocOne(l, p, reqs[i], shared);
    if g.None? {
      assert grants + [] == grants;
    } else {
      var rest := AllocAll(l, g.value.1, reqs[i + 1..], shared);
      assert grants + ([g.value.0] + rest.0) == (grants + [g.value.0]) + rest.0;
    }
  }

  lemma GrantEnd(l: Layout, all: (seq<Grant>, Pools, bool), grants: seq<Grant>, p: Pools,
                 reqs: seq<ResourceConstraint>, shared: bool)
    requires AllSound(p) && GrantsLead(l, all, grants, p, reqs, |reqs|, shared)
    ensures all == (grants, p, true)
  {
    hide AllSound;
    assert reqs[|reqs|..] == [] && grants + [] == grants;
  }

  // ---------------------------------------------------------------- the manager object

  class ResourceManager {
    const layout: Layout
    const slots: u32
    var pools: Pools

    ghost predicate Valid()
      reads this
    {
      Sane(layout) && Managed(layout, slots, pools) && AllSound(pools)
    }

    constructor (layout: Layout, slots: u32)
      requires Sane(layout) && NewPools(layout, slots).Some?
      ensures Valid() && this.layout == layout && this.slots == slots
      ensures Some(pools) == NewPools(layout, slots)
    {
      this.layout, this.slots := layout, slots;
      pools := NewPools(layout, slots).value;
      NewIsManaged(layout, slots);
      ManagedIsSound(layout, slots, NewPools(layout, slots).value);
    }

    /**
     The body shared by the `allocate_*` calls that take one range from one pool: the lowest
     suitable run of free identifiers changes hands, or there is none.
     */
    method AllocateFrom(id: PoolId, c: Constraint) returns (base: Option<u64>)
      requires Valid()
      modifies this`pools
      ensures Valid() && pools == old(pools).Set(id, pools.Get(id))
      ensures base.None? ==> pools == old(pools) && Take(old(pools).Get(id), c, Marks(id)).None?
      ensures base.Some? ==>
        && Grants(old(pools).Get(id), c, Range(base.value, base.value + c.size - 1), pools.Get(id))
        && Take(old(pools).Get(id), c, Marks(id)) ==
           Some((Range(base.value, base.value + c.size - 1), pools.Get(id)))
      ensures Seamless(layout, id) ==>
        forall b | Suits(c, b) && FreeRun(Entries(old(pools).Get(id)), b, c.size) :: base.Some? && base.value <= b
    {
      hide Managed, Sound, Seamless, Suits, FreeRun, FreeAt, HeldKeys, Coalesced, Entries, Take, IntervalTrees.Valid;
      TakeIsLowest(layout, slots, pools, id, c);
      var taken := Take(pools.Get(id), c, Marks(id));
      if taken.None? {
        SetSame(pools, id);
        return None;
      }
      TakeFromPool(layout, slots, pools, id, c);
      base := Some(taken.value.0.min);
      pools := pools.Set(id, taken.value.1);
    }

    /**
     Allocate one request of a device: a grant answers the request and takes exactly its
     range; a refusal means the fixed number is the shared interrupt, or nothing suits.
     */
    method AllocateOne(req: ResourceConstraint, shared: bool) returns (g: Option<Grant>)
      requires Valid()
      modifies this`pools
      ensures Valid()
      ensures g.Some? ==> Answers(layout, slots, req, shared, g.value) && Moved(old(pools), [g.value], pools)
      ensures g.None? ==> pools == old(pools)
      ensures g.None? && Seamless(layout, PoolFor(req)) ==>
        (req.LegacyIrq? && req.irq == Some(layout.irqBase)) || !Available(pools, req)
      ensures AllocOne(layout, old(pools), req, shared) == if g.None? then None else Some((g.value, pools))
    {
      ghost var before := pools;
      hide Managed, Sound, Wants, Describe, Suits, FreeRun, FreeAt, HeldKeys, Entries, Take, Moved, Answers, AsU64;
      if req.LegacyIrq? {
        if shared {
          g := Some(Grant(LegacyIrqNumber(layout.irqBase), None));
          AllocOneSpec(layout, slots, pools, req, shared);
          return;
        }
        if req.irq == Some(layout.irqBase) { return None; }
      }
      var (id, c) := Wants(req);
      WantsFromPool(req);
      var base := AllocateFrom(id, c);
      if base.None? {
        if Seamless(layout, id) { NothingAvailable(pools, req); }
        return None;
      }
      g := Some(Grant(Describe(req, base.value), Some((id, Range(base.value, base.value + c.size - 1)))));
      AsU64Fits(base.value);
      AllocOneSpec(layout, slots, before, req, shared);
    }

    method FreeDeviceResources(resources: seq<Resource>) returns (r: Outcome<()>)
      requires AllSound(pools)
      modifies this`pools
      ensures AllSound(pools) && r == FreeAll(layout, old(pools), resources).0
      ensures !r.Panicked? ==> pools == FreeAll(layout, old(pools), resources).1
    {
      hide Sound, FreeOne;
      var i := 0;
      while i < |resources|
        invariant 0 <= i <= |resources| && AllSound(pools)
        invariant FreeAll(layout, old(pools), resources) == FreeAll(layout, pools, resources[i..])
      {
        assert resources[i..][1..] == resources[i + 1..];
        match FreeOne(layout, pools, resources[i]) {
          case Ok(q) => pools := q;
          case Err(e) => return Err(e);
          case Panicked => return Panicked;
        }
        i := i + 1;
      }
      r := Ok(());
    }

    /** The loop over the requests, up to the first refusal. */
    method GrantAll(requests: seq<ResourceConstraint>, shared: bool) returns (grants: seq<Grant>, done: bool)
      requires Valid()
      modifies this`pools
      ensures Valid() && (grants, pools, done) == AllocAll(layout, old(pools), requests, shared)
    {
      hide *;
      grants := [];
      var i := 0;
      ValidIsSound();
      ghost var all := AllocAll(layout, pools, requests, shared);
      GrantStart(layout, pools, requests, shared);
      while i < |requests|
        invariant 0 <= i <= |requests| && Valid()
        invariant AllSound(pools) && GrantsLead(layout, all, grants, pools, requests, i, shared)
      {
        GrantStep(layout, all, grants, pools, requests, i, shared);
        var g := AllocateOne(requests[i], shared);
        if g.None? {
          return grants, false;
        }
        ValidIsSound();
        grants, i := grants + [g.value], i + 1;
      }
      GrantEnd(layout, all, grants, pools, requests, shared);
      done := true;
    }

    lemma ValidIsSound()
      requires Valid()
      ensures Sane(layout) && Managed(layout, slots, pools) && AllSound(pools)
    {
    }

    /** Grant every request, or hand back what was granted; see `RollbackExactly`. */
    method AllocateDeviceResources(requests: seq<ResourceConstraint>, shared: bool)
      returns (r: Outcome<seq<Resource>>)
      requires Valid()
      modifies this`pools
      ensures r == AllocDevice(layout, old(pools), requests, shared).0
      ensures !r.Panicked? ==> Valid() && pools == AllocDevice(layout, old(pools), requests, shared).1
    {
      hide Sound, AllocAll, FreeAll, Managed, Recorded;
      DeviceCallKeepsManaged(layout, slots, pools, requests, shared);
      var grants, done := GrantAll(requests, shared);
      if done { return Ok(Recorded(grants)); }
      var freed := FreeDeviceResources(Recorded(grants));
      match freed {
        case Ok(_) => return Err(NoAvailResource);
        case Err(e) => return Err(e);
        case Panicked => return Panicked;
      }
    }
  }
}
