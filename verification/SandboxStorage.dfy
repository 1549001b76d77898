/**
 Reference-counted sandbox storages: a path maps to a counter shared by every handle, the
 current device, and a flag for storages shared between containers.
 */
module SandboxStorages {
  import opened Prelude

  type Path = string
  type Cid = string

  /** `Default` is the placeholder a new entry starts with. */
  datatype Device = Default | Mounted(mountPoint: string, id: nat)

  datatype Entry = Entry(count: u32, device: Device, shared: bool)

  type Table = map<Path, Entry>

  /** The table, and the devices cleaned up so far with the paths they were removed from. */
  datatype World = World(table: Table, cleaned: seq<(Path, Device)>)

  datatype Call = Add(path: Path, shared: bool) | Update(path: Path, device: Device) | Remove(path: Path)

  // ---------------------------------------------------------------- the operations on values

  /** The counter is a 32-bit atomic: it wraps. */
  function Increment(count: u32): u32 {
    if count == U32_MAX then 0 else count + 1
  }

  function Decrement(count: u32): u32 {
    if count == 0 then U32_MAX else count - 1
  }

  function AddStorage(t: Table, path: Path, shared: bool): Table {
    if path in t then t[path := t[path].(count := Increment(t[path].count))]
    else t[path := Entry(1, Default, shared)]
  }

  function UpdateStorage(t: Table, path: Path, device: Device): Table {
    if path in t then t[path := t[path].(device := device)] else t
  }

  function RemoveStorage(w: World, path: Path): World {
    if path !in w.table then w
    else
      var e := w.table[path];
      if e.count != 1 then w.(table := w.table[path := e.(count := Decrement(e.count))])
      else if e.shared then w
      else World(w.table - {path}, w.cleaned + [(path, e.device)])
  }

  function Step(w: World, c: Call): World {
    match c
    case Add(path, shared) => w.(table := AddStorage(w.table, path, shared))
    case Update(path, device) => w.(table := UpdateStorage(w.table, path, device))
    case Remove(path) => RemoveStorage(w, path)
  }

  function Run(w: World, calls: seq<Call>): World {
    if calls == [] then w else Step(Run(w, calls[..|calls| - 1]), calls[|calls| - 1])
  }

  function After(calls: seq<Call>): World {
    Run(World(map[], []), calls)
  }

  // ---------------------------------------------------------------- what the calls alone say

  /** Adds minus removes on a path. */
  function Users(calls: seq<Call>, p: Path): int {
    if calls == [] then 0
    else
      var before := Users(calls[..|calls| - 1], p);
      match calls[|calls| - 1]
      case Add(path, _) => if path == p then before + 1 else before
      case Remove(path) => if path == p then before - 1 else before
      case Update(_, _) => before
  }

  /** The path was added as shared at a time when nobody used it. */
  predicate Shared(calls: seq<Call>, p: Path) {
    calls != [] &&
    var before := calls[..|calls| - 1];
    match calls[|calls| - 1]
    case Add(path, shared) => Shared(before, p) || (path == p && Users(before, p) == 0 && shared)
    case _ => Shared(before, p)
  }

  /** Once shared, the path was without users at some time. */
  predicate Drained(calls: seq<Call>, p: Path) {
    calls != [] &&
    var before := calls[..|calls| - 1];
    Drained(before, p) || (calls[|calls| - 1] == Remove(p) && Shared(before, p) && Users(before, p) == 1)
  }

  predicate Present(calls: seq<Call>, p: Path) {
    Shared(calls, p) || Users(calls, p) > 0
  }

  /** The device of the latest update since the path became present. */
  function Latest(calls: seq<Call>, p: Path): Device {
    if calls == [] then Default
    else
      var before := calls[..|calls| - 1];
      match calls[|calls| - 1]
      case Add(path, _) => if path == p && !Present(before, p) then Default else Latest(before, p)
      case Update(path, device) => if path == p && Present(before, p) then device else Latest(before, p)
      case Remove(_) => Latest(before, p)
  }

  /** The latest device at each time the last user of a non-shared path left. */
  function Retired(calls: seq<Call>, p: Path): seq<Device> {
    if calls == [] then []
    else
      var before := calls[..|calls| - 1];
      if calls[|calls| - 1] == Remove(p) && !Shared(before, p) && Users(before, p) == 1
      then Retired(before, p) + [Latest(before, p)]
      else Retired(before, p)
  }

  function CleanedAt(cleaned: seq<(Path, Device)>, p: Path): seq<Device> {
    if cleaned == [] then []
    else
      var last := cleaned[|cleaned| - 1];
      CleanedAt(cleaned[..|cleaned| - 1], p) + if last.0 == p then [last.1] else []
  }

  /** Removes never exceed adds, and no counter reaches its width. */
  predicate Legal(calls: seq<Call>) {
    calls == [] ||
    var before, last := calls[..|calls| - 1], calls[|calls| - 1];
    && Legal(before)
    && (last.Remove? ==> Users(before, last.path) >= 1)
    && (last.Add? ==> Users(before, last.path) < U32_MAX - 1)
  }

  // ---------------------------------------------------------------- the table follows the calls

  /** Everything the table holds at a path, in terms of the calls. */
  predicate Follows(w: World, calls: seq<Call>, p: Path) {
    && 0 <= Users(calls, p) < U32_MAX
    && (Drained(calls, p) ==> Shared(calls, p))
    && (Shared(calls, p) && Users(calls, p) == 0 ==> Drained(calls, p))
    && (p in w.table <==> Present(calls, p))
    && (p in w.table ==>
          && w.table[p].count == Users(calls, p) + (if Drained(calls, p) then 1 else 0)
          && w.table[p].device == Latest(calls, p)
          && w.table[p].shared == Shared(calls, p))
    && CleanedAt(w.cleaned, p) == Retired(calls, p)
  }

  lemma CleanedMore(cleaned: seq<(Path, Device)>, q: Path, d: Device, p: Path)
    ensures CleanedAt(cleaned + [(q, d)], p) == CleanedAt(cleaned, p) + if q == p then [d] else []
  {
    assert (cleaned + [(q, d)])[..|cleaned|] == cleaned;
  }

  lemma AddFollows(w: World, calls: seq<Call>, p: Path)
    requires calls != [] && Legal(calls) && calls[|calls| - 1].Add? && Follows(w, calls[..|calls| - 1], p)
    ensures Follows(Step(w, calls[|calls| - 1]), calls, p)
  {
    var before, last := calls[..|calls| - 1], calls[|calls| - 1];
    assert Retired(calls, p) == Retired(before, p);
    assert Drained(calls, p) == Drained(before, p);
    assert Users(calls, p) == Users(before, p) + if last.path == p then 1 else 0;
    assert last.path == p ==> Users(before, p) < U32_MAX - 1;
    assert Shared(calls, p) == (Shared(before, p) || (last.path == p && Users(before, p) == 0 && last.shared));
    assert Latest(calls, p) == if last.path == p && !Present(before, p) then Default else Latest(before, p);
    hide Retired, Drained, Users, Shared, Latest, CleanedAt, Legal;
  }

  lemma UpdateFollows(w: World, calls: seq<Call>, p: Path)
    requires calls != [] && Legal(calls) && calls[|calls| - 1].Update? && Follows(w, calls[..|calls| - 1], p)
    ensures Follows(Step(w, calls[|calls| - 1]), calls, p)
  {
    var before, last := calls[..|calls| - 1], calls[|calls| - 1];
    assert Retired(calls, p) == Retired(before, p);
    assert Drained(calls, p) == Drained(before, p);
    assert Users(calls, p) == Users(before, p);
    assert Shared(calls, p) == Shared(before, p);
    assert Latest(calls, p) == if last.path == p && Present(before, p) then last.device else Latest(before, p);
    hide Retired, Drained, Users, Shared, Latest, CleanedAt, Legal;
  }

  lemma RemoveHistory(calls: seq<Call>, p: Path)
    requires calls != [] && Legal(calls) && calls[|calls| - 1].Remove?
    ensures var before, last := calls[..|calls| - 1], calls[|calls| - 1];
      var ends := last.path == p && Users(before, p) == 1;
      && Retired(calls, p) ==
         (if ends && !Shared(before, p) then Retired(before, p) + [Latest(before, p)] else Retired(before, p))
      && Drained(calls, p) == (Drained(before, p) || (ends && Shared(before, p)))
      && Users(calls, p) == Users(before, p) - (if last.path == p then 1 else 0)
      && Shared(calls, p) == Shared(before, p) && Latest(calls, p) == Latest(before, p)
      && (last.path == p ==> Users(before, p) >= 1)
  {
  }

  lemma RemoveFollows(w: World, calls: seq<Call>, p: Path)
    requires calls != [] && Legal(calls) && calls[|calls| - 1].Remove? && Follows(w, calls[..|calls| - 1], p)
    ensures Follows(Step(w, calls[|calls| - 1]), calls, p)
  {
    hide Retired, Drained, Users, Shared, Latest, CleanedAt, Legal;
    var last := calls[|calls| - 1];
    RemoveHistory(calls, p);
    if last.path in w.table {
      CleanedMore(w.cleaned, last.path, w.table[last.path].device, p);
    }
  }

  lemma StepFollows(w: World, calls: seq<Call>, p: Path)
    requires calls != [] && Legal(calls) && Follows(w, calls[..|calls| - 1], p)
    ensures Follows(Step(w, calls[|calls| - 1]), calls, p)
  {
    match calls[|calls| - 1]
    case Add(_, _) => AddFollows(w, calls, p);
    case Update(_, _) => UpdateFollows(w, calls, p);
    case Remove(_) => RemoveFollows(w, calls, p);
  }

  /**
   Over every legal run: an entry is present exactly while it has users or is shared, its count
   is its number of users, one more for a shared entry that once had none, its device is the
   latest one, and the devices cleaned up at its path are the latest devices of its past
   non-shared lives, each once.
   */
  lemma {:induction false} TableFollowsCalls(calls: seq<Call>, p: Path)
    requires Legal(calls)
    ensures Follows(After(calls), calls, p)
    decreases |calls|
  {
    if calls != [] {
      TableFollowsCalls(calls[..|calls| - 1], p);
      StepFollows(After(calls[..|calls| - 1]), calls, p);
    }
  }

  /** A count is never zero, and equals the users of a non-shared path. */
  lemma CountsAreUsers(calls: seq<Call>, p: Path)
    requires Legal(calls) && p in After(calls).table
    ensures var e := After(calls).table[p];
      && e.count >= 1
      && (!e.shared ==> e.count == Users(calls, p))
      && (e.shared ==> e.count == Users(calls, p) || e.count == Users(calls, p) + 1)
  {
    TableFollowsCalls(calls, p);
  }

  /** An add yields count one exactly when it created the entry. */
  lemma CountOneMeansNew(calls: seq<Call>, p: Path, shared: bool)
    requires Legal(calls + [Add(p, shared)])
    ensures var w := After(calls); var t := AddStorage(w.table, p, shared);
      t[p].count == 1 <==> p !in w.table
  {
    assert (calls + [Add(p, shared)])[..|calls|] == calls;
    TableFollowsCalls(calls, p);
  }

  /** For every 32-bit count, adding and removing a present path cancel out, unless the count was zero. */
  lemma AddThenRemove(w: World, path: Path, shared: bool)
    requires path in w.table
    ensures RemoveStorage(w.(table := AddStorage(w.table, path, shared)), path) == w <==> w.table[path].count != 0
  {
    var e := w.table[path];
    var added := AddStorage(w.table, path, shared);
    if e.count == 0 {
      assert added[path].count == 1;
    } else {
      assert added[path := e] == w.table;
    }
  }

  /** A shared entry stays, with its flag, through every further call. */
  lemma {:induction false} SharedNeverDeleted(w: World, calls: seq<Call>, p: Path)
    requires p in w.table && w.table[p].shared
    ensures p in Run(w, calls).table && Run(w, calls).table[p].shared
    ensures CleanedAt(Run(w, calls).cleaned, p) == CleanedAt(w.cleaned, p)
    decreases |calls|
  {
    if calls != [] {
      var before := Run(w, calls[..|calls| - 1]);
      SharedNeverDeleted(w, calls[..|calls| - 1], p);
      var last := calls[|calls| - 1];
      if last.Remove? && last.path in before.table {
        CleanedMore(before.cleaned, last.path, before.table[last.path].device, p);
      }
    }
  }

  // ---------------------------------------------------------------- removing a container

  function RemoveEach(w: World, paths: seq<Path>): World
    decreases |paths|
  {
    if paths == [] then w else RemoveEach(RemoveStorage(w, paths[0]), paths[1..])
  }

  /** The listed paths that are sandbox storages, duplicates included. */
  function Held(t: Table, mounts: seq<Path>): seq<Path> {
    if mounts == [] then []
    else (if mounts[0] in t then [mounts[0]] else []) + Held(t, mounts[1..])
  }

  type Mounts = map<Cid, seq<Path>>

  function RemoveContainer(w: World, mounts: Mounts, cid: Cid): World {
    if cid in mounts then RemoveEach(w, Held(w.table, mounts[cid])) else w
  }

  /** How often a path occurs in all the lists. */
  ghost function Occurrences(mounts: Mounts, p: Path): nat
    decreases |mounts|
  {
    if mounts == map[] then 0
    else
      var cid :| cid in mounts;
      multiset(mounts[cid])[p] + Occurrences(mounts - {cid}, p)
  }

  /** Every non-shared count equals the occurrences of its path in the containers' lists and the sandbox's own. */
  ghost predicate Balanced(t: Table, mounts: Mounts, own: seq<Path>) {
    forall p <- t | !t[p].shared :: t[p].count == multiset(own)[p] + Occurrences(mounts, p)
  }

  /** Any list may be split off first. */
  lemma {:induction false} OccurrencesSplit(mounts: Mounts, cid: Cid, p: Path)
    requires cid in mounts
    ensures Occurrences(mounts, p) == multiset(mounts[cid])[p] + Occurrences(mounts - {cid}, p)
    decreases |mounts|
  {
    var first :|
      first in mounts && Occurrences(mounts, p) == multiset(mounts[first])[p] + Occurrences(mounts - {first}, p);
    if first != cid {
      OccurrencesSplit(mounts - {first}, cid, p);
      OccurrencesSplit(mounts - {cid}, first, p);
      assert mounts - {first} - {cid} == mounts - {cid} - {first};
    }
  }

  lemma {:induction false} HeldCounts(t: Table, mounts: seq<Path>, p: Path)
    ensures multiset(Held(t, mounts))[p] == if p in t then multiset(mounts)[p] else 0
  {
    if mounts != [] {
      HeldCounts(t, mounts[1..], p);
      assert mounts == [mounts[0]] + mounts[1..];
      assert multiset(mounts)[p] == multiset([mounts[0]])[p] + multiset(mounts[1..])[p];
    }
  }

  /** Removing a path as often as it is listed takes that much off its count, or ends it. */
  lemma {:induction false} RemoveEachAt(w: World, paths: seq<Path>, p: Path)
    requires p in w.table && !w.table[p].shared && 1 <= w.table[p].count && multiset(paths)[p] <= w.table[p].count
    ensures var r := RemoveEach(w, paths); var n := multiset(paths)[p];
      if w.table[p].count == n then
        p !in r.table && CleanedAt(r.cleaned, p) == CleanedAt(w.cleaned, p) + [w.table[p].device]
      else
        && p in r.table && r.table[p] == w.table[p].(count := w.table[p].count - n)
        && CleanedAt(r.cleaned, p) == CleanedAt(w.cleaned, p)
    decreases |paths|
  {
    if paths != [] {
      var q, rest := paths[0], paths[1..];
      var w1 := RemoveStorage(w, q);
      assert paths == [q] + rest;
      assert multiset(paths)[p] == multiset([q])[p] + multiset(rest)[p];
      if q in w.table { CleanedMore(w.cleaned, q, w.table[q].device, p); }
      hide CleanedAt;
      if p in w1.table {
        RemoveEachAt(w1, rest, p);
      } else {
        RemoveEachGone(w1, rest, p);
      }
    }
  }

  lemma {:induction false} RemoveEachGone(w: World, paths: seq<Path>, p: Path)
    requires p !in w.table
    ensures p !in RemoveEach(w, paths).table && CleanedAt(RemoveEach(w, paths).cleaned, p) == CleanedAt(w.cleaned, p)
    decreases |paths|
  {
    if paths != [] {
      var q := paths[0];
      if q in w.table { CleanedMore(w.cleaned, q, w.table[q].device, p); }
      RemoveEachGone(RemoveStorage(w, q), paths[1..], p);
    }
  }

  /** One removal, seen from a shared path. */
  lemma RemoveOneShared(w: World, q: Path, p: Path)
    requires p in w.table && w.table[p].shared && w.table[p].count >= 1
    ensures var r, e := RemoveStorage(w, q), w.table[p];
      && p in r.table && r.table[p] == e.(count := if q == p then Max(e.count - 1, 1) else e.count)
      && CleanedAt(r.cleaned, p) == CleanedAt(w.cleaned, p)
  {
    if q in w.table { CleanedMore(w.cleaned, q, w.table[q].device, p); }
    hide CleanedAt;
  }

  /** A shared path loses as many counts as it is listed, down to one, and is never cleaned up. */
  lemma {:induction false} RemoveEachShared(w: World, paths: seq<Path>, p: Path)
    requires p in w.table && w.table[p].shared && w.table[p].count >= 1
    ensures var r, e := RemoveEach(w, paths), w.table[p];
      && p in r.table && r.table[p] == e.(count := Max(e.count - multiset(paths)[p], 1))
      && CleanedAt(r.cleaned, p) == CleanedAt(w.cleaned, p)
    decreases |paths|
  {
    if paths != [] {
      var q, rest := paths[0], paths[1..];
      assert paths == [q] + rest;
      assert multiset(paths)[p] == multiset([q])[p] + multiset(rest)[p];
      RemoveOneShared(w, q, p);
      hide CleanedAt, RemoveStorage;
      RemoveEachShared(RemoveStorage(w, q), rest, p);
    }
  }

  /** Removing a container balances the counts against the remaining lists. */
  lemma RemoveContainerBalances(w: World, mounts: Mounts, own: seq<Path>, cid: Cid)
    requires Balanced(w.table, mounts, own) && forall p <- w.table :: w.table[p].count >= 1
    ensures Balanced(RemoveContainer(w, mounts, cid).table, mounts - {cid}, own)
  {
    var r := RemoveContainer(w, mounts, cid);
    if cid in mounts {
      forall p <- r.table | !r.table[p].shared
        ensures r.table[p].count == multiset(own)[p] + Occurrences(mounts - {cid}, p)
      {
        RemoveContainerAt(w, mounts, own, cid, p);
      }
    } else {
      assert mounts - {cid} == mounts;
    }
  }

  lemma RemoveContainerAt(w: World, mounts: Mounts, own: seq<Path>, cid: Cid, p: Path)
    requires Balanced(w.table, mounts, own) && (forall p <- w.table :: w.table[p].count >= 1) && cid in mounts
    ensures var r := RemoveContainer(w, mounts, cid);
      p in r.table && !r.table[p].shared ==> r.table[p].count == multiset(own)[p] + Occurrences(mounts - {cid}, p)
  {
    var paths := Held(w.table, mounts[cid]);
    OccurrencesSplit(mounts, cid, p);
    HeldCounts(w.table, mounts[cid], p);
    if p !in w.table {
      RemoveEachGone(w, paths, p);
    } else if w.table[p].shared {
      RemoveEachShared(w, paths, p);
    } else {
      RemoveEachAt(w, paths, p);
    }
  }

  /** A non-shared path that only this container lists is dropped, and its device cleaned up once. */
  lemma RemoveContainerDrops(w: World, mounts: Mounts, own: seq<Path>, cid: Cid, p: Path)
    requires Balanced(w.table, mounts, own) && forall p <- w.table :: w.table[p].count >= 1
    requires p in w.table && !w.table[p].shared && p !in own && Occurrences(mounts - {cid}, p) == 0
    ensures var r := RemoveContainer(w, mounts, cid);
      p !in r.table && CleanedAt(r.cleaned, p) == CleanedAt(w.cleaned, p) + [w.table[p].device]
  {
    WithoutMissing(mounts, cid);
    assert Occurrences(mounts, p) != 0;
    OccurrencesSplit(mounts, cid, p);
    HeldCounts(w.table, mounts[cid], p);
    RemoveEachAt(w, Held(w.table, mounts[cid]), p);
  }

  lemma WithoutMissing(mounts: Mounts, cid: Cid)
    ensures cid !in mounts ==> mounts - {cid} == mounts
  {
  }

  // ---------------------------------------------------------------- shared counters, changed in place

  class Counter {
    var value: u32

    constructor ()
      ensures value == 1
    {
      value := 1;
    }
  }

  /** A handle: clones share the counter. */
  datatype StorageState = StorageState(count: Counter, device: Device, shared: bool)

  datatype Replaced = Replaced(previous: Device) | Refused(device: Device)

  datatype Removal = NotFound | Kept | Deleted | CleanupFailed

  class Sandbox {
    var storages: map<Path, StorageState>
    var mounts: Mounts
    ghost var cleaned: seq<(Path, Device)>
    ghost var counters: set<Counter>
    ghost var table: Table

    /** `table` is what the entries and their counters hold; no two entries share a counter. */
    ghost predicate Valid()
      reads this, counters
    {
      && table.Keys == storages.Keys
      && (forall p <- storages :: storages[p].count in counters && table[p] ==
            Entry(storages[p].count.value, storages[p].device, storages[p].shared))
      && (forall p <- storages, q <- storages | storages[p].count == storages[q].count :: p == q)
    }

    ghost function Now(): World
      reads this
    {
      World(table, cleaned)
    }

    constructor ()
      ensures Valid() && Now() == After([]) && mounts == map[] && counters == {}
    {
      storages, mounts, cleaned, counters, table := map[], map[], [], {}, map[];
    }

    /** `add_sandbox_storage`: the handle returned shares its counter with the table's entry. */
    method AddSandboxStorage(path: Path, shared: bool) returns (state: StorageState)
      requires Valid()
      modifies this`storages, this`table, this`counters, counters
      ensures Valid() && fresh(counters - old(counters))
      ensures Now() == Step(old(Now()), Add(path, shared))
      ensures path in storages && state == storages[path]
      ensures path in old(storages) ==> storages == old(storages)
    {
      if path in storages {
        state := storages[path];
        state.count.value := if state.count.value == U32_MAX then 0 else state.count.value + 1;
      } else {
        var count := new Counter();
        state := StorageState(count, Default, shared);
        storages := storages[path := state];
        counters := counters + {count};
      }
      table := AddStorage(table, path, shared);
    }

    /** `update_sandbox_storage`: the counter survives the replacement of the device. */
    method UpdateSandboxStorage(path: Path, device: Device) returns (r: Replaced)
      requires Valid()
      modifies this`storages, this`table
      ensures Valid()
      ensures Now() == Step(old(Now()), Update(path, device))
      ensures r == if path in old(storages) then Replaced(old(storages[path].device)) else Refused(device)
      ensures forall p <- old(storages) :: p in storages && storages[p].count == old(storages[p].count)
    {
      if path !in storages { return Refused(device); }
      var existing := storages[path];
      storages := storages[path := existing.(device := device)];
      table := UpdateStorage(table, path, device);
      r := Replaced(existing.device);
    }

    /** `remove_sandbox_storage`; `cleanupOk` says whether cleaning up the device succeeds. */
    method RemoveSandboxStorage(path: Path, cleanupOk: bool) returns (r: Removal)
      requires Valid()
      modifies this`storages, this`table, this`cleaned, counters
      ensures Valid()
      ensures Now() == Step(old(Now()), Remove(path))
      ensures r.NotFound? <==> path !in old(storages)
      ensures r.Deleted? <==> path in old(storages) && path !in storages && cleanupOk
      ensures r.CleanupFailed? <==> path in old(storages) && path !in storages && !cleanupOk
    {
      if path !in storages { return NotFound; }
      var state := storages[path];
      var before := state.count.value;
      state.count.value := if before == 0 then U32_MAX else before - 1;
      r := Kept;
      if before == 1 {
        if state.shared {
          state.count.value := 1;
        } else {
          storages := storages - {path};
          cleaned := cleaned + [(path, state.device)];
          r := if cleanupOk then Deleted else CleanupFailed;
        }
      }
      table := RemoveStorage(old(Now()), path).table;
    }

    /** The first loop of `remove_container_resources`: the storages among a container's mounts. */
    method HeldStorages(list: seq<Path>) returns (held: seq<Path>)
      requires Valid()
      ensures held == Held(table, list)
    {
      held := [];
      var i := 0;
      while i < |list|
        invariant 0 <= i <= |list|
        invariant held + Held(table, list[i..]) == Held(table, list)
      {
        assert list[i..][0] == list[i] && list[i..][1..] == list[i + 1..];
        if list[i] in storages { held := held + [list[i]]; }
        i := i + 1;
      }
      assert held + [] == held;
    }

    /** The second loop: a failed removal is logged and the loop goes on. */
    method RemoveStorages(held: seq<Path>, cleanupOk: Path -> bool)
      requires Valid()
      modifies this`storages, this`table, this`cleaned, counters
      ensures Valid() && Now() == RemoveEach(old(Now()), held)
    {
      var i := 0;
      hide RemoveStorage, Valid;
      while i < |held|
        invariant 0 <= i <= |held| && Valid()
        invariant RemoveEach(Now(), held[i..]) == RemoveEach(old(Now()), held)
      {
        assert held[i..][0] == held[i] && held[i..][1..] == held[i + 1..];
        var _ := RemoveSandboxStorage(held[i], cleanupOk(held[i]));
        i := i + 1;
      }
    }

    /** `remove_container_resources`. */
    method RemoveContainerResources(cid: Cid, cleanupOk: Path -> bool)
      requires Valid()
      modifies this`storages, this`table, this`mounts, this`cleaned, counters
      ensures Valid()
      ensures Now() == RemoveContainer(old(Now()), old(mounts), cid) && mounts == old(mounts) - {cid}
    {
      if cid in mounts {
        var held := HeldStorages(mounts[cid]);
        RemoveStorages(held, cleanupOk);
      }
      mounts := mounts - {cid};
    }
  }
}
