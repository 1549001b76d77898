/** A watched storage as the agent keeps it: the index and the target are changed in place. */
module WatchedStorages {
  import opened Prelude
  import opened Watchers
  import opened WatcherRuns

  /** The entries of a directory walked so far: indexed, within the limits, each small. */
  predicate Walked(before: Index, done: seq<Visit>, now: Index) {
    now == Indexed(before, done) && CountsOk(before, done) && EachSmall(done)
  }

  lemma WalkedMore(before: Index, done: seq<Visit>, now: Index, u: seq<Path>, t: Tree, at: Path)
    requires Walked(before, done, now) && ScanTree(now, u, t, at).result.Size?
    ensures Walked(before, done + Walk(t, at), ScanTree(now, u, t, at).watched)
    ensures Total(done + Walk(t, at)) == Total(done) + ScanTree(now, u, t, at).result.bytes
    ensures ScanTree(now, u, t, at).result.bytes <= MAX_SIZE_PER_WATCHABLE_MOUNT
  {
    ScanTreeIsFold(now, u, t, at);
    FoldConcat(before, done, Walk(t, at));
    TotalBoundsEach(Walk(t, at));
  }

  lemma DistinctPrefix(a: seq<Visit>, b: seq<Visit>)
    requires Distinct(a + b)
    ensures Distinct(a)
  {
    forall i, j | 0 <= i < j < |a| ensures a[i].path != a[j].path {
      assert (a + b)[i] == a[i] && (a + b)[j] == a[j];
    }
  }

  /** Midway through a directory: `done` was walked from `before`, and `rest` is still to come. */
  predicate MidwayBy(before: Index, entries: Forest, at: Path, done: seq<Visit>, now: Index, rest: Forest, size: int) {
    && WellFormedForest(rest)
    && done + WalkForest(rest, at) == WalkForest(entries, at)
    && Distinct(WalkForest(entries, at))
    && Walked(before, done, now)
    && size == Total(done)
  }

  ghost predicate Midway(before: Index, entries: Forest, at: Path, now: Index, rest: Forest, size: int) {
    exists done :: MidwayBy(before, entries, at, done, now, rest, size)
  }

  lemma MidwayStart(before: Index, entries: Forest, at: Path)
    requires WellFormedForest(entries)
    ensures Midway(before, entries, at, before, entries, 0)
  {
    WalkForestDistinct(entries, at);
    assert [] + WalkForest(entries, at) == WalkForest(entries, at);
    assert MidwayBy(before, entries, at, [], before, entries, 0);
  }

  /** One more entry: the sum does not overflow. */
  lemma MidwayNext(before: Index, entries: Forest, at: Path, now: Index, u: seq<Path>, rest: Forest, size: int)
    requires Midway(before, entries, at, now, rest, size) && rest.Entry?
    requires ScanTree(now, u, rest.tree, at + [rest.name]).result.Size?
    ensures var one := ScanTree(now, u, rest.tree, at + [rest.name]);
      && 0 <= size + one.result.bytes <= U64_MAX
      && Midway(before, entries, at, one.watched, rest.rest, size + one.result.bytes)
  {
    hide ScanTree, Walk, WalkForest, WellFormedForest, Walked, Distinct, Total;
    var done :| MidwayBy(before, entries, at, done, now, rest, size);
    var here := at + [rest.name];
    var one := ScanTree(now, u, rest.tree, here);
    var more, later := Walk(rest.tree, here), WalkForest(rest.rest, at);
    EntryWalk(rest, at);
    assert done + (more + later) == (done + more) + later;
    WalkedMore(before, done, now, u, rest.tree, here);
    DistinctPrefix(done + more, later);
    WalkedBounded(before, done + more, one.watched);
    assert MidwayBy(before, entries, at, done + more, one.watched, rest.rest, size + one.result.bytes);
  }

  lemma EntryWalk(f: Forest, at: Path)
    requires f.Entry? && WellFormedForest(f)
    ensures WalkForest(f, at) == Walk(f.tree, at + [f.name]) + WalkForest(f.rest, at) && WellFormedForest(f.rest)
  {
    hide Walk;
  }

  lemma WalkedBounded(before: Index, done: seq<Visit>, now: Index)
    requires Walked(before, done, now) && Distinct(done)
    ensures 0 <= Total(done) <= U64_MAX
  {
    RunningSumBounded(before, done);
  }

  /** What is left to do decides the outcome of the whole directory. */
  ghost predicate OnTrack(goal: Scanned, before: Index, entries: Forest, at: Path, now: Scanned, rest: Forest) {
    && now.result.Size?
    && Midway(before, entries, at, now.watched, rest, now.result.bytes) && WellFormedForest(rest)
    && goal == ScanForest(now.watched, now.updates, rest, at, now.result.bytes)
  }

  lemma OnTrackNext(goal: Scanned, before: Index, entries: Forest, at: Path, now: Scanned, rest: Forest)
    requires OnTrack(goal, before, entries, at, now, rest) && rest.Entry?
    ensures WellFormed(rest.tree)
    ensures var one := ScanTree(now.watched, now.updates, rest.tree, at + [rest.name]);
      if one.result.Size? then
        && 0 <= now.result.bytes + one.result.bytes <= U64_MAX
        && OnTrack(goal, before, entries, at, one.(result := Size(now.result.bytes + one.result.bytes)), rest.rest)
      else goal == one
  {
    hide Midway, ScanTree;
    if ScanTree(now.watched, now.updates, rest.tree, at + [rest.name]).result.Size? {
      MidwayNext(before, entries, at, now.watched, now.updates, rest, now.result.bytes);
    }
  }

  lemma OnTrackEnd(goal: Scanned, before: Index, entries: Forest, at: Path, now: Scanned)
    requires OnTrack(goal, before, entries, at, now, End)
    ensures goal == now.(result := if now.result.bytes <= MAX_SIZE_PER_WATCHABLE_MOUNT then now.result else TooLarge)
  {
  }

  class WatchedStorage {
    var watch: bool
    var watched: Index
    var target: Target

    ghost function State(): ScanState
      reads this
    {
      ScanState(watched, target)
    }

    /** A storage whose source is a directory: the target mount point is made at once. */
    constructor ()
      ensures Storage(watch, State()) == FRESH
    {
      watch, watched, target := true, map[], map[[] := DirItem];
    }

    /** `scan_path`. */
    method ScanPath(t: Tree, at: Path, updateList: seq<Path>) returns (updates: seq<Path>, result: WalkResult)
      requires WellFormed(t)
      modifies this`watched
      ensures Scanned(watched, updates, result) == ScanTree(old(watched), updateList, t, at)
      decreases t
    {
      updates := updateList;
      if t.File? || t.Symlink? {
        if at in watched {
          if t.mtime > watched[at] { updates := updates + [at]; }
        } else {
          updates := updates + [at];
        }
        watched := watched[at := t.mtime];
        if |watched| > MAX_ENTRIES_PER_STORAGE { return updates, TooManyFiles; }
        var size := if t.File? then |t.content| else |t.dest|;
        result := if size <= MAX_SIZE_PER_WATCHABLE_MOUNT then Size(size) else TooLarge;
      } else {
        if at !in watched { updates := updates + [at]; }
        watched := watched[at := t.mtime];
        updates, result := ScanEntries(t.entries, at, updates);
      }
    }

    /** The loop of `scan_path` over the entries of a directory; the running sum is a 64-bit number. */
    method ScanEntries(entries: Forest, at: Path, updateList: seq<Path>)
      returns (updates: seq<Path>, result: WalkResult)
      requires WellFormedForest(entries)
      modifies this`watched
      ensures Scanned(watched, updates, result) == ScanForest(old(watched), updateList, entries, at, 0)
      decreases entries
    {
      updates := updateList;
      var size: u64 := 0;
      var rest := entries;
      MidwayStart(watched, entries, at);
      ghost var goal := ScanForest(watched, updateList, entries, at, 0);
      assert OnTrack(goal, watched, entries, at, Scanned(watched, updates, Size(size)), rest);
      hide *;
      while rest.Entry?
        invariant OnTrack(goal, old(watched), entries, at, Scanned(watched, updates, Size(size)), rest)
        decreases rest
      {
        OnTrackNext(goal, old(watched), entries, at, Scanned(watched, updates, Size(size)), rest);
        updates, result := ScanPath(rest.tree, at + [rest.name], updates);
        if !result.Size? { return; }
        size := size + result.bytes;
        rest := rest.rest;
      }
      OnTrackEnd(goal, old(watched), entries, at, Scanned(watched, updates, Size(size)));
      result := if size <= MAX_SIZE_PER_WATCHABLE_MOUNT then Size(size) else TooLarge;
    }

    /** The `retain` of `scan`: forget what no longer exists and list it, in any order. */
    method Retain(vs: seq<Visit>) returns (removed: seq<Path>)
      modifies this`watched
      ensures watched == Retained(old(watched), vs) && RemovalOrder(removed, old(watched), vs)
    {
      removed := [];
      var todo := watched.Keys;
      while todo != {}
        invariant todo <= old(watched).Keys
        invariant watched == map p | p in old(watched) && (p in todo || Exists(vs, p)) :: old(watched)[p]
        invariant (set p <- removed) == set p | p in old(watched) && p !in todo && !Exists(vs, p)
        decreases todo
      {
        var p :| p in todo;
        todo := todo - {p};
        if !Exists(vs, p) {
          assert (set q <- removed + [p]) == (set q <- removed) + {p};
          removed := removed + [p];
          watched := watched - {p};
        }
      }
    }

    /** Delete the listed paths from the target, a directory with all it holds. */
    method RemoveFromTarget(removed: seq<Path>)
      modifies this`target
      ensures target == RemoveAll(old(target), removed)
    {
      var i := 0;
      while i < |removed|
        invariant 0 <= i <= |removed|
        invariant RemoveAll(target, removed[i..]) == RemoveAll(old(target), removed)
      {
        var p := removed[i];
        assert removed[i..][0] == p && removed[i..][1..] == removed[i + 1..];
        if p in target && target[p].DirItem? {
          target := map q | q in target && !(p <= q) :: target[q];
        } else {
          target := target - {p};
        }
        i := i + 1;
      }
    }

    /** `update_target`. */
    method UpdateTarget(v: Visit)
      modifies this`target
      ensures target == UpdateOne(old(target), v)
    {
      if v.item.DirItem? {
        target := MkdirAll(target, v.path).0;
        return;
      }
      if v.path != [] {
        var (made, ok) := MkdirAll(target, Parent(v.path));
        target := made;
        if !ok { return; }
      }
      if v.item.LinkItem? {
        if v.path in target {
          if target[v.path].DirItem? { return; }
          target := target - {v.path};
        }
        target := target[v.path := v.item];
      } else if v.path !in target || target[v.path].FileItem? {
        target := target[v.path := v.item];
      }
    }

    /** Copy every path on the update list. */
    method UpdateTargets(vs: seq<Visit>, updates: seq<Path>)
      modifies this`target
      ensures target == UpdateAll(old(target), vs, updates)
    {
      var i := 0;
      while i < |updates|
        invariant 0 <= i <= |updates|
        invariant UpdateAll(target, vs, updates[i..]) == UpdateAll(old(target), vs, updates)
      {
        assert updates[i..][0] == updates[i] && updates[i..][1..] == updates[i + 1..];
        var v := Find(vs, updates[i]);
        if v.Some? { UpdateTarget(v.value); }
        i := i + 1;
      }
    }

    /** `scan`: `order` is the order in which removed paths were met. */
    method Scan(t: Tree) returns (r: Option<nat>, ghost order: seq<Path>)
      requires WellFormed(t)
      modifies this`watched, this`target
      ensures RemovalOrder(order, old(watched), Walk(t, []))
      ensures (State(), r) == Watchers.Scan(old(State()), t, order)
    {
      hide ScanTree, Walk, Retained, RemovalOrder, RemoveAll, UpdateAll, Find, WellFormed;
      var vs := Walk(t, []);
      var removed := Retain(vs);
      order := removed;
      RemoveFromTarget(removed);
      var updates, walked := ScanPath(t, [], []);
      if !walked.Size? {
        return None, order;
      }
      UpdateTargets(vs, updates);
      r := Some(|updates|);
    }

    /** `check` for one storage; `mountOk` says whether a bind mount over the target succeeds. */
    method Check(t: Tree, mountOk: bool) returns (ghost order: seq<Path>)
      requires WellFormed(t)
      modifies this
      ensures old(watch) ==> RemovalOrder(order, old(watched), Walk(t, []))
      ensures Storage(watch, State()) == WatcherRuns.Check(old(Storage(watch, State())), Round(t, order, mountOk))
    {
      order := [];
      if watch {
        var r;
        r, order := Scan(t);
        if r.None? && mountOk { watch := false; }
      }
    }
  }
}
