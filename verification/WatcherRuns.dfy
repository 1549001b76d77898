/**
 Polling rounds on one watched storage: scans, the bind mount of a source over the limits, and
 what a failed walk leaves behind.
 */
module WatcherRuns {
  import opened Prelude
  import opened Watchers

  // ---------------------------------------------------------------- runs of checks

  /** A watched storage, or one whose target was replaced by a bind mount of its source. */
  datatype Storage = Storage(watch: bool, state: ScanState)

  const FRESH: Storage := Storage(true, ScanState(map[], map[[] := DirItem]))

  /** One polling round: the source as it is, the removal order, and whether a bind mount would succeed. */
  datatype Round = Round(tree: Tree, order: seq<Path>, mountOk: bool) {
    function Visits(): seq<Visit> { Walk(tree, []) }
  }

  /** `check` on one storage: a storage over the limits is bind-mounted and no longer watched. */
  function Check(st: Storage, r: Round): Storage {
    if !st.watch then st
    else
      var (state, updated) := Scan(st.state, r.tree, r.order);
      Storage(updated.Some? || !r.mountOk, state)
  }

  function CheckAll(st: Storage, rounds: seq<Round>): Storage
    decreases |rounds|
  {
    if rounds == [] then st else CheckAll(Check(st, rounds[0]), rounds[1..])
  }

  predicate LegalRound(st: Storage, r: Round) {
    WellFormed(r.tree) && r.tree.Dir? && (st.watch ==> RemovalOrder(r.order, st.state.watched, r.Visits()))
  }

  /** Every round is legal in the state it meets. */
  predicate LegalRounds(st: Storage, rounds: seq<Round>)
    decreases |rounds|
  {
    rounds == [] || (LegalRound(st, rounds[0]) && LegalRounds(Check(st, rounds[0]), rounds[1..]))
  }

  /** While watched, the source evolves refreshably, and a bind mount succeeds when one is needed. */
  predicate GoodRound(st: Storage, prior: seq<Visit>, r: Round) {
    && LegalRound(st, r)
    && (st.watch ==> Evolves(prior, r.Visits()))
    && (st.watch && Scan(st.state, r.tree, r.order).1.None? ==> r.mountOk)
  }

  predicate GoodRun(st: Storage, prior: seq<Visit>, rounds: seq<Round>)
    decreases |rounds|
  {
    rounds == [] ||
    (GoodRound(st, prior, rounds[0]) && GoodRun(Check(st, rounds[0]), rounds[0].Visits(), rounds[1..]))
  }

  /** Whoever reads the target sees the source: through the bind mount, or in the copy. */
  ghost predicate Shows(st: Storage, vs: seq<Visit>) {
    st.watch ==> Copies(st.state.target, vs)
  }

  /** The copy and the index agree with the source, so that the next round starts afresh. */
  ghost predicate Tracks(st: Storage, vs: seq<Visit>) {
    st.watch ==> InStep(st.state, vs)
  }

  lemma CheckTracks(st: Storage, prior: seq<Visit>, r: Round)
    requires Tracks(st, prior) && GoodRound(st, prior, r)
    ensures Tracks(Check(st, r), r.Visits())
  {
    hide InStep, Evolves, Scan, RemovalOrder, WellFormed;
    if st.watch && Scan(st.state, r.tree, r.order).1.Some? {
      MirrorsExactlyWhen(st.state, prior, r.tree, r.order);
    }
  }

  lemma GoodStep(st: Storage, prior: seq<Visit>, rounds: seq<Round>)
    requires rounds != [] && GoodRun(st, prior, rounds)
    ensures GoodRound(st, prior, rounds[0]) && GoodRun(Check(st, rounds[0]), rounds[0].Visits(), rounds[1..])
    ensures CheckAll(st, rounds) == CheckAll(Check(st, rounds[0]), rounds[1..])
  {
    hide GoodRound, Check;
  }

  /** After every round of every good run the target shows the source of that round. */
  lemma EveryRunShowsTheSource(st: Storage, prior: seq<Visit>, rounds: seq<Round>)
    requires Tracks(st, prior) && GoodRun(st, prior, rounds)
    ensures Tracks(CheckAll(st, rounds), if rounds == [] then prior else rounds[|rounds| - 1].Visits())
    ensures rounds != [] ==> Shows(CheckAll(st, rounds), rounds[|rounds| - 1].Visits())
  {
    EveryRunTracks(st, prior, rounds);
    hide CheckAll, GoodRun, Walk;
  }

  lemma {:induction false} EveryRunTracks(st: Storage, prior: seq<Visit>, rounds: seq<Round>)
    requires Tracks(st, prior) && GoodRun(st, prior, rounds)
    ensures Tracks(CheckAll(st, rounds), if rounds == [] then prior else rounds[|rounds| - 1].Visits())
    decreases |rounds|
  {
    if rounds == [] {
      hide Tracks;
    } else {
      hide *;
      GoodStep(st, prior, rounds);
      CheckTracks(st, prior, rounds[0]);
      EveryRunTracks(Check(st, rounds[0]), rounds[0].Visits(), rounds[1..]);
    }
  }

  lemma {:induction false} GoodRunWellFormed(st: Storage, prior: seq<Visit>, rounds: seq<Round>, r: Round)
    requires GoodRun(st, prior, rounds) && r in rounds
    ensures WellFormed(r.tree)
    decreases |rounds|
  {
    GoodStep(st, prior, rounds);
    hide GoodRun, Check, WellFormed;
    if r != rounds[0] { GoodRunWellFormed(Check(st, rounds[0]), rounds[0].Visits(), rounds[1..], r); }
  }

  /** After every good run from a fresh storage the target is the last source tree, unless bind-mounted. */
  lemma EveryRunHoldsTheTree(rounds: seq<Round>)
    requires rounds != [] && GoodRun(FRESH, [], rounds)
    ensures var st := CheckAll(FRESH, rounds); st.watch ==> SameTree(st.state.target, rounds[|rounds| - 1].tree)
  {
    assert Tracks(FRESH, []);
    var last := rounds[|rounds| - 1];
    assert last in rounds;
    hide GoodRun, CheckAll, Tracks, SameTree;
    EveryRunShowsTheSource(FRESH, [], rounds);
    GoodRunWellFormed(FRESH, [], rounds, last);
    ShowsTheTree(CheckAll(FRESH, rounds), last);
  }

  lemma {:induction false} CheckAllLast(st: Storage, rounds: seq<Round>)
    requires rounds != []
    ensures CheckAll(st, rounds) == Check(CheckAll(st, rounds[..|rounds| - 1]), rounds[|rounds| - 1])
    decreases |rounds|
  {
    hide Check;
    var front := rounds[..|rounds| - 1];
    if |rounds| > 1 {
      assert rounds[1..][..|rounds| - 2] == front[1..] && front[0] == rounds[0];
      CheckAllLast(Check(st, rounds[0]), rounds[1..]);
    }
  }

  /**
   After any rounds at all, failed walks and failed mounts included, a round whose scan succeeds
   shows its source if and only if all comes out right from the state those rounds left; it also
   tracks the source if and only if no path behind a link stays indexed.
   */
  lemma RunShowsExactly(st: Storage, rounds: seq<Round>)
    requires rounds != [] && LegalRound(CheckAll(st, rounds[..|rounds| - 1]), rounds[|rounds| - 1])
    requires var before, r := CheckAll(st, rounds[..|rounds| - 1]), rounds[|rounds| - 1];
      before.watch ==> Scan(before.state, r.tree, r.order).1.Some?
    ensures var before, r := CheckAll(st, rounds[..|rounds| - 1]), rounds[|rounds| - 1];
      var right :=
        Restorable(RemoveAll(before.state.target, r.order), Retained(before.state.watched, r.Visits()), r.Visits());
      && (Shows(CheckAll(st, rounds), r.Visits()) <==> (before.watch ==> right))
      && (Tracks(CheckAll(st, rounds), r.Visits()) <==>
          (before.watch ==> right && Stale(before.state.watched, r.Visits()) == {}))
  {
    CheckAllLast(st, rounds);
    hide InStep, Copies, Restorable, CheckAll, RemoveAll, Retained, Scan, Stale;
    var before, r := CheckAll(st, rounds[..|rounds| - 1]), rounds[|rounds| - 1];
    if before.watch {
      ScanMirrorsExactly(before.state, r.tree, r.order);
    }
  }

  /** To show the source is to hold the very tree, or to be a bind mount of it. */
  lemma ShowsTheTree(st: Storage, r: Round)
    requires WellFormed(r.tree)
    ensures Shows(st, r.Visits()) <==> (st.watch ==> SameTree(st.state.target, r.tree))
  {
    CopiesTheTree(st.state.target, r.tree);
  }

  /** A mirrored snapshot determines the state, so removal order leaves no trace. */
  lemma InStepUnique(s: ScanState, s': ScanState, vs: seq<Visit>)
    requires InStep(s, vs) && InStep(s', vs)
    ensures s == s'
  {
    assert s.watched == s'.watched;
    assert s.target == s'.target;
  }

  // ---------------------------------------------------------------- updates lost by a failed walk

  /** The index says `v` was copied, while the target holds `x` in its place. */
  ghost predicate Lost(s: ScanState, v: Visit, x: Option<Item>) {
    v.path in s.watched && s.watched[v.path] == v.mtime && At(s.target, v.path) == x
  }

  lemma {:induction false} RemovalSpares(tgt: Target, ps: seq<Path>, q: Path)
    requires forall p <- ps :: !(p <= q)
    ensures At(RemoveAll(tgt, ps), q) == At(tgt, q)
    decreases |ps|
  {
    if ps != [] {
      assert ps[0] in ps && q <= q && forall r <- ps[1..] :: r in ps;
      RemovalSpares(RemoveOne(tgt, ps[0]), ps[1..], q);
    }
  }

  /** What still exists is not removed, nor is anything above it. */
  lemma PresentIsSpared(tgt: Target, w: Index, vs: seq<Visit>, order: seq<Path>, v: Visit)
    requires Snapshot(vs) && RemovalOrder(order, w, vs) && v in vs && v.Present()
    ensures At(RemoveAll(tgt, order), v.path) == At(tgt, v.path)
  {
    VisitedExists(vs, v);
    forall p <- order ensures !(p <= v.path) {
      assert p in (set r <- order) && p in Gone(w, vs);
      if p <= v.path { AboveExists(vs, p, v.path); }
    }
    RemovalSpares(tgt, order, v.path);
  }

  /** A walk, failed or not, leaves the time of a path as it was if it meets the same time again. */
  lemma {:induction false} ScanTreeTimes(w: Index, u: seq<Path>, t: Tree, at: Path, p: Path, m: int)
    requires p in w && w[p] == m && forall v <- Walk(t, at) | v.path == p :: v.mtime == m
    ensures p in ScanTree(w, u, t, at).watched && ScanTree(w, u, t, at).watched[p] == m
    decreases t
  {
    var v := Root(t, at);
    assert v in Walk(t, at);
    if t.Dir? {
      var (w1, u1) := Record(w, u, v);
      assert forall r <- WalkForest(t.entries, at) :: r in Walk(t, at);
      ScanForestTimes(w1, u1, t.entries, at, 0, p, m);
    }
  }

  lemma {:induction false} ScanForestTimes(w: Index, u: seq<Path>, f: Forest, at: Path, size: int, p: Path, m: int)
    requires p in w && w[p] == m && forall v <- WalkForest(f, at) | v.path == p :: v.mtime == m
    ensures p in ScanForest(w, u, f, at, size).watched && ScanForest(w, u, f, at, size).watched[p] == m
    decreases f
  {
    if f.Entry? {
      var here := at + [f.name];
      assert forall r <- Walk(f.tree, here) :: r in WalkForest(f, at);
      assert forall r <- WalkForest(f.rest, at) :: r in WalkForest(f, at);
      ScanTreeTimes(w, u, f.tree, here, p, m);
      var first := ScanTree(w, u, f.tree, here);
      if first.result.Size? {
        ScanForestTimes(first.watched, first.updates, f.rest, at, size + first.result.bytes, p, m);
      }
    }
  }

  /** A lost update survives every scan that meets the same file, successful or not. */
  lemma LostStaysLost(s: ScanState, t: Tree, order: seq<Path>, v: Visit, x: Option<Item>)
    requires WellFormed(t) && t.Dir? && RemovalOrder(order, s.watched, Walk(t, []))
    requires v in Walk(t, []) && v.Leaf() && v.Present() && Lost(s, v, x)
    ensures Lost(Scan(s, t, order).0, v, x)
  {
    var vs := Walk(t, []);
    var kept := Retained(s.watched, vs);
    WalkIsSnapshot(t);
    FindVisit(vs, v);
    VisitedExists(vs, v);
    hide Exists;
    PresentIsSpared(s.target, s.watched, vs, order, v);
    if Scan(s, t, order).1.None? {
      forall u <- vs | u.path == v.path ensures u.mtime == v.mtime { FindVisit(vs, u); }
      ScanTreeTimes(kept, [], t, [], v.path, v.mtime);
    } else {
      ScanOutcome(s, t, order);
      IndexedAt(kept, vs, v.path);
      hide Scan, Walk, RemoveAll, ScanTree;
      LeafUntouched(RemoveAll(s.target, order), kept, vs, v);
    }
  }

  lemma LeafUntouched(tgt: Target, w: Index, vs: seq<Visit>, v: Visit)
    requires Snapshot(vs) && v in vs && v.Leaf() && !Changed(w, v)
    ensures At(UpdateAll(tgt, vs, Pending(w, vs)), v.path) == At(tgt, v.path)
  {
    var ps := Pending(w, vs);
    PendingMeansChanged(w, vs, v);
    hide UpdateAll;
    if v.path in tgt {
      UpdateAllKeeps(tgt, vs, ps, v.path);
    } else {
      forall p <- ps ensures !(v.path <= p) {
        PendingIff(w, vs, p);
        var u :| u in vs && u.path == p && Changed(w, u);
        if v.path <= p { OnlyDirsHaveMore(vs, v, u); }
      }
      UpdateAllSkips(tgt, vs, ps, v.path);
    }
  }

  lemma {:induction false} LostForEveryRun(st: Storage, rounds: seq<Round>, v: Visit, x: Option<Item>)
    requires LegalRounds(st, rounds) && v.Leaf() && v.Present() && Lost(st.state, v, x)
    requires forall r <- rounds :: v in r.Visits()
    ensures Lost(CheckAll(st, rounds).state, v, x)
    decreases |rounds|
  {
    if rounds != [] {
      var r := rounds[0];
      assert r in rounds && forall q <- rounds[1..] :: q in rounds;
      hide Lost, Scan, RemovalOrder, WellFormed, Walk;
      if st.watch { LostStaysLost(st.state, r.tree, r.order, v, x); }
      LostForEveryRun(Check(st, r), rounds[1..], v, x);
    }
  }

  /**
   A failed walk keeps the index and drops the update list.  If the bind mount fails too, every
   file it had indexed whose target is missing or stale stays so through all later rounds, however
   their scans end, until the file changes again; and no such round shows the source.
   */
  lemma {:induction false} FailedWalkLosesUpdates(st: Storage, r: Round, rounds: seq<Round>, v: Visit)
    requires st.watch && LegalRound(st, r) && Scan(st.state, r.tree, r.order).1.None? && !r.mountOk
    requires v in r.Visits() && v.Leaf() && v.Present() && At(st.state.target, v.path) != Some(v.item)
    requires var failed := Check(st, r).state; v.path in failed.watched && failed.watched[v.path] == v.mtime
    requires LegalRounds(Check(st, r), rounds) && forall q <- rounds :: v in q.Visits()
    ensures var after := CheckAll(Check(st, r), rounds);
      && At(after.state.target, v.path) == At(st.state.target, v.path)
      && (rounds != [] && after.watch ==> !Shows(after, rounds[|rounds| - 1].Visits()))
  {
    var failed, x := Check(st, r), At(st.state.target, v.path);
    WalkIsSnapshot(r.tree);
    PresentIsSpared(st.state.target, st.state.watched, r.Visits(), r.order, v);
    assert Lost(failed.state, v, x);
    LostForEveryRun(failed, rounds, v, x);
    hide CheckAll, Scan, LegalRounds, RemoveAll;
    if rounds != [] {
      var last := rounds[|rounds| - 1];
      assert last in rounds;
      AllWellFormed(failed, rounds, last);
      WalkIsSnapshot(last.tree);
      NotCopied(CheckAll(failed, rounds).state.target, last.Visits(), v);
    }
  }

  lemma {:induction false} AllWellFormed(st: Storage, rounds: seq<Round>, r: Round)
    requires LegalRounds(st, rounds) && r in rounds
    ensures WellFormed(r.tree) && r.tree.Dir?
    decreases |rounds|
  {
    hide WellFormed, RemovalOrder, Check;
    if r != rounds[0] { AllWellFormed(Check(st, rounds[0]), rounds[1..], r); }
  }

  lemma NotCopied(tgt: Target, vs: seq<Visit>, v: Visit)
    requires Distinct(vs) && v in vs && At(tgt, v.path) != Some(v.item)
    ensures !Copies(tgt, vs)
  {
    FindVisit(vs, v);
    assert v.path in tgt ==> tgt[v.path] != v.item;
  }

  /** A small file `g` listed before a file over the limit is such a lost update. */
  lemma LostUpdateExample(f: Name, g: Name, big: seq<byte>, small: seq<byte>)
    requires f != g && |big| > MAX_SIZE_PER_WATCHABLE_MOUNT >= |small|
    ensures
      var both := Round(Dir(0, Entry(g, File(small, 0), Entry(f, File(big, 0), End))), [], false);
      var one := Round(Dir(1, Entry(g, File(small, 0), End)), [[f]], false);
      var st := Check(FRESH, both);
      && st.watch && Scan(st.state, one.tree, one.order).1.Some?
      && [g] !in Check(st, one).state.target && !Shows(Check(st, one), one.Visits())
  {
    var both := Round(Dir(0, Entry(g, File(small, 0), Entry(f, File(big, 0), End))), [], false);
    var one := Round(Dir(1, Entry(g, File(small, 0), End)), [[f]], false);
    var v := Visit([g], FileItem(small), 0, {[]});
    FirstRoundFails(f, g, big, small);
    SecondRoundSucceeds(f, g, small);
    var st := Check(FRESH, both);
    assert one.tree.Dir? && both.tree.Dir? && At(FRESH.state.target, [g]) == None;
    hide Scan, Walk, WellFormed, RemovalOrder, Copies;
    assert [one][1..] == [] && [one][0] == one;
    assert LegalRounds(st, [one]);
    FailedWalkLosesUpdates(FRESH, both, [one], v);
    assert CheckAll(st, [one]) == Check(st, one);
  }

  lemma SecondRoundSucceeds(f: Name, g: Name, small: seq<byte>)
    requires f != g && |small| <= MAX_SIZE_PER_WATCHABLE_MOUNT
    ensures var one := Dir(1, Entry(g, File(small, 0), End));
      var failed := ScanState(map[[] := 0, [g] := 0, [f] := 0], map[[] := DirItem]);
      && WellFormed(one) && RemovalOrder([[f]], failed.watched, Walk(one, []))
      && Visit([g], FileItem(small), 0, {[]}) in Walk(one, [])
      && Scan(failed, one, [[f]]).1.Some?
  {
    var one := Dir(1, Entry(g, File(small, 0), End));
    var failed := ScanState(map[[] := 0, [g] := 0, [f] := 0], map[[] := DirItem]);
    var vs := Walk(one, []);
    var v := Visit([g], FileItem(small), 0, {[]});
    SmallWalk(g, small);
    hide Find, Walk, ScanTree, RemoveAll, UpdateAll;
    assert vs[1] == v;
    WalkIsSnapshot(one);
    VisitedExists(vs, v);
    VisitedExists(vs, vs[0]);
    NoneBehind(vs, [f]);
    hide Exists, Snapshot;
    SmallScan(Retained(failed.watched, vs), g, small);
    OnlyFGone(failed.watched, vs, f, g);
  }

  lemma FirstRoundFails(f: Name, g: Name, big: seq<byte>, small: seq<byte>)
    requires f != g && |big| > MAX_SIZE_PER_WATCHABLE_MOUNT >= |small|
    ensures var both := Dir(0, Entry(g, File(small, 0), Entry(f, File(big, 0), End)));
      && WellFormed(both) && RemovalOrder([], map[], Walk(both, []))
      && Visit([g], FileItem(small), 0, {[]}) in Walk(both, [])
      && Scan(FRESH.state, both, []) ==
         (ScanState(map[[] := 0, [g] := 0, [f] := 0], map[[] := DirItem]), None)
  {
    var last := Entry(f, File(big, 0), End);
    var both := Dir(0, Entry(g, File(small, 0), last));
    assert Names(End) == {} && Names(last) == {f} && WellFormedForest(last);
    EntriesWalk(g, File(small, 0), last);
    DirectoryWalk(both, []);
    assert Walk(File(small, 0), [g]) == [Visit([g], FileItem(small), 0, {[]})];
    assert Walk(both, [])[1] == Visit([g], FileItem(small), 0, {[]});
    TooLargeWalk(f, g, big, small);
    hide ScanTree, Walk, WalkForest;
    var none: seq<Path> := [];
    assert (set p <- none) == Gone(map[], Walk(both, []));
    assert Retained(map[], Walk(both, [])) == map[];
    assert WellFormedForest(both.entries);
  }

  lemma NoneBehind(vs: seq<Visit>, p: Path)
    requires forall v <- vs :: v.path != p && v.behind == {[]}
    ensures !Exists(vs, p)
  {
    forall v <- vs | v.path <= p ensures p[|v.path|..] != [] {}
  }

  lemma OnlyFGone(w: Index, vs: seq<Visit>, f: Name, g: Name)
    requires w.Keys == {[], [g], [f]} && Exists(vs, []) && Exists(vs, [g]) && !Exists(vs, [f])
    ensures RemovalOrder([[f]], w, vs)
  {
    assert (set p <- [[f]]) == {[f]};
  }

  lemma SmallWalk(g: Name, small: seq<byte>)
    ensures var one := Dir(1, Entry(g, File(small, 0), End));
      && WellFormed(one) && Distinct(Walk(one, []))
      && Walk(one, []) == [Visit([], DirItem, 1, {[]}), Visit([g], FileItem(small), 0, {[]})]
  {
    var only := Entry(g, File(small, 0), End);
    assert Names(End) == {};
    assert WalkForest(only, []) == Walk(File(small, 0), [g]) + WalkForest(End, []) by {
      assert [] + [g] == [g];
    }
  }

  lemma SmallScan(w: Index, g: Name, small: seq<byte>)
    requires w.Keys <= {[], [g]} && |small| <= MAX_SIZE_PER_WATCHABLE_MOUNT
    ensures ScanTree(w, [], Dir(1, Entry(g, File(small, 0), End)), []).result.Size?
  {
    var one := Dir(1, Entry(g, File(small, 0), End));
    var vs := Walk(one, []);
    SmallWalk(g, small);
    ScanTreeIsFold(w, [], one, []);
    var w1 := w[[] := 1];
    assert w1[[g] := 0].Keys == {[], [g]};
    assert vs[1..] == [Visit([g], FileItem(small), 0, {[]})] && vs[1..][1..] == [];
    assert CountsOk(w1, vs[1..]);
    assert Total(vs[1..]) == |small|;
  }

  lemma TooLargeWalk(f: Name, g: Name, big: seq<byte>, small: seq<byte>)
    requires f != g && |big| > MAX_SIZE_PER_WATCHABLE_MOUNT >= |small|
    ensures var both := Dir(0, Entry(g, File(small, 0), Entry(f, File(big, 0), End)));
      ScanTree(map[], [], both, []) == Scanned(map[[] := 0, [g] := 0, [f] := 0], [[], [g], [f]], TooLarge)
  {
    var bigOnly := Entry(f, File(big, 0), End);
    var w0: Index := map[[] := 0];
    var w1 := w0[[g] := 0];
    var w2 := w1[[f] := 0];
    assert [] + [g] == [g] && [] + [f] == [f];
    assert w1.Keys == {[], [g]} && w2.Keys == {[], [g], [f]};
    assert ScanTree(w0, [[]], File(small, 0), [g]) == Scanned(w1, [[], [g]], Size(|small|));
    assert ScanTree(w1, [[], [g]], File(big, 0), [f]) == Scanned(w2, [[], [g], [f]], TooLarge);
    assert ScanForest(w1, [[], [g]], bigOnly, [], |small|) == Scanned(w2, [[], [g], [f]], TooLarge);
    var none: seq<Path> := [];
    assert none + [[]] == [[]];
    assert ScanForest(w0, [[]], Entry(g, File(small, 0), bigOnly), [], 0) == Scanned(w2, [[], [g], [f]], TooLarge);
  }

  // ---------------------------------------------------------------- a directory moved behind a link

  /** Empty files with these names. */
  function EmptyFiles(names: seq<Name>): Forest {
    if names == [] then End else Entry(names[0], File([], 0), EmptyFiles(names[1..]))
  }

  predicate AllDifferent(names: seq<Name>) {
    forall i, j | 0 <= i < j < |names| :: names[i] != names[j]
  }

  /** A directory `p` of empty files. */
  function Before(p: Name, names: seq<Name>): Tree {
    Dir(0, Entry(p, Dir(0, EmptyFiles(names)), End))
  }

  /** The same directory renamed to `d`, and a link to it under its old name. */
  function After(p: Name, d: Name, names: seq<Name>): Tree {
    var behind := {[]} + set n <- names :: [n];
    Dir(1, Entry(d, Dir(0, EmptyFiles(names)), Entry(p, Symlink(d, behind, 1), End)))
  }

  lemma {:induction false} EmptyFilesWalk(names: seq<Name>, at: Path)
    ensures WalkForest(EmptyFiles(names), at) ==
      seq(|names|, i requires 0 <= i < |names| => Visit(at + [names[i]], FileItem([]), 0, {[]}))
    ensures LeafCount(WalkForest(EmptyFiles(names), at)) == |names|
    ensures Total(WalkForest(EmptyFiles(names), at)) == 0
    ensures Names(EmptyFiles(names)) == set n <- names
    ensures AllDifferent(names) ==> WellFormedForest(EmptyFiles(names))
  {
    if names != [] {
      EmptyFilesWalk(names[1..], at);
      var v := Visit(at + [names[0]], FileItem([]), 0, {[]});
      var rest := WalkForest(EmptyFiles(names[1..]), at);
      assert WalkForest(EmptyFiles(names), at) == [v] + rest;
      assert ([v] + rest)[1..] == rest;
      assert (set n <- names) == {names[0]} + set n <- names[1..];
    }
  }

  lemma {:induction false} LeafCountConcat(a: seq<Visit>, b: seq<Visit>)
    ensures LeafCount(a + b) == LeafCount(a) + LeafCount(b)
  {
    if a == [] {
      assert a + b == b;
    } else {
      assert (a + b)[1..] == a[1..] + b;
      LeafCountConcat(a[1..], b);
    }
  }

  /** The visits of a directory of empty files, below the directory itself. */
  function EmptyVisits(names: seq<Name>, at: Path): seq<Visit> {
    WalkForest(EmptyFiles(names), at)
  }

  lemma EmptyVisited(names: seq<Name>, at: Path, n: Name)
    ensures n in names ==> Visit(at + [n], FileItem([]), 0, {[]}) in EmptyVisits(names, at)
    ensures forall v <- EmptyVisits(names, at) :: |v.path| == |at| + 1 && at <= v.path
  {
    EmptyFilesWalk(names, at);
    hide EmptyFiles, WalkForest;
    if n in names {
      var i :| 0 <= i < |names| && names[i] == n;
      assert EmptyVisits(names, at)[i] == Visit(at + [n], FileItem([]), 0, {[]});
    }
  }

  lemma DirectoryWalk(t: Tree, at: Path)
    requires t.Dir?
    ensures Walk(t, at) == [Visit(at, DirItem, t.mtime, {[]})] + WalkForest(t.entries, at)
  {
    hide WalkForest;
  }

  lemma EntriesWalk(name: Name, t: Tree, rest: Forest)
    ensures WalkForest(Entry(name, t, rest), []) == Walk(t, [name]) + WalkForest(rest, [])
  {
    assert [] + [name] == [name];
    hide Walk;
  }

  lemma BeforeWalk(p: Name, names: seq<Name>)
    requires AllDifferent(names)
    ensures WellFormed(Before(p, names))
    ensures Walk(Before(p, names), []) ==
      [Visit([], DirItem, 0, {[]}), Visit([p], DirItem, 0, {[]})] + EmptyVisits(names, [p])
    ensures Total(Walk(Before(p, names), [])) == 0 && |Walk(Before(p, names), [])| == |names| + 2
  {
    EmptyFilesWalk(names, [p]);
    var dirs := [Visit([], DirItem, 0, {[]}), Visit([p], DirItem, 0, {[]})];
    var files := EmptyVisits(names, [p]);
    DirectoryWalk(Before(p, names), []);
    DirectoryWalk(Dir(0, EmptyFiles(names)), [p]);
    EntriesWalk(p, Dir(0, EmptyFiles(names)), End);
    TotalConcat(dirs, files);
    assert dirs[1..][1..] == [] && WalkForest(End, []) == [] && Names(End) == {};
    assert WellFormed(Dir(0, EmptyFiles(names)));
    assert WellFormedForest(Entry(p, Dir(0, EmptyFiles(names)), End));
    hide Walk, WalkForest, EmptyFiles;
    assert [dirs[0]] + (([dirs[1]] + files) + []) == dirs + files;
  }

  function Link(p: Name, d: Name, names: seq<Name>): Visit {
    Visit([p], LinkItem(d), 1, {[]} + set n <- names :: [n])
  }

  lemma LinkLegal(p: Name, d: Name, names: seq<Name>)
    ensures PrefixClosed(Link(p, d, names).behind)
  {
    var behind := Link(p, d, names).behind;
    forall q <- behind, n | 0 <= n <= |q| ensures q[..n] in behind {
      assert q[..n] == [] || q[..n] == q;
    }
  }

  lemma AfterWellFormed(p: Name, d: Name, names: seq<Name>)
    requires AllDifferent(names) && p != d
    ensures WellFormed(After(p, d, names))
  {
    EmptyFilesWalk(names, [d]);
    LinkLegal(p, d, names);
    hide EmptyFiles, WalkForest, PrefixClosed;
    var last := Entry(p, Symlink(d, Link(p, d, names).behind, 1), End);
    assert Names(End) == {} && Names(last) == {p};
    assert WellFormed(Dir(0, EmptyFiles(names))) && WellFormedForest(last);
    assert WellFormedForest(Entry(d, Dir(0, EmptyFiles(names)), last));
  }

  lemma AfterWalk(p: Name, d: Name, names: seq<Name>)
    ensures Walk(After(p, d, names), []) ==
      [Visit([], DirItem, 1, {[]}), Visit([d], DirItem, 0, {[]})] + EmptyVisits(names, [d]) + [Link(p, d, names)]
  {
    var dirs := [Visit([], DirItem, 1, {[]}), Visit([d], DirItem, 0, {[]})];
    var files, link := EmptyVisits(names, [d]), Link(p, d, names);
    var last := Entry(p, Symlink(d, link.behind, 1), End);
    DirectoryWalk(After(p, d, names), []);
    DirectoryWalk(Dir(0, EmptyFiles(names)), [d]);
    EntriesWalk(d, Dir(0, EmptyFiles(names)), last);
    EntriesWalk(p, last.tree, End);
    assert Walk(last.tree, [p]) == [link] && WalkForest(End, []) == [];
    hide Walk, WalkForest, EmptyFiles, Link;
    assert [dirs[0]] + (([dirs[1]] + files) + ([link] + [])) == dirs + files + [link];
  }

  lemma AfterSize(p: Name, d: Name, names: seq<Name>)
    ensures var vs := Walk(After(p, d, names), []);
      |vs| == |names| + 3 && LeafCount(vs) == |names| + 1 && Total(vs) == |d|
  {
    AfterWalk(p, d, names);
    EmptyFilesWalk(names, [d]);
    var dirs := [Visit([], DirItem, 1, {[]}), Visit([d], DirItem, 0, {[]})];
    var files, link := EmptyVisits(names, [d]), [Link(p, d, names)];
    assert files == WalkForest(EmptyFiles(names), [d]);
    hide Walk, WalkForest, EmptyVisits, After, WellFormed;
    LeafCountConcat(dirs, files);
    LeafCountConcat(dirs + files, link);
    TotalConcat(dirs, files);
    TotalConcat(dirs + files, link);
    assert dirs[1..][1..] == [] && link[1..] == [];
  }

  lemma MovedWasIndexed(w: Index, p: Name, names: seq<Name>, n: Name)
    requires AllDifferent(names) && n in names && Lists(w, Walk(Before(p, names), []))
    ensures [p, n] in w
  {
    BeforeWalk(p, names);
    EmptyVisited(names, [p], n);
    hide Walk, EmptyVisits, Before, WellFormed, Find;
    assert [p] + [n] == [p, n];
    var v := Visit([p, n], FileItem([]), 0, {[]});
    assert v in Walk(Before(p, names), []);
  }

  lemma MovedExists(p: Name, d: Name, names: seq<Name>, n: Name)
    requires n in names
    ensures Exists(Walk(After(p, d, names), []), [p, n])
  {
    AfterWalk(p, d, names);
    hide Walk, EmptyVisits, After, WellFormed;
    var vs, link := Walk(After(p, d, names), []), Link(p, d, names);
    assert vs[|vs| - 1] == link && [p, n][|link.path|..] == [n] && [n] in link.behind;
  }

  lemma MovedNotVisited(p: Name, d: Name, names: seq<Name>, n: Name)
    requires p != d
    ensures Find(Walk(After(p, d, names), []), [p, n]).None?
  {
    AfterWalk(p, d, names);
    EmptyVisited(names, [d], n);
    hide Walk, EmptyVisits, After, WellFormed, Find;
    forall v <- EmptyVisits(names, [d]) ensures v.path != [p, n] {
      assert v.path[0] == d;
    }
    assert forall v <- Walk(After(p, d, names), []) :: v.path != [p, n];
  }

  /** Each file indexed under the old name is kept, for it exists behind the link. */
  lemma MovedIsStale(w: Index, p: Name, d: Name, names: seq<Name>, n: Name)
    requires AllDifferent(names) && p != d && n in names && Lists(w, Walk(Before(p, names), []))
    ensures [p, n] in Stale(w, Walk(After(p, d, names), []))
  {
    MovedWasIndexed(w, p, names, n);
    MovedExists(p, d, names, n);
    MovedNotVisited(p, d, names, n);
    hide Walk, Lists, Find, Exists, Before, After;
  }

  lemma {:induction false} ManyMoved(p: Name, names: seq<Name>, stale: set<Path>)
    requires AllDifferent(names) && forall n <- names :: [p, n] in stale
    ensures |stale| >= |names|
  {
    if names != [] {
      forall n <- names[1..] ensures [p, n] in stale - {[p, names[0]]} {
        var j :| 0 <= j < |names[1..]| && names[1..][j] == n;
        assert names[j + 1] == n && [p, n][1] != names[0];
      }
      ManyMoved(p, names[1..], stale - {[p, names[0]]});
    }
  }

  /**
   The entries of a source do not decide alone.  A directory of eight to thirteen files is mirrored;
   then it is renamed and a link put in its place.  The new source has at most sixteen entries and a
   fresh storage takes it, but the next scan refuses it, whatever the order of removals.
   */
  lemma MovedDirectoryRefused(p: Name, d: Name, names: seq<Name>, order: seq<Path>)
    requires AllDifferent(names) && p != d && 8 <= |names| <= 13 && |d| <= MAX_SIZE_PER_WATCHABLE_MOUNT
    ensures
      var st := Check(FRESH, Round(Before(p, names), [], false));
      && Tracks(st, Walk(Before(p, names), [])) && st.watch
      && WellFormed(After(p, d, names)) && |Walk(After(p, d, names), [])| <= MAX_ENTRIES_PER_STORAGE
      && Scan(FRESH.state, After(p, d, names), []).1.Some?
      && Scan(st.state, After(p, d, names), order).1.None?
  {
    var before, after := Before(p, names), After(p, d, names);
    var vs, next := Walk(before, []), Walk(after, []);
    BeforeWalk(p, names);
    AfterWellFormed(p, d, names);
    AfterSize(p, d, names);
    assert Stale(map[], vs) == {} && Stale(map[], next) == {};
    assert before.Dir? && after.Dir?;
    hide Walk, WalkForest, Before, After, WellFormed, Scan, Stale;
    SmallSourceIsOk(FRESH.state, before, []);
    SmallSourceIsOk(FRESH.state, after, []);
    FirstScanTracks(before);
    var s := Scan(FRESH.state, before, []).0;
    forall n <- names ensures [p, n] in Stale(s.watched, next) { MovedIsStale(s.watched, p, d, names, n); }
    ManyMoved(p, names, Stale(s.watched, next));
    SmallSourceIsOk(s, after, order);
  }

  /** A fresh storage is in step with its source after the first scan that succeeds. */
  lemma FirstScanTracks(t: Tree)
    requires WellFormed(t) && t.Dir? && Scan(FRESH.state, t, []).1.Some?
    ensures InStep(Scan(FRESH.state, t, []).0, Walk(t, []))
  {
    var none: seq<Path> := [];
    assert (set p <- none) == Gone(map[], Walk(t, []));
    assert InStep(FRESH.state, []);
    hide Scan, Walk, InStep, WellFormed;
    MirrorsExactlyWhen(FRESH.state, [], t, []);
  }
}
