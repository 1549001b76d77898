/**
 The mirror-by-polling watcher: a source tree is walked again and again, an index of
 modification times decides what to copy, and the target tree is to equal the source.

 Paths in the index and in the target tree are relative to their mount point; the empty
 path is the mount point itself.
 */
module Watchers {
  import opened Prelude

  type Name = string
  type Path = seq<Name>
  newtype byte = x: int | 0 <= x < 256

  const MAX_ENTRIES_PER_STORAGE: int := 16
  const MAX_SIZE_PER_WATCHABLE_MOUNT: int := 0x10_0000

  // ---------------------------------------------------------------- path mapping

  /** `make_target_path`: strip the source mount point, prepend the target one. */
  function MakeTargetPath(source: Path, target: Path, path: Path): Option<Path> {
    if source <= path then Some(target + path[|source|..]) else None
  }

  /** The mapping is a bijection between the paths under the two mount points. */
  lemma TargetPathBijective(source: Path, target: Path, path: Path)
    ensures source <= path <==> MakeTargetPath(source, target, path).Some?
    ensures source <= path ==> MakeTargetPath(target, source, MakeTargetPath(source, target, path).value) == Some(path)
    ensures source <= path ==> MakeTargetPath(source, target, path).value[|target|..] == path[|source|..]
  {
    if source <= path {
      var rel := path[|source|..];
      assert path == source + rel && (target + rel)[|target|..] == rel;
    }
  }

  // ---------------------------------------------------------------- source and target trees

  /**
   A source tree as one walk sees it; a directory lists its entries in `read_dir` order.  A link
   comes with the relative paths that exist behind it; the empty path says that it resolves.
   */
  datatype Tree =
    | File(content: seq<byte>, mtime: int)
    | Symlink(dest: string, behind: set<Path>, mtime: int)
    | Dir(mtime: int, entries: Forest)

  datatype Forest = End | Entry(name: Name, tree: Tree, rest: Forest)

  /** What the target holds at a path. */
  datatype Item = FileItem(content: seq<byte>) | LinkItem(dest: string) | DirItem

  type Index = map<Path, int>
  type Target = map<Path, Item>

  /** Whatever exists is inside directories that exist. */
  predicate PrefixClosed(paths: set<Path>) {
    forall p <- paths, n | 0 <= n <= |p| :: p[..n] in paths
  }

  /** One visited path of a walk; `behind` is what exists at or behind it without a further visit. */
  datatype Visit = Visit(path: Path, item: Item, mtime: int, behind: set<Path>) {
    predicate Leaf() { !item.DirItem? }

    predicate Present() { [] in behind }

    predicate Legal() { if item.LinkItem? then PrefixClosed(behind) else behind == {[]} }
  }

  function Names(f: Forest): set<Name> {
    if f.End? then {} else {f.name} + Names(f.rest)
  }

  /** The names in each directory are distinct, and so for what is behind a link. */
  predicate WellFormed(t: Tree) {
    match t
    case File(_, _) => true
    case Symlink(_, behind, _) => PrefixClosed(behind)
    case Dir(_, entries) => WellFormedForest(entries)
  }

  predicate WellFormedForest(f: Forest) {
    f.Entry? ==> f.name !in Names(f.rest) && WellFormed(f.tree) && WellFormedForest(f.rest)
  }

  function Root(t: Tree, at: Path): Visit {
    match t
    case File(content, mtime) => Visit(at, FileItem(content), mtime, {[]})
    case Symlink(dest, behind, mtime) => Visit(at, LinkItem(dest), mtime, behind)
    case Dir(mtime, _) => Visit(at, DirItem, mtime, {[]})
  }

  /** The visits of a walk in order: a directory before its entries. */
  function Walk(t: Tree, at: Path): (vs: seq<Visit>)
    ensures |vs| > 0 && vs[0] == Root(t, at)
  {
    [Root(t, at)] + if t.Dir? then WalkForest(t.entries, at) else []
  }

  function WalkForest(f: Forest, at: Path): seq<Visit> {
    if f.End? then [] else Walk(f.tree, at + [f.name]) + WalkForest(f.rest, at)
  }

  // ---------------------------------------------------------------- the walk

  datatype WalkResult = Size(bytes: int) | TooManyFiles | TooLarge

  datatype Scanned = Scanned(watched: Index, updates: seq<Path>, result: WalkResult)

  /** The walk records this visit as new or changed. */
  predicate Changed(w: Index, v: Visit) {
    v.path !in w || (v.Leaf() && v.mtime > w[v.path])
  }

  function LeafSize(item: Item): int {
    match item
    case FileItem(content) => |content|
    case LinkItem(dest) => |dest|
    case DirItem => 0
  }

  function Limited(w: Index, u: seq<Path>, size: int): Scanned {
    Scanned(w, u, if size <= MAX_SIZE_PER_WATCHABLE_MOUNT then Size(size) else TooLarge)
  }

  /** Index a visit and, if it is new or changed, put it on the update list. */
  function Record(w: Index, u: seq<Path>, v: Visit): (Index, seq<Path>) {
    (w[v.path := v.mtime], if Changed(w, v) then u + [v.path] else u)
  }

  /** `scan_path`. */
  function ScanTree(w: Index, u: seq<Path>, t: Tree, at: Path): Scanned
    decreases t
  {
    var v := Root(t, at);
    var (w1, u1) := Record(w, u, v);
    if t.Dir? then ScanForest(w1, u1, t.entries, at, 0)
    else if |w1| > MAX_ENTRIES_PER_STORAGE then Scanned(w1, u1, TooManyFiles)
    else Limited(w1, u1, LeafSize(v.item))
  }

  /** The rest of a directory scan, `size` bytes into it. */
  function ScanForest(w: Index, u: seq<Path>, f: Forest, at: Path, size: int): Scanned
    decreases f
  {
    if f.End? then Limited(w, u, size)
    else
      var first := ScanTree(w, u, f.tree, at + [f.name]);
      if !first.result.Size? then first
      else ScanForest(first.watched, first.updates, f.rest, at, size + first.result.bytes)
  }

  // ---------------------------------------------------------------- the walk as a fold over its visits

  function Indexed(w: Index, vs: seq<Visit>): Index
    decreases |vs|
  {
    if vs == [] then w else Indexed(w[vs[0].path := vs[0].mtime], vs[1..])
  }

  function Updates(w: Index, vs: seq<Visit>): seq<Path>
    decreases |vs|
  {
    if vs == [] then []
    else (if Changed(w, vs[0]) then [vs[0].path] else []) + Updates(w[vs[0].path := vs[0].mtime], vs[1..])
  }

  /** At every file or link visited, the index holds at most sixteen paths. */
  predicate CountsOk(w: Index, vs: seq<Visit>)
    decreases |vs|
  {
    vs == [] ||
    var w1 := w[vs[0].path := vs[0].mtime];
    (vs[0].Leaf() ==> |w1| <= MAX_ENTRIES_PER_STORAGE) && CountsOk(w1, vs[1..])
  }

  function Total(vs: seq<Visit>): int {
    if vs == [] then 0 else LeafSize(vs[0].item) + Total(vs[1..])
  }

  lemma FoldConcat(w: Index, a: seq<Visit>, b: seq<Visit>)
    ensures Indexed(w, a + b) == Indexed(Indexed(w, a), b)
    ensures Updates(w, a + b) == Updates(w, a) + Updates(Indexed(w, a), b)
    ensures CountsOk(w, a + b) <==> CountsOk(w, a) && CountsOk(Indexed(w, a), b)
    ensures Total(a + b) == Total(a) + Total(b)
  {
    IndexedConcat(w, a, b);
    UpdatesConcat(w, a, b);
    CountsConcat(w, a, b);
    TotalConcat(a, b);
  }

  lemma {:induction false} UpdatesConcat(w: Index, a: seq<Visit>, b: seq<Visit>)
    ensures Updates(w, a + b) == Updates(w, a) + Updates(Indexed(w, a), b)
    decreases |a|
  {
    if a == [] {
      assert a + b == b;
    } else {
      assert (a + b)[1..] == a[1..] + b;
      UpdatesConcat(w[a[0].path := a[0].mtime], a[1..], b);
      hide Changed;
    }
  }

  lemma {:induction false} CountsConcat(w: Index, a: seq<Visit>, b: seq<Visit>)
    ensures CountsOk(w, a + b) <==> CountsOk(w, a) && CountsOk(Indexed(w, a), b)
    decreases |a|
  {
    if a == [] {
      assert a + b == b;
    } else {
      assert (a + b)[1..] == a[1..] + b;
      CountsConcat(w[a[0].path := a[0].mtime], a[1..], b);
    }
  }

  lemma {:induction false} IndexedConcat(w: Index, a: seq<Visit>, b: seq<Visit>)
    ensures Indexed(w, a + b) == Indexed(Indexed(w, a), b)
    decreases |a|
  {
    if a == [] {
      assert a + b == b;
    } else {
      assert (a + b)[1..] == a[1..] + b;
      IndexedConcat(w[a[0].path := a[0].mtime], a[1..], b);
    }
  }

  lemma {:induction false} TotalConcat(a: seq<Visit>, b: seq<Visit>)
    ensures Total(a + b) == Total(a) + Total(b)
  {
    if a == [] {
      assert a + b == b;
    } else {
      assert (a + b)[1..] == a[1..] + b;
      TotalConcat(a[1..], b);
    }
  }

  lemma {:induction false} TotalNonNegative(vs: seq<Visit>)
    ensures Total(vs) >= 0
  {
    if vs != [] { TotalNonNegative(vs[1..]); }
  }

  /** The walk succeeded as the fold over these visits, with `total` bytes in all. */
  predicate IsFold(s: Scanned, w: Index, u: seq<Path>, vs: seq<Visit>, total: int) {
    && (s.result.Size? <==> CountsOk(w, vs) && total <= MAX_SIZE_PER_WATCHABLE_MOUNT)
    && (s.result.Size? ==> s == Scanned(Indexed(w, vs), u + Updates(w, vs), Size(total)))
  }

  lemma FoldOne(w: Index, v: Visit)
    ensures Indexed(w, [v]) == w[v.path := v.mtime]
    ensures Updates(w, [v]) == if Changed(w, v) then [v.path] else []
    ensures CountsOk(w, [v]) <==> v.Leaf() ==> |w[v.path := v.mtime]| <= MAX_ENTRIES_PER_STORAGE
    ensures Total([v]) == LeafSize(v.item)
  {
    assert [v][1..] == [];
  }

  /** A walk stops at the first failure, so two walks in a row are the fold over both. */
  lemma FoldThen(first: Scanned, whole: Scanned, w: Index, u: seq<Path>, a: seq<Visit>, b: seq<Visit>, size: int)
    requires size >= 0 && IsFold(first, w, u, a, Total(a))
    requires !first.result.Size? ==> whole == first
    requires first.result.Size? ==> IsFold(whole, first.watched, first.updates, b, size + Total(a) + Total(b))
    ensures IsFold(whole, w, u, a + b, size + Total(a + b))
  {
    FoldConcat(w, a, b);
    TotalNonNegative(a);
    TotalNonNegative(b);
    hide Indexed, Updates, CountsOk, Total;
    if first.result.Size? {
      assert u + (Updates(w, a) + Updates(first.watched, b)) == first.updates + Updates(first.watched, b);
    }
  }

  lemma {:induction false} ScanTreeIsFold(w: Index, u: seq<Path>, t: Tree, at: Path)
    ensures IsFold(ScanTree(w, u, t, at), w, u, Walk(t, at), Total(Walk(t, at)))
    decreases t
  {
    if t.Dir? {
      var v := Root(t, at);
      var (w1, u1) := Record(w, u, v);
      var whole, rest := ScanTree(w, u, t, at), WalkForest(t.entries, at);
      assert whole == ScanForest(w1, u1, t.entries, at, 0) && Walk(t, at) == [v] + rest;
      hide *;
      ScanForestIsFold(w1, u1, t.entries, at, 0);
      RecordIsFold(w, u, v);
      FoldThen(Scanned(w1, u1, Size(0)), whole, w, u, [v], rest, 0);
    } else {
      ScanLeafIsFold(w, u, t, at);
    }
  }

  lemma RecordIsFold(w: Index, u: seq<Path>, v: Visit)
    requires v.item.DirItem?
    ensures IsFold(Scanned(Record(w, u, v).0, Record(w, u, v).1, Size(0)), w, u, [v], 0) && Total([v]) == 0
  {
    FoldOne(w, v);
    hide Indexed, Updates, CountsOk, Total, Changed;
    assert u + [] == u;
  }

  lemma ScanLeafIsFold(w: Index, u: seq<Path>, t: Tree, at: Path)
    requires !t.Dir?
    ensures IsFold(ScanTree(w, u, t, at), w, u, Walk(t, at), Total(Walk(t, at)))
  {
    FoldOne(w, Root(t, at));
    hide Indexed, Updates, CountsOk, Total, Changed;
    assert Walk(t, at) == [Root(t, at)];
  }

  lemma {:induction false} ScanForestIsFold(w: Index, u: seq<Path>, f: Forest, at: Path, size: int)
    requires size >= 0
    ensures IsFold(ScanForest(w, u, f, at, size), w, u, WalkForest(f, at), size + Total(WalkForest(f, at)))
    decreases f
  {
    if f.End? {
      hide ScanTree, Walk;
      assert WalkForest(f, at) == [] && u + [] == u;
    } else {
      var vs, rest := Walk(f.tree, at + [f.name]), WalkForest(f.rest, at);
      var first, whole := ScanTree(w, u, f.tree, at + [f.name]), ScanForest(w, u, f, at, size);
      assert WalkForest(f, at) == vs + rest;
      assert !first.result.Size? ==> whole == first;
      assert first.result.Size? ==>
        whole == ScanForest(first.watched, first.updates, f.rest, at, size + first.result.bytes);
      hide ScanTree, ScanForest, Walk, WalkForest;
      ScanTreeIsFold(w, u, f.tree, at + [f.name]);
      TotalNonNegative(vs);
      if first.result.Size? {
        assert first.result.bytes == Total(vs);
        ScanForestIsFold(first.watched, first.updates, f.rest, at, size + first.result.bytes);
      }
      hide IsFold, Total;
      FoldThen(first, whole, w, u, vs, rest, size);
    }
  }

  /** A walk fails for the reason it gives: too many paths indexed, or too many bytes in all. */
  lemma {:induction false} ScanTreeFails(w: Index, u: seq<Path>, t: Tree, at: Path)
    ensures ScanTree(w, u, t, at).result.TooManyFiles? ==> !CountsOk(w, Walk(t, at))
    ensures ScanTree(w, u, t, at).result.TooLarge? ==> Total(Walk(t, at)) > MAX_SIZE_PER_WATCHABLE_MOUNT
    decreases t
  {
    var v := Root(t, at);
    if t.Dir? {
      var (w1, u1) := Record(w, u, v);
      ScanForestFails(w1, u1, t.entries, at, 0);
      assert Walk(t, at)[1..] == WalkForest(t.entries, at);
    } else {
      assert Walk(t, at) == [v] && [v][1..] == [];
    }
  }

  lemma {:induction false} ScanForestFails(w: Index, u: seq<Path>, f: Forest, at: Path, size: int)
    requires size >= 0
    ensures ScanForest(w, u, f, at, size).result.TooManyFiles? ==> !CountsOk(w, WalkForest(f, at))
    ensures ScanForest(w, u, f, at, size).result.TooLarge? ==>
      size + Total(WalkForest(f, at)) > MAX_SIZE_PER_WATCHABLE_MOUNT
    decreases f
  {
    if f.Entry? {
      var here := at + [f.name];
      var vs, rest := Walk(f.tree, here), WalkForest(f.rest, at);
      var first := ScanTree(w, u, f.tree, here);
      assert WalkForest(f, at) == vs + rest;
      ScanTreeFails(w, u, f.tree, here);
      ScanTreeIsFold(w, u, f.tree, here);
      hide ScanTree, Walk, WalkForest;
      FoldConcat(w, vs, rest);
      TotalNonNegative(vs);
      TotalNonNegative(rest);
      if first.result.Size? {
        ScanForestFails(first.watched, first.updates, f.rest, at, size + first.result.bytes);
      }
    }
  }

  // ---------------------------------------------------------------- the shape of a walk

  function Parent(p: Path): Path
    requires p != []
  {
    p[..|p| - 1]
  }

  predicate Distinct(vs: seq<Visit>) {
    forall i, j | 0 <= i < j < |vs| :: vs[i].path != vs[j].path
  }

  /** The visit at `i` is directly under `at`, or under a directory visited before it. */
  predicate Rooted(vs: seq<Visit>, at: Path, i: nat)
    requires i < |vs|
  {
    && |at| < |vs[i].path|
    && (Parent(vs[i].path) == at ||
        exists j | 0 <= j < i :: vs[j].path == Parent(vs[i].path) && vs[j].item.DirItem?)
  }

  /** Everything in a walk below `at` lies under one of the names listed there. */
  predicate Under(p: Path, at: Path, names: set<Name>) {
    |at| < |p| && at <= p && p[|at|] in names
  }

  lemma {:induction false} WalkUnder(t: Tree, at: Path)
    ensures forall v <- Walk(t, at) :: at <= v.path
    decreases t
  {
    if t.Dir? { WalkForestUnder(t.entries, at); }
  }

  lemma {:induction false} WalkForestUnder(f: Forest, at: Path)
    ensures forall v <- WalkForest(f, at) :: Under(v.path, at, Names(f))
    decreases f
  {
    if f.Entry? {
      var here := at + [f.name];
      WalkUnder(f.tree, here);
      WalkForestUnder(f.rest, at);
      forall v <- Walk(f.tree, here) ensures Under(v.path, at, Names(f)) {
        assert here <= v.path && here[|at|] == f.name && here[..|at|] == at;
      }
    }
  }

  lemma {:induction false} WalkDistinct(t: Tree, at: Path)
    requires WellFormed(t)
    ensures Distinct(Walk(t, at))
    decreases t
  {
    if t.Dir? {
      WalkForestDistinct(t.entries, at);
      WalkForestUnder(t.entries, at);
    }
  }

  lemma {:induction false} WalkForestDistinct(f: Forest, at: Path)
    requires WellFormedForest(f)
    ensures Distinct(WalkForest(f, at))
    decreases f
  {
    if f.Entry? {
      var here := at + [f.name];
      var vs, rest := Walk(f.tree, here), WalkForest(f.rest, at);
      WalkDistinct(f.tree, here);
      WalkForestDistinct(f.rest, at);
      WalkUnder(f.tree, here);
      WalkForestUnder(f.rest, at);
      forall v <- vs, r <- rest ensures v.path != r.path {
        assert v.path[|at|] == here[|at|] == f.name;
      }
      DistinctConcat(vs, rest);
    }
  }

  lemma DistinctConcat(a: seq<Visit>, b: seq<Visit>)
    requires Distinct(a) && Distinct(b) && forall v <- a, r <- b :: v.path != r.path
    ensures Distinct(a + b)
  {
    var ab := a + b;
    forall i, j | 0 <= i < j < |ab| ensures ab[i].path != ab[j].path {
      if i < |a| <= j {
        assert ab[i] in a && ab[j] in b;
      }
    }
  }

  lemma {:induction false} WalkRooted(t: Tree, at: Path)
    ensures forall i | 0 < i < |Walk(t, at)| :: Rooted(Walk(t, at), at, i)
    decreases t
  {
    if t.Dir? {
      var rest := WalkForest(t.entries, at);
      WalkForestRooted(t.entries, at);
      forall i | 0 < i < |Walk(t, at)| ensures Rooted(Walk(t, at), at, i) {
        assert Rooted(rest, at, i - 1);
        ShiftRooted([Root(t, at)], rest, at, i - 1);
      }
    }
  }

  lemma {:induction false} WalkForestRooted(f: Forest, at: Path)
    ensures forall i | 0 <= i < |WalkForest(f, at)| :: Rooted(WalkForest(f, at), at, i)
    decreases f
  {
    if f.Entry? {
      var here := at + [f.name];
      var vs, rest := Walk(f.tree, here), WalkForest(f.rest, at);
      WalkRooted(f.tree, here);
      WalkForestRooted(f.rest, at);
      forall i | 0 <= i < |vs + rest| ensures Rooted(vs + rest, at, i) {
        if i == 0 {
          assert Parent(here) == at;
        } else if i < |vs| {
          FirstRooted(f.tree, here, vs, at, i);
          PrefixRooted(vs, rest, at, i);
        } else {
          ShiftRooted(vs, rest, at, i - |vs|);
        }
      }
    }
  }

  lemma ShiftRooted(a: seq<Visit>, b: seq<Visit>, at: Path, i: nat)
    requires i < |b| && Rooted(b, at, i)
    ensures Rooted(a + b, at, |a| + i)
  {
    if Parent(b[i].path) != at {
      var j :| 0 <= j < i && b[j].path == Parent(b[i].path) && b[j].item.DirItem?;
      assert (a + b)[|a| + j] == b[j];
    }
  }

  lemma PrefixRooted(a: seq<Visit>, b: seq<Visit>, at: Path, i: nat)
    requires i < |a| && Rooted(a, at, i)
    ensures Rooted(a + b, at, i)
  {
    if Parent(a[i].path) != at {
      var j :| 0 <= j < i && a[j].path == Parent(a[i].path) && a[j].item.DirItem?;
      assert (a + b)[j] == a[j];
    }
  }

  /** Inside the walk of a subtree, "directly under its root" is under its first visit. */
  lemma FirstRooted(t: Tree, here: Path, vs: seq<Visit>, at: Path, i: nat)
    requires vs == Walk(t, here) && 0 < i < |vs| && Rooted(vs, here, i) && |at| < |here|
    ensures Rooted(vs, at, i)
  {
    assert t.Dir? && vs[0].path == here && vs[0].item.DirItem?;
  }

  /** The visits of a walk of a well-formed directory from the mount point. */
  predicate Snapshot(vs: seq<Visit>) {
    && vs != [] && vs[0].path == [] && vs[0].item.DirItem? && Distinct(vs)
    && (forall v <- vs :: v.Legal())
    && forall i | 0 < i < |vs| :: Rooted(vs, [], i)
  }

  lemma WalkIsSnapshot(t: Tree)
    requires WellFormed(t) && t.Dir?
    ensures Snapshot(Walk(t, []))
  {
    WalkDistinct(t, []);
    WalkRooted(t, []);
    WalkLegal(t, []);
  }

  lemma {:induction false} WalkLegal(t: Tree, at: Path)
    requires WellFormed(t)
    ensures forall v <- Walk(t, at) :: v.Legal()
    decreases t
  {
    if t.Dir? { WalkForestLegal(t.entries, at); }
  }

  lemma {:induction false} WalkForestLegal(f: Forest, at: Path)
    requires WellFormedForest(f)
    ensures forall v <- WalkForest(f, at) :: v.Legal()
    decreases f
  {
    if f.Entry? {
      WalkLegal(f.tree, at + [f.name]);
      WalkForestLegal(f.rest, at);
    }
  }

  // ---------------------------------------------------------------- index and items of a snapshot

  function Find(vs: seq<Visit>, p: Path): (r: Option<Visit>)
    ensures r.Some? ==> r.value in vs && r.value.path == p
    ensures r.None? ==> forall v <- vs :: v.path != p
  {
    if vs == [] then None else if vs[0].path == p then Some(vs[0]) else Find(vs[1..], p)
  }

  lemma {:induction false} FindVisit(vs: seq<Visit>, v: Visit)
    requires Distinct(vs) && v in vs
    ensures Find(vs, v.path) == Some(v)
  {
    if vs[0] != v {
      var j :| 0 <= j < |vs| && vs[j] == v;
      assert vs[1..][j - 1] == v;
      FindVisit(vs[1..], v);
    }
  }

  /** What a plain full copy of the snapshot would hold. */
  ghost predicate Copies(tgt: Target, vs: seq<Visit>) {
    forall p :: (p in tgt <==> Find(vs, p).Some?) && (p in tgt ==> tgt[p] == Find(vs, p).value.item)
  }

  /** What the source holds at a path, by its names alone. */
  function Lookup(t: Tree, p: Path): Option<Tree>
    decreases t
  {
    if p == [] then Some(t) else if t.Dir? then LookupIn(t.entries, p) else None
  }

  function LookupIn(f: Forest, p: Path): Option<Tree>
    requires p != []
    decreases f
  {
    if f.End? then None else if f.name == p[0] then Lookup(f.tree, p[1..]) else LookupIn(f.rest, p)
  }

  /** The target is the source tree: the same paths, with the same contents, link texts and directories. */
  ghost predicate SameTree(tgt: Target, t: Tree) {
    forall p :: match Lookup(t, p)
      case None => p !in tgt
      case Some(File(content, _)) => p in tgt && tgt[p] == FileItem(content)
      case Some(Symlink(dest, _, _)) => p in tgt && tgt[p] == LinkItem(dest)
      case Some(Dir(_, _)) => p in tgt && tgt[p] == DirItem
  }

  lemma {:induction false} FindConcat(a: seq<Visit>, b: seq<Visit>, q: Path)
    ensures Find(a + b, q) == if Find(a, q).Some? then Find(a, q) else Find(b, q)
  {
    if a == [] {
      assert a + b == b;
    } else {
      assert (a + b)[1..] == a[1..] + b;
      FindConcat(a[1..], b, q);
    }
  }

  /** The walk visits at each path what the tree holds there. */
  lemma {:induction false} WalkFinds(t: Tree, at: Path, p: Path)
    requires WellFormed(t)
    ensures Find(Walk(t, at), at + p) ==
      var sub := Lookup(t, p); if sub.None? then None else Some(Root(sub.value, at + p))
    decreases t
  {
    var v := Root(t, at);
    if p == [] {
      assert at + p == at;
    } else if t.Dir? {
      assert |at + p| != |at|;
      WalkForestFinds(t.entries, at, p);
      FindConcat([v], WalkForest(t.entries, at), at + p);
      assert Find([v], at + p).None?;
    } else {
      assert |at + p| != |at| && Walk(t, at) == [v];
    }
  }

  lemma {:induction false} WalkForestFinds(f: Forest, at: Path, p: Path)
    requires WellFormedForest(f) && p != []
    ensures Find(WalkForest(f, at), at + p) ==
      var sub := LookupIn(f, p); if sub.None? then None else Some(Root(sub.value, at + p))
    decreases f
  {
    if f.Entry? {
      var here := at + [f.name];
      var vs, rest := Walk(f.tree, here), WalkForest(f.rest, at);
      FindConcat(vs, rest, at + p);
      WalkForestFinds(f.rest, at, p);
      WalkUnder(f.tree, here);
      WalkForestUnder(f.rest, at);
      hide Walk, WalkForest, Find;
      assert WalkForest(f, at) == vs + rest by { EntryVisits(f, at); }
      assert (at + p)[|at|] == p[0];
      if f.name == p[0] {
        assert here + p[1..] == at + p;
        WalkFinds(f.tree, here, p[1..]);
        assert Find(rest, at + p).None?;
      } else {
        assert Find(vs, at + p).None? by {
          forall v <- vs ensures v.path != at + p { assert here <= v.path && v.path[|at|] == f.name; }
        }
      }
    }
  }

  lemma EntryVisits(f: Forest, at: Path)
    requires f.Entry?
    ensures WalkForest(f, at) == Walk(f.tree, at + [f.name]) + WalkForest(f.rest, at)
  {
    hide Walk;
  }

  /** A copy of the walk is the tree itself. */
  lemma CopiesTheTree(tgt: Target, t: Tree)
    requires WellFormed(t)
    ensures Copies(tgt, Walk(t, [])) <==> SameTree(tgt, t)
  {
    hide Find, Walk, Lookup, WellFormed;
    forall p
      ensures Find(Walk(t, []), p) == var sub := Lookup(t, p); if sub.None? then None else Some(Root(sub.value, p))
    {
      assert [] + p == p;
      WalkFinds(t, [], p);
    }
  }

  /** A visit has the time of what the tree holds at its path, and sees behind a link what is there. */
  lemma VisitOfTree(t: Tree, v: Visit)
    requires WellFormed(t) && v in Walk(t, [])
    ensures var sub := Lookup(t, v.path);
      && sub.Some? && v.mtime == sub.value.mtime
      && v.behind == if sub.value.Symlink? then sub.value.behind else {[]}
  {
    WalkDistinct(t, []);
    FindVisit(Walk(t, []), v);
    WalkFinds(t, [], v.path);
    assert [] + v.path == v.path;
    hide Find, Walk, Lookup, WellFormed;
  }

  /** The index lists exactly the visited paths with their times. */
  ghost predicate Lists(w: Index, vs: seq<Visit>) {
    forall p :: (p in w <==> Find(vs, p).Some?) && (p in w ==> w[p] == Find(vs, p).value.mtime)
  }

  lemma {:induction false} IndexedAt(w: Index, vs: seq<Visit>, p: Path)
    requires Distinct(vs)
    ensures p in Indexed(w, vs) <==> p in w || Find(vs, p).Some?
    ensures Find(vs, p).Some? ==> Indexed(w, vs)[p] == Find(vs, p).value.mtime
    ensures Find(vs, p).None? && p in w ==> Indexed(w, vs)[p] == w[p]
    decreases |vs|
  {
    if vs != [] {
      var w1, rest := w[vs[0].path := vs[0].mtime], vs[1..];
      IndexedAt(w1, rest, p);
      forall v <- rest ensures v.path != vs[0].path {
        var j :| 0 <= j < |rest| && rest[j] == v;
        assert vs[j + 1] == v;
      }
    }
  }

  /** The update list against the index as it was before the walk. */
  function Pending(w: Index, vs: seq<Visit>): seq<Path> {
    if vs == [] then [] else (if Changed(w, vs[0]) then [vs[0].path] else []) + Pending(w, vs[1..])
  }

  lemma {:induction false} PendingAgrees(w: Index, w': Index, vs: seq<Visit>)
    requires forall v <- vs :: (v.path in w <==> v.path in w') && (v.path in w ==> w[v.path] == w'[v.path])
    ensures Pending(w, vs) == Pending(w', vs)
  {
    if vs != [] { PendingAgrees(w, w', vs[1..]); }
  }

  lemma {:induction false} UpdatesArePending(w: Index, vs: seq<Visit>)
    requires Distinct(vs)
    ensures Updates(w, vs) == Pending(w, vs)
    decreases |vs|
  {
    if vs != [] {
      var w1, rest := w[vs[0].path := vs[0].mtime], vs[1..];
      UpdatesArePending(w1, rest);
      forall v <- rest ensures v.path != vs[0].path {
        var j :| 0 <= j < |rest| && rest[j] == v;
        assert vs[j + 1] == v;
      }
      PendingAgrees(w1, w, rest);
    }
  }

  /** A snapshot contains every ancestor of its paths, as a directory. */
  lemma {:induction false} AncestorsVisited(vs: seq<Visit>, i: nat, p: Path)
    requires Snapshot(vs) && i < |vs| && p <= vs[i].path && p != vs[i].path
    ensures exists j | 0 <= j < i :: vs[j].path == p && vs[j].item.DirItem?
    decreases i
  {
    assert i > 0 && Rooted(vs, [], i);
    var parent := Parent(vs[i].path);
    assert p <= parent;
    if parent == [] {
      assert vs[0].path == p;
    } else {
      var j :| 0 <= j < i && vs[j].path == parent && vs[j].item.DirItem?;
      if p != parent {
        AncestorsVisited(vs, j, p);
      }
    }
  }

  // ---------------------------------------------------------------- removal

  /** `exists()` on the source; it follows a symbolic link wherever one stands in the path. */
  predicate Exists(vs: seq<Visit>, p: Path) {
    exists v <- vs :: v.path <= p && p[|v.path|..] in v.behind
  }

  /** A visited path exists unless it is a link that does not resolve. */
  lemma VisitedExists(vs: seq<Visit>, v: Visit)
    requires Snapshot(vs) && v in vs
    ensures Exists(vs, v.path) <==> v.Present()
  {
    assert v.path[|v.path|..] == [];
    if Exists(vs, v.path) {
      var u :| u in vs && u.path <= v.path && v.path[|u.path|..] in u.behind;
      OnlyDirsHaveMore(vs, u, v);
      assert u.Legal();
      FindVisit(vs, u);
      FindVisit(vs, v);
    }
  }

  /** A path that exists without being visited is behind a visited link that resolves. */
  lemma BehindLink(vs: seq<Visit>, p: Path) returns (v: Visit)
    requires Snapshot(vs) && Exists(vs, p) && Find(vs, p).None?
    ensures v in vs && v.item.LinkItem? && v.Present() && v.path <= p && v.path != p
  {
    v :| v in vs && v.path <= p && p[|v.path|..] in v.behind;
    var rest := p[|v.path|..];
    assert v.Legal() && rest[..0] == [];
    assert v.path != p;
    assert rest != [];
  }

  /** What exists lies in directories, or behind links, that exist. */
  lemma AboveExists(vs: seq<Visit>, p: Path, q: Path)
    requires Snapshot(vs) && Exists(vs, q) && p <= q
    ensures Exists(vs, p)
  {
    var v :| v in vs && v.path <= q && q[|v.path|..] in v.behind;
    if v.path <= p {
      assert v.Legal();
      assert p[|v.path|..] == q[|v.path|..][..|p| - |v.path|];
    } else {
      FindVisit(vs, v);
      assert p <= v.path && p != v.path;
      VisitedAbove(vs, p, v.path);
      VisitedExists(vs, Find(vs, p).value);
    }
  }

  function Retained(w: Index, vs: seq<Visit>): Index {
    map p | p in w && Exists(vs, p) :: w[p]
  }

  function Gone(w: Index, vs: seq<Visit>): set<Path> {
    set p | p in w && !Exists(vs, p)
  }

  /** Indexed paths that the walk no longer visits, kept because they exist behind a link. */
  function Stale(w: Index, vs: seq<Visit>): set<Path> {
    set p | p in w && Exists(vs, p) && Find(vs, p).None?
  }

  /** Remove a directory with everything below it, or a file. */
  function RemoveOne(tgt: Target, p: Path): Target {
    if p in tgt && tgt[p].DirItem? then map q | q in tgt && !(p <= q) :: tgt[q] else tgt - {p}
  }

  function RemoveAll(tgt: Target, ps: seq<Path>): Target
    decreases |ps|
  {
    if ps == [] then tgt else RemoveAll(RemoveOne(tgt, ps[0]), ps[1..])
  }

  /** Removing a directory removes nothing that is to stay. */
  predicate ClosedBelow(tgt: Target, gone: set<Path>) {
    forall p <- gone, q <- tgt | p in tgt && tgt[p].DirItem? && p <= q :: q in gone
  }

  /** The removal list may be processed in any order. */
  lemma {:induction false} RemovalInAnyOrder(tgt: Target, ps: seq<Path>, gone: set<Path>)
    requires ClosedBelow(tgt, gone) && forall p <- ps :: p in gone
    ensures var r := RemoveAll(tgt, ps);
      && (forall q <- r :: q in tgt && r[q] == tgt[q])
      && (forall q <- tgt | q !in gone :: q in r)
      && (forall p <- ps :: p !in r)
    decreases |ps|
  {
    if ps != [] {
      assert ps[0] in gone;
      var t1 := RemoveOne(tgt, ps[0]);
      assert ps[0] !in t1;
      RemovalInAnyOrder(t1, ps[1..], gone);
    }
  }

  lemma {:induction false} RemovalShrinks(tgt: Target, ps: seq<Path>)
    ensures forall q <- RemoveAll(tgt, ps) :: q in tgt && RemoveAll(tgt, ps)[q] == tgt[q]
    decreases |ps|
  {
    if ps != [] { RemovalShrinks(RemoveOne(tgt, ps[0]), ps[1..]); }
  }

  /** Nothing stays below a directory on the removal list, indexed or not. */
  lemma {:induction false} RemovalTakesBelow(tgt: Target, ps: seq<Path>, p: Path, q: Path)
    requires p in ps && p in tgt && tgt[p].DirItem? && p <= q
    ensures q !in RemoveAll(tgt, ps)
    decreases |ps|
  {
    var t1 := RemoveOne(tgt, ps[0]);
    RemovalShrinks(t1, ps[1..]);
    hide RemoveAll;
    if p != ps[0] && p in t1 {
      RemovalTakesBelow(t1, ps[1..], p, q);
    }
    assert RemoveAll(tgt, ps) == RemoveAll(t1, ps[1..]) by { RemoveAllFirst(tgt, ps); }
    assert p !in t1 ==> q !in t1 by {
      if p !in t1 && ps[0] <= p {
        assert p == q[..|p|] && ps[0] == p[..|ps[0]|] == q[..|ps[0]|];
      }
    }
  }

  lemma RemoveAllFirst(tgt: Target, ps: seq<Path>)
    requires ps != []
    ensures RemoveAll(tgt, ps) == RemoveAll(RemoveOne(tgt, ps[0]), ps[1..])
  {
  }

  // ---------------------------------------------------------------- copying

  /** `create_dir_all`: the new target, and whether every component is a directory now. */
  function MkdirAll(tgt: Target, p: Path): (Target, bool)
    decreases |p|
  {
    var (t, ok) := if p == [] then (tgt, true) else MkdirAll(tgt, Parent(p));
    if !ok then (t, false)
    else if p in t then (t, t[p].DirItem?)
    else (t[p := DirItem], true)
  }

  /**
   `copy`: a link is made anew once what is there could be removed, which no directory can; a file
   is written over a file, and not into a directory nor at the place of a link.
   */
  function CopyLeaf(tgt: Target, v: Visit): Target {
    if v.item.LinkItem? then
      if v.path in tgt && tgt[v.path].DirItem? then tgt else (tgt - {v.path})[v.path := v.item]
    else if v.path !in tgt || tgt[v.path].FileItem? then tgt[v.path := v.item]
    else tgt
  }

  /** An item that a copy of the other replaces: a file replaces a file, a link anything but a directory. */
  predicate Overwrites(next: Item, prior: Item) {
    (next.FileItem? && prior.FileItem?) || (next.LinkItem? && !prior.DirItem?)
  }

  /** `update_target`; errors are logged and the target keeps what was done so far. */
  function UpdateOne(tgt: Target, v: Visit): Target {
    if v.item.DirItem? then MkdirAll(tgt, v.path).0
    else if v.path == [] then CopyLeaf(tgt, v)
    else
      var (t, ok) := MkdirAll(tgt, Parent(v.path));
      if ok then CopyLeaf(t, v) else t
  }

  function UpdateAll(tgt: Target, vs: seq<Visit>, ps: seq<Path>): Target
    decreases |ps|
  {
    if ps == [] then tgt
    else
      var v := Find(vs, ps[0]);
      UpdateAll(if v.None? then tgt else UpdateOne(tgt, v.value), vs, ps[1..])
  }

  /** Making directories keeps everything that is there. */
  lemma {:induction false} MkdirAllKeeps(tgt: Target, p: Path, q: Path)
    requires q in tgt
    ensures q in MkdirAll(tgt, p).0 && MkdirAll(tgt, p).0[q] == tgt[q]
    decreases |p|
  {
    if p != [] { MkdirAllKeeps(tgt, Parent(p), q); }
  }

  lemma {:induction false} MkdirAllAdds(tgt: Target, p: Path, q: Path)
    requires q !in tgt && !(q <= p)
    ensures q !in MkdirAll(tgt, p).0
    decreases |p|
  {
    if p != [] {
      assert q <= Parent(p) ==> q <= p;
      MkdirAllAdds(tgt, Parent(p), q);
    }
    assert p <= p;
  }

  /** What is at `q` changes only by a copy to `q` itself, and only if that copy can replace it. */
  lemma {:induction false} UpdateAllKeeps(tgt: Target, vs: seq<Visit>, ps: seq<Path>, q: Path)
    requires q in tgt
    requires q in ps && Find(vs, q).Some? ==> !Overwrites(Find(vs, q).value.item, tgt[q])
    ensures q in UpdateAll(tgt, vs, ps) && UpdateAll(tgt, vs, ps)[q] == tgt[q]
    decreases |ps|
  {
    if ps != [] {
      var v := Find(vs, ps[0]);
      assert ps[0] in ps;
      if v.Some? {
        var p := v.value.path;
        MkdirAllKeeps(tgt, p, q);
        if p != [] { MkdirAllKeeps(tgt, Parent(p), q); }
        hide MkdirAll;
        UpdateAllKeeps(UpdateOne(tgt, v.value), vs, ps[1..], q);
      } else {
        UpdateAllKeeps(tgt, vs, ps[1..], q);
      }
    }
  }

  /** Updates remove nothing. */
  lemma {:induction false} UpdateAllGrows(tgt: Target, vs: seq<Visit>, ps: seq<Path>, q: Path)
    requires q in tgt
    ensures q in UpdateAll(tgt, vs, ps)
    decreases |ps|
  {
    if ps != [] {
      var v := Find(vs, ps[0]);
      if v.Some? {
        var p := v.value.path;
        MkdirAllKeeps(tgt, p, q);
        if p != [] { MkdirAllKeeps(tgt, Parent(p), q); }
        hide MkdirAll;
        UpdateAllGrows(UpdateOne(tgt, v.value), vs, ps[1..], q);
      } else {
        UpdateAllGrows(tgt, vs, ps[1..], q);
      }
    }
  }

  /** Updates make nothing but the listed paths and the directories above them. */
  lemma {:induction false} UpdateAllSkips(tgt: Target, vs: seq<Visit>, ps: seq<Path>, q: Path)
    requires q !in tgt && forall p <- ps :: !(q <= p)
    ensures q !in UpdateAll(tgt, vs, ps)
    decreases |ps|
  {
    if ps != [] {
      var v := Find(vs, ps[0]);
      var p := ps[0];
      assert p in ps && p <= p && forall r <- ps[1..] :: r in ps;
      if v.Some? {
        MkdirAllAdds(tgt, p, q);
        if p != [] {
          assert q <= Parent(p) ==> q <= p;
          MkdirAllAdds(tgt, Parent(p), q);
        }
        hide MkdirAll;
        UpdateAllSkips(UpdateOne(tgt, v.value), vs, ps[1..], q);
      } else {
        UpdateAllSkips(tgt, vs, ps[1..], q);
      }
    }
  }

  // ---------------------------------------------------------------- what the update list makes of any target

  function At(tgt: Target, q: Path): Option<Item> {
    if q in tgt then Some(tgt[q]) else None
  }

  predicate DirsAbove(tgt: Target, p: Path) {
    forall q <- tgt | q <= p :: tgt[q].DirItem?
  }

  lemma {:induction false} MkdirAllAt(tgt: Target, p: Path, q: Path)
    requires DirsAbove(tgt, p)
    ensures MkdirAll(tgt, p).1
    ensures At(MkdirAll(tgt, p).0, q) == if q <= p then Some(DirItem) else At(tgt, q)
    decreases |p|
  {
    if p != [] {
      var up := Parent(p);
      assert forall r <- tgt | r <= up :: r <= p;
      assert q <= p <==> q <= up || q == p;
      MkdirAllAt(tgt, up, q);
      MkdirAllAt(tgt, up, p);
    }
    assert p <= p;
  }

  /** Every path of the target is visited, and holds what is visited there or what a copy can replace. */
  ghost predicate Replaceable(tgt: Target, vs: seq<Visit>) {
    forall q <- tgt ::
      Find(vs, q).Some? && (tgt[q] == Find(vs, q).value.item || Overwrites(Find(vs, q).value.item, tgt[q]))
  }

  lemma ReplaceableDirsAbove(tgt: Target, vs: seq<Visit>, i: nat, p: Path)
    requires Snapshot(vs) && Replaceable(tgt, vs) && i < |vs| && p <= vs[i].path
    requires p != vs[i].path || vs[i].item.DirItem?
    ensures DirsAbove(tgt, p)
  {
    forall q <- tgt | q <= p ensures tgt[q].DirItem? {
      if q == vs[i].path {
        FindVisit(vs, vs[i]);
      } else {
        AncestorsVisited(vs, i, q);
        var j :| 0 <= j < i && vs[j].path == q && vs[j].item.DirItem?;
        FindVisit(vs, vs[j]);
      }
    }
  }

  /** One update sets its own path and makes directories of all paths above it. */
  lemma UpdateOneAt(tgt: Target, vs: seq<Visit>, v: Visit, q: Path)
    requires Snapshot(vs) && Replaceable(tgt, vs) && v in vs
    ensures At(UpdateOne(tgt, v), q) ==
      if q == v.path then Some(v.item) else if q <= v.path then Some(DirItem) else At(tgt, q)
  {
    var i :| 0 <= i < |vs| && vs[i] == v;
    FindVisit(vs, v);
    var p := v.path;
    if v.item.DirItem? {
      ReplaceableDirsAbove(tgt, vs, i, p);
      MkdirAllAt(tgt, p, q);
    } else {
      assert p != [] by { FindVisit(vs, vs[0]); }
      var up := Parent(p);
      assert up <= p && up != p && (q <= p <==> q <= up || q == p);
      ReplaceableDirsAbove(tgt, vs, i, up);
      MkdirAllAt(tgt, up, q);
      MkdirAllAt(tgt, up, p);
    }
  }

  lemma UpdateKeepsReplaceable(tgt: Target, vs: seq<Visit>, v: Visit)
    requires Snapshot(vs) && Replaceable(tgt, vs) && v in vs
    ensures Replaceable(UpdateOne(tgt, v), vs)
  {
    var t := UpdateOne(tgt, v);
    FindVisit(vs, v);
    hide UpdateOne;
    forall q <- t
      ensures Find(vs, q).Some? && (t[q] == Find(vs, q).value.item || Overwrites(Find(vs, q).value.item, t[q]))
    {
      UpdateOneAt(tgt, vs, v, q);
      if q != v.path && q <= v.path {
        var i :| 0 <= i < |vs| && vs[i] == v;
        AncestorsVisited(vs, i, q);
        var j :| 0 <= j < i && vs[j].path == q && vs[j].item.DirItem?;
        FindVisit(vs, vs[j]);
      }
    }
  }

  /** Below some path of the list, that path included. */
  predicate AboveListed(ps: seq<Path>, q: Path) {
    exists p <- ps :: q <= p
  }

  lemma {:induction false} UpdateAllAt(tgt: Target, vs: seq<Visit>, ps: seq<Path>, q: Path)
    requires Snapshot(vs) && Replaceable(tgt, vs) && forall p <- ps :: Find(vs, p).Some?
    ensures At(UpdateAll(tgt, vs, ps), q) ==
      if q in ps then Some(Find(vs, q).value.item) else if AboveListed(ps, q) then Some(DirItem) else At(tgt, q)
    decreases |ps|
  {
    if ps != [] {
      var p, rest := ps[0], ps[1..];
      var v := Find(vs, p).value;
      assert p in ps && forall r <- rest :: r in ps;
      UpdateOneAt(tgt, vs, v, q);
      UpdateKeepsReplaceable(tgt, vs, v);
      UpdateAllAt(UpdateOne(tgt, v), vs, rest, q);
      hide UpdateOne, Replaceable;
      assert q in ps <==> q == p || q in rest;
      AboveListedRest(ps, q);
      if q == p && AboveListed(rest, q) && q !in rest {
        var r :| r in rest && q <= r;
        VisitedAbove(vs, q, r);
      }
    }
  }

  lemma AboveListedRest(ps: seq<Path>, q: Path)
    requires ps != []
    ensures AboveListed(ps, q) <==> q <= ps[0] || AboveListed(ps[1..], q)
  {
    assert ps[0] in ps && (forall r <- ps[1..] :: r in ps) && forall r <- ps :: r == ps[0] || r in ps[1..];
  }

  /** A visited path above another one is a directory. */
  lemma VisitedAbove(vs: seq<Visit>, q: Path, r: Path)
    requires Snapshot(vs) && Find(vs, r).Some? && q <= r && q != r
    ensures Find(vs, q).Some? && Find(vs, q).value.item.DirItem?
  {
    var i :| 0 <= i < |vs| && vs[i] == Find(vs, r).value;
    AncestorsVisited(vs, i, q);
    var j :| 0 <= j < i && vs[j].path == q && vs[j].item.DirItem?;
    FindVisit(vs, vs[j]);
  }

  /**
   A visit comes out right: an unchanged file or link is there as it should be, a changed one is
   missing or can be replaced; a directory is there, or a changed path lies at or below it.
   */
  predicate ComesOut(tgt: Target, w: Index, vs: seq<Visit>, v: Visit) {
    if v.item.DirItem? then
      if v.path in tgt then tgt[v.path].DirItem? else exists u <- vs :: Changed(w, u) && v.path <= u.path
    else if Changed(w, v) then v.path !in tgt || Overwrites(v.item, tgt[v.path])
    else v.path in tgt && tgt[v.path] == v.item
  }

  /** Every visit comes out right, and nothing else is in the target. */
  ghost predicate Restorable(tgt: Target, w: Index, vs: seq<Visit>) {
    (forall v <- vs :: ComesOut(tgt, w, vs, v)) && (forall q <- tgt :: Find(vs, q).Some?)
  }

  lemma {:induction false} PendingIff(w: Index, vs: seq<Visit>, p: Path)
    ensures p in Pending(w, vs) <==> exists v <- vs :: v.path == p && Changed(w, v)
  {
    if vs != [] {
      PendingIff(w, vs[1..], p);
      assert forall v <- vs :: v == vs[0] || v in vs[1..];
      assert vs[0] in vs;
    }
  }

  lemma RestorableIsReplaceable(tgt: Target, w: Index, vs: seq<Visit>)
    requires Restorable(tgt, w, vs)
    ensures Replaceable(tgt, vs)
  {
    forall q <- tgt ensures
      Find(vs, q).Some? && (tgt[q] == Find(vs, q).value.item || Overwrites(Find(vs, q).value.item, tgt[q]))
    {
      var v := Find(vs, q).value;
      assert ComesOut(tgt, w, vs, v);
    }
  }

  lemma RestoredAt(tgt: Target, w: Index, vs: seq<Visit>, q: Path)
    requires Snapshot(vs) && Restorable(tgt, w, vs)
    ensures At(UpdateAll(tgt, vs, Pending(w, vs)), q) ==
      if Find(vs, q).Some? then Some(Find(vs, q).value.item) else None
  {
    var ps := Pending(w, vs);
    RestorableIsReplaceable(tgt, w, vs);
    forall p <- ps ensures Find(vs, p).Some? { PendingIff(w, vs, p); }
    UpdateAllAt(tgt, vs, ps, q);
    PendingIff(w, vs, q);
    hide UpdateAll, Pending, Replaceable;
    if Find(vs, q).Some? {
      var v := Find(vs, q).value;
      assert ComesOut(tgt, w, vs, v);
      if v.item.DirItem? && q !in tgt {
        var u :| u in vs && Changed(w, u) && q <= u.path;
        PendingIff(w, vs, u.path);
        assert AboveListed(ps, q);
      }
    }
    if AboveListed(ps, q) && q !in ps {
      var r :| r in ps && q <= r;
      VisitedAbove(vs, q, r);
    }
  }

  lemma CopiedComesOut(tgt: Target, w: Index, vs: seq<Visit>, v: Visit)
    requires Snapshot(vs) && Copies(UpdateAll(tgt, vs, Pending(w, vs)), vs) && v in vs
    ensures ComesOut(tgt, w, vs, v)
  {
    var ps, q := Pending(w, vs), v.path;
    FindVisit(vs, v);
    PendingMeansChanged(w, vs, v);
    hide UpdateAll;
    if q in tgt {
      if !(q in ps && Overwrites(v.item, tgt[q])) { UpdateAllKeeps(tgt, vs, ps, q); }
    } else if forall p <- ps :: !(q <= p) {
      UpdateAllSkips(tgt, vs, ps, q);
    } else {
      var p :| p in ps && q <= p;
      PendingIff(w, vs, p);
      var u :| u in vs && u.path == p && Changed(w, u);
      OnlyDirsHaveMore(vs, v, u);
      FindVisit(vs, u);
    }
  }

  /** From any target and any index: the updates make a full copy if and only if all comes out right. */
  lemma UpdatesCopyExactly(tgt: Target, w: Index, vs: seq<Visit>)
    requires Snapshot(vs)
    ensures Copies(UpdateAll(tgt, vs, Pending(w, vs)), vs) <==> Restorable(tgt, w, vs)
  {
    hide UpdateAll, Pending, Snapshot, ComesOut;
    var after := UpdateAll(tgt, vs, Pending(w, vs));
    if Restorable(tgt, w, vs) {
      hide Restorable;
      forall q
        ensures (q in after <==> Find(vs, q).Some?) && (q in after ==> after[q] == Find(vs, q).value.item)
      {
        RestoredAt(tgt, w, vs, q);
      }
    }
    if Copies(after, vs) {
      forall v <- vs ensures ComesOut(tgt, w, vs, v) { CopiedComesOut(tgt, w, vs, v); }
      forall q <- tgt ensures Find(vs, q).Some? { UpdateAllGrows(tgt, vs, Pending(w, vs), q); }
    }
  }

  /** Only a directory has anything below it. */
  lemma OnlyDirsHaveMore(vs: seq<Visit>, v: Visit, u: Visit)
    requires Snapshot(vs) && v in vs && u in vs && v.path <= u.path
    ensures u.path == v.path || v.item.DirItem?
  {
    if u.path != v.path {
      FindVisit(vs, v);
      FindVisit(vs, u);
      VisitedAbove(vs, v.path, u.path);
    }
  }

  lemma PendingMeansChanged(w: Index, vs: seq<Visit>, v: Visit)
    requires Distinct(vs) && v in vs
    ensures v.path in Pending(w, vs) <==> Changed(w, v)
  {
    PendingIff(w, vs, v.path);
    if v.path in Pending(w, vs) {
      var u :| u in vs && u.path == v.path && Changed(w, u);
      FindVisit(vs, u);
      FindVisit(vs, v);
    }
  }

  // ---------------------------------------------------------------- one scan

  datatype ScanState = ScanState(watched: Index, target: Target)

  /** `scan`: the new state and the number of updates, or `None` when the walk failed. */
  function Scan(s: ScanState, t: Tree, order: seq<Path>): (ScanState, Option<nat>) {
    var vs := Walk(t, []);
    var cleaned := RemoveAll(s.target, order);
    var walked := ScanTree(Retained(s.watched, vs), [], t, []);
    if !walked.result.Size? then (ScanState(walked.watched, cleaned), None)
    else (ScanState(walked.watched, UpdateAll(cleaned, vs, walked.updates)), Some(|walked.updates|))
  }

  /** `order` lists the removed paths, in whatever order the index yields them. */
  predicate RemovalOrder(order: seq<Path>, w: Index, vs: seq<Visit>) {
    (set p <- order) == Gone(w, vs)
  }

  /** The state agrees with snapshot `vs`; the empty list stands for a freshly added storage. */
  ghost predicate InStep(s: ScanState, vs: seq<Visit>) {
    && Lists(s.watched, vs)
    && if vs == [] then s.target == map[[] := DirItem] else Snapshot(vs) && Copies(s.target, vs)
  }

  /** A visit of the earlier walk that the scan can turn into the one of the later walk. */
  predicate Refreshable(o: Visit, n: Visit) {
    n.Present() ==> o.item == n.item || (n.mtime > o.mtime && Overwrites(n.item, o.item))
  }

  predicate Evolves(prior: seq<Visit>, next: seq<Visit>) {
    forall o <- prior, n <- next | o.path == n.path :: Refreshable(o, n)
  }

  /** What vanished from the source is closed below, so removal spares what is to stay. */
  lemma GoneIsClosed(s: ScanState, prior: seq<Visit>, next: seq<Visit>)
    requires InStep(s, prior) && Snapshot(next)
    ensures ClosedBelow(s.target, Gone(s.watched, next)) && [] !in Gone(s.watched, next)
  {
    var gone := Gone(s.watched, next);
    VisitedExists(next, next[0]);
    hide Find, Exists;
    forall p <- gone, q <- s.target | p in s.target && s.target[p].DirItem? && p <= q ensures q in gone {
      assert q != [] && q in s.watched;
      if Exists(next, q) { AboveExists(next, p, q); }
    }
  }

  /** After the removals the target holds what is indexed and still exists, and the mount point. */
  lemma CleanedAt(s: ScanState, prior: seq<Visit>, next: seq<Visit>, order: seq<Path>, q: Path)
    requires InStep(s, prior) && Snapshot(next) && RemovalOrder(order, s.watched, next)
    ensures var tgt := RemoveAll(s.target, order);
      && (q in tgt <==> q in s.target && (q == [] || Exists(next, q)))
      && (q in tgt ==> tgt[q] == s.target[q])
  {
    GoneIsClosed(s, prior, next);
    assert q in s.target ==> q == [] || q in s.watched;
    hide InStep, Find;
    var gone := Gone(s.watched, next);
    assert q in gone <==> q in (set p <- order);
    assert forall p <- order :: p in (set p <- order);
    RemovalInAnyOrder(s.target, order, gone);
  }

  /** The state after a successful scan, in terms of the visits. */
  lemma ScanOutcome(s: ScanState, t: Tree, order: seq<Path>)
    requires WellFormed(t) && t.Dir? && Scan(s, t, order).1.Some?
    ensures var vs := Walk(t, []);
      var kept := Retained(s.watched, vs);
      Scan(s, t, order).0 ==
        ScanState(Indexed(kept, vs), UpdateAll(RemoveAll(s.target, order), vs, Pending(kept, vs)))
  {
    var vs := Walk(t, []);
    var kept := Retained(s.watched, vs);
    ScanTreeIsFold(kept, [], t, []);
    WalkIsSnapshot(t);
    UpdatesArePending(kept, vs);
    hide ScanTree, Walk, Retained, RemoveAll, UpdateAll, Updates, Pending, Snapshot;
    assert [] + Pending(kept, vs) == Pending(kept, vs);
  }

  /** The paths visited that are new or changed. */
  function ChangedPaths(w: Index, vs: seq<Visit>): set<Path> {
    set v <- vs | Changed(w, v) :: v.path
  }

  lemma ChangedPathsStep(w: Index, vs: seq<Visit>)
    requires vs != []
    ensures ChangedPaths(w, vs) == (if Changed(w, vs[0]) then {vs[0].path} else {}) + ChangedPaths(w, vs[1..])
  {
    hide Changed;
    var v, rest := vs[0], vs[1..];
    assert v in vs && (forall u <- vs :: u == v || u in rest) && forall u <- rest :: u in vs;
    forall p ensures p in ChangedPaths(w, vs) <==>
      (Changed(w, v) && p == v.path) || p in ChangedPaths(w, rest) {}
  }

  lemma {:induction false} PendingCount(w: Index, vs: seq<Visit>)
    requires Distinct(vs)
    ensures |Pending(w, vs)| == |ChangedPaths(w, vs)|
  {
    if vs != [] {
      var v, rest := vs[0], vs[1..];
      PendingCount(w, rest);
      forall u <- rest ensures u.path != v.path {
        var j :| 0 <= j < |rest| && rest[j] == u;
        assert vs[j + 1] == u;
      }
      hide Changed;
      ChangedPathsStep(w, vs);
      assert v.path !in ChangedPaths(w, rest);
      hide ChangedPaths;
    }
  }

  /** A successful scan returns the number of paths that are new or changed. */
  lemma ScanCounts(s: ScanState, t: Tree, order: seq<Path>)
    requires WellFormed(t) && t.Dir? && Scan(s, t, order).1.Some?
    ensures var vs := Walk(t, []);
      Scan(s, t, order).1.value == |ChangedPaths(Retained(s.watched, vs), vs)|
  {
    var vs := Walk(t, []);
    var kept := Retained(s.watched, vs);
    ScanTreeIsFold(kept, [], t, []);
    WalkIsSnapshot(t);
    UpdatesArePending(kept, vs);
    PendingCount(kept, vs);
    hide ScanTree, Walk, Retained, RemoveAll, UpdateAll, Updates, Pending, Snapshot, ChangedPaths;
    assert [] + Pending(kept, vs) == Pending(kept, vs);
  }

  /** A failed scan has removed what vanished from a mirrored target, and copied nothing. */
  lemma FailedScanCleans(s: ScanState, prior: seq<Visit>, t: Tree, order: seq<Path>, q: Path)
    requires InStep(s, prior) && WellFormed(t) && t.Dir? && RemovalOrder(order, s.watched, Walk(t, []))
    requires Scan(s, t, order).1.None?
    ensures var after := Scan(s, t, order).0.target;
      && (q in after <==> q in s.target && (q == [] || Exists(Walk(t, []), q)))
      && (q in after ==> after[q] == s.target[q])
  {
    WalkIsSnapshot(t);
    CleanedAt(s, prior, Walk(t, []), order, q);
    hide Walk, ScanTree, Exists, RemoveAll, InStep;
  }

  /** The walk leaves an exact index if and only if no stale path was kept. */
  lemma IndexAfter(w: Index, vs: seq<Visit>)
    requires Snapshot(vs)
    ensures Lists(Indexed(Retained(w, vs), vs), vs) <==> Stale(w, vs) == {}
  {
    var after := Indexed(Retained(w, vs), vs);
    assert Distinct(vs);
    hide Exists, Indexed, Snapshot, Find;
    forall p
      ensures p in after <==> p in Stale(w, vs) || Find(vs, p).Some?
      ensures Find(vs, p).Some? ==> after[p] == Find(vs, p).value.mtime
    {
      IndexedAt(Retained(w, vs), vs, p);
    }
    forall p <- Stale(w, vs) ensures !Lists(after, vs) {}
  }

  /**
   From any index and any target, a scan that succeeds leaves a full copy of the source if and
   only if, after the removals, all comes out right; the index is then exact as well if and only
   if it kept no path that exists only behind a link.
   */
  lemma ScanMirrorsExactly(s: ScanState, t: Tree, order: seq<Path>)
    requires WellFormed(t) && t.Dir? && Scan(s, t, order).1.Some?
    ensures var next := Walk(t, []);
      var right := Restorable(RemoveAll(s.target, order), Retained(s.watched, next), next);
      && (Copies(Scan(s, t, order).0.target, next) <==> right)
      && (InStep(Scan(s, t, order).0, next) <==> right && Stale(s.watched, next) == {})
  {
    var next := Walk(t, []);
    ScanOutcome(s, t, order);
    WalkIsSnapshot(t);
    hide Scan, Walk, RemoveAll, Retained, Restorable, UpdateAll, Pending, Copies, Lists, Indexed, Stale;
    IndexAfter(s.watched, next);
    UpdatesCopyExactly(RemoveAll(s.target, order), Retained(s.watched, next), next);
  }

  /** From a mirrored state a visit comes out right if and only if it refreshes what was there. */
  lemma RefreshComesOut(s: ScanState, prior: seq<Visit>, next: seq<Visit>, order: seq<Path>, v: Visit)
    requires InStep(s, prior) && Snapshot(next) && RemovalOrder(order, s.watched, next) && v in next
    ensures ComesOut(RemoveAll(s.target, order), Retained(s.watched, next), next, v) <==>
      forall o <- prior | o.path == v.path :: Refreshable(o, v)
  {
    CleanedAt(s, prior, next, order, v.path);
    VisitedExists(next, v);
    forall o <- prior | o.path == v.path ensures Find(prior, v.path) == Some(o) { FindVisit(prior, o); }
    assert v.path == [] ==> v.item.DirItem? by {
      FindVisit(next, next[0]);
    }
    assert v.Legal();
    assert v.path <= v.path;
    hide Find, RemoveAll, Snapshot, Exists;
  }

  /**
   From a state that mirrors one snapshot of the source, a scan that succeeds leaves a state
   that mirrors the next one if and only if every path present in both can be refreshed,
   whatever the order of removals.
   */
  lemma MirrorsExactlyWhen(s: ScanState, prior: seq<Visit>, t: Tree, order: seq<Path>)
    requires InStep(s, prior) && WellFormed(t) && t.Dir? && RemovalOrder(order, s.watched, Walk(t, []))
    requires Scan(s, t, order).1.Some?
    ensures InStep(Scan(s, t, order).0, Walk(t, [])) <==> Evolves(prior, Walk(t, []))
  {
    var next := Walk(t, []);
    WalkIsSnapshot(t);
    ScanMirrorsExactly(s, t, order);
    hide Scan, Walk, InStep, ComesOut, RemoveAll, Retained, Refreshable, RemovalOrder, Snapshot, Stale;
    forall v <- next
      ensures ComesOut(RemoveAll(s.target, order), Retained(s.watched, next), next, v) <==>
        forall o <- prior | o.path == v.path :: Refreshable(o, v)
    {
      RefreshComesOut(s, prior, next, order, v);
    }
    NothingStale(s, prior, next);
    if Evolves(prior, next) {
      forall q <- RemoveAll(s.target, order) ensures Find(next, q).Some? {
        NothingElseLeft(s, prior, next, order, q);
      }
    }
  }

  /**
   In terms of kinds alone: if every path in both snapshots is unchanged, or has a later time and
   is a file that was a file or a link that was no directory, a successful scan copies the source.
   */
  lemma RefreshedByKind(s: ScanState, prior: seq<Visit>, t: Tree, order: seq<Path>)
    requires InStep(s, prior) && WellFormed(t) && t.Dir? && RemovalOrder(order, s.watched, Walk(t, []))
    requires Scan(s, t, order).1.Some?
    requires forall o <- prior, n <- Walk(t, []) | o.path == n.path ::
      || o.item == n.item
      || (n.mtime > o.mtime && n.item.FileItem? && o.item.FileItem?)
      || (n.mtime > o.mtime && n.item.LinkItem? && !o.item.DirItem?)
    ensures Copies(Scan(s, t, order).0.target, Walk(t, [])) && InStep(Scan(s, t, order).0, Walk(t, []))
  {
    hide Scan, Walk, RemovalOrder, WellFormed;
    assert Evolves(prior, Walk(t, []));
    hide Evolves;
    MirrorsExactlyWhen(s, prior, t, order);
    assert Walk(t, []) != [];
  }

  /** A path can only get behind a link where a directory was, which no scan refreshes. */
  lemma NothingStale(s: ScanState, prior: seq<Visit>, next: seq<Visit>)
    requires InStep(s, prior) && Snapshot(next)
    ensures Evolves(prior, next) ==> Stale(s.watched, next) == {}
  {
    forall p <- Stale(s.watched, next) ensures !Evolves(prior, next) {
      var n := BehindLink(next, p);
      assert Find(prior, p).Some?;
      VisitedAbove(prior, n.path, p);
      assert !Refreshable(Find(prior, n.path).value, n);
    }
  }

  lemma NothingElseLeft(s: ScanState, prior: seq<Visit>, next: seq<Visit>, order: seq<Path>, q: Path)
    requires InStep(s, prior) && Snapshot(next) && RemovalOrder(order, s.watched, next)
    requires Stale(s.watched, next) == {} && q in RemoveAll(s.target, order)
    ensures Find(next, q).Some?
  {
    CleanedAt(s, prior, next, order, q);
    FindVisit(next, next[0]);
    hide Exists, RemoveAll;
    assert q == [] || q in s.watched;
    assert q !in Stale(s.watched, next);
  }

  // ---------------------------------------------------------------- limits

  function LeafCount(vs: seq<Visit>): nat {
    if vs == [] then 0 else (if vs[0].Leaf() then 1 else 0) + LeafCount(vs[1..])
  }

  /** `seen` are files and links already indexed when the walk of `vs` starts. */
  lemma {:induction false} LeavesBounded(w: Index, vs: seq<Visit>, seen: set<Path>)
    requires Distinct(vs) && CountsOk(w, vs) && seen <= w.Keys && forall v <- vs :: v.path !in seen
    ensures LeafCount(vs) == 0 || |seen| + LeafCount(vs) <= MAX_ENTRIES_PER_STORAGE
    decreases |vs|
  {
    if vs != [] {
      var v, rest := vs[0], vs[1..];
      var w1 := w[v.path := v.mtime];
      var seen1 := if v.Leaf() then seen + {v.path} else seen;
      forall u <- rest ensures u.path !in seen1 {
        var j :| 0 <= j < |rest| && rest[j] == u;
        assert vs[j + 1] == u;
      }
      LeavesBounded(w1, rest, seen1);
      if v.Leaf() {
        assert v in vs && |seen1| == |seen| + 1;
        SubsetSize(seen1, w1.Keys);
        assert |w1.Keys| == |w1|;
      }
    }
  }

  lemma {:induction false} SubsetSize<T>(a: set<T>, b: set<T>)
    requires a <= b
    ensures |a| <= |b|
  {
    if a != {} {
      var x :| x in a;
      SubsetSize(a - {x}, b - {x});
    }
  }

  /** No file or link is over the size limit on its own. */
  predicate EachSmall(vs: seq<Visit>) {
    forall v <- vs :: LeafSize(v.item) <= MAX_SIZE_PER_WATCHABLE_MOUNT
  }

  lemma {:induction false} TotalByCount(vs: seq<Visit>)
    requires EachSmall(vs)
    ensures 0 <= Total(vs) <= LeafCount(vs) * MAX_SIZE_PER_WATCHABLE_MOUNT
  {
    if vs != [] {
      assert vs[0] in vs;
      TotalByCount(vs[1..]);
    }
  }

  lemma {:induction false} TotalBoundsEach(vs: seq<Visit>)
    requires Total(vs) <= MAX_SIZE_PER_WATCHABLE_MOUNT
    ensures EachSmall(vs)
  {
    if vs != [] {
      TotalNonNegative(vs[1..]);
      TotalBoundsEach(vs[1..]);
      assert forall v <- vs :: v == vs[0] || v in vs[1..];
    }
  }

  /** Whatever was walked without failure adds up to at most sixteen times the size limit. */
  lemma RunningSumBounded(w: Index, vs: seq<Visit>)
    requires Distinct(vs) && CountsOk(w, vs) && EachSmall(vs)
    ensures 0 <= Total(vs) <= MAX_ENTRIES_PER_STORAGE * MAX_SIZE_PER_WATCHABLE_MOUNT <= U64_MAX
  {
    LeavesBounded(w, vs, {});
    TotalByCount(vs);
  }

  lemma {:induction false} CountsOkWithin(w: Index, vs: seq<Visit>, all: set<Path>)
    requires w.Keys <= all && |all| <= MAX_ENTRIES_PER_STORAGE && forall v <- vs :: v.path in all
    ensures CountsOk(w, vs)
    decreases |vs|
  {
    if vs != [] {
      var w1 := w[vs[0].path := vs[0].mtime];
      assert vs[0] in vs;
      SubsetSize(w1.Keys, all);
      assert |w1.Keys| == |w1|;
      CountsOkWithin(w1, vs[1..], all);
    }
  }

  lemma {:induction false} PathsCount(vs: seq<Visit>)
    ensures |Paths(vs)| <= |vs|
  {
    if vs != [] {
      PathsCount(vs[1..]);
      assert Paths(vs) == {vs[0].path} + Paths(vs[1..]);
    }
  }

  /** What a successful scan says about its source: the limits hold, and the sum is exact. */
  lemma OkMeansWithinLimits(s: ScanState, t: Tree, order: seq<Path>)
    requires WellFormed(t) && t.Dir? && Scan(s, t, order).1.Some?
    ensures var vs := Walk(t, []);
      && ScanTree(Retained(s.watched, vs), [], t, []).result == Size(Total(vs))
      && Total(vs) <= MAX_SIZE_PER_WATCHABLE_MOUNT && LeafCount(vs) <= MAX_ENTRIES_PER_STORAGE
  {
    var vs := Walk(t, []);
    ScanTreeIsFold(Retained(s.watched, vs), [], t, []);
    WalkDistinct(t, []);
    LeavesBounded(Retained(s.watched, vs), vs, {});
  }

  function Paths(vs: seq<Visit>): set<Path> { set v <- vs :: v.path }

  /** The visits up to the last file or link; directories after it are never counted. */
  function Counted(vs: seq<Visit>): seq<Visit> {
    if vs == [] then []
    else if Counted(vs[1..]) == [] && !vs[0].Leaf() then []
    else [vs[0]] + Counted(vs[1..])
  }

  lemma PathsCons(v: Visit, rest: seq<Visit>)
    ensures Paths([v] + rest) == {v.path} + Paths(rest)
  {
    forall p ensures p in Paths([v] + rest) <==> p in {v.path} + Paths(rest) {
      assert ([v] + rest)[0] == v && forall u :: u in [v] + rest <==> u == v || u in rest;
    }
  }

  lemma GrowKeys<T>(keys: set<T>, x: T, more: set<T>)
    ensures keys + ({x} + more) == keys + {x} + more && |keys + {x}| <= |keys + {x} + more|
    ensures more == {} ==> keys + {x} + more == keys + {x}
  {
    SubsetSize(keys + {x}, keys + {x} + more);
  }

  lemma KeysOneMore(w: Index, v: Visit)
    ensures var w1 := w[v.path := v.mtime]; w1.Keys == w.Keys + {v.path} && |w1| == |w1.Keys|
  {
  }

  /** The checks along the walk come down to one count of paths, at its last file or link. */
  lemma {:induction false} CountsOkExactly(w: Index, vs: seq<Visit>)
    ensures CountsOk(w, vs) <==> Counted(vs) == [] || |w.Keys + Paths(Counted(vs))| <= MAX_ENTRIES_PER_STORAGE
    decreases |vs|
  {
    assert Paths([]) == {};
    hide Paths;
    if vs != [] {
      var v, rest := vs[0], Counted(vs[1..]);
      CountsOkExactly(w[v.path := v.mtime], vs[1..]);
      KeysOneMore(w, v);
      PathsCons(v, rest);
      GrowKeys(w.Keys, v.path, Paths(rest));
    }
  }

  lemma {:induction false} CountedPaths(vs: seq<Visit>)
    ensures Paths(Counted(vs)) <= Paths(vs)
    ensures Counted(vs) == [] <==> LeafCount(vs) == 0
  {
    if vs != [] {
      var v, rest := vs[0], Counted(vs[1..]);
      CountedPaths(vs[1..]);
      PathsCons(v, rest);
      PathsCons(v, vs[1..]);
      assert [v] + vs[1..] == vs && (Counted(vs) == [] ==> Paths(Counted(vs)) == {});
      hide Paths;
    }
  }

  /**
   A scan succeeds if and only if the source holds at most one mebibyte and, up to its last file
   or link, visited paths and retained ones together are at most sixteen.
   */
  lemma ScanOkExactly(s: ScanState, t: Tree, order: seq<Path>)
    ensures var vs := Walk(t, []);
      Scan(s, t, order).1.Some? <==>
        && Total(vs) <= MAX_SIZE_PER_WATCHABLE_MOUNT
        && (LeafCount(vs) == 0 ||
            |Retained(s.watched, vs).Keys + Paths(Counted(vs))| <= MAX_ENTRIES_PER_STORAGE)
  {
    var vs := Walk(t, []);
    ScanTreeIsFold(Retained(s.watched, vs), [], t, []);
    CountsOkExactly(Retained(s.watched, vs), vs);
    CountedPaths(vs);
  }

  lemma RetainedIsVisitedOrStale(w: Index, vs: seq<Visit>)
    ensures Retained(w, vs).Keys <= Stale(w, vs) + Paths(vs) && Stale(w, vs) <= Retained(w, vs).Keys
    ensures forall v <- vs :: v.path !in Stale(w, vs)
  {
    hide Exists;
    forall p <- Retained(w, vs) ensures p in Stale(w, vs) + Paths(vs) {
      if Find(vs, p).Some? { assert Find(vs, p).value in vs; }
    }
  }

  /**
   A source of at most one mebibyte is accepted if its entries, directories included, and the
   stale paths are together at most sixteen.  It is refused if its files and links, of which there
   are some, and the stale paths are together more.
   */
  lemma SmallSourceIsOk(s: ScanState, t: Tree, order: seq<Path>)
    requires WellFormed(t) && t.Dir? && Total(Walk(t, [])) <= MAX_SIZE_PER_WATCHABLE_MOUNT
    ensures var vs := Walk(t, []); var stale := Stale(s.watched, vs);
      && (|stale| + |vs| <= MAX_ENTRIES_PER_STORAGE ==> Scan(s, t, order).1.Some?)
      && (LeafCount(vs) > 0 && |stale| + LeafCount(vs) > MAX_ENTRIES_PER_STORAGE ==> Scan(s, t, order).1.None?)
  {
    var vs := Walk(t, []);
    var w, stale := Retained(s.watched, vs), Stale(s.watched, vs);
    ScanTreeIsFold(w, [], t, []);
    RetainedIsVisitedOrStale(s.watched, vs);
    WalkDistinct(t, []);
    PathsCount(vs);
    hide Walk, ScanTree, Retained, Stale, CountsOk, WellFormed;
    if |stale| + |vs| <= MAX_ENTRIES_PER_STORAGE {
      UnionSize(stale, Paths(vs));
      CountsOkWithin(w, vs, stale + Paths(vs));
    }
    if CountsOk(w, vs) { LeavesBounded(w, vs, stale); }
  }

  lemma {:induction false} UnionSize<T>(a: set<T>, b: set<T>)
    ensures |a + b| <= |a| + |b|
  {
    if a != {} {
      var x :| x in a;
      UnionSize(a - {x}, b);
      assert a + b == ((a - {x}) + b) + {x};
    }
  }
}
