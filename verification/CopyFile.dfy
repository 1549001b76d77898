/**
 Copying a regular file into the guest in chunks: each request writes its data into a
 temporary file beside the target, and the request that completes the size publishes it.
 */
module CopyFiles {
  import opened Prelude

  newtype byte = x: int | 0 <= x < 256
  type Bytes = seq<byte>

  /** A resolved path by its components, without `..`; the last one is the file name. */
  type Path = p: seq<string> | p != [] && ".." !in p witness ["/"]

  datatype Node = File(content: Bytes) | Dir

  type Files = map<Path, Node>

  /** A request as it comes, with the components of its path as they were written. */
  datatype CopyRequest = CopyRequest(path: seq<string>, offset: int, data: Bytes, fileSize: int)

  /** A request by the file it is about. */
  datatype Request = Request(path: Path, offset: int, data: Bytes, fileSize: int)

  const CONTAINER_BASE: seq<string> := ["/", "run", "kata-containers"]

  // ---------------------------------------------------------------- the temporary name

  /** The part of a file name before its last dot, if that is not the first character. */
  function Stem(name: string): string {
    if name == ".." then name
    else
      var before := BeforeLastDot(name);
      if before.None? || before.value == "" then name else before.value
  }

  function BeforeLastDot(name: string): Option<string> {
    if name == "" then None
    else
      var n := |name| - 1;
      if name[n] == '.' then Some(name[..n]) else BeforeLastDot(name[..n])
  }

  /** `set_extension("tmp")` on the file name. */
  function TmpName(name: string): string {
    if name == ".." then name else Stem(name) + ".tmp"
  }

  function TmpPath(p: Path): Path {
    var tmp := TmpName(p[|p| - 1]);
    assert p[|p| - 1] in p && |tmp| > 2;
    p[|p| - 1 := tmp]
  }

  lemma {:induction false} DotSplit(stem: string, ext: string)
    requires '.' !in ext
    ensures BeforeLastDot(stem + "." + ext) == Some(stem)
    decreases |ext|
  {
    var name := stem + "." + ext;
    var n := |name| - 1;
    if ext == "" {
      assert name[..n] == stem;
    } else {
      var m := |ext| - 1;
      assert name[n] == ext[m] && ext[m] in ext;
      assert name[..n] == stem + "." + ext[..m];
      DotSplit(stem, ext[..m]);
    }
  }

  /** Names that differ only in their extension share one temporary name. */
  lemma ExtensionsShare(stem: string, ext: string)
    requires stem != "" && '.' !in ext && stem + "." + ext != ".."
    ensures TmpName(stem + "." + ext) == stem + ".tmp"
  {
    DotSplit(stem, ext);
  }

  /** A name without an extension, or with nothing before its only dot, keeps all of itself. */
  lemma PlainNames(name: string)
    requires name != "" && '.' !in name
    ensures TmpName(name) == name + ".tmp" && TmpName("." + name) == "." + name + ".tmp"
  {
    NoDot(name);
    DotSplit("", name);
    assert "" + "." + name == "." + name;
    assert ("." + name)[1] == name[0] && name[0] in name;
  }

  lemma {:induction false} NoDot(name: string)
    requires '.' !in name
    ensures BeforeLastDot(name).None?
  {
    if name != "" {
      var n := |name| - 1;
      assert name[n] in name && forall c <- name[..n] :: c in name;
      NoDot(name[..n]);
    }
  }

  /** A temporary name is its own temporary name. */
  lemma TmpNameStable(name: string)
    requires name != ""
    ensures TmpName(TmpName(name)) == TmpName(name)
  {
    if name != ".." {
      var stem := Stem(name);
      assert stem != "" && TmpName(name) == stem + "." + "tmp";
      ExtensionsShare(stem, "tmp");
    }
  }

  lemma TmpPathStable(p: Path)
    requires p[|p| - 1] != ""
    ensures TmpPath(TmpPath(p)) == TmpPath(p)
  {
    TmpNameStable(p[|p| - 1]);
  }

  /** Transfers with different temporary files, neither its own, touch no common file. */
  lemma DifferentTemporaries(p: Path, q: Path)
    requires p[|p| - 1] != "" && q[|q| - 1] != ""
    requires TmpPath(p) != p && TmpPath(q) != q && TmpPath(p) != TmpPath(q)
    ensures {p, TmpPath(p)} !! {q, TmpPath(q)}
  {
    TmpPathStable(p);
    TmpPathStable(q);
  }

  // ---------------------------------------------------------------- one request

  function Zeros(n: nat): Bytes { seq(n, _ => 0) }

  /** `write_all_at`: a gap is filled with zeros; writing nothing changes nothing. */
  function WriteAt(content: Bytes, data: Bytes, offset: nat): Bytes {
    if data == [] then content
    else
      var padded := if offset <= |content| then content[..offset] else content + Zeros(offset - |content|);
      var end := offset + |data|;
      padded + data + if end <= |content| then content[end..] else []
  }

  /** Byte by byte: the data where it was written, zeros in a gap, the old content elsewhere. */
  lemma WriteAtBytes(content: Bytes, data: Bytes, offset: nat, i: nat)
    requires data != []
    ensures |WriteAt(content, data, offset)| == Max(|content|, offset + |data|)
    ensures i < Max(|content|, offset + |data|) ==>
      WriteAt(content, data, offset)[i] ==
        if offset <= i < offset + |data| then data[i - offset]
        else if i < |content| then content[i]
        else 0
  {
  }

  /** The temporary file once opened: created if missing, emptied at offset zero. */
  function Opened(fs: Files, tmp: Path, offset: int): Bytes
    requires tmp in fs ==> fs[tmp].File?
  {
    if tmp in fs && offset != 0 then fs[tmp].content else []
  }

  /** Remove what is at a path, with everything below it if it is a directory. */
  function Cleared(fs: Files, p: Path): Files {
    if p in fs && fs[p].Dir? then map q | q in fs && !(p <= q) :: fs[q] else fs - {p}
  }

  /** Clear the target, then rename the temporary file onto it. */
  function Publish(fs: Files, tmp: Path, p: Path): (Files, bool) {
    var cleared := Cleared(fs, p);
    if tmp !in cleared then (cleared, false)
    else ((cleared - {tmp})[p := cleared[tmp]], true)
  }

  /** A request for a regular file whose path was accepted: the new files, and whether it succeeded. */
  function CopyChunk(fs: Files, r: Request): (Files, bool) {
    var tmp := TmpPath(r.path);
    if tmp in fs && fs[tmp].Dir? then (fs, false)
    else
      var start := Opened(fs, tmp, r.offset);
      if r.offset < 0 && r.data != [] then (fs[tmp := File(start)], false)
      else
        var written := if r.data == [] then start else WriteAt(start, r.data, r.offset);
        var fs1 := fs[tmp := File(written)];
        if |written| != r.fileSize then (fs1, true) else Publish(fs1, tmp, r.path)
  }

  /** The size of the temporary file once the data is written. */
  function WrittenSize(fs: Files, r: Request): int
    requires TmpPath(r.path) in fs ==> fs[TmpPath(r.path)].File?
  {
    var tmp := TmpPath(r.path);
    var before := if tmp in fs && r.offset != 0 then |fs[tmp].content| else 0;
    if r.data == [] then before else Max(before, r.offset + |r.data|)
  }

  /**
   Exactly when a request fails: a directory is in the way of the temporary file, data comes with a
   negative offset, or the file is complete and its own temporary file.  The first changes nothing,
   the second leaves the temporary file open but unwritten.
   */
  lemma FailsExactly(fs: Files, r: Request)
    ensures var tmp := TmpPath(r.path); var (after, ok) := CopyChunk(fs, r);
      if tmp in fs && fs[tmp].Dir? then !ok && after == fs
      else if r.offset < 0 && r.data != [] then
        !ok && after == fs[tmp := File(if tmp in fs then fs[tmp].content else [])]
      else !ok <==> WrittenSize(fs, r) == r.fileSize && tmp == r.path
  {
    var tmp := TmpPath(r.path);
    if !(tmp in fs && fs[tmp].Dir?) && !(r.offset < 0 && r.data != []) {
      var start := Opened(fs, tmp, r.offset);
      if r.data != [] { WriteAtBytes(start, r.data, r.offset, 0); }
      var written := if r.data == [] then start else WriteAt(start, r.data, r.offset);
      assert |written| == WrittenSize(fs, r);
      assert tmp != r.path ==> !(r.path <= tmp) by { assert |tmp| == |r.path|; }
      PublishSpec(fs, tmp, r.path, written);
      hide TmpPath, WriteAt, Publish;
    }
  }

  // ---------------------------------------------------------------- paths as written

  /** The file a path leads to in a tree without links: `..` leaves a directory, except the root. */
  function Resolve(path: seq<string>): (p: seq<string>)
    ensures ".." !in p
  {
    if path == [] then []
    else
      var front, last := Resolve(path[..|path| - 1]), path[|path| - 1];
      if last != ".." then front + [last] else if |front| <= 1 then front else front[..|front| - 1]
  }

  /** The path is under the base directory as written, and its last component names a file. */
  predicate Accepted(path: seq<string>) {
    CONTAINER_BASE <= path && path[|path| - 1] != ".."
  }

  function Resolved(r: CopyRequest): Request
    requires Accepted(r.path)
  {
    Request(Resolve(r.path), r.offset, r.data, r.fileSize)
  }

  /** `do_copy_file` for a regular file; opening a path that ends in `..`, a directory, fails. */
  function CopyFile(fs: Files, r: CopyRequest): (Files, bool) {
    if Accepted(r.path) then CopyChunk(fs, Resolved(r)) else (fs, false)
  }

  /** A parent component undoes the one before it, and the root is its own parent. */
  lemma ResolveParent(path: seq<string>, c: string)
    requires c != ".."
    ensures Resolve(path) != [] ==> Resolve(path + [c, ".."]) == Resolve(path)
    ensures Resolve([c, ".."]) == [c]
  {
    var one, two := path + [c], path + [c, ".."];
    assert one[..|one| - 1] == path && two[..|two| - 1] == one;
    assert Resolve(one) == Resolve(path) + [c];
    assert [c, ".."][..1] == [c] && [c][..0] == [];
    assert Resolve([c]) == [] + [c];
  }

  lemma {:induction false} ResolvePlain(path: seq<string>)
    ensures ".." !in path <==> Resolve(path) == path
  {
    if path != [] {
      var front, last := path[..|path| - 1], path[|path| - 1];
      assert path == front + [last] && last in path;
      assert forall c <- front :: c in path;
      ResolvePlain(front);
      assert ".." !in path ==> ".." !in front;
    }
  }

  /** The temporary file, named on the path as written, is the temporary file of what the path leads to. */
  lemma TmpResolves(path: seq<string>)
    requires Accepted(path)
    ensures Resolve(path[|path| - 1 := TmpName(path[|path| - 1])]) == TmpPath(Resolve(path))
  {
    var n := |path| - 1;
    var tmp := path[n := TmpName(path[n])];
    assert tmp[..n] == path[..n] && |TmpName(path[n])| > 2;
    assert Resolve(path) == Resolve(path[..n]) + [path[n]];
    assert Resolve(tmp) == Resolve(path[..n]) + [TmpName(path[n])];
  }

  // ---------------------------------------------------------------- a transfer in order

  function Concat(chunks: seq<Bytes>): Bytes {
    if chunks == [] then [] else Concat(chunks[..|chunks| - 1]) + chunks[|chunks| - 1]
  }

  /** The `k`-th request of a transfer: cumulative offset, the chunk, the size of the whole. */
  function ChunkRequest(p: Path, chunks: seq<Bytes>, k: nat): Request
    requires k < |chunks|
  {
    Request(p, |Concat(chunks[..k])|, chunks[k], |Concat(chunks)|)
  }

  /** The files after the first `k` requests of a transfer. */
  function Transfer(fs: Files, p: Path, chunks: seq<Bytes>, k: nat): Files
    requires k <= |chunks|
  {
    if k == 0 then fs else CopyChunk(Transfer(fs, p, chunks, k - 1), ChunkRequest(p, chunks, k - 1)).0
  }

  predicate NonEmpty(chunks: seq<Bytes>) {
    chunks != [] && forall c <- chunks :: c != []
  }

  /** The temporary name of the target is not a directory. */
  predicate Writable(fs: Files, p: Path) {
    TmpPath(p) in fs ==> fs[TmpPath(p)].File?
  }

  lemma {:induction false} ConcatGrows(chunks: seq<Bytes>, k: nat)
    requires k <= |chunks| && forall c <- chunks :: c != []
    ensures |Concat(chunks[..k])| <= |Concat(chunks)|
    ensures k < |chunks| ==> |Concat(chunks[..k])| < |Concat(chunks)|
    ensures k > 0 ==> Concat(chunks[..k]) != [] && Concat(chunks[..k]) == Concat(chunks[..k - 1]) + chunks[k - 1]
    decreases |chunks|
  {
    if k == |chunks| {
      assert chunks[..k] == chunks;
      if k > 0 { assert chunks[k - 1] in chunks; }
    } else {
      var front, last := chunks[..|chunks| - 1], chunks[|chunks| - 1];
      assert last in chunks && front[..k] == chunks[..k];
      assert forall c <- front :: c in chunks;
      ConcatGrows(front, k);
      if k > 0 { assert front[..k - 1] == chunks[..k - 1]; }
    }
  }

  lemma AppendAtEnd(content: Bytes, data: Bytes)
    ensures WriteAt(content, data, |content|) == content + data
  {
    assert content[..|content|] == content;
    assert content + data + [] == content + data;
  }

  /** Writing the next chunk extends the temporary file by exactly that chunk. */
  lemma ChunkExtends(fs: Files, p: Path, chunks: seq<Bytes>, k: nat, left: Files)
    requires NonEmpty(chunks) && Writable(fs, p) && k < |chunks|
    requires left == if k == 0 then fs else fs[TmpPath(p) := File(Concat(chunks[..k]))]
    ensures var fs1 := fs[TmpPath(p) := File(Concat(chunks[..k + 1]))];
      CopyChunk(left, ChunkRequest(p, chunks, k)) ==
        (if k + 1 < |chunks| then (fs1, true) else Publish(fs1, TmpPath(p), p))
  {
    ChunkNumbers(chunks, k);
    hide Concat, TmpPath, WriteAt, Publish, NonEmpty;
    var tmp, r := TmpPath(p), ChunkRequest(p, chunks, k);
    assert Opened(left, tmp, r.offset) == Concat(chunks[..k]);
    assert left[tmp := File(Concat(chunks[..k + 1]))] == fs[tmp := File(Concat(chunks[..k + 1]))];
  }

  lemma ChunkNumbers(chunks: seq<Bytes>, k: nat)
    requires NonEmpty(chunks) && k < |chunks|
    ensures Concat(chunks[..0]) == [] && chunks[k] != [] && (k > 0 ==> |Concat(chunks[..k])| > 0)
    ensures WriteAt(Concat(chunks[..k]), chunks[k], |Concat(chunks[..k])|) == Concat(chunks[..k + 1])
    ensures |Concat(chunks[..k + 1])| == |Concat(chunks)| <==> k + 1 == |chunks|
  {
    ConcatGrows(chunks, k);
    ConcatGrows(chunks, k + 1);
    AppendAtEnd(Concat(chunks[..k]), chunks[k]);
    assert chunks[k] in chunks;
    assert chunks[..|chunks|] == chunks;
  }

  /**
   Whatever the temporary file held before: until the last chunk only the temporary file
   changes, and the last chunk publishes.
   */
  lemma {:induction false} TransferSteps(fs: Files, p: Path, chunks: seq<Bytes>, k: nat)
    requires NonEmpty(chunks) && Writable(fs, p) && 0 < k <= |chunks|
    ensures var fs1 := fs[TmpPath(p) := File(Concat(chunks[..k]))];
      Transfer(fs, p, chunks, k) == if k < |chunks| then fs1 else Publish(fs1, TmpPath(p), p).0
    decreases k
  {
    if k > 1 { TransferSteps(fs, p, chunks, k - 1); }
    ChunkExtends(fs, p, chunks, k - 1, Transfer(fs, p, chunks, k - 1));
    hide Concat, CopyChunk, Publish, TmpPath;
  }

  /** A path that a completed transfer to `p` leaves alone. */
  predicate Elsewhere(fs: Files, p: Path, q: Path) {
    q != p && q != TmpPath(p) && !(p in fs && fs[p].Dir? && p <= q)
  }

  lemma TransferIsInvisible(fs: Files, p: Path, chunks: seq<Bytes>, k: nat, q: Path)
    requires NonEmpty(chunks) && Writable(fs, p) && k < |chunks| && q != TmpPath(p)
    ensures q in Transfer(fs, p, chunks, k) <==> q in fs
    ensures q in fs ==> Transfer(fs, p, chunks, k)[q] == fs[q]
  {
    if k > 0 { TransferSteps(fs, p, chunks, k); }
  }

  /**
   A complete transfer makes the target exactly the chunks in order and consumes the temporary
   file, if and only if the target is not its own temporary file; otherwise the last chunk
   removes the file it just completed and fails.
   */
  lemma TransferPublishes(fs: Files, p: Path, chunks: seq<Bytes>)
    requires NonEmpty(chunks) && Writable(fs, p)
    ensures var n := |chunks|;
      var done := Transfer(fs, p, chunks, n);
      var ok := CopyChunk(Transfer(fs, p, chunks, n - 1), ChunkRequest(p, chunks, n - 1)).1;
      && (ok <==> TmpPath(p) != p)
      && (ok <==> p in done && done[p] == File(Concat(chunks)))
      && TmpPath(p) !in done
      && (forall q | q in fs && Elsewhere(fs, p, q) :: q in done && done[q] == fs[q])
      && (forall q <- done :: q == p || (q in fs && done[q] == fs[q]))
      && (p in fs && fs[p].Dir? ==> forall q <- done | p <= q :: q == p)
  {
    var n, tmp := |chunks|, TmpPath(p);
    TransferSteps(fs, p, chunks, n);
    if n > 1 { TransferSteps(fs, p, chunks, n - 1); }
    ChunkExtends(fs, p, chunks, n - 1, Transfer(fs, p, chunks, n - 1));
    assert chunks[..n] == chunks;
    hide Concat, CopyChunk, Transfer;
    if tmp != p {
      assert |tmp| == |p|;
      assert !(p <= tmp);
    }
    PublishSpec(fs, tmp, p, Concat(chunks));
  }

  lemma PublishSpec(fs: Files, tmp: Path, p: Path, content: Bytes)
    requires tmp != p ==> !(p <= tmp)
    ensures var (done, ok) := Publish(fs[tmp := File(content)], tmp, p);
      && (ok <==> tmp != p)
      && (ok <==> p in done && done[p] == File(content))
      && tmp !in done
      && (forall q | q in fs && q != p && q != tmp && !(p in fs && fs[p].Dir? && p <= q) ::
            q in done && done[q] == fs[q])
      && (forall q <- done :: q == p || (q in fs && done[q] == fs[q]))
      && (tmp != p && p in fs && fs[p].Dir? ==> forall q <- done | p <= q :: q == p)
  {
  }

  /** The files after the first `k` requests of a transfer to a path as written. */
  function WrittenTransfer(fs: Files, path: seq<string>, chunks: seq<Bytes>, k: nat): Files
    requires k <= |chunks|
  {
    if k == 0 then fs
    else
      var r := CopyRequest(path, |Concat(chunks[..k - 1])|, chunks[k - 1], |Concat(chunks)|);
      CopyFile(WrittenTransfer(fs, path, chunks, k - 1), r).0
  }

  /** A request outside the base directory, or for a parent directory, fails and changes nothing. */
  lemma OutsideFails(fs: Files, r: CopyRequest)
    requires |r.path| < 3 || r.path[..3] != ["/", "run", "kata-containers"] || r.path[|r.path| - 1] == ".."
    ensures CopyFile(fs, r) == (fs, false)
  {
  }

  /** From any path under the base directory: a complete transfer reaches exactly the file it leads to. */
  lemma {:induction false} WrittenTransferPublishes(fs: Files, path: seq<string>, chunks: seq<Bytes>, p: Path)
    requires |path| >= 3 && path[..3] == ["/", "run", "kata-containers"] && path[|path| - 1] != ".."
    requires p == Resolve(path) && NonEmpty(chunks) && Writable(fs, p) && TmpPath(p) != p
    ensures At(WrittenTransfer(fs, path, chunks, |chunks|), p) == Some(File(Concat(chunks)))
  {
    WrittenIsTransfer(fs, path, chunks, |chunks|, p);
    TransferPublishes(fs, p, chunks);
  }

  lemma {:induction false} WrittenIsTransfer(fs: Files, path: seq<string>, chunks: seq<Bytes>, k: nat, p: Path)
    requires k <= |chunks| && |path| >= 3 && path[..3] == ["/", "run", "kata-containers"]
    requires path[|path| - 1] != ".." && p == Resolve(path)
    ensures WrittenTransfer(fs, path, chunks, k) == Transfer(fs, p, chunks, k)
  {
    if k > 0 {
      WrittenIsTransfer(fs, path, chunks, k - 1, p);
      hide CopyChunk, Concat, Resolve;
    }
  }

  /** An empty file is published by its one empty request. */
  lemma EmptyFilePublishes(fs: Files, p: Path)
    requires Writable(fs, p) && TmpPath(p) != p
    ensures var (done, ok) := CopyChunk(fs, Request(p, 0, [], 0)); ok && p in done && done[p] == File([])
  {
    assert !(p <= TmpPath(p));
    PublishSpec(fs, TmpPath(p), p, []);
  }

  // ---------------------------------------------------------------- transfers side by side

  function At(fs: Files, q: Path): Option<Node> {
    if q in fs then Some(fs[q]) else None
  }

  /** The files a request can read or change: its temporary file, its target, and what is below that. */
  predicate Touches(r: Request, q: Path) {
    q == TmpPath(r.path) || r.path <= q
  }

  ghost predicate Agree(a: Files, b: Files, r: Request) {
    forall q | Touches(r, q) :: At(a, q) == At(b, q)
  }

  lemma Frame(fs: Files, r: Request, q: Path)
    requires !Touches(r, q)
    ensures At(CopyChunk(fs, r).0, q) == At(fs, q)
  {
    hide TmpPath, WriteAt;
  }

  /**
   Everything a request touches is below the base directory if and only if its path resolves to
   there; a path without `..` does, unless it is the base directory itself.
   */
  lemma InsideExactly(r: CopyRequest)
    requires Accepted(r.path)
    ensures (forall q | Touches(Resolved(r), q) :: CONTAINER_BASE < q) <==> CONTAINER_BASE < Resolve(r.path)
    ensures ".." !in r.path ==> (CONTAINER_BASE < Resolve(r.path) <==> r.path != CONTAINER_BASE)
  {
    var p: Path := Resolved(r).path;
    ResolvePlain(r.path);
    assert Touches(Resolved(r), p);
    assert TmpPath(p)[..|p| - 1] == p[..|p| - 1];
    hide TmpPath, Resolve;
    if CONTAINER_BASE < p {
      assert CONTAINER_BASE == p[..|CONTAINER_BASE|] == p[..|p| - 1][..|CONTAINER_BASE|];
      assert CONTAINER_BASE == TmpPath(p)[..|CONTAINER_BASE|];
      forall q | Touches(Resolved(r), q) ensures CONTAINER_BASE < q {
        if p <= q { assert q[..|p|][..|CONTAINER_BASE|] == q[..|CONTAINER_BASE|]; }
      }
    }
  }

  /** A request whose path resolves to below the base directory changes nothing outside it. */
  lemma StaysInside(fs: Files, r: CopyRequest, q: Path)
    requires (Accepted(r.path) ==> CONTAINER_BASE < Resolve(r.path)) && !(CONTAINER_BASE < q)
    ensures At(CopyFile(fs, r).0, q) == At(fs, q)
  {
    if Accepted(r.path) {
      InsideExactly(r);
      Frame(fs, Resolved(r), q);
    }
  }

  lemma PublishLocal(a: Files, b: Files, r: Request)
    requires Agree(a, b, r)
    ensures var tmp := TmpPath(r.path);
      Publish(a, tmp, r.path).1 == Publish(b, tmp, r.path).1 &&
      Agree(Publish(a, tmp, r.path).0, Publish(b, tmp, r.path).0, r)
  {
    var tmp := TmpPath(r.path);
    hide TmpPath;
    assert Touches(r, tmp) && Touches(r, r.path);
    assert At(a, tmp) == At(b, tmp) && At(a, r.path) == At(b, r.path);
    var ca, cb := Cleared(a, r.path), Cleared(b, r.path);
    forall q | Touches(r, q) ensures At(ca, q) == At(cb, q) {
      assert At(a, q) == At(b, q);
    }
    assert At(ca, tmp) == At(cb, tmp);
    hide Cleared;
    forall q | Touches(r, q) ensures At(Publish(a, tmp, r.path).0, q) == At(Publish(b, tmp, r.path).0, q) {
      assert At(ca, q) == At(cb, q);
    }
  }

  /** A request's effect and result depend only on the files it touches. */
  lemma Local(a: Files, b: Files, r: Request)
    requires Agree(a, b, r)
    ensures CopyChunk(a, r).1 == CopyChunk(b, r).1 && Agree(CopyChunk(a, r).0, CopyChunk(b, r).0, r)
  {
    var tmp := TmpPath(r.path);
    assert Touches(r, tmp);
    assert At(a, tmp) == At(b, tmp);
    hide TmpPath, WriteAt, Publish;
    if !(tmp in a && a[tmp].Dir?) {
      var start := Opened(a, tmp, r.offset);
      SetAgrees(a, b, r, File(start));
      if !(r.offset < 0 && r.data != []) {
        var written := if r.data == [] then start else WriteAt(start, r.data, r.offset);
        SetAgrees(a, b, r, File(written));
        PublishLocal(a[tmp := File(written)], b[tmp := File(written)], r);
      }
    }
  }

  lemma SetAgrees(a: Files, b: Files, r: Request, node: Node)
    requires Agree(a, b, r)
    ensures Agree(a[TmpPath(r.path) := node], b[TmpPath(r.path) := node], r)
  {
    var tmp := TmpPath(r.path);
    hide TmpPath;
    forall q | Touches(r, q) ensures At(a[tmp := node], q) == At(b[tmp := node], q) {
      assert At(a, q) == At(b, q);
    }
  }

  /** Different temporary files, neither target its own, and no target inside the other. */
  predicate Independent(r: Request, r': Request) {
    && r.path[|r.path| - 1] != "" && r'.path[|r'.path| - 1] != ""
    && TmpPath(r.path) != r.path && TmpPath(r'.path) != r'.path && TmpPath(r.path) != TmpPath(r'.path)
    && !(r.path <= r'.path) && !(r'.path <= r.path)
  }

  lemma IndependentTouch(r: Request, r': Request, q: Path)
    requires Independent(r, r') && Touches(r, q)
    ensures !Touches(r', q)
  {
    var p, p' := r.path, r'.path;
    DifferentTemporaries(p, p');
    AboveTemporary(p, p');
    AboveTemporary(p', p);
    BothAbove(p, p', q);
  }

  lemma AboveTemporary(p: Path, q: Path)
    ensures p <= TmpPath(q) ==> p == TmpPath(q) || p <= q
  {
    if p <= TmpPath(q) && |p| < |q| {
      assert p == TmpPath(q)[..|p|] == q[..|p|];
    }
  }

  lemma BothAbove(p: Path, p': Path, q: Path)
    ensures p <= q && p' <= q ==> p <= p' || p' <= p
  {
    if p <= q && p' <= q {
      assert p == q[..|p|] && p' == q[..|p'|];
      assert if |p| <= |p'| then p == p'[..|p|] else p' == p[..|p'|];
    }
  }

  /** Independent requests commute, and neither changes the other's result. */
  lemma IndependentCommute(fs: Files, r: Request, r': Request)
    requires Independent(r, r')
    ensures CopyChunk(CopyChunk(fs, r).0, r').0 == CopyChunk(CopyChunk(fs, r').0, r).0
    ensures CopyChunk(CopyChunk(fs, r).0, r').1 == CopyChunk(fs, r').1
  {
    OneSide(fs, r, r');
    OneSide(fs, r', r);
    var a := CopyChunk(CopyChunk(fs, r).0, r').0;
    var b := CopyChunk(CopyChunk(fs, r').0, r).0;
    forall q: Path ensures At(a, q) == At(b, q) {
      if Touches(r, q) {
        IndependentTouch(r, r', q);
        Frame(CopyChunk(fs, r).0, r', q);
      } else {
        Frame(CopyChunk(fs, r').0, r, q);
        if !Touches(r', q) {
          Frame(CopyChunk(fs, r).0, r', q);
          Frame(fs, r, q);
          Frame(fs, r', q);
        }
      }
    }
    SameFiles(a, b);
  }

  lemma SameFiles(a: Files, b: Files)
    requires forall q :: At(a, q) == At(b, q)
    ensures a == b
  {
    forall q ensures q in a <==> q in b { assert At(a, q) == At(b, q); }
    forall q | q in a ensures a[q] == b[q] { assert At(a, q) == At(b, q); }
  }

  /** After the other request, a request does to its own files what it would have done before it. */
  lemma OneSide(fs: Files, r: Request, r': Request)
    requires Independent(r, r')
    ensures CopyChunk(CopyChunk(fs, r').0, r).1 == CopyChunk(fs, r).1
    ensures forall q | Touches(r, q) :: At(CopyChunk(CopyChunk(fs, r').0, r).0, q) == At(CopyChunk(fs, r).0, q)
  {
    var other := CopyChunk(fs, r').0;
    forall q | Touches(r, q) ensures At(other, q) == At(fs, q) {
      IndependentTouch(r, r', q);
      Frame(fs, r', q);
    }
    Local(other, fs, r);
  }

  function Run(fs: Files, rs: seq<Request>): Files
    decreases |rs|
  {
    if rs == [] then fs else Run(CopyChunk(fs, rs[0]).0, rs[1..])
  }

  /** `all` is an interleaving of `xs` and `ys`. */
  predicate Interleaves(all: seq<Request>, xs: seq<Request>, ys: seq<Request>)
    decreases |all|
  {
    if all == [] then xs == [] && ys == []
    else
      || (xs != [] && all[0] == xs[0] && Interleaves(all[1..], xs[1..], ys))
      || (ys != [] && all[0] == ys[0] && Interleaves(all[1..], xs, ys[1..]))
  }

  lemma {:induction false} PastAll(fs: Files, xs: seq<Request>, y: Request)
    requires forall x <- xs :: Independent(x, y)
    ensures Run(CopyChunk(fs, y).0, xs) == CopyChunk(Run(fs, xs), y).0
    decreases |xs|
  {
    if xs != [] {
      assert xs[0] in xs;
      IndependentCommute(fs, xs[0], y);
      hide CopyChunk, Independent;
      PastAll(CopyChunk(fs, xs[0]).0, xs[1..], y);
    }
  }

  /** However the requests of two independent transfers interleave, the outcome is that of one after the other. */
  lemma {:induction false} InterleavingDoesNotMatter(fs: Files, all: seq<Request>, xs: seq<Request>, ys: seq<Request>)
    requires Interleaves(all, xs, ys) && forall x <- xs, y <- ys :: Independent(x, y)
    ensures Run(fs, all) == Run(Run(fs, xs), ys)
    decreases |all|
  {
    hide CopyChunk, Independent;
    if all != [] {
      if xs != [] && all[0] == xs[0] && Interleaves(all[1..], xs[1..], ys) {
        InterleavingDoesNotMatter(CopyChunk(fs, xs[0]).0, all[1..], xs[1..], ys);
      } else {
        assert ys[0] in ys;
        InterleavingDoesNotMatter(CopyChunk(fs, ys[0]).0, all[1..], xs, ys[1..]);
        PastAll(fs, xs, ys[0]);
      }
    }
  }

  /**
   Two targets that differ only in their extension are not independent: a transfer of the second
   between the chunks of the first replaces the first chunk by zeros.
   */
  lemma SharedTemporaryCorrupts(fs: Files, p: Path, q: Path, a: Bytes, a': Bytes, b: Bytes)
    requires p != q && TmpPath(p) == TmpPath(q) && TmpPath(p) != p && TmpPath(q) != q
    requires Writable(fs, p) && a != [] && a' != [] && b != []
    ensures var size := |a| + |a'|;
      var started := CopyChunk(fs, Request(p, 0, a, size)).0;
      var between := CopyChunk(started, Request(q, 0, b, |b|)).0;
      var done := CopyChunk(between, Request(p, |a|, a', size)).0;
      At(done, p) == Some(File(Zeros(|a|) + a'))
  {
    var size := |a| + |a'|;
    var r1, r2, r3 := Request(p, 0, a, size), Request(q, 0, b, |b|), Request(p, |a|, a', size);
    AtOffsetZero(fs, r1);
    hide TmpPath, CopyChunk;
    WholeConsumes(CopyChunk(fs, r1).0, r2);
    GapPublishes(CopyChunk(CopyChunk(fs, r1).0, r2).0, r3);
  }

  lemma WholeConsumes(fs: Files, r: Request)
    requires Writable(fs, r.path) && TmpPath(r.path) != r.path
    requires r.offset == 0 && r.data != [] && |r.data| == r.fileSize
    ensures TmpPath(r.path) !in CopyChunk(fs, r).0
  {
    AtOffsetZero(fs, r);
    assert !(r.path <= TmpPath(r.path));
    hide TmpPath, CopyChunk;
    PublishAt(fs, TmpPath(r.path), r.path, r.data);
  }

  lemma GapPublishes(fs: Files, r: Request)
    requires TmpPath(r.path) !in fs && TmpPath(r.path) != r.path
    requires r.offset > 0 && r.data != [] && r.fileSize == r.offset + |r.data|
    ensures var done := CopyChunk(fs, r).0; r.path in done && done[r.path] == File(Zeros(r.offset) + r.data)
  {
    IntoNewFile(fs, r);
    assert !(r.path <= TmpPath(r.path));
    hide TmpPath, CopyChunk;
    PublishAt(fs, TmpPath(r.path), r.path, Zeros(r.offset) + r.data);
  }

  lemma PublishAt(fs: Files, tmp: Path, p: Path, content: Bytes)
    requires tmp != p && !(p <= tmp)
    ensures var done := Publish(fs[tmp := File(content)], tmp, p).0;
      p in done && done[p] == File(content) && tmp !in done
  {
  }

  lemma AtOffsetZero(fs: Files, r: Request)
    requires Writable(fs, r.path) && r.offset == 0 && r.data != []
    ensures var tmp := TmpPath(r.path); var fs1 := fs[tmp := File(r.data)];
      CopyChunk(fs, r) == if |r.data| == r.fileSize then Publish(fs1, tmp, r.path) else (fs1, true)
  {
    AppendAtEnd([], r.data);
    var empty: Bytes := [];
    assert empty + r.data == r.data;
    hide TmpPath, Publish, WriteAt;
  }

  lemma IntoNewFile(fs: Files, r: Request)
    requires TmpPath(r.path) !in fs
    requires r.offset > 0 && r.data != [] && r.fileSize == r.offset + |r.data|
    ensures CopyChunk(fs, r) ==
      Publish(fs[TmpPath(r.path) := File(Zeros(r.offset) + r.data)], TmpPath(r.path), r.path)
  {
    var empty: Bytes := [];
    assert empty + Zeros(r.offset) + r.data + [] == Zeros(r.offset) + r.data;
    assert WriteAt([], r.data, r.offset) == Zeros(r.offset) + r.data;
    hide TmpPath, Publish, WriteAt;
  }

  // ---------------------------------------------------------------- the file system, changed in place

  class FileSystem {
    var files: Files

    constructor ()
      ensures files == map[]
    {
      files := map[];
    }

    /** Remove what is at the target and rename the temporary file onto it. */
    method PublishFile(tmp: Path, path: Path) returns (ok: bool)
      modifies this
      ensures (files, ok) == Publish(old(files), tmp, path)
    {
      if path in files {
        if files[path].Dir? {
          files := map q | q in files && !(path <= q) :: files[q];
        } else {
          files := files - {path};
        }
      }
      assert files == Cleared(old(files), path);
      if tmp !in files { return false; }
      files := (files - {tmp})[path := files[tmp]];
      ok := true;
    }

    /** `do_copy_file` for a regular file. */
    method DoCopyFile(r: CopyRequest) returns (ok: bool)
      modifies this
      ensures (files, ok) == CopyFile(old(files), r)
    {
      if !(CONTAINER_BASE <= r.path) || r.path[|r.path| - 1] == ".." { return false; }
      ok := WriteChunk(Resolved(r));
    }

    /** Open the temporary file, write the data into it, and publish it once it is complete. */
    method WriteChunk(r: Request) returns (ok: bool)
      modifies this
      ensures (files, ok) == CopyChunk(old(files), r)
    {
      var tmp := TmpPath(r.path);
      hide TmpPath, WriteAt, Publish;
      if tmp in files && files[tmp].Dir? { return false; }
      if tmp !in files || r.offset == 0 { files := files[tmp := File([])]; }
      if r.data != [] {
        if r.offset < 0 {
          assert files == old(files)[tmp := files[tmp]];
          return false;
        }
        files := files[tmp := File(WriteAt(files[tmp].content, r.data, r.offset))];
      }
      assert files == old(files)[tmp := files[tmp]];
      if |files[tmp].content| != r.fileSize { return true; }
      ok := PublishFile(tmp, r.path);
    }
  }
}
