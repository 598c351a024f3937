/** Archives on local disk: manifests and their file-by-file execution, in which any single copy may fail. */
module Archiver {
  import opened Text
  import opened Paths
  import opened FileStore
  import opened Disk

  /** `src` is relative to the manifest's `srcRoot`, `dst` to the archiver's `DstRoot`. */
  datatype ManifestEntry = ManifestEntry(src: Path, dst: Path)

  datatype Manifest = Manifest(srcRoot: Path, entries: seq<ManifestEntry>)

  /** How one copy goes: well, or failing before the destination is created, or failing after `n` bytes. */
  datatype Fault = NoFault | BeforeCreate | Copying(n: nat)

  /** How the copies of a manifest go. */
  function FaultsOf(m: Manifest, faults: nat -> Fault): (fs: seq<Fault>)
    ensures |fs| == |m.entries|
    ensures forall i | 0 <= i < |fs| :: fs[i] == faults(i)
  {
    seq(|m.entries|, i requires 0 <= i < |m.entries| => faults(i))
  }

  datatype DiskState = DiskState(files: Files, dirs: set<Path>)

  function StateOf(disk: Disk): DiskState
    reads disk
  {
    DiskState(disk.files, disk.dirs)
  }

  // ---------------------------------------------------------------- one copy

  function DirName(p: Path): Path {
    if p == [] then [] else Parent(p)
  }

  function Cut(body: Bytes, fault: Fault): Bytes {
    if fault.Copying? && fault.n < |body| then body[..fault.n] else body
  }

  /** Truncates the destination, then copies what the source holds at that point. */
  function Overwritten(files: Files, src: Path, dst: Path, fault: Fault): Files {
    var cut := files[dst := []];
    if src in cut then cut[dst := Cut(cut[src], fault)] else cut
  }

  /** The directories leading to `dst` can be made, the source can be opened and the destination be created. */
  predicate Creates(t: DiskState, src: Path, dst: Path) {
    && (forall n | 0 <= n <= |DirName(dst)| :: DirName(dst)[..n] !in t.files)
    && dst != [] && dst !in t.dirs
    && (src in t.files || src in t.dirs || src in Prefixes(DirName(dst)))
  }

  predicate Succeeds(t: DiskState, src: Path, dst: Path, fault: Fault) {
    fault.NoFault? && Creates(t, src, dst) && (src in t.files || src == dst)
  }

  function CopyOne(t: DiskState, src: Path, dst: Path, fault: Fault): DiskState {
    DiskState(if Creates(t, src, dst) && !fault.BeforeCreate? then Overwritten(t.files, src, dst, fault) else t.files,
         if forall n | 0 <= n <= |DirName(dst)| :: DirName(dst)[..n] !in t.files then t.dirs + Prefixes(DirName(dst))
         else t.dirs)
  }

  predicate Slashless(p: seq<string>) {
    forall i | 0 <= i < |p| :: '/' !in p[i]
  }

  datatype DiskArchiver = DiskArchiver(DstRoot: Path) {
    function Dst(relDstPath: Path): Path {
      Walk(DstRoot, relDstPath)
    }

    method ArchiveOne(disk: Disk, absSrcPath: Path, relDstPath: Path, fault: Fault) returns (ok: bool)
      requires disk.Valid() && Clean(DstRoot) && Slashless(relDstPath)
      modifies disk`files, disk`dirs
      ensures disk.Valid()
      ensures StateOf(disk) == CopyOne(old(StateOf(disk)), absSrcPath, Dst(relDstPath), fault)
      ensures ok <==> Succeeds(old(StateOf(disk)), absSrcPath, Dst(relDstPath), fault)
    {
      WalkClean(DstRoot, relDstPath);
      var absDstPath := Dst(relDstPath);
      var dirs := DirName(absDstPath);
      ok := disk.MkdirAll(dirs);
      if !ok {
        return;
      }
      if fault.BeforeCreate? || (absSrcPath !in disk.files && absSrcPath !in disk.dirs) {
        return false;
      }
      assert dirs[..|dirs|] == dirs;
      ok := disk.CreateFile(absDstPath, []);
      if !ok {
        return;
      }
      if absSrcPath !in disk.files {
        return false;
      }
      var body := Cut(disk.files[absSrcPath], fault);
      ok := disk.WriteFile(absDstPath, body);
      ok := fault.NoFault?;
    }

    /** The names of the files directly in a directory; none if it does not exist. */
    method LsDstFiles(disk: Disk, dstSubRoot: Path) returns (filenames: Option<seq<Path>>)
      requires disk.Valid()
      ensures filenames.None? <==> exists n :: 0 <= n <= |Dst(dstSubRoot)| && Dst(dstSubRoot)[..n] in disk.files
      ensures filenames.Some? ==> forall p :: p in filenames.value <==> |p| == 1 && Dst(dstSubRoot) + p in disk.files
    {
      var dir := Dst(dstSubRoot);
      var found: seq<Path> := [];
      if exists n | 0 <= n <= |dir| :: dir[..n] in disk.files {
        return None;
      }
      var listing := disk.ReadDir(dir);
      if listing.None? {
        forall p | |p| == 1
          ensures dir + p !in disk.files
        {
          assert Parent(dir + p) == dir;
        }
        return Some([]);
      }
      var names := listing.value;
      for k := 0 to |names|
        invariant forall p | p in found :: |p| == 1 && dir + p in disk.files
        invariant forall j | 0 <= j < k && dir + [names[j]] in disk.files :: [names[j]] in found
      {
        if dir + [names[k]] !in disk.dirs {
          assert names[k] in names;
          EntriesOf(disk.files, disk.dirs, dir, names[k]);
          found := found + [[names[k]]];
        }
      }
      forall p | |p| == 1 && dir + p in disk.files
        ensures p in found
      {
        EntriesOf(disk.files, disk.dirs, dir, p[0]);
        assert p == [p[0]];
      }
      filenames := Some(found);
    }
  }

  // ---------------------------------------------------------------- a whole manifest

  function Src(m: Manifest, i: nat): Path
    requires i < |m.entries|
  {
    Walk(m.srcRoot, m.entries[i].src)
  }

  function DstAt(a: DiskArchiver, m: Manifest, i: nat): Path
    requires i < |m.entries|
  {
    a.Dst(m.entries[i].dst)
  }

  /** The tree after the first `k` copies. */
  function After(t: DiskState, a: DiskArchiver, m: Manifest, faults: seq<Fault>, k: nat): DiskState
    requires k <= |m.entries| == |faults|
  {
    if k == 0 then t
    else CopyOne(After(t, a, m, faults, k - 1), Src(m, k - 1), DstAt(a, m, k - 1), faults[k - 1])
  }

  /** Whether the copy of entry `i` succeeds. */
  predicate Copied(t: DiskState, a: DiskArchiver, m: Manifest, faults: seq<Fault>, i: nat)
    requires i < |m.entries| == |faults|
  {
    Succeeds(After(t, a, m, faults, i), Src(m, i), DstAt(a, m, i), faults[i])
  }

  ghost predicate SlashlessEntries(m: Manifest) {
    forall i | 0 <= i < |m.entries| :: Slashless(m.entries[i].dst)
  }

  /** One round of the loop. */
  method ArchiveEntry(disk: Disk, a: DiskArchiver, m: Manifest, i: nat, faults: seq<Fault>, ghost was: DiskState,
                      ghost log: seq<bool>)
    returns (ok: bool)
    requires disk.Valid() && Clean(a.DstRoot) && SlashlessEntries(m) && i < |m.entries| == |faults|
    requires Progressed(was, a, m, faults, StateOf(disk), log, i)
    modifies disk`files, disk`dirs
    ensures disk.Valid()
    ensures Progressed(was, a, m, faults, StateOf(disk), log + [ok], i + 1)
  {
    var absSrcPath := Walk(m.srcRoot, m.entries[i].src);
    ghost var t := StateOf(disk);
    ok := a.ArchiveOne(disk, absSrcPath, m.entries[i].dst, faults[i]);
    ProgressedOn(was, a, m, faults, t, log, i);
  }

  /** Goes through all entries; one that fails is logged and does not stop the others. `log` says which succeeded. */
  method ArchiveManifest(disk: Disk, a: DiskArchiver, manifest: Manifest, faults: seq<Fault>) returns (log: seq<bool>)
    requires disk.Valid() && Clean(a.DstRoot) && SlashlessEntries(manifest)
    requires |faults| == |manifest.entries|
    modifies disk`files, disk`dirs
    ensures disk.Valid()
    ensures Progressed(old(StateOf(disk)), a, manifest, faults, StateOf(disk), log, |manifest.entries|)
  {
    ghost var was := StateOf(disk);
    log := [];
    for i := 0 to |manifest.entries|
      invariant disk.Valid()
      invariant Progressed(was, a, manifest, faults, StateOf(disk), log, i)
    {
      var ok := ArchiveEntry(disk, a, manifest, i, faults, was, log);
      log := log + [ok];
    }
  }

  /** The first `k` copies are done and their outcomes logged. */
  ghost predicate Progressed(was: DiskState, a: DiskArchiver, m: Manifest, faults: seq<Fault>, t: DiskState,
                             log: seq<bool>, k: nat)
    requires k <= |m.entries| == |faults|
  {
    && t == After(was, a, m, faults, k)
    && |log| == k && forall j | 0 <= j < k :: log[j] == Copied(was, a, m, faults, j)
  }

  lemma ProgressedOn(was: DiskState, a: DiskArchiver, m: Manifest, faults: seq<Fault>, t: DiskState, log: seq<bool>,
                     k: nat)
    requires k < |m.entries| == |faults| && Progressed(was, a, m, faults, t, log, k)
    ensures Progressed(was, a, m, faults, CopyOne(t, Src(m, k), DstAt(a, m, k), faults[k]),
                       log + [Succeeds(t, Src(m, k), DstAt(a, m, k), faults[k])], k + 1)
  {
  }

  /** No two entries go to the same place, and none goes where another comes from. */
  ghost predicate Separate(a: DiskArchiver, m: Manifest) {
    && DistinctPlaces(a, m)
    && (forall i, j | 0 <= i < |m.entries| && 0 <= j < |m.entries| :: Src(m, i) != DstAt(a, m, j))
  }

  ghost predicate DistinctPlaces(a: DiskArchiver, m: Manifest) {
    forall i, j | 0 <= i < j < |m.entries| :: DstAt(a, m, i) != DstAt(a, m, j)
  }

  lemma CopyElsewhere(t: DiskState, src: Path, dst: Path, fault: Fault, p: Path)
    requires p != dst
    ensures Body(CopyOne(t, src, dst, fault).files, p) == Body(t.files, p)
  {
  }

  /** Only the destinations of the entries done so far change. */
  lemma {:induction false} Untouched(t: DiskState, a: DiskArchiver, m: Manifest, faults: seq<Fault>, k: nat, p: Path)
    requires k <= |m.entries| == |faults|
    requires forall i | 0 <= i < k :: DstAt(a, m, i) != p
    ensures Body(After(t, a, m, faults, k).files, p) == Body(t.files, p)
  {
    if k > 0 {
      Untouched(t, a, m, faults, k - 1, p);
      CopyElsewhere(After(t, a, m, faults, k - 1), Src(m, k - 1), DstAt(a, m, k - 1), faults[k - 1], p);
    }
  }

  /** A destination is left as its own copy left it. */
  lemma {:induction false} LaterUntouched(t: DiskState, a: DiskArchiver, m: Manifest, faults: seq<Fault>, i: nat,
                                          k: nat)
    requires i < k <= |m.entries| == |faults| && DistinctPlaces(a, m)
    ensures Body(After(t, a, m, faults, k).files, DstAt(a, m, i)) ==
            Body(After(t, a, m, faults, i + 1).files, DstAt(a, m, i))
    decreases k
  {
    if i + 1 < k {
      LaterUntouched(t, a, m, faults, i, k - 1);
      CopyElsewhere(After(t, a, m, faults, k - 1), Src(m, k - 1), DstAt(a, m, k - 1), faults[k - 1], DstAt(a, m, i));
    }
  }

  /** What a whole manifest does to a tree, entry by entry: a destination whose copy succeeded holds the source's body,
      a failed one what it held before or part of the source's body. */
  lemma ManifestResult(t: DiskState, a: DiskArchiver, m: Manifest, faults: seq<Fault>, i: nat)
    requires i < |m.entries| == |faults| && Separate(a, m)
    ensures var after := After(t, a, m, faults, |m.entries|).files;
            && Body(after, Src(m, i)) == Body(t.files, Src(m, i))
            && (Copied(t, a, m, faults, i) ==> Body(after, DstAt(a, m, i)) == Body(t.files, Src(m, i)) != None)
            && (!Copied(t, a, m, faults, i) ==>
                  || Body(after, DstAt(a, m, i)) == Body(t.files, DstAt(a, m, i))
                  || Body(after, DstAt(a, m, i)) ==
                     Some(if Src(m, i) in t.files then Cut(t.files[Src(m, i)], faults[i]) else []))
  {
    Untouched(t, a, m, faults, |m.entries|, Src(m, i));
    Untouched(t, a, m, faults, i, Src(m, i));
    Untouched(t, a, m, faults, i, DstAt(a, m, i));
    LaterUntouched(t, a, m, faults, i, |m.entries|);
  }

  /** No file is in the way of an entry's destination, nor a directory in its place. */
  ghost predicate Ready(t: DiskState, a: DiskArchiver, m: Manifest, i: nat)
    requires i < |m.entries|
  {
    && DstAt(a, m, i) != [] && DstAt(a, m, i) !in t.dirs
    && (forall n | 0 <= n < |DstAt(a, m, i)| :: DstAt(a, m, i)[..n] !in t.files)
  }

  /** No destination is a directory above another one. */
  ghost predicate Flat(a: DiskArchiver, m: Manifest) {
    forall i, j, n | 0 <= i < |m.entries| && 0 <= j < |m.entries| && 0 <= n < |DstAt(a, m, j)| ::
      DstAt(a, m, j)[..n] != DstAt(a, m, i)
  }

  lemma {:induction false} StaysReady(t: DiskState, a: DiskArchiver, m: Manifest, faults: seq<Fault>, k: nat, i: nat)
    requires k <= |m.entries| == |faults| && i < |m.entries|
    requires Flat(a, m) && Ready(t, a, m, i)
    ensures Ready(After(t, a, m, faults, k), a, m, i)
  {
    if k > 0 {
      StaysReady(t, a, m, faults, k - 1, i);
      var d := DstAt(a, m, k - 1);
      forall n | 0 <= n <= |DirName(d)|
        ensures DirName(d)[..n] != DstAt(a, m, i)
      {
        if d != [] {
          assert DirName(d)[..n] == d[..n];
        }
      }
    }
  }

  /** Then an entry whose source exists fails only through a fault of its own. */
  lemma OnlyFaultsFail(t: DiskState, a: DiskArchiver, m: Manifest, faults: seq<Fault>, i: nat)
    requires i < |m.entries| == |faults| && Separate(a, m) && Flat(a, m) && Ready(t, a, m, i)
    requires Src(m, i) in t.files
    ensures Copied(t, a, m, faults, i) <==> faults[i].NoFault?
    ensures Body(After(t, a, m, faults, |m.entries|).files, DstAt(a, m, i)) ==
            if faults[i].BeforeCreate? then Body(t.files, DstAt(a, m, i))
            else Some(Cut(t.files[Src(m, i)], faults[i]))
  {
    StaysReady(t, a, m, faults, i, i);
    Untouched(t, a, m, faults, i, Src(m, i));
    Untouched(t, a, m, faults, i, DstAt(a, m, i));
    LaterUntouched(t, a, m, faults, i, |m.entries|);
    assert Body(After(t, a, m, faults, i).files, Src(m, i)) == Body(t.files, Src(m, i));
    var d := DstAt(a, m, i);
    forall n | 0 <= n <= |DirName(d)|
      ensures DirName(d)[..n] !in After(t, a, m, faults, i).files
    {
      assert DirName(d)[..n] == d[..n];
    }
  }

  /** A copy that fails can damage what an earlier one had made. */
  lemma FailedCopyTruncates()
    ensures var t := DiskState(map[["src"] := [1, 2], ["dst"] := [1, 2]], {[]});
            CopyOne(t, ["src"], ["dst"], Copying(1)).files == map[["src"] := [1, 2], ["dst"] := [1]]
  {
    var src, dst: Path := ["src"], ["dst"];
    assert "src"[0] != "dst"[0];
    assert src[0] != dst[0] && |src| == 1 && |dst| == 1;
    var body: Bytes := [1, 2];
    var t := DiskState(map[src := body, dst := body], {[]});
    assert DirName(dst) == [];
    assert Creates(t, src, dst);
    assert Cut(body, Copying(1)) == [1];
    assert Overwritten(t.files, src, dst, Copying(1)) == map[src := body, dst := [1]];
  }
}
