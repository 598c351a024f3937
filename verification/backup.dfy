/** Timestamped backups of a whole directory, and what can be read back from one. */
module Backup {
  import opened Text
  import opened Paths
  import opened FileStore
  import opened Disk
  import opened Corpus
  import opened AflFiles
  import opened Fleet
  import opened Archiver

  /** The manifest has exactly the files below its root, each once, each with its place below `dstSubRoot`. */
  ghost predicate SimpleManifest(files: Files, m: Manifest, dstSubRoot: Path) {
    && (forall i, j | 0 <= i < j < |m.entries| :: m.entries[i].src != m.entries[j].src)
    && (forall i | 0 <= i < |m.entries| ::
          m.srcRoot + m.entries[i].src in files && m.entries[i].dst == dstSubRoot + m.entries[i].src)
    && (forall p :: m.srcRoot + p in files ==> exists i :: 0 <= i < |m.entries| && m.entries[i].src == p)
  }

  lemma RelClean(files: Files, dirs: set<Path>, root: Path, p: Path)
    requires WellFormed(files, dirs) && root + p in files
    ensures Clean(p)
  {
    forall i | 0 <= i < |p|
      ensures Component(p[i])
    {
      assert (root + p)[|root| + i] == p[i];
    }
  }

  /** Walks the tree below `srcRoot`. If there is nothing at `srcRoot` the walk's callback panics. */
  method NewSimpleManifest(disk: Disk, srcRoot: Path, dstSubRoot: Path) returns (m: Option<Manifest>)
    requires disk.Valid() && Clean(dstSubRoot)
    ensures m.None? <==> srcRoot !in disk.files && srcRoot !in disk.dirs
    ensures m.Some? ==> m.value.srcRoot == srcRoot && SimpleManifest(disk.files, m.value, dstSubRoot)
  {
    if srcRoot !in disk.files && srcRoot !in disk.dirs {
      return None;
    }
    var entries: seq<ManifestEntry> := [];
    var left := set p | p in disk.files && srcRoot <= p;
    while left != {}
      invariant forall p | p in left :: p in disk.files && srcRoot <= p
      invariant Walked(disk.files, srcRoot, dstSubRoot, entries, left)
      decreases left
    {
      var absSrcPath :| absSrcPath in left;
      var relSrcPath := Rel(srcRoot, absSrcPath);
      assert absSrcPath == srcRoot + absSrcPath[|srcRoot|..];
      RelBelow(srcRoot, absSrcPath[|srcRoot|..]);
      RelClean(disk.files, disk.dirs, srcRoot, relSrcPath);
      WalkDown(dstSubRoot, relSrcPath);
      WalkedOn(disk.files, srcRoot, dstSubRoot, entries, left, relSrcPath);
      entries := entries + [ManifestEntry(relSrcPath, Walk(dstSubRoot, relSrcPath))];
      left := left - {absSrcPath};
    }
    m := Some(Manifest(srcRoot, entries));
  }

  /** The entries made so far, with the files in `left` still to come. */
  ghost predicate Walked(files: Files, srcRoot: Path, dstSubRoot: Path, entries: seq<ManifestEntry>, left: set<Path>) {
    && (forall i, j | 0 <= i < j < |entries| :: entries[i].src != entries[j].src)
    && (forall i | 0 <= i < |entries| ::
          && srcRoot + entries[i].src in files && srcRoot + entries[i].src !in left
          && entries[i].dst == dstSubRoot + entries[i].src)
    && (forall p :: srcRoot + p in files && srcRoot + p !in left ==>
                      exists i :: 0 <= i < |entries| && entries[i].src == p)
  }

  lemma WalkedOn(files: Files, srcRoot: Path, dstSubRoot: Path, entries: seq<ManifestEntry>, left: set<Path>, p: Path)
    requires Walked(files, srcRoot, dstSubRoot, entries, left)
    requires srcRoot + p in files && srcRoot + p in left
    ensures Walked(files, srcRoot, dstSubRoot, entries + [ManifestEntry(p, dstSubRoot + p)], left - {srcRoot + p})
  {
    var more := entries + [ManifestEntry(p, dstSubRoot + p)];
    forall q | srcRoot + q in files && srcRoot + q !in left - {srcRoot + p}
      ensures exists i :: 0 <= i < |more| && more[i].src == q
    {
      if srcRoot + q == srcRoot + p {
        assert q == (srcRoot + q)[|srcRoot|..] == p;
        assert more[|entries|].src == q;
      } else {
        var i :| 0 <= i < |entries| && entries[i].src == q;
        assert more[i].src == q;
      }
    }
  }

  /** The whole of `ArchiveToNamedDir`; `None` if building the manifest fails. */
  method ArchiveToNamedDir(disk: Disk, a: DiskArchiver, absSrcPath: Path, dstSubRoot: Path, faults: nat -> Fault)
    returns (m: Option<Manifest>, log: seq<bool>)
    requires disk.Valid() && Clean(a.DstRoot) && Clean(dstSubRoot)
    modifies disk`files, disk`dirs
    ensures disk.Valid()
    ensures m.None? <==> absSrcPath !in old(disk.files) && absSrcPath !in old(disk.dirs)
    ensures m.None? ==> StateOf(disk) == old(StateOf(disk))
    ensures m.Some? ==>
              && m.value.srcRoot == absSrcPath && SimpleManifest(old(disk.files), m.value, dstSubRoot)
              && Progressed(old(StateOf(disk)), a, m.value, FaultsOf(m.value, faults), StateOf(disk), log,
                            |m.value.entries|)
  {
    log := [];
    m := NewSimpleManifest(disk, absSrcPath, dstSubRoot);
    if m.Some? {
      forall i | 0 <= i < |m.value.entries|
        ensures Slashless(m.value.entries[i].dst)
      {
        RelClean(disk.files, disk.dirs, absSrcPath, m.value.entries[i].src);
      }
      log := ArchiveManifest(disk, a, m.value, FaultsOf(m.value, faults));
    }
  }

  method ArchiveToTimestampedDir(disk: Disk, a: DiskArchiver, absSrcPath: Path, timestamp: nat, faults: nat -> Fault)
    returns (m: Option<Manifest>, log: seq<bool>)
    requires disk.Valid() && Clean(a.DstRoot)
    modifies disk`files, disk`dirs
    ensures disk.Valid()
    ensures m.None? <==> absSrcPath !in old(disk.files) && absSrcPath !in old(disk.dirs)
    ensures m.None? ==> StateOf(disk) == old(StateOf(disk))
    ensures m.Some? ==>
              && m.value.srcRoot == absSrcPath && SimpleManifest(old(disk.files), m.value, [Digits(timestamp)])
              && Progressed(old(StateOf(disk)), a, m.value, FaultsOf(m.value, faults), StateOf(disk), log,
                            |m.value.entries|)
  {
    StampIsComponent(timestamp);
    m, log := ArchiveToNamedDir(disk, a, absSrcPath, [Digits(timestamp)], faults);
  }

  lemma StampIsComponent(timestamp: nat)
    ensures Component(Digits(timestamp))
  {
    var s := Digits(timestamp);
    assert IsDigit(s[0]) && !IsDigit('.') && !IsDigit('/');
    assert forall i | 0 <= i < |s| :: s[i] != '/';
  }

  // ---------------------------------------------------------------- a backup equals its source

  /** Nothing is at or below `d` yet, and no file is in the way of it. */
  ghost predicate Fresh(t: DiskState, d: Path) {
    && (forall p | p in t.files || p in t.dirs :: !(d <= p))
    && (forall n | 0 <= n <= |d| :: d[..n] !in t.files)
  }

  /** A run of `ArchiveToNamedDir` from `t` into a fresh place; any copy may fail. */
  ghost predicate FreshBackup(t: DiskState, a: DiskArchiver, m: Manifest, sub: Path, faults: seq<Fault>) {
    && WellFormed(t.files, t.dirs) && Clean(sub)
    && SimpleManifest(t.files, m, sub)
    && |faults| == |m.entries|
    && Fresh(t, a.DstRoot + sub)
  }

  ghost predicate NoFaults(faults: seq<Fault>) {
    forall i | 0 <= i < |faults| :: faults[i] == NoFault
  }

  lemma PlacesOf(t: DiskState, a: DiskArchiver, m: Manifest, sub: Path, i: nat)
    requires WellFormed(t.files, t.dirs) && Clean(sub) && SimpleManifest(t.files, m, sub) && i < |m.entries|
    ensures Src(m, i) == m.srcRoot + m.entries[i].src && Src(m, i) in t.files
    ensures DstAt(a, m, i) == a.DstRoot + sub + m.entries[i].src
  {
    var p := m.entries[i].src;
    RelClean(t.files, t.dirs, m.srcRoot, p);
    WalkDown(m.srcRoot, p);
    WalkDown(a.DstRoot, sub + p);
    assert a.DstRoot + (sub + p) == a.DstRoot + sub + p;
  }

  lemma BackupSeparate(t: DiskState, a: DiskArchiver, m: Manifest, sub: Path, faults: seq<Fault>)
    requires FreshBackup(t, a, m, sub, faults)
    ensures Separate(a, m)
  {
    var d := a.DstRoot + sub;
    forall i, j | 0 <= i < j < |m.entries|
      ensures DstAt(a, m, i) != DstAt(a, m, j)
    {
      PlacesOf(t, a, m, sub, i);
      PlacesOf(t, a, m, sub, j);
      assert (d + m.entries[i].src)[|d|..] == m.entries[i].src && (d + m.entries[j].src)[|d|..] == m.entries[j].src;
    }
    forall i, j | 0 <= i < |m.entries| && 0 <= j < |m.entries|
      ensures Src(m, i) != DstAt(a, m, j)
    {
      PlacesOf(t, a, m, sub, i);
      PlacesOf(t, a, m, sub, j);
      assert d <= DstAt(a, m, j);
    }
  }

  lemma BackupFlat(t: DiskState, a: DiskArchiver, m: Manifest, sub: Path, faults: seq<Fault>)
    requires FreshBackup(t, a, m, sub, faults)
    ensures Flat(a, m)
  {
    var d := a.DstRoot + sub;
    forall i, j, n | 0 <= i < |m.entries| && 0 <= j < |m.entries| && 0 <= n < |DstAt(a, m, j)|
      ensures DstAt(a, m, j)[..n] != DstAt(a, m, i)
    {
      PlacesOf(t, a, m, sub, i);
      PlacesOf(t, a, m, sub, j);
      var p, q := m.entries[i].src, m.entries[j].src;
      NoFileBelowFile(t.files, t.dirs, m.srcRoot + p, m.srcRoot + q);
      ShiftedPrefix(m.srcRoot, d, p, q, n);
    }
  }

  lemma ShiftedPrefix(src: Path, d: Path, p: Path, q: Path, n: nat)
    requires n < |d + q|
    ensures (d + q)[..n] == d + p ==> src + p < src + q
  {
    if (d + q)[..n] == d + p {
      assert p == (d + p)[|d|..] && (d + q)[|d|..] == q;
      assert p < q;
    }
  }

  lemma NoFileBelowFile(files: Files, dirs: set<Path>, p: Path, q: Path)
    requires WellFormed(files, dirs) && p in files && q in files
    ensures !(p < q)
  {
    assert p < q ==> p == q[..|p|];
    PrefixesAreDirs(files, dirs, q);
  }

  lemma BackupReady(t: DiskState, a: DiskArchiver, m: Manifest, sub: Path, faults: seq<Fault>, i: nat)
    requires FreshBackup(t, a, m, sub, faults) && i < |m.entries|
    ensures Ready(t, a, m, i)
  {
    var d := a.DstRoot + sub;
    PlacesOf(t, a, m, sub, i);
    var dst := DstAt(a, m, i);
    assert d <= dst;
    assert [] in t.dirs;
    forall n | 0 <= n < |dst|
      ensures dst[..n] !in t.files
    {
      if n <= |d| {
        assert dst[..n] == d[..n];
      } else {
        assert d <= dst[..n];
      }
    }
  }

  /** What becomes of each file: it is copied whole, or not at all, or cut, as its own copy goes. */
  lemma BackupFile(t: DiskState, a: DiskArchiver, m: Manifest, sub: Path, faults: seq<Fault>, i: nat)
    requires FreshBackup(t, a, m, sub, faults) && i < |m.entries|
    ensures var after := After(t, a, m, faults, |m.entries|).files;
            var p := m.entries[i].src;
            && m.srcRoot + p in t.files
            && Body(after, a.DstRoot + sub + p) ==
               if faults[i].BeforeCreate? then None else Some(Cut(t.files[m.srcRoot + p], faults[i]))
  {
    BackupSeparate(t, a, m, sub, faults);
    BackupFlat(t, a, m, sub, faults);
    PlacesOf(t, a, m, sub, i);
    BackupReady(t, a, m, sub, faults, i);
    OnlyFaultsFail(t, a, m, faults, i);
    assert a.DstRoot + sub <= DstAt(a, m, i);
  }

  /** Below the backup's directory there is nothing but copies, and without faults everything is as below the source.
      Elsewhere nothing has changed, even if the backup lies inside the source. */
  lemma BackupCopies(t: DiskState, a: DiskArchiver, m: Manifest, sub: Path, faults: seq<Fault>, p: Path)
    requires FreshBackup(t, a, m, sub, faults)
    ensures var after := After(t, a, m, faults, |m.entries|).files;
            && (m.srcRoot + p !in t.files ==> a.DstRoot + sub + p !in after)
            && (NoFaults(faults) ==> Body(after, a.DstRoot + sub + p) == Body(t.files, m.srcRoot + p))
            && (!(a.DstRoot + sub <= p) ==> Body(after, p) == Body(t.files, p))
  {
    var d := a.DstRoot + sub;
    if m.srcRoot + p in t.files {
      var i :| 0 <= i < |m.entries| && m.entries[i].src == p;
      BackupFile(t, a, m, sub, faults, i);
    } else {
      NoCopy(t, a, m, sub, faults, p);
    }
    if !(d <= p) {
      forall i | 0 <= i < |m.entries|
        ensures DstAt(a, m, i) != p
      {
        PlacesOf(t, a, m, sub, i);
        assert d <= d + m.entries[i].src;
      }
      Untouched(t, a, m, faults, |m.entries|, p);
    }
  }

  lemma NoCopy(t: DiskState, a: DiskArchiver, m: Manifest, sub: Path, faults: seq<Fault>, p: Path)
    requires FreshBackup(t, a, m, sub, faults) && m.srcRoot + p !in t.files
    ensures a.DstRoot + sub + p !in After(t, a, m, faults, |m.entries|).files
  {
    var d := a.DstRoot + sub;
    forall i | 0 <= i < |m.entries|
      ensures DstAt(a, m, i) != d + p
    {
      PlacesOf(t, a, m, sub, i);
      assert (d + m.entries[i].src)[|d|..] == m.entries[i].src && (d + p)[|d|..] == p;
    }
    Untouched(t, a, m, faults, |m.entries|, d + p);
    assert d <= d + p;
  }

  // ---------------------------------------------------------------- which directories a backup has

  lemma CopyMakesDirs(t: DiskState, a: DiskArchiver, m: Manifest, i: nat, fault: Fault)
    requires i < |m.entries| && Ready(t, a, m, i)
    ensures CopyOne(t, Src(m, i), DstAt(a, m, i), fault).dirs == t.dirs + Prefixes(DirName(DstAt(a, m, i)))
  {
    var dst := DstAt(a, m, i);
    forall n | 0 <= n <= |DirName(dst)|
      ensures DirName(dst)[..n] !in t.files
    {
      assert DirName(dst)[..n] == dst[..n];
    }
  }

  /** A directory on the way to one of the first `k` destinations. */
  ghost predicate OnTheWay(a: DiskArchiver, m: Manifest, k: nat, d: Path)
    requires k <= |m.entries|
  {
    exists i :: 0 <= i < k && d in Prefixes(DirName(DstAt(a, m, i)))
  }

  lemma OneMoreOnTheWay(a: DiskArchiver, m: Manifest, k: nat, d: Path)
    requires k < |m.entries|
    ensures OnTheWay(a, m, k + 1, d) <==> OnTheWay(a, m, k, d) || d in Prefixes(DirName(DstAt(a, m, k)))
  {
  }

  lemma NextDirs(t: DiskState, a: DiskArchiver, m: Manifest, faults: seq<Fault>, k: nat)
    requires k < |m.entries| == |faults| && Flat(a, m) && Ready(t, a, m, k)
    ensures After(t, a, m, faults, k + 1).dirs == After(t, a, m, faults, k).dirs + Prefixes(DirName(DstAt(a, m, k)))
  {
    StaysReady(t, a, m, faults, k, k);
    CopyMakesDirs(After(t, a, m, faults, k), a, m, k, faults[k]);
  }

  lemma NextDir(t: DiskState, a: DiskArchiver, m: Manifest, faults: seq<Fault>, k: nat, d: Path)
    requires k < |m.entries| == |faults| && Flat(a, m) && Ready(t, a, m, k)
    requires d in After(t, a, m, faults, k).dirs <==> d in t.dirs || OnTheWay(a, m, k, d)
    ensures d in After(t, a, m, faults, k + 1).dirs <==> d in t.dirs || OnTheWay(a, m, k + 1, d)
  {
    NextDirs(t, a, m, faults, k);
    OneMoreOnTheWay(a, m, k, d);
  }

  lemma NoneOnTheWay(a: DiskArchiver, m: Manifest, d: Path)
    ensures !OnTheWay(a, m, 0, d)
  {
  }

  lemma {:induction false} DirsAfter(t: DiskState, a: DiskArchiver, m: Manifest, faults: seq<Fault>, k: nat, d: Path)
    requires k <= |m.entries| == |faults| && Flat(a, m)
    requires forall i | 0 <= i < |m.entries| :: Ready(t, a, m, i)
    ensures d in After(t, a, m, faults, k).dirs <==> d in t.dirs || OnTheWay(a, m, k, d)
  {
    if k == 0 {
      NoneOnTheWay(a, m, d);
    } else {
      DirsAfter(t, a, m, faults, k - 1, d);
      NextDir(t, a, m, faults, k - 1, d);
    }
  }

  /** Some file is below `dir`, at any depth. */
  ghost predicate Inhabited(files: Files, dir: Path) {
    exists p :: p in files && dir < p
  }

  /** A backup has the directories with a file somewhere below them, and no others. */
  lemma BackupDirs(t: DiskState, a: DiskArchiver, m: Manifest, sub: Path, faults: seq<Fault>, p: Path)
    requires FreshBackup(t, a, m, sub, faults)
    ensures a.DstRoot + sub + p in After(t, a, m, faults, |m.entries|).dirs <==> Inhabited(t.files, m.srcRoot + p)
  {
    var d := a.DstRoot + sub;
    BackupFlat(t, a, m, sub, faults);
    forall i | 0 <= i < |m.entries|
      ensures Ready(t, a, m, i)
    {
      BackupReady(t, a, m, sub, faults, i);
    }
    DirsAfter(t, a, m, faults, |m.entries|, d + p);
    assert d <= d + p && [] in t.dirs;
    MadeForSome(t, a, m, sub, p);
  }

  lemma MadeForSome(t: DiskState, a: DiskArchiver, m: Manifest, sub: Path, p: Path)
    requires WellFormed(t.files, t.dirs) && Clean(sub) && SimpleManifest(t.files, m, sub)
    requires a.DstRoot + sub != []
    ensures Inhabited(t.files, m.srcRoot + p) <==> OnTheWay(a, m, |m.entries|, a.DstRoot + sub + p)
  {
    var d := a.DstRoot + sub;
    if Inhabited(t.files, m.srcRoot + p) {
      var q :| q in t.files && m.srcRoot + p < q;
      var r := q[|m.srcRoot|..];
      assert q == m.srcRoot + r;
      var i :| 0 <= i < |m.entries| && m.entries[i].src == r;
      PlacesOf(t, a, m, sub, i);
      BelowBoth(m.srcRoot, d, p, r);
    }
    if i :| 0 <= i < |m.entries| && d + p in Prefixes(DirName(DstAt(a, m, i))) {
      PlacesOf(t, a, m, sub, i);
      BelowBoth(m.srcRoot, d, p, m.entries[i].src);
    }
  }

  /** A directory is on the way to a copy if and only if it is on the way to the original. */
  lemma BelowBoth(src: Path, d: Path, p: Path, r: Path)
    ensures d + p in Prefixes(DirName(d + r)) && d + r != [] <==> src + p < src + r
  {
    if src + p < src + r {
      assert (src + p)[|src|..] == p && (src + r)[|src|..] == r && (src + r)[..|src + p|] == src + p;
      assert p < r;
      assert DirName(d + r)[..|d| + |p|] == d + p;
    }
    if d + p in Prefixes(DirName(d + r)) && d + r != [] {
      var n :| 0 <= n <= |DirName(d + r)| && d + p == DirName(d + r)[..n];
      assert d + p == (d + r)[..n] && n == |d| + |p|;
      assert (d + p)[|d|..] == p && (d + r)[..n][|d|..] == r[..|p|];
      assert src + p == (src + r)[..|src + p|];
    }
  }

  // ---------------------------------------------------------------- reading a backup

  /** Every directory that reading the outputs needs holds some file. */
  ghost predicate Restorable(fm: FleetFileManager, t: DiskState) {
    && Inhabited(t.files, fm.TopLevelOutputDir())
    && forall id, kind: Kind | id in fm.Ids(t.dirs) :: Inhabited(t.files, fm.Afl(id).Dir(kind))
  }

  /** The state of a backup beside its source. */
  ghost predicate Mirrors(src: FleetFileManager, dst: FleetFileManager, t: DiskState, after: DiskState) {
    && (forall p :: Body(after.files, dst.Basedir + p) == Body(t.files, src.Basedir + p))
    && (forall p :: dst.Basedir + p in after.dirs <==> Inhabited(t.files, src.Basedir + p))
  }

  lemma MirroredIds(src: FleetFileManager, dst: FleetFileManager, t: DiskState, after: DiskState, id: string)
    requires Mirrors(src, dst, t, after) && WellFormed(t.files, t.dirs)
    ensures id in dst.Ids(after.dirs) <==> Inhabited(t.files, src.Basedir + [OUTPUT, id])
    ensures Inhabited(t.files, src.Basedir + [OUTPUT, id]) ==> id in src.Ids(t.dirs) && Component(id)
  {
    dst.IdsOf(after.dirs, id);
    src.IdsOf(t.dirs, id);
    assert dst.TopLevelOutputDir() + [id] == dst.Basedir + [OUTPUT, id];
    assert src.TopLevelOutputDir() + [id] == src.Basedir + [OUTPUT, id];
    if Inhabited(t.files, src.Basedir + [OUTPUT, id]) {
      var p :| p in t.files && src.Basedir + [OUTPUT, id] < p;
      PrefixesAreDirs(t.files, t.dirs, p);
      assert p[..|src.Basedir| + 2] == src.Basedir + [OUTPUT, id];
      assert p[|src.Basedir| + 1] == id;
    }
  }

  lemma MirroredOutput(src: FleetFileManager, dst: FleetFileManager, t: DiskState, after: DiskState, id: string)
    requires Mirrors(src, dst, t, after) && Component(id)
    ensures dst.Afl(id).OutputOn(after.files, after.dirs).Some? <==>
            forall kind: Kind :: Inhabited(t.files, src.Afl(id).Dir(kind))
    ensures dst.Afl(id).OutputOn(after.files, after.dirs).Some? && src.Afl(id).OutputOn(t.files, t.dirs).Some? ==>
            dst.Afl(id).OutputOn(after.files, after.dirs) == src.Afl(id).OutputOn(t.files, t.dirs)
  {
    dst.Afl(id).Layout();
    src.Afl(id).Layout();
    MirroredDir(src, dst, t, after, id, Queue);
    MirroredDir(src, dst, t, after, id, Crashes);
    MirroredDir(src, dst, t, after, id, Hangs);
    forall kind: Kind | dst.Afl(id).OutputOn(after.files, after.dirs).Some?
      ensures Inhabited(t.files, src.Afl(id).Dir(kind))
    {
      match kind case Queue => case Crashes => case Hangs =>
    }
  }

  lemma MirroredDir(src: FleetFileManager, dst: FleetFileManager, t: DiskState, after: DiskState, id: string,
                    kind: Kind)
    requires Mirrors(src, dst, t, after) && Component(id)
    ensures dst.Afl(id).Dir(kind) in after.dirs <==> Inhabited(t.files, src.Afl(id).Dir(kind))
    ensures CorpusOf(after.files, dst.Afl(id).Dir(kind)) == CorpusOf(t.files, src.Afl(id).Dir(kind))
  {
    dst.Afl(id).Layout();
    src.Afl(id).Layout();
    var below := [OUTPUT, id, KindName(kind)];
    forall name
      ensures Body(after.files, dst.Afl(id).Dir(kind) + [name]) == Body(t.files, src.Afl(id).Dir(kind) + [name])
    {
      assert dst.Basedir + below + [name] == dst.Basedir + (below + [name]);
      assert src.Basedir + below + [name] == src.Basedir + (below + [name]);
    }
    CorpusDependsOnDir(after.files, t.files, dst.Afl(id).Dir(kind), src.Afl(id).Dir(kind));
  }

  lemma SameIds(src: FleetFileManager, dst: FleetFileManager, t: DiskState, after: DiskState, id: string)
    requires Mirrors(src, dst, t, after) && WellFormed(t.files, t.dirs)
    requires Restorable(src, t)
    ensures id in dst.Ids(after.dirs) <==> id in src.Ids(t.dirs)
  {
    MirroredIds(src, dst, t, after, id);
    if id in src.Ids(t.dirs) {
      src.IdIsComponent(t.files, t.dirs, id);
      src.Afl(id).Layout();
      assert Inhabited(t.files, src.Afl(id).Dir(Queue));
      var p :| p in t.files && src.Afl(id).Dir(Queue) < p;
      assert src.Basedir + [OUTPUT, id] < p;
    }
  }

  lemma SameOutput(src: FleetFileManager, dst: FleetFileManager, t: DiskState, after: DiskState, id: string)
    requires Mirrors(src, dst, t, after) && WellFormed(t.files, t.dirs)
    requires src.OutputsOn(t.files, t.dirs).Some? && Restorable(src, t) && id in src.Ids(t.dirs)
    ensures dst.Afl(id).OutputOn(after.files, after.dirs) == src.Afl(id).OutputOn(t.files, t.dirs) != None
  {
    src.IdIsComponent(t.files, t.dirs, id);
    MirroredOutput(src, dst, t, after, id);
  }

  lemma ReadsSame(src: FleetFileManager, dst: FleetFileManager, t: DiskState, after: DiskState)
    requires Mirrors(src, dst, t, after) && WellFormed(t.files, t.dirs)
    requires src.OutputsOn(t.files, t.dirs).Some? && Restorable(src, t)
    ensures dst.OutputsOn(after.files, after.dirs) == src.OutputsOn(t.files, t.dirs)
  {
    forall id
      ensures id in dst.Ids(after.dirs) <==> id in src.Ids(t.dirs)
      ensures id in src.Ids(t.dirs) ==>
                dst.Afl(id).OutputOn(after.files, after.dirs) == src.Afl(id).OutputOn(t.files, t.dirs) != None
    {
      SameIds(src, dst, t, after, id);
      if id in src.Ids(t.dirs) {
        SameOutput(src, dst, t, after, id);
      }
    }
    assert dst.Basedir + [OUTPUT] in after.dirs;
    SameMaps(dst.OutputsOn(after.files, after.dirs).value, src.OutputsOn(t.files, t.dirs).value);
  }

  lemma SameMaps(a: map<string, Output>, b: map<string, Output>)
    requires a.Keys == b.Keys && forall id | id in a :: a[id] == b[id]
    ensures a == b
  {
  }

  lemma SameMeansRestorable(src: FleetFileManager, dst: FleetFileManager, t: DiskState, after: DiskState)
    requires Mirrors(src, dst, t, after) && WellFormed(t.files, t.dirs)
    requires src.OutputsOn(t.files, t.dirs).Some?
    requires dst.OutputsOn(after.files, after.dirs) == src.OutputsOn(t.files, t.dirs)
    ensures Restorable(src, t)
  {
    forall id, kind: Kind | id in src.Ids(t.dirs)
      ensures Inhabited(t.files, src.Afl(id).Dir(kind))
    {
      src.IdIsComponent(t.files, t.dirs, id);
      assert id in src.OutputsOn(t.files, t.dirs).value;
      assert id in dst.Ids(after.dirs);
      MirroredOutput(src, dst, t, after, id);
    }
  }

  lemma BackupMirrors(src: FleetFileManager, t: DiskState, a: DiskArchiver, m: Manifest, sub: Path, faults: seq<Fault>)
    requires FreshBackup(t, a, m, sub, faults) && NoFaults(faults) && m.srcRoot == src.Basedir
    ensures Mirrors(src, FleetFileManager(a.DstRoot + sub), t, After(t, a, m, faults, |m.entries|))
  {
    var after := After(t, a, m, faults, |m.entries|);
    forall p
      ensures Body(after.files, a.DstRoot + sub + p) == Body(t.files, src.Basedir + p)
      ensures a.DstRoot + sub + p in after.dirs <==> Inhabited(t.files, src.Basedir + p)
    {
      BackupCopies(t, a, m, sub, faults, p);
      BackupDirs(t, a, m, sub, faults, p);
    }
  }

  /** Reading the outputs from a backup gives what reading them from the source gave, exactly when every directory that
      has to be read holds a file at some depth: empty directories are not copied. */
  lemma BackupRestores(src: FleetFileManager, t: DiskState, a: DiskArchiver, m: Manifest, sub: Path,
                       faults: seq<Fault>)
    requires FreshBackup(t, a, m, sub, faults) && NoFaults(faults) && m.srcRoot == src.Basedir
    requires src.OutputsOn(t.files, t.dirs).Some?
    ensures var after := After(t, a, m, faults, |m.entries|);
            var dst := FleetFileManager(a.DstRoot + sub);
            dst.OutputsOn(after.files, after.dirs) == src.OutputsOn(t.files, t.dirs) <==> Restorable(src, t)
  {
    var after := After(t, a, m, faults, |m.entries|);
    var dst := FleetFileManager(a.DstRoot + sub);
    BackupMirrors(src, t, a, m, sub, faults);
    if Restorable(src, t) {
      ReadsSame(src, dst, t, after);
    }
    if dst.OutputsOn(after.files, after.dirs) == src.OutputsOn(t.files, t.dirs) {
      SameMeansRestorable(src, dst, t, after);
    }
  }

  /** A fuzzer with some file, but with an empty directory, makes the whole backup unreadable. */
  lemma EmptyDirBreaksBackup(src: FleetFileManager, t: DiskState, a: DiskArchiver, m: Manifest, sub: Path,
                             faults: seq<Fault>, id: string, kind: Kind)
    requires FreshBackup(t, a, m, sub, faults) && NoFaults(faults) && m.srcRoot == src.Basedir
    requires Inhabited(t.files, src.Basedir + [OUTPUT, id]) && !Inhabited(t.files, src.Afl(id).Dir(kind))
    ensures var after := After(t, a, m, faults, |m.entries|);
            FleetFileManager(a.DstRoot + sub).OutputsOn(after.files, after.dirs) == None
  {
    var after := After(t, a, m, faults, |m.entries|);
    var dst := FleetFileManager(a.DstRoot + sub);
    BackupMirrors(src, t, a, m, sub, faults);
    MirroredIds(src, dst, t, after, id);
    MirroredOutput(src, dst, t, after, id);
    assert id in dst.Ids(after.dirs);
  }
}
