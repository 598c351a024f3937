/** How long the server lives: which archive roots make it die on its own copies. */
module Survival {
  import opened Text
  import opened Paths
  import opened FileStore
  import opened Disk
  import opened AflFiles
  import opened Fleet
  import opened Archiver
  import opened Server
  import Backup
  import Witness

  /** The archive is neither below `output/` nor above the base directory. */
  predicate Outside(fm: FleetFileManager, a: DiskArchiver) {
    !(fm.TopLevelOutputDir() <= a.DstRoot) && !(a.DstRoot + [REALTIME_CRASHES] <= fm.Basedir)
  }

  /** Copying adds files at the destinations, and directories on the way to them. */
  lemma {:induction false} OnlyDestinations(t: DiskState, a: DiskArchiver, m: Manifest, faults: seq<Fault>, k: nat)
    requires k <= |m.entries| == |faults|
    ensures var after := After(t, a, m, faults, k);
            && t.dirs <= after.dirs
            && (forall p | p in after.files :: p in t.files || exists i :: 0 <= i < k && p == DstAt(a, m, i))
            && (forall d | d in after.dirs ::
                  d in t.dirs || exists i :: 0 <= i < k && d in Prefixes(DirName(DstAt(a, m, i))))
  {
    if k > 0 {
      OnlyDestinations(t, a, m, faults, k - 1);
    }
  }

  /** If a directory on the way to a crash's place counts as a fuzzer's, the archive is not outside. */
  lemma PlaceInside(fm: FleetFileManager, a: DiskArchiver, p: Path, id: string)
    requires |p| == 4 && p[0] == OUTPUT && p[2] == CRASHES
    requires fm.TopLevelOutputDir() + [id] in Prefixes(DirName(a.DstRoot + [REALTIME_CRASHES] + p))
    ensures !Outside(fm, a)
  {
    var dst, r, top := a.DstRoot + [REALTIME_CRASHES] + p, |a.DstRoot|, fm.TopLevelOutputDir();
    var n :| 0 <= n <= |DirName(dst)| && top + [id] == DirName(dst)[..n];
    assert top + [id] == dst[..n];
    assert top == dst[..|top|] && top[|top| - 1] == OUTPUT && dst[r] == REALTIME_CRASHES;
    assert OUTPUT != REALTIME_CRASHES;
    if |top| <= r {
      assert top == a.DstRoot[..|top|];
    } else if |top| > r + 1 {
      assert fm.Basedir == dst[..|fm.Basedir|];
      assert a.DstRoot + [REALTIME_CRASHES] == fm.Basedir[..r + 1];
    }
  }

  lemma SameIdsAfter(fm: FleetFileManager, a: DiskArchiver, t: DiskState, m: Manifest, faults: seq<Fault>,
                     t': DiskState, id: string)
    requires WellFormed(t.files, t.dirs) && Archives(fm, a, t, m, faults, t') && Outside(fm, a)
    ensures id in fm.Ids(t'.dirs) <==> id in fm.Ids(t.dirs)
  {
    OnlyDestinations(t, a, m, faults, |m.entries|);
    fm.IdsOf(t.dirs, id);
    fm.IdsOf(t'.dirs, id);
    var d := fm.TopLevelOutputDir() + [id];
    if d in t'.dirs && d !in t.dirs {
      var i :| 0 <= i < |m.entries| && d in Prefixes(DirName(DstAt(a, m, i)));
      CrashPlaces(fm, a, t, m, faults, t', i);
      PlaceInside(fm, a, m.entries[i].src, id);
    }
  }

  // ---------------------------------------------------------------- exactly when a call is survived

  /** The directories on the way to the place of entry `i` can be made. */
  ghost predicate Free(t: DiskState, a: DiskArchiver, m: Manifest, i: nat)
    requires i < |m.entries|
  {
    forall n | 0 <= n <= |DirName(DstAt(a, m, i))| :: DirName(DstAt(a, m, i))[..n] !in t.files
  }

  /** All destinations are equally deep, as the places of crashes are. */
  ghost predicate SameDepth(a: DiskArchiver, m: Manifest) {
    forall i | 0 <= i < |m.entries| :: |DstAt(a, m, i)| == |a.DstRoot| + 5
  }

  lemma {:induction false} FreeStays(t: DiskState, a: DiskArchiver, m: Manifest, faults: seq<Fault>, k: nat, i: nat)
    requires k <= |m.entries| == |faults| && i < |m.entries| && SameDepth(a, m)
    ensures Free(After(t, a, m, faults, k), a, m, i) <==> Free(t, a, m, i)
  {
    forall n | 0 <= n <= |DirName(DstAt(a, m, i))|
      ensures DirName(DstAt(a, m, i))[..n] in After(t, a, m, faults, k).files <==>
              DirName(DstAt(a, m, i))[..n] in t.files
    {
      Untouched(t, a, m, faults, k, DirName(DstAt(a, m, i))[..n]);
    }
  }

  /** Some copy makes the directory `d`. */
  ghost predicate Makes(t: DiskState, a: DiskArchiver, m: Manifest, k: nat, d: Path)
    requires k <= |m.entries|
  {
    exists i :: 0 <= i < k && Free(t, a, m, i) && d in Prefixes(DirName(DstAt(a, m, i)))
  }

  lemma NextMakes(t: DiskState, a: DiskArchiver, m: Manifest, k: nat, d: Path)
    requires k < |m.entries|
    ensures Makes(t, a, m, k + 1, d) <==>
            Makes(t, a, m, k, d) || (Free(t, a, m, k) && d in Prefixes(DirName(DstAt(a, m, k))))
  {
  }

  lemma OneMakes(t: DiskState, a: DiskArchiver, m: Manifest, i: nat, fault: Fault)
    requires i < |m.entries|
    ensures CopyOne(t, Src(m, i), DstAt(a, m, i), fault).dirs ==
            if Free(t, a, m, i) then t.dirs + Prefixes(DirName(DstAt(a, m, i))) else t.dirs
  {
  }

  lemma StepDirs(t: DiskState, a: DiskArchiver, m: Manifest, faults: seq<Fault>, k: nat)
    requires k < |m.entries| == |faults| && SameDepth(a, m)
    ensures After(t, a, m, faults, k + 1).dirs == After(t, a, m, faults, k).dirs
            + if Free(t, a, m, k) then Prefixes(DirName(DstAt(a, m, k))) else {}
  {
    FreeStays(t, a, m, faults, k, k);
    OneMakes(After(t, a, m, faults, k), a, m, k, faults[k]);
  }

  lemma NextDir(t: DiskState, a: DiskArchiver, m: Manifest, faults: seq<Fault>, k: nat, d: Path)
    requires k < |m.entries| == |faults| && SameDepth(a, m)
    requires d in After(t, a, m, faults, k).dirs <==> d in t.dirs || Makes(t, a, m, k, d)
    ensures d in After(t, a, m, faults, k + 1).dirs <==> d in t.dirs || Makes(t, a, m, k + 1, d)
  {
    StepDirs(t, a, m, faults, k);
    NextMakes(t, a, m, k, d);
  }

  lemma NoneMakes(t: DiskState, a: DiskArchiver, m: Manifest, d: Path)
    ensures !Makes(t, a, m, 0, d)
  {
  }

  lemma {:induction false} MadeDirs(t: DiskState, a: DiskArchiver, m: Manifest, faults: seq<Fault>, k: nat, d: Path)
    requires k <= |m.entries| == |faults| && SameDepth(a, m)
    ensures d in After(t, a, m, faults, k).dirs <==> d in t.dirs || Makes(t, a, m, k, d)
  {
    if k == 0 {
      NoneMakes(t, a, m, d);
    } else {
      MadeDirs(t, a, m, faults, k - 1, d);
      NextDir(t, a, m, faults, k - 1, d);
    }
  }

  lemma DeepPlace(root: Path, p: Path)
    requires |p| == 4 && p[0] == OUTPUT && p[2] == CRASHES
    ensures var d, r := DirName(root + [REALTIME_CRASHES] + p), |root|;
            && |d| == r + 4 && d[..r + 2] == root + [REALTIME_CRASHES, OUTPUT]
            && d[r] == REALTIME_CRASHES && d[r + 3] == CRASHES
  {
    var d, r := DirName(root + [REALTIME_CRASHES] + p), |root|;
    assert d[..r + 2] == root + [REALTIME_CRASHES, OUTPUT];
  }

  lemma PlacesDeep(fm: FleetFileManager, a: DiskArchiver, t: DiskState, m: Manifest, faults: seq<Fault>, t': DiskState,
                   i: nat)
    requires WellFormed(t.files, t.dirs) && Archives(fm, a, t, m, faults, t') && i < |m.entries|
    ensures var d, r := DirName(DstAt(a, m, i)), |a.DstRoot|;
            && |DstAt(a, m, i)| == r + 5 && |d| == r + 4
            && d[..r + 2] == a.DstRoot + [REALTIME_CRASHES, OUTPUT] && d[r] == REALTIME_CRASHES && d[r + 3] == CRASHES
  {
    CrashPlaces(fm, a, t, m, faults, t', i);
    DeepPlace(a.DstRoot, m.entries[i].src);
  }

  /** No two copies make both a queue and a directory of hangs for one new fuzzer. */
  lemma NotBoth(fm: FleetFileManager, a: DiskArchiver, d: Path, e: Path, id: string)
    requires var r := |a.DstRoot|;
             && |d| == |e| == r + 4 && d[..r + 2] == e[..r + 2] && d[r] == REALTIME_CRASHES && d[r + 3] == CRASHES
    requires fm.TopLevelOutputDir() + [id] + [QUEUE] in Prefixes(d)
    ensures fm.TopLevelOutputDir() + [id] + [HANGS] !in Prefixes(e)
  {
    var r, top := |a.DstRoot|, fm.TopLevelOutputDir();
    var p, q := top + [id] + [QUEUE], top + [id] + [HANGS];
    var n :| 0 <= n <= |d| && p == d[..n];
    assert p[|top| - 1] == OUTPUT && p[|top| + 1] == QUEUE && q[|top| + 1] == HANGS;
    assert d[|top| - 1] == OUTPUT && d[|top| + 1] == QUEUE && OUTPUT != REALTIME_CRASHES;
    assert |top| + 1 < r + 2 ==> e[|top| + 1] == e[..r + 2][|top| + 1] == d[..r + 2][|top| + 1] == QUEUE;
    assert forall k | 0 <= k <= |e| && |q| <= k :: e[..k][|top| + 1] == e[|top| + 1];
  }

  /** The way to a place passes through no directory directly in `output/`, or through one that is there. */
  ghost predicate NoStranger(fm: FleetFileManager, t: DiskState, d: Path) {
    fm.TopLevelOutputDir() < d ==> d[..|fm.Basedir| + 2] in t.dirs
  }

  lemma StrangersAre(fm: FleetFileManager, t: DiskState, d: Path, id: string)
    requires fm.TopLevelOutputDir() + [id] in Prefixes(d)
    ensures fm.TopLevelOutputDir() < d && d[..|fm.Basedir| + 2] == fm.TopLevelOutputDir() + [id]
  {
    var n :| 0 <= n <= |d| && fm.TopLevelOutputDir() + [id] == d[..n];
    assert fm.TopLevelOutputDir() == d[..n][..n - 1] == d[..n - 1];
  }

  lemma NotBothMade(fm: FleetFileManager, a: DiskArchiver, t: DiskState, m: Manifest, faults: seq<Fault>, t': DiskState,
                    id: string)
    requires WellFormed(t.files, t.dirs) && Archives(fm, a, t, m, faults, t')
    ensures var made := fm.TopLevelOutputDir() + [id];
            !(Makes(t, a, m, |m.entries|, made + [QUEUE]) && Makes(t, a, m, |m.entries|, made + [HANGS]))
  {
    forall i, j | 0 <= i < |m.entries| && 0 <= j < |m.entries|
                  && fm.TopLevelOutputDir() + [id] + [QUEUE] in Prefixes(DirName(DstAt(a, m, i)))
      ensures fm.TopLevelOutputDir() + [id] + [HANGS] !in Prefixes(DirName(DstAt(a, m, j)))
    {
      PlacesDeep(fm, a, t, m, faults, t', i);
      PlacesDeep(fm, a, t, m, faults, t', j);
      NotBoth(fm, a, DirName(DstAt(a, m, i)), DirName(DstAt(a, m, j)), id);
    }
  }

  /** A fuzzer's directory that the copies make lacks a queue or a directory of hangs. */
  lemma StrangerIncomplete(fm: FleetFileManager, a: DiskArchiver, t: DiskState, m: Manifest, faults: seq<Fault>,
                           t': DiskState, id: string)
    requires WellFormed(t.files, t.dirs) && WellFormed(t'.files, t'.dirs) && Archives(fm, a, t, m, faults, t')
    requires fm.TopLevelOutputDir() + [id] !in t.dirs && fm.TopLevelOutputDir() + [id] in t'.dirs
    ensures !Survives(fm, a, t')
  {
    var made := fm.TopLevelOutputDir() + [id];
    NotBelow(t, made, QUEUE);
    NotBelow(t, made, HANGS);
    AllDeep(fm, a, t, m, faults, t');
    MadeDirs(t, a, m, faults, |m.entries|, made + [QUEUE]);
    MadeDirs(t, a, m, faults, |m.entries|, made + [HANGS]);
    NotBothMade(fm, a, t, m, faults, t', id);
    IncompleteKills(fm, a, t', id);
  }

  lemma IncompleteKills(fm: FleetFileManager, a: DiskArchiver, t: DiskState, id: string)
    requires WellFormed(t.files, t.dirs) && fm.TopLevelOutputDir() + [id] in t.dirs
    requires var made := fm.TopLevelOutputDir() + [id]; !(made + [QUEUE] in t.dirs && made + [HANGS] in t.dirs)
    ensures !Survives(fm, a, t)
  {
    fm.IdsOf(t.dirs, id);
    fm.IdIsComponent(t.files, t.dirs, id);
    fm.Afl(id).Layout();
    assert fm.Afl(id).QueueDir() == fm.TopLevelOutputDir() + [id] + [QUEUE];
    assert fm.Afl(id).HangsDir() == fm.TopLevelOutputDir() + [id] + [HANGS];
    assert fm.Afl(id).OutputOn(t.files, t.dirs) == None;
  }

  lemma NotBelow(t: DiskState, p: Path, name: string)
    requires WellFormed(t.files, t.dirs) && p !in t.dirs
    ensures p + [name] !in t.dirs
  {
    assert Parent(p + [name]) == p;
  }

  lemma AllDeep(fm: FleetFileManager, a: DiskArchiver, t: DiskState, m: Manifest, faults: seq<Fault>, t': DiskState)
    requires WellFormed(t.files, t.dirs) && Archives(fm, a, t, m, faults, t')
    ensures SameDepth(a, m)
  {
    forall i | 0 <= i < |m.entries|
      ensures |DstAt(a, m, i)| == |a.DstRoot| + 5
    {
      PlacesDeep(fm, a, t, m, faults, t', i);
    }
  }

  /** With no new directory in `output/` a call is survived, wherever the archive is. */
  lemma NoNewIdsSurvive(fm: FleetFileManager, a: DiskArchiver, t: DiskState, m: Manifest, faults: seq<Fault>,
                        t': DiskState)
    requires WellFormed(t.files, t.dirs) && Survives(fm, a, t) && Archives(fm, a, t, m, faults, t')
    requires forall id | id in fm.Ids(t'.dirs) :: id in fm.Ids(t.dirs)
    ensures Survives(fm, a, t')
  {
    OnlyDestinations(t, a, m, faults, |m.entries|);
    var root := a.DstRoot + [REALTIME_CRASHES];
    forall n | 0 <= n <= |root|
      ensures root[..n] !in t'.files
    {
      forall i | 0 <= i < |m.entries|
        ensures root[..n] != DstAt(a, m, i)
      {
        CrashPlaces(fm, a, t, m, faults, t', i);
      }
    }
    StillSurvives(fm, a, t, t');
  }

  /** A tree with more directories, but none that looks like another fuzzer's, and no file in the way of the archive. */
  lemma StillSurvives(fm: FleetFileManager, a: DiskArchiver, t: DiskState, t': DiskState)
    requires Survives(fm, a, t) && t.dirs <= t'.dirs
    requires forall id | id in fm.Ids(t'.dirs) :: id in fm.Ids(t.dirs)
    requires forall n | 0 <= n <= |a.DstRoot| + 1 :: (a.DstRoot + [REALTIME_CRASHES])[..n] !in t'.files
    ensures Survives(fm, a, t')
  {
    forall id | id in fm.Ids(t'.dirs)
      ensures fm.Afl(id).OutputOn(t'.files, t'.dirs).Some?
    {
      assert fm.Afl(id).OutputOn(t.files, t.dirs).Some?;
    }
  }

  ghost predicate NoStrangers(fm: FleetFileManager, a: DiskArchiver, t: DiskState, m: Manifest) {
    forall i | 0 <= i < |m.entries| && Free(t, a, m, i) :: NoStranger(fm, t, DirName(DstAt(a, m, i)))
  }

  lemma StrangerComes(fm: FleetFileManager, a: DiskArchiver, t: DiskState, m: Manifest, faults: seq<Fault>, i: nat)
    returns (id: string)
    requires |faults| == |m.entries| && SameDepth(a, m)
    requires i < |m.entries| && Free(t, a, m, i) && !NoStranger(fm, t, DirName(DstAt(a, m, i)))
    ensures fm.TopLevelOutputDir() + [id] !in t.dirs
    ensures fm.TopLevelOutputDir() + [id] in After(t, a, m, faults, |m.entries|).dirs
  {
    var d := DirName(DstAt(a, m, i));
    var p := d[..|fm.Basedir| + 2];
    id := p[|fm.Basedir| + 1];
    assert p == fm.TopLevelOutputDir() + [id];
    assert p in Prefixes(d);
    MadeDirs(t, a, m, faults, |m.entries|, p);
  }

  /** Exactly when a server survives the next call: when the way to each place that can be reached passes through no
      directory directly in `output/`, or through one that is there already. */
  lemma SurvivesExactly(fm: FleetFileManager, a: DiskArchiver, t: DiskState, m: Manifest, faults: seq<Fault>,
                        t': DiskState)
    requires WellFormed(t.files, t.dirs) && WellFormed(t'.files, t'.dirs)
    requires Survives(fm, a, t) && Archives(fm, a, t, m, faults, t')
    ensures Survives(fm, a, t') <==> NoStrangers(fm, a, t, m)
  {
    AllDeep(fm, a, t, m, faults, t');
    if NoStrangers(fm, a, t, m) {
      forall id | id in fm.Ids(t'.dirs)
        ensures id in fm.Ids(t.dirs)
      {
        NoNewId(fm, a, t, m, faults, t', id);
      }
      NoNewIdsSurvive(fm, a, t, m, faults, t');
    } else {
      var i :| 0 <= i < |m.entries| && Free(t, a, m, i) && !NoStranger(fm, t, DirName(DstAt(a, m, i)));
      var id := StrangerComes(fm, a, t, m, faults, i);
      StrangerIncomplete(fm, a, t, m, faults, t', id);
    }
  }

  lemma NoNewId(fm: FleetFileManager, a: DiskArchiver, t: DiskState, m: Manifest, faults: seq<Fault>, t': DiskState,
                id: string)
    requires Archives(fm, a, t, m, faults, t') && SameDepth(a, m) && id in fm.Ids(t'.dirs)
    requires NoStrangers(fm, a, t, m)
    ensures id in fm.Ids(t.dirs)
  {
    var d := fm.TopLevelOutputDir() + [id];
    fm.IdsOf(t'.dirs, id);
    fm.IdsOf(t.dirs, id);
    MadeDirs(t, a, m, faults, |m.entries|, d);
    if Makes(t, a, m, |m.entries|, d) {
      var i :| 0 <= i < |m.entries| && Free(t, a, m, i) && d in Prefixes(DirName(DstAt(a, m, i)));
      StrangersAre(fm, t, DirName(DstAt(a, m, i)), id);
    }
  }

  // ---------------------------------------------------------------- an archive outside

  /** With the archive outside, a server that survives a call survives the next one. */
  lemma SurvivesCall(fm: FleetFileManager, a: DiskArchiver, t: DiskState, m: Manifest, faults: seq<Fault>,
                     t': DiskState)
    requires WellFormed(t.files, t.dirs) && Survives(fm, a, t) && Archives(fm, a, t, m, faults, t') && Outside(fm, a)
    ensures Survives(fm, a, t')
  {
    forall id | id in fm.Ids(t'.dirs)
      ensures id in fm.Ids(t.dirs)
    {
      SameIdsAfter(fm, a, t, m, faults, t', id);
    }
    NoNewIdsSurvive(fm, a, t, m, faults, t');
  }

  lemma TopAboveRoot(fm: FleetFileManager, a: DiskArchiver, n: nat)
    requires n <= |a.DstRoot| + 1 && fm.TopLevelOutputDir() <= (a.DstRoot + [REALTIME_CRASHES])[..n]
    ensures !Outside(fm, a)
  {
    var root, top := a.DstRoot + [REALTIME_CRASHES], fm.TopLevelOutputDir();
    assert top == root[..|top|] && top[|top| - 1] == OUTPUT;
    assert OUTPUT != REALTIME_CRASHES;
    assert |top| <= |a.DstRoot|;
    assert top == a.DstRoot[..|top|];
  }

  lemma ShortOfFile(fm: FleetFileManager, a: DiskArchiver, id: string, output: Output, w: Write, n: nat)
    requires Component(id) && ComponentOutput(output) && w in fm.Afl(id).OutputWrites(output) && Outside(fm, a)
    requires n <= |a.DstRoot| + 1
    ensures w.path != (a.DstRoot + [REALTIME_CRASHES])[..n]
  {
    OutputStaysBelow(fm.Afl(id), output);
    assert fm.TopLevelOutputDir() <= w.path;
    if w.path == (a.DstRoot + [REALTIME_CRASHES])[..n] {
      TopAboveRoot(fm, a, n);
    }
  }

  lemma KnownOutputs(fm: FleetFileManager, t: DiskState, id: string, output: Output, f: string)
    requires fm.OutputsOn(t.files, t.dirs).Some? && Component(id)
    requires f in fm.Ids(StoredTree(fm, t, id, output).dirs)
    ensures var stored := StoredTree(fm, t, id, output); fm.Afl(f).OutputOn(stored.files, stored.dirs).Some?
  {
    fm.DirsAddId(t.dirs, id);
    if f == id {
      var afl := fm.Afl(id);
      assert forall kind: Kind :: afl.Dir(kind)[..|afl.Dir(kind)|] == afl.Dir(kind);
    } else {
      assert fm.Afl(f).OutputOn(t.files, t.dirs).Some?;
    }
  }

  /** Storing a well-formed upload does not stop it from surviving either. */
  lemma SurvivesUpload(fm: FleetFileManager, a: DiskArchiver, t: DiskState, id: string, output: Output)
    requires Survives(fm, a, t) && Outside(fm, a) && Component(id) && ComponentOutput(output)
    ensures Survives(fm, a, StoredTree(fm, t, id, output))
  {
    var ws, root := fm.Afl(id).OutputWrites(output), a.DstRoot + [REALTIME_CRASHES];
    forall n | 0 <= n <= |root|
      ensures root[..n] !in StoredTree(fm, t, id, output).files
    {
      ApplyDomain(t.files, ws, root[..n]);
      forall j | 0 <= j < |ws|
        ensures ws[j].path != root[..n]
      {
        ShortOfFile(fm, a, id, output, ws[j], n);
      }
    }
    forall f | f in fm.Ids(StoredTree(fm, t, id, output).dirs)
      ensures var stored := StoredTree(fm, t, id, output); fm.Afl(f).OutputOn(stored.files, stored.dirs).Some?
    {
      KnownOutputs(fm, t, id, output, f);
    }
  }

  // ---------------------------------------------------------------- backups

  /** A backup of the base directory by the same archiver, into the directory named by the time. The base directory does
      not lie in that directory. */
  ghost predicate BackedUp(fm: FleetFileManager, a: DiskArchiver, t: DiskState, timestamp: nat, m: Manifest,
                           faults: seq<Fault>, t': DiskState) {
    && WellFormed(t.files, t.dirs) && !(a.DstRoot + [Digits(timestamp)] <= fm.Basedir)
    && m.srcRoot == fm.Basedir && Backup.SimpleManifest(t.files, m, [Digits(timestamp)])
    && |faults| == |m.entries| && t' == After(t, a, m, faults, |m.entries|)
  }

  lemma StampIsNoName(timestamp: nat)
    ensures Clean([Digits(timestamp)])
    ensures Digits(timestamp) != OUTPUT && Digits(timestamp) != REALTIME_CRASHES
  {
    Backup.StampIsComponent(timestamp);
    assert IsDigit(Digits(timestamp)[0]) && !IsDigit(OUTPUT[0]) && !IsDigit(REALTIME_CRASHES[0]);
  }

  lemma BackupPlaces(fm: FleetFileManager, a: DiskArchiver, t: DiskState, timestamp: nat, m: Manifest,
                     faults: seq<Fault>, t': DiskState, i: nat)
    requires BackedUp(fm, a, t, timestamp, m, faults, t') && i < |m.entries|
    ensures DstAt(a, m, i) == a.DstRoot + [Digits(timestamp)] + m.entries[i].src
  {
    StampIsNoName(timestamp);
    Backup.PlacesOf(t, a, m, [Digits(timestamp)], i);
  }

  lemma BackupInside(fm: FleetFileManager, a: DiskArchiver, timestamp: nat, p: Path, id: string)
    requires fm.TopLevelOutputDir() + [id] in Prefixes(DirName(a.DstRoot + [Digits(timestamp)] + p))
    ensures fm.TopLevelOutputDir() <= a.DstRoot || a.DstRoot + [Digits(timestamp)] <= fm.Basedir
  {
    var stamp := Digits(timestamp);
    var dst, r, top := a.DstRoot + [stamp] + p, |a.DstRoot|, fm.TopLevelOutputDir();
    StampIsNoName(timestamp);
    var n :| 0 <= n <= |DirName(dst)| && top + [id] == DirName(dst)[..n];
    assert top + [id] == dst[..n];
    assert top == dst[..|top|] && top[|top| - 1] == OUTPUT && dst[r] == stamp;
    if |top| <= r {
      assert top == a.DstRoot[..|top|];
    } else if |top| > r + 1 {
      assert fm.Basedir == dst[..|fm.Basedir|];
      assert a.DstRoot + [stamp] == fm.Basedir[..r + 1];
    }
  }

  lemma SameIdsBackedUp(fm: FleetFileManager, a: DiskArchiver, t: DiskState, timestamp: nat, m: Manifest,
                        faults: seq<Fault>, t': DiskState, id: string)
    requires BackedUp(fm, a, t, timestamp, m, faults, t') && Outside(fm, a) && id in fm.Ids(t'.dirs)
    ensures id in fm.Ids(t.dirs)
  {
    OnlyDestinations(t, a, m, faults, |m.entries|);
    fm.IdsOf(t.dirs, id);
    fm.IdsOf(t'.dirs, id);
    var d := fm.TopLevelOutputDir() + [id];
    if d !in t.dirs {
      var i :| 0 <= i < |m.entries| && d in Prefixes(DirName(DstAt(a, m, i)));
      BackupPlaces(fm, a, t, timestamp, m, faults, t', i);
      BackupInside(fm, a, timestamp, m.entries[i].src, id);
    }
  }

  lemma RootStaysFree(fm: FleetFileManager, a: DiskArchiver, t: DiskState, timestamp: nat, m: Manifest,
                      faults: seq<Fault>, t': DiskState, n: nat)
    requires BackedUp(fm, a, t, timestamp, m, faults, t') && n <= |a.DstRoot| + 1
    requires (a.DstRoot + [REALTIME_CRASHES])[..n] !in t.files
    ensures (a.DstRoot + [REALTIME_CRASHES])[..n] !in t'.files
  {
    StampIsNoName(timestamp);
    OnlyDestinations(t, a, m, faults, |m.entries|);
    forall i | 0 <= i < |m.entries|
      ensures (a.DstRoot + [REALTIME_CRASHES])[..n] != DstAt(a, m, i)
    {
      BackupPlaces(fm, a, t, timestamp, m, faults, t', i);
      assert DstAt(a, m, i)[|a.DstRoot|] == Digits(timestamp);
    }
  }

  /** A backup, whichever of its copies fail, does not stop the server from surviving. */
  lemma SurvivesBackup(fm: FleetFileManager, a: DiskArchiver, t: DiskState, timestamp: nat, m: Manifest,
                       faults: seq<Fault>, t': DiskState)
    requires Survives(fm, a, t) && Outside(fm, a) && BackedUp(fm, a, t, timestamp, m, faults, t')
    ensures Survives(fm, a, t')
  {
    OnlyDestinations(t, a, m, faults, |m.entries|);
    forall id | id in fm.Ids(t'.dirs)
      ensures id in fm.Ids(t.dirs)
    {
      SameIdsBackedUp(fm, a, t, timestamp, m, faults, t', id);
    }
    forall n | 0 <= n <= |a.DstRoot| + 1
      ensures (a.DstRoot + [REALTIME_CRASHES])[..n] !in t'.files
    {
      RootStaysFree(fm, a, t, timestamp, m, faults, t', n);
    }
    StillSurvives(fm, a, t, t');
  }

  // ---------------------------------------------------------------- whole runs

  /** An upload handled to the end, or a backup, and the tree it leaves. */
  datatype Event =
    | Upload(id: string, output: Output, m: Manifest, faults: seq<Fault>, after: DiskState)
    | Timer(timestamp: nat, m: Manifest, faults: seq<Fault>, after: DiskState)

  ghost predicate Handled(fm: FleetFileManager, a: DiskArchiver, t: DiskState, event: Event) {
    match event
    case Upload(id, output, m, faults, after) =>
      var stored := StoredTree(fm, t, id, output);
      && Component(id) && ComponentOutput(output)
      && WellFormed(stored.files, stored.dirs)
      && Archives(fm, a, stored, m, faults, after)
    case Timer(timestamp, m, faults, after) => BackedUp(fm, a, t, timestamp, m, faults, after)
  }

  function TreeAfter(t: DiskState, events: seq<Event>): DiskState {
    if events == [] then t else events[|events| - 1].after
  }

  ghost predicate HandledAll(fm: FleetFileManager, a: DiskArchiver, t: DiskState, events: seq<Event>) {
    events != [] ==>
      var last := |events| - 1;
      HandledAll(fm, a, t, events[..last]) && Handled(fm, a, TreeAfter(t, events[..last]), events[last])
  }

  lemma SurvivesEvent(fm: FleetFileManager, a: DiskArchiver, t: DiskState, event: Event)
    requires Survives(fm, a, t) && Outside(fm, a) && Handled(fm, a, t, event)
    ensures Survives(fm, a, event.after)
  {
    match event
    case Upload(id, output, m, faults, after) =>
      SurvivesUpload(fm, a, t, id, output);
      SurvivesCall(fm, a, StoredTree(fm, t, id, output), m, faults, after);
    case Timer(timestamp, m, faults, after) =>
      SurvivesBackup(fm, a, t, timestamp, m, faults, after);
  }

  lemma {:induction false} SurvivesEvents(fm: FleetFileManager, a: DiskArchiver, t: DiskState, events: seq<Event>)
    requires Survives(fm, a, t) && Outside(fm, a) && HandledAll(fm, a, t, events)
    ensures Survives(fm, a, TreeAfter(t, events))
    decreases |events|
  {
    if events != [] {
      var last := |events| - 1;
      SurvivesEvents(fm, a, t, events[..last]);
      SurvivesEvent(fm, a, TreeAfter(t, events[..last]), events[last]);
    }
  }

  /** With the archive outside, a server that has once read its archive and its outputs can do so ever after, whatever
      well-formed uploads it handles, whatever backups it makes, and whichever copies fail: it then dies only of an
      upload that cannot be stored. */
  lemma SurvivesAll(fm: FleetFileManager, a: DiskArchiver, t: DiskState, events: seq<Event>, id: string, output: Output)
    requires Survives(fm, a, t) && Outside(fm, a) && HandledAll(fm, a, t, events)
    requires Component(id) && ComponentOutput(output)
    ensures Survives(fm, a, StoredTree(fm, TreeAfter(t, events), id, output))
  {
    SurvivesEvents(fm, a, t, events);
    SurvivesUpload(fm, a, TreeAfter(t, events), id, output);
  }

  // ---------------------------------------------------------------- an archive inside

  lemma InsideRuns(s: Witness.Site, t': DiskState)
    requires s.Valid()
    requires t' == After(s.Disk(), DiskArchiver(s.base + [OUTPUT]), Witness.CrashManifest(s), [NoFault], 1)
    ensures Survives(s.Manager(), DiskArchiver(s.base + [OUTPUT]), s.Disk())
    ensures Archives(s.Manager(), DiskArchiver(s.base + [OUTPUT]), s.Disk(), Witness.CrashManifest(s), [NoFault], t')
  {
    Witness.SiteOutputs(s.Disk(), s);
    Witness.CrashManifestIs(s);
    RootFree(s);
  }

  lemma StrangerKills(fm: FleetFileManager, a: DiskArchiver, t: DiskState, id: string)
    requires fm.TopLevelOutputDir() + [id] in t.dirs && fm.Afl(id).QueueDir() !in t.dirs
    ensures !Survives(fm, a, t)
  {
    fm.IdsOf(t.dirs, id);
    assert fm.Afl(id).OutputOn(t.files, t.dirs) == None;
  }

  /** With the archive directly in `output/`, the first call that copies a crash makes a directory there that looks like
      a fuzzer's but has no queue. */
  lemma ArchiveInsideKills(s: Witness.Site)
    requires s.Valid() && s.id != REALTIME_CRASHES
    ensures var fm, a := s.Manager(), DiskArchiver(s.base + [OUTPUT]);
            var t, m := s.Disk(), Witness.CrashManifest(s);
            var t' := After(t, a, m, [NoFault], 1);
            Survives(fm, a, t) && Archives(fm, a, t, m, [NoFault], t') && !Survives(fm, a, t')
  {
    var t' := After(s.Disk(), DiskArchiver(s.base + [OUTPUT]), Witness.CrashManifest(s), [NoFault], 1);
    InsideRuns(s, t');
    MakesRoot(s);
    QueueMissing(s);
    StrangerKills(s.Manager(), DiskArchiver(s.base + [OUTPUT]), t', REALTIME_CRASHES);
  }

  lemma RootFree(s: Witness.Site)
    requires s.Valid()
    ensures forall n | 0 <= n <= |s.base| + 2 :: (s.base + [OUTPUT] + [REALTIME_CRASHES])[..n] !in s.Disk().files
  {
  }

  /** The directories that the copy makes. */
  function Made(s: Witness.Site): set<Path> {
    Prefixes(s.base + [OUTPUT, REALTIME_CRASHES, OUTPUT, s.id, CRASHES])
  }

  lemma MakesRoot(s: Witness.Site)
    requires s.Valid() && s.id != REALTIME_CRASHES
    ensures var t' := After(s.Disk(), DiskArchiver(s.base + [OUTPUT]), Witness.CrashManifest(s), [NoFault], 1);
            && t'.dirs == s.Disk().dirs + Made(s)
            && s.base + [OUTPUT] + [REALTIME_CRASHES] in t'.dirs
  {
    var a, m, b := DiskArchiver(s.base + [OUTPUT]), Witness.CrashManifest(s), |s.base|;
    var dst := s.base + [OUTPUT, REALTIME_CRASHES, OUTPUT, s.id, CRASHES, s.crash];
    RelCrashClean(s.id, s.crash);
    EntryPlaces(s.Manager(), a, m, 0);
    assert DstAt(a, m, 0) == dst;
    assert DirName(dst) == s.base + [OUTPUT, REALTIME_CRASHES, OUTPUT, s.id, CRASHES];
    assert s.base + [OUTPUT] + [REALTIME_CRASHES] == DirName(dst)[..b + 2];
    forall n | 0 <= n <= |DirName(dst)|
      ensures DirName(dst)[..n] !in s.Disk().files
    {
      assert s.QueueFile()[b + 1] == s.id && s.CrashFile()[b + 1] == s.id;
      assert n > b + 1 ==> DirName(dst)[..n][b + 1] == REALTIME_CRASHES;
    }
    assert After(s.Disk(), a, m, [NoFault], 0) == s.Disk();
  }

  lemma QueueMissing(s: Witness.Site)
    requires s.Valid() && s.id != REALTIME_CRASHES
    ensures s.Manager().Afl(REALTIME_CRASHES).QueueDir() !in s.Disk().dirs + Made(s)
  {
    var p, b := s.base + [OUTPUT, REALTIME_CRASHES, QUEUE], |s.base|;
    s.Manager().Afl(REALTIME_CRASHES).Layout();
    assert p[b + 1] == REALTIME_CRASHES && p[b + 2] == QUEUE;
    if p in Made(s) {
      Witness.PrefixesClosed(s.base + [OUTPUT, REALTIME_CRASHES, OUTPUT, s.id, CRASHES], p);
    } else if p in s.Disk().dirs {
      Witness.SiteDirId(s, p);
    }
  }

  lemma BackupMakes(t: DiskState, a: DiskArchiver, m: Manifest, sub: Path, faults: seq<Fault>)
    requires Backup.FreshBackup(t, a, m, sub, faults)
    ensures var dirs := After(t, a, m, faults, |m.entries|).dirs;
            && (a.DstRoot + sub in dirs <==> Backup.Inhabited(t.files, m.srcRoot))
            && (a.DstRoot + sub + [QUEUE] in dirs <==> Backup.Inhabited(t.files, m.srcRoot + [QUEUE]))
  {
    Backup.BackupDirs(t, a, m, sub, faults, []);
    Backup.BackupDirs(t, a, m, sub, faults, [QUEUE]);
    assert m.srcRoot + [] == m.srcRoot && a.DstRoot + sub + [] == a.DstRoot + sub;
  }

  lemma StampQueue(fm: FleetFileManager, timestamp: nat)
    ensures fm.Afl(Digits(timestamp)).QueueDir() == fm.TopLevelOutputDir() + [Digits(timestamp)] + [QUEUE]
  {
    Backup.StampIsComponent(timestamp);
    fm.Afl(Digits(timestamp)).Layout();
  }

  /** With the archive directly in `output/`, the first backup of a base directory that holds a file, but no directory
      named like a queue with a file in it, does the same. */
  lemma BackupInsideKills(fm: FleetFileManager, t: DiskState, timestamp: nat, m: Manifest, faults: seq<Fault>)
    requires var a := DiskArchiver(fm.TopLevelOutputDir());
             && Backup.FreshBackup(t, a, m, [Digits(timestamp)], faults) && m.srcRoot == fm.Basedir
    requires Backup.Inhabited(t.files, fm.Basedir) && !Backup.Inhabited(t.files, fm.Basedir + [QUEUE])
    ensures var a := DiskArchiver(fm.TopLevelOutputDir());
            !Survives(fm, a, After(t, a, m, faults, |m.entries|))
  {
    var a := DiskArchiver(fm.TopLevelOutputDir());
    BackupMakes(t, a, m, [Digits(timestamp)], faults);
    StampQueue(fm, timestamp);
    StrangerKills(fm, a, After(t, a, m, faults, |m.entries|), Digits(timestamp));
  }
}
