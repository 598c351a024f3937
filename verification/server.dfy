/** The server's handling of an upload: store it, archive the crashes, note the client. */
module Server {
  import opened Text
  import opened Paths
  import opened FileStore
  import opened Disk
  import opened Corpus
  import opened AflFiles
  import opened Fleet
  import opened Archiver
  import Stats
  import Nodes

  const REALTIME_CRASHES := "realtime-crashes"

  // ---------------------------------------------------------------- which crashes to archive

  /** A crash's path below the base directory. */
  function RelCrash(id: string, name: string): Path {
    [OUTPUT, id, CRASHES, name]
  }

  function EntryOf(p: Path): ManifestEntry {
    ManifestEntry(p, [REALTIME_CRASHES] + p)
  }

  ghost predicate LocalCrash(outputs: map<string, Output>, p: Path) {
    exists id, j :: id in outputs && 0 <= j < |outputs[id].crashes| && p == RelCrash(id, outputs[id].crashes[j].name)
  }

  /** As `ReadOutputs` returns them: all names are components, and a corpus has each name once. */
  ghost predicate Proper(outputs: map<string, Output>) {
    forall id | id in outputs ::
      Component(id) && ComponentNames(outputs[id].crashes) && DistinctNames(outputs[id].crashes)
  }

  /** There is an entry for the crash `p`. */
  ghost predicate Covers(entries: seq<ManifestEntry>, p: Path) {
    exists i :: 0 <= i < |entries| && entries[i].src == p
  }

  ghost predicate DistinctEntries(entries: seq<ManifestEntry>) {
    forall i, j | 0 <= i < j < |entries| :: entries[i].src != entries[j].src
  }

  /** The manifest has exactly the local crashes that are not archived, each once and with its place in the archive. */
  ghost predicate MissingCrashes(fm: FleetFileManager, outputs: map<string, Output>, archived: set<Path>, m: Manifest) {
    && m.srcRoot == fm.Basedir
    && DistinctEntries(m.entries)
    && (forall i | 0 <= i < |m.entries| :: m.entries[i] == EntryOf(m.entries[i].src))
    && forall p :: Covers(m.entries, p) <==> LocalCrash(outputs, p) && p !in archived
  }

  lemma RelCrashOf(fm: FleetFileManager, id: string, name: string)
    requires Component(id) && Component(name)
    ensures fm.CrashPath(id, name) == Some(fm.Basedir + RelCrash(id, name))
    ensures Rel(fm.Basedir, fm.Basedir + RelCrash(id, name)) == RelCrash(id, name)
  {
    var m := fm.Afl(id);
    m.Layout();
    assert m.CorpusDir(CRASHES) == Some(m.Dir(Crashes));
    JoinComponent(m.Dir(Crashes), name);
    assert fm.Basedir + [OUTPUT, id, CRASHES] + [name] == fm.Basedir + RelCrash(id, name);
    RelBelow(fm.Basedir, RelCrash(id, name));
  }

  /** The entries made when `seen` are the crashes looked at. */
  ghost predicate Gathered(archived: set<Path>, entries: seq<ManifestEntry>, seen: set<Path>) {
    && DistinctEntries(entries)
    && (forall i | 0 <= i < |entries| :: entries[i] == EntryOf(entries[i].src))
    && forall p :: Covers(entries, p) <==> p in seen && p !in archived
  }

  lemma CoversMore(entries: seq<ManifestEntry>, e: ManifestEntry, p: Path)
    ensures Covers(entries + [e], p) <==> Covers(entries, p) || p == e.src
  {
    if i :| 0 <= i < |entries| && entries[i].src == p {
      assert (entries + [e])[i].src == p;
    }
    assert (entries + [e])[|entries|] == e;
  }

  lemma GatherOne(archived: set<Path>, entries: seq<ManifestEntry>, seen: set<Path>, p: Path)
    requires Gathered(archived, entries, seen) && p !in seen
    ensures Gathered(archived, if p in archived then entries else entries + [EntryOf(p)], seen + {p})
  {
    if p !in archived {
      forall q
        ensures Covers(entries + [EntryOf(p)], q) <==> q in seen + {p} && q !in archived
      {
        CoversMore(entries, EntryOf(p), q);
      }
      assert forall i | 0 <= i < |entries| :: Covers(entries, entries[i].src);
    }
  }

  function Looked(fuzzerId: string, crashes: seq<Input>): set<Path> {
    set j | 0 <= j < |crashes| :: RelCrash(fuzzerId, crashes[j].name)
  }

  /** Looks at the crashes of one fuzzer. */
  method GatherFuzzer(fm: FleetFileManager, archived: set<Path>, fuzzerId: string, crashes: seq<Input>,
                      entries: seq<ManifestEntry>, ghost seen: set<Path>)
    returns (more: seq<ManifestEntry>)
    requires Component(fuzzerId) && ComponentNames(crashes) && DistinctNames(crashes)
    requires Gathered(archived, entries, seen)
    requires forall name :: RelCrash(fuzzerId, name) !in seen
    ensures Gathered(archived, more, seen + Looked(fuzzerId, crashes))
  {
    more := entries;
    for k := 0 to |crashes|
      invariant Gathered(archived, more, seen + Looked(fuzzerId, crashes[..k]))
    {
      var fullLocalCrashPath := fm.CrashPath(fuzzerId, crashes[k].name);
      RelCrashOf(fm, fuzzerId, crashes[k].name);
      var relCrashPath := Rel(fm.Basedir, fullLocalCrashPath.value);
      GatherNext(archived, more, seen, fuzzerId, crashes, k);
      if relCrashPath !in archived {
        PlaceInArchive(fuzzerId, crashes[k].name);
        more := more + [ManifestEntry(relCrashPath, Walk([REALTIME_CRASHES], relCrashPath))];
      }
    }
    assert crashes[..|crashes|] == crashes;
  }

  lemma PlaceInArchive(id: string, name: string)
    requires Component(id) && Component(name)
    ensures Walk([REALTIME_CRASHES], RelCrash(id, name)) == EntryOf(RelCrash(id, name)).dst
  {
    RelCrashClean(id, name);
    WalkDown([REALTIME_CRASHES], RelCrash(id, name));
  }

  lemma GatherNext(archived: set<Path>, entries: seq<ManifestEntry>, seen: set<Path>, id: string, crashes: seq<Input>,
                   k: nat)
    requires k < |crashes| && DistinctNames(crashes)
    requires forall name :: RelCrash(id, name) !in seen
    requires Gathered(archived, entries, seen + Looked(id, crashes[..k]))
    ensures var p := RelCrash(id, crashes[k].name);
            Gathered(archived, if p in archived then entries else entries + [EntryOf(p)],
                     seen + Looked(id, crashes[..k + 1]))
  {
    var p := RelCrash(id, crashes[k].name);
    LookedNext(id, crashes, k);
    GatherOne(archived, entries, seen + Looked(id, crashes[..k]), p);
    assert seen + Looked(id, crashes[..k]) + {p} == seen + Looked(id, crashes[..k + 1]);
  }

  lemma RelCrashClean(id: string, name: string)
    requires Component(id) && Component(name)
    ensures Clean(RelCrash(id, name))
  {
  }

  lemma LookedNext(id: string, crashes: seq<Input>, k: nat)
    requires DistinctNames(crashes) && k < |crashes|
    ensures RelCrash(id, crashes[k].name) !in Looked(id, crashes[..k])
    ensures Looked(id, crashes[..k + 1]) == Looked(id, crashes[..k]) + {RelCrash(id, crashes[k].name)}
  {
    forall j | 0 <= j < k
      ensures RelCrash(id, crashes[j].name) != RelCrash(id, crashes[k].name)
    {
      assert RelCrash(id, crashes[j].name)[3] == crashes[j].name;
      assert RelCrash(id, crashes[k].name)[3] == crashes[k].name;
    }
    assert forall j | 0 <= j < k :: crashes[..k + 1][j] == crashes[..k][j];
    assert crashes[..k + 1][k] == crashes[k];
  }

  /** The crashes of the fuzzers not in `left`. */
  ghost predicate SeenBut(outputs: map<string, Output>, left: set<string>, seen: set<Path>) {
    && (forall id, name | id in left :: RelCrash(id, name) !in seen)
    && (forall p | p in seen :: LocalCrash(outputs, p))
    && (forall id | id in outputs && id !in left :: Looked(id, outputs[id].crashes) <= seen)
  }

  lemma SeenNext(outputs: map<string, Output>, left: set<string>, seen: set<Path>, id: string)
    requires SeenBut(outputs, left, seen) && id in left && id in outputs
    ensures SeenBut(outputs, left - {id}, seen + Looked(id, outputs[id].crashes))
  {
    forall p | p in Looked(id, outputs[id].crashes)
      ensures LocalCrash(outputs, p) && p[1] == id
    {
    }
    assert forall other, name :: RelCrash(other, name)[1] == other;
  }

  lemma SeenAll(outputs: map<string, Output>, seen: set<Path>, p: Path)
    requires SeenBut(outputs, {}, seen)
    ensures p in seen <==> LocalCrash(outputs, p)
  {
    if LocalCrash(outputs, p) {
      var id, j :| id in outputs && 0 <= j < |outputs[id].crashes| && p == RelCrash(id, outputs[id].crashes[j].name);
      assert p in Looked(id, outputs[id].crashes);
    }
  }

  /** Compares the crashes of all fuzzers, in whatever order the map yields them, with a listing of the archive. */
  method NewCrashManifest(fm: FleetFileManager, outputs: map<string, AflOutput>, listing: seq<Path>)
    returns (manifest: Manifest)
    requires Proper(Values(outputs))
    ensures MissingCrashes(fm, Values(outputs), (set p | p in listing), manifest)
  {
    var archived := set p | p in listing;
    ghost var values := Values(outputs);
    ghost var seen: set<Path> := {};
    var entries: seq<ManifestEntry> := [];
    var left := outputs.Keys;
    while left != {}
      invariant left <= outputs.Keys
      invariant Gathered(archived, entries, seen)
      invariant SeenBut(values, left, seen)
      decreases left
    {
      var id :| id in left;
      SeenNext(values, left, seen, id);
      entries := GatherFuzzer(fm, archived, id, outputs[id].Crashes.Inputs, entries, seen);
      seen := seen + Looked(id, values[id].crashes);
      left := left - {id};
    }
    forall p
      ensures Covers(entries, p) <==> LocalCrash(values, p) && p !in archived
    {
      SeenAll(values, seen, p);
    }
    manifest := Manifest(fm.Basedir, entries);
  }

  // ---------------------------------------------------------------- archiving

  lemma OutputsProper(fm: FleetFileManager, t: DiskState)
    requires WellFormed(t.files, t.dirs) && fm.OutputsOn(t.files, t.dirs).Some?
    ensures Proper(fm.OutputsOn(t.files, t.dirs).value)
  {
    forall id | id in fm.Ids(t.dirs)
      ensures Component(id)
      ensures var crashes := fm.OutputsOn(t.files, t.dirs).value[id].crashes;
              ComponentNames(crashes) && DistinctNames(crashes)
    {
      fm.IdIsComponent(t.files, t.dirs, id);
      CorpusDistinct(t.files, t.dirs, fm.Afl(id).CrashesDir());
    }
  }

  /** With a listing of bare file names the check against it never holds anything back. */
  lemma SkipNeverFires(fm: FleetFileManager, outputs: map<string, Output>, archived: set<Path>, m: Manifest)
    requires forall p | p in archived :: |p| == 1
    ensures MissingCrashes(fm, outputs, archived, m) <==> MissingCrashes(fm, outputs, {}, m)
  {
    assert forall p | LocalCrash(outputs, p) :: |p| == 4;
  }

  /** Whether the server gets as far as copying: it dies if it cannot list the archive or read its outputs. */
  ghost predicate Survives(fm: FleetFileManager, a: DiskArchiver, t: DiskState) {
    && (forall n | 0 <= n <= |a.DstRoot| + 1 :: (a.DstRoot + [REALTIME_CRASHES])[..n] !in t.files)
    && fm.OutputsOn(t.files, t.dirs).Some?
  }

  /** A call of `archiveNewCrashes` that takes the tree `t` to `t'` by copying the manifest `m`. */
  ghost predicate Archives(fm: FleetFileManager, a: DiskArchiver, t: DiskState, m: Manifest, faults: seq<Fault>,
                           t': DiskState) {
    && fm.OutputsOn(t.files, t.dirs).Some? && |faults| == |m.entries|
    && MissingCrashes(fm, fm.OutputsOn(t.files, t.dirs).value, {}, m)
    && t' == After(t, a, m, faults, |m.entries|)
  }

  /** The first half of a call: what there is to copy. With this listing, that is every crash. */
  method CrashesToArchive(disk: Disk, fm: FleetFileManager, a: DiskArchiver) returns (manifest: Option<Manifest>)
    requires disk.Valid()
    ensures manifest.Some? <==> Survives(fm, a, StateOf(disk))
    ensures manifest.Some? ==>
              && MissingCrashes(fm, fm.OutputsOn(disk.files, disk.dirs).value, {}, manifest.value)
              && SlashlessEntries(manifest.value)
  {
    JoinRealtime(a);
    var listing := a.LsDstFiles(disk, [REALTIME_CRASHES]);
    if listing.None? {
      return None;
    }
    var outputs := fm.ReadOutputs(disk);
    if outputs.None? {
      return None;
    }
    ghost var values := fm.OutputsOn(disk.files, disk.dirs).value;
    OutputsProper(fm, StateOf(disk));
    var m := AllCrashes(fm, outputs.value, listing.value, values);
    manifest := Some(m);
  }

  method AllCrashes(fm: FleetFileManager, outputs: map<string, AflOutput>, listing: seq<Path>,
                    ghost values: map<string, Output>)
    returns (manifest: Manifest)
    requires Values(outputs) == values && Proper(values) && forall p | p in listing :: |p| == 1
    ensures MissingCrashes(fm, values, {}, manifest) && SlashlessEntries(manifest)
  {
    manifest := NewCrashManifest(fm, outputs, listing);
    AllMissing(fm, values, (set p | p in listing), manifest);
  }

  /** With bare names in the listing, all crashes go into the manifest. */
  lemma AllMissing(fm: FleetFileManager, outputs: map<string, Output>, archived: set<Path>, m: Manifest)
    requires Proper(outputs) && MissingCrashes(fm, outputs, archived, m) && forall p | p in archived :: |p| == 1
    ensures MissingCrashes(fm, outputs, {}, m) && SlashlessEntries(m)
  {
    SkipNeverFires(fm, outputs, archived, m);
    EntriesSlashless(outputs, m);
  }

  method ArchiveNewCrashes(disk: Disk, fm: FleetFileManager, a: DiskArchiver, faults: nat -> Fault)
    returns (alive: bool, ghost m: Manifest)
    requires disk.Valid() && Clean(a.DstRoot)
    modifies disk`files, disk`dirs
    ensures disk.Valid()
    ensures alive <==> Survives(fm, a, old(StateOf(disk)))
    ensures alive ==> Archives(fm, a, old(StateOf(disk)), m, FaultsOf(m, faults), StateOf(disk))
    ensures !alive ==> StateOf(disk) == old(StateOf(disk))
  {
    ghost var was := StateOf(disk);
    var manifest := CrashesToArchive(disk, fm, a);
    if manifest.None? {
      return false, Manifest([], []);
    }
    m := manifest.value;
    var log := ArchiveManifest(disk, a, manifest.value, FaultsOf(manifest.value, faults));
    alive := true;
    CallDone(fm, a, was, m, FaultsOf(m, faults), StateOf(disk));
  }

  lemma CallDone(fm: FleetFileManager, a: DiskArchiver, t: DiskState, m: Manifest, faults: seq<Fault>, t': DiskState)
    requires fm.OutputsOn(t.files, t.dirs).Some? && |faults| == |m.entries|
    requires MissingCrashes(fm, fm.OutputsOn(t.files, t.dirs).value, {}, m)
    requires t' == After(t, a, m, faults, |m.entries|)
    ensures Archives(fm, a, t, m, faults, t')
  {
  }

  lemma JoinRealtime(a: DiskArchiver)
    ensures a.Dst([REALTIME_CRASHES]) == a.DstRoot + [REALTIME_CRASHES]
  {
    WalkDown(a.DstRoot, [REALTIME_CRASHES]);
  }

  lemma EntriesSlashless(outputs: map<string, Output>, m: Manifest)
    requires Proper(outputs)
    requires forall i | 0 <= i < |m.entries| :: m.entries[i] == EntryOf(m.entries[i].src)
    requires forall p :: Covers(m.entries, p) ==> LocalCrash(outputs, p)
    ensures forall i | 0 <= i < |m.entries| :: Clean(m.entries[i].src) && Slashless(m.entries[i].dst)
  {
    forall i | 0 <= i < |m.entries|
      ensures Clean(m.entries[i].src) && Slashless(m.entries[i].dst)
    {
      var p := m.entries[i].src;
      assert Covers(m.entries, p);
      var id, j :| id in outputs && 0 <= j < |outputs[id].crashes| && p == RelCrash(id, outputs[id].crashes[j].name);
      RelCrashClean(id, outputs[id].crashes[j].name);
    }
  }

  /** Where a crash goes in the archive. */
  function Place(a: DiskArchiver, id: string, name: string): Path {
    a.DstRoot + [REALTIME_CRASHES, OUTPUT, id, CRASHES, name]
  }

  lemma EntryPlaces(fm: FleetFileManager, a: DiskArchiver, m: Manifest, i: nat)
    requires m.srcRoot == fm.Basedir && i < |m.entries| && m.entries[i] == EntryOf(m.entries[i].src)
    requires Clean(m.entries[i].src)
    ensures Src(m, i) == fm.Basedir + m.entries[i].src
    ensures DstAt(a, m, i) == a.DstRoot + [REALTIME_CRASHES] + m.entries[i].src
  {
    var p := m.entries[i].src;
    WalkDown(fm.Basedir, p);
    WalkDown(a.DstRoot, [REALTIME_CRASHES] + p);
    assert a.DstRoot + ([REALTIME_CRASHES] + p) == a.DstRoot + [REALTIME_CRASHES] + p;
  }

  lemma CrashPlaces(fm: FleetFileManager, a: DiskArchiver, t: DiskState, m: Manifest, faults: seq<Fault>,
                    t': DiskState, i: nat)
    requires WellFormed(t.files, t.dirs) && Archives(fm, a, t, m, faults, t') && i < |m.entries|
    ensures |m.entries[i].src| == 4
    ensures Src(m, i) == fm.Basedir + m.entries[i].src
    ensures DstAt(a, m, i) == a.DstRoot + [REALTIME_CRASHES] + m.entries[i].src
    ensures LocalCrash(fm.OutputsOn(t.files, t.dirs).value, m.entries[i].src)
  {
    OutputsProper(fm, t);
    EntriesSlashless(fm.OutputsOn(t.files, t.dirs).value, m);
    EntryPlaces(fm, a, m, i);
    assert Covers(m.entries, m.entries[i].src);
  }

  lemma LiteralPlace(a: DiskArchiver, id: string, name: string)
    ensures Place(a, id, name) == a.DstRoot + ["realtime-crashes", "output", id, "crashes", name]
  {
  }

  lemma PlaceSplits(a: DiskArchiver, id: string, name: string)
    ensures a.DstRoot + [REALTIME_CRASHES] + RelCrash(id, name) == Place(a, id, name)
  {
    assert [REALTIME_CRASHES] + RelCrash(id, name) == [REALTIME_CRASHES, OUTPUT, id, CRASHES, name];
  }

  /** The archive does not lie over the server's own files. */
  predicate Apart(fm: FleetFileManager, a: DiskArchiver) {
    fm.Basedir != a.DstRoot + [REALTIME_CRASHES]
  }

  lemma TailsEqual(d: Path, p: Path, e: Path, q: Path)
    requires |p| == |q| && d + p == e + q
    ensures d == e && p == q
  {
    assert (d + p)[..|d|] == d && (e + q)[..|d|] == e && (d + p)[|d|..] == p && (e + q)[|d|..] == q;
  }

  lemma CrashesSeparate(fm: FleetFileManager, a: DiskArchiver, t: DiskState, m: Manifest, faults: seq<Fault>,
                        t': DiskState)
    requires WellFormed(t.files, t.dirs) && Archives(fm, a, t, m, faults, t') && Apart(fm, a)
    ensures Separate(a, m) && Flat(a, m)
  {
    forall i | 0 <= i < |m.entries|
      ensures |m.entries[i].src| == 4 && Src(m, i) == fm.Basedir + m.entries[i].src
      ensures DstAt(a, m, i) == a.DstRoot + [REALTIME_CRASHES] + m.entries[i].src
    {
      CrashPlaces(fm, a, t, m, faults, t', i);
    }
    var d := a.DstRoot + [REALTIME_CRASHES];
    forall i, j | 0 <= i < j < |m.entries|
      ensures DstAt(a, m, i) != DstAt(a, m, j)
    {
      if d + m.entries[i].src == d + m.entries[j].src {
        TailsEqual(d, m.entries[i].src, d, m.entries[j].src);
      }
    }
    forall i, j | 0 <= i < |m.entries| && 0 <= j < |m.entries|
      ensures Src(m, i) != DstAt(a, m, j)
    {
      if fm.Basedir + m.entries[i].src == d + m.entries[j].src {
        TailsEqual(fm.Basedir, m.entries[i].src, d, m.entries[j].src);
      }
    }
  }

  lemma CrashFile(fm: FleetFileManager, t: DiskState, id: string, j: nat)
    requires WellFormed(t.files, t.dirs) && fm.OutputsOn(t.files, t.dirs).Some?
    requires id in fm.OutputsOn(t.files, t.dirs).value && j < |fm.OutputsOn(t.files, t.dirs).value[id].crashes|
    ensures var crash := fm.OutputsOn(t.files, t.dirs).value[id].crashes[j];
            Body(t.files, fm.Basedir + RelCrash(id, crash.name)) == Some(crash.body)
  {
    fm.IdIsComponent(t.files, t.dirs, id);
    fm.Afl(id).Layout();
    CorpusEntry(t.files, fm.Afl(id).CrashesDir(), j);
    var crash := fm.OutputsOn(t.files, t.dirs).value[id].crashes[j];
    assert fm.Basedir + [OUTPUT, id, CRASHES] + [crash.name] == fm.Basedir + RelCrash(id, crash.name);
  }

  /** The entry of a crash, and where it goes. */
  lemma CrashEntry(fm: FleetFileManager, a: DiskArchiver, t: DiskState, m: Manifest, faults: seq<Fault>, t': DiskState,
                   id: string, j: nat) returns (i: nat)
    requires WellFormed(t.files, t.dirs) && Archives(fm, a, t, m, faults, t')
    requires id in fm.OutputsOn(t.files, t.dirs).value && j < |fm.OutputsOn(t.files, t.dirs).value[id].crashes|
    ensures var crash := fm.OutputsOn(t.files, t.dirs).value[id].crashes[j];
            && i < |m.entries| && DstAt(a, m, i) == Place(a, id, crash.name)
            && Src(m, i) == fm.Basedir + RelCrash(id, crash.name)
            && Body(t.files, Src(m, i)) == Some(crash.body)
  {
    var crash := fm.OutputsOn(t.files, t.dirs).value[id].crashes[j];
    assert LocalCrash(fm.OutputsOn(t.files, t.dirs).value, RelCrash(id, crash.name));
    assert Covers(m.entries, RelCrash(id, crash.name));
    i :| 0 <= i < |m.entries| && m.entries[i].src == RelCrash(id, crash.name);
    CrashPlaces(fm, a, t, m, faults, t', i);
    PlaceSplits(a, id, crash.name);
    CrashFile(fm, t, id, j);
  }

  // What happens where the archive lies over the server's files: every crash is copied onto itself.

  lemma SelfCopy(t: DiskState, p: Path, fault: Fault)
    requires WellFormed(t.files, t.dirs) && p in t.files
    ensures Succeeds(t, p, p, fault) <==> fault.NoFault?
    ensures CopyOne(t, p, p, fault) == if fault.BeforeCreate? then t else DiskState(t.files[p := []], t.dirs)
  {
    PrefixesAreDirs(t.files, t.dirs, p);
    forall n | 0 <= n <= |DirName(p)|
      ensures DirName(p)[..n] in t.dirs && DirName(p)[..n] !in t.files
    {
      assert DirName(p)[..n] == p[..n];
    }
    assert t.dirs + Prefixes(DirName(p)) == t.dirs;
  }

  /** All entries copy files onto themselves, each a different one. */
  ghost predicate OntoThemselves(t: DiskState, a: DiskArchiver, m: Manifest) {
    && (forall i | 0 <= i < |m.entries| :: Src(m, i) == DstAt(a, m, i) && Src(m, i) in t.files)
    && (forall i, j | 0 <= i < j < |m.entries| :: Src(m, i) != Src(m, j))
  }

  /** Copies onto themselves change bodies only. */
  ghost predicate SameShape(t: DiskState, u: DiskState) {
    u.dirs == t.dirs && u.files.Keys == t.files.Keys
  }

  lemma SameShapeIsWellFormed(t: DiskState, u: DiskState)
    requires WellFormed(t.files, t.dirs) && SameShape(t, u)
    ensures WellFormed(u.files, u.dirs)
  {
    assert forall p | p in u.files :: p in t.files;
  }

  lemma SelfStep(t: DiskState, a: DiskArchiver, m: Manifest, faults: seq<Fault>, k: nat)
    requires k < |m.entries| == |faults| && OntoThemselves(t, a, m)
    requires WellFormed(t.files, t.dirs) && SameShape(t, After(t, a, m, faults, k))
    ensures var before := After(t, a, m, faults, k);
            After(t, a, m, faults, k + 1) ==
            if faults[k].BeforeCreate? then before else DiskState(before.files[Src(m, k) := []], before.dirs)
  {
    SameShapeIsWellFormed(t, After(t, a, m, faults, k));
    assert Src(m, k) in t.files.Keys;
    SelfCopy(After(t, a, m, faults, k), Src(m, k), faults[k]);
  }

  lemma ShapeStays(t: DiskState, u: DiskState, p: Path)
    requires SameShape(t, u) && p in t.files
    ensures SameShape(t, DiskState(u.files[p := []], u.dirs))
  {
    assert p in t.files.Keys;
  }

  lemma {:induction false} SelfShape(t: DiskState, a: DiskArchiver, m: Manifest, faults: seq<Fault>, k: nat)
    requires k <= |m.entries| == |faults| && WellFormed(t.files, t.dirs) && OntoThemselves(t, a, m)
    ensures SameShape(t, After(t, a, m, faults, k))
  {
    if k > 0 {
      SelfShape(t, a, m, faults, k - 1);
      SelfStep(t, a, m, faults, k - 1);
      ShapeStays(t, After(t, a, m, faults, k - 1), Src(m, k - 1));
    }
  }

  lemma SelfCopies(t: DiskState, a: DiskArchiver, m: Manifest, faults: seq<Fault>, i: nat)
    requires i < |m.entries| == |faults| && WellFormed(t.files, t.dirs) && OntoThemselves(t, a, m)
    ensures Body(After(t, a, m, faults, |m.entries|).files, Src(m, i)) ==
            if faults[i].BeforeCreate? then Body(t.files, Src(m, i)) else Some([])
  {
    SelfShape(t, a, m, faults, i);
    SelfStep(t, a, m, faults, i);
    Untouched(t, a, m, faults, i, Src(m, i));
    LaterUntouched(t, a, m, faults, i, |m.entries|);
  }

  lemma CrashesOntoThemselves(fm: FleetFileManager, a: DiskArchiver, t: DiskState, m: Manifest, faults: seq<Fault>,
                              t': DiskState)
    requires WellFormed(t.files, t.dirs) && Archives(fm, a, t, m, faults, t') && !Apart(fm, a)
    ensures OntoThemselves(t, a, m)
  {
    forall i | 0 <= i < |m.entries|
      ensures Src(m, i) == DstAt(a, m, i) == fm.Basedir + m.entries[i].src && Src(m, i) in t.files
    {
      CrashPlaces(fm, a, t, m, faults, t', i);
      LocalIsFile(fm, t, m.entries[i].src);
    }
    forall i, j | 0 <= i < j < |m.entries|
      ensures Src(m, i) != Src(m, j)
    {
      assert (fm.Basedir + m.entries[i].src)[|fm.Basedir|..] == m.entries[i].src;
      assert (fm.Basedir + m.entries[j].src)[|fm.Basedir|..] == m.entries[j].src;
    }
  }

  lemma LocalIsFile(fm: FleetFileManager, t: DiskState, p: Path)
    requires WellFormed(t.files, t.dirs) && fm.OutputsOn(t.files, t.dirs).Some?
    requires LocalCrash(fm.OutputsOn(t.files, t.dirs).value, p)
    ensures fm.Basedir + p in t.files
  {
    var outputs := fm.OutputsOn(t.files, t.dirs).value;
    var id, j :| id in outputs && 0 <= j < |outputs[id].crashes| && p == RelCrash(id, outputs[id].crashes[j].name);
    CrashFile(fm, t, id, j);
  }

  /** Then a copy without a fault succeeds and leaves an empty file, on the server as in the archive. */
  lemma CrashEmptied(fm: FleetFileManager, a: DiskArchiver, t: DiskState, m: Manifest, faults: seq<Fault>,
                     t': DiskState, i: nat)
    requires WellFormed(t.files, t.dirs) && Archives(fm, a, t, m, faults, t') && !Apart(fm, a) && i < |m.entries|
    ensures Src(m, i) == DstAt(a, m, i)
    ensures Copied(t, a, m, faults, i) <==> faults[i].NoFault?
    ensures Body(t'.files, DstAt(a, m, i)) ==
            if faults[i].BeforeCreate? then Body(t.files, DstAt(a, m, i)) else Some([])
  {
    CrashesOntoThemselves(fm, a, t, m, faults, t');
    SelfCopies(t, a, m, faults, i);
    SelfShape(t, a, m, faults, i);
    SameShapeIsWellFormed(t, After(t, a, m, faults, i));
    assert Src(m, i) in t.files.Keys;
    SelfCopy(After(t, a, m, faults, i), Src(m, i), faults[i]);
  }

  /** Elsewhere the archive gets the body. */
  lemma CrashCopied(fm: FleetFileManager, a: DiskArchiver, t: DiskState, m: Manifest, faults: seq<Fault>, t': DiskState,
                    i: nat, body: Bytes)
    requires WellFormed(t.files, t.dirs) && Archives(fm, a, t, m, faults, t') && Apart(fm, a) && i < |m.entries|
    requires Body(t.files, Src(m, i)) == Some(body)
    ensures Copied(t, a, m, faults, i) ==> Body(t'.files, DstAt(a, m, i)) == Some(body)
    ensures Ready(t, a, m, i) ==>
              && (Copied(t, a, m, faults, i) <==> faults[i].NoFault?)
              && Body(t'.files, DstAt(a, m, i)) ==
                 if faults[i].BeforeCreate? then Body(t.files, DstAt(a, m, i)) else Some(Cut(body, faults[i]))
    ensures Body(t'.files, Src(m, i)) == Some(body)
  {
    CrashesSeparate(fm, a, t, m, faults, t');
    ManifestResult(t, a, m, faults, i);
    if Ready(t, a, m, i) {
      OnlyFaultsFail(t, a, m, faults, i);
    }
  }

  /** What a good copy of a crash leaves: its body, unless it is a copy onto itself. */
  function Left(fm: FleetFileManager, a: DiskArchiver, body: Bytes): Bytes {
    if Apart(fm, a) then body else []
  }

  /** Completeness. Every crash on the server has an entry `i`, in every call, whatever is archived already. Unless its
      own copy fails, the archive then holds the crash with its current body, provided the archive is apart from the
      server's files; and that copy can fail only through a fault of its own if nothing is in the way of its place.
      Where the archive is not apart, good copies empty the crashes, on the server too. */
  lemma CrashArchived(fm: FleetFileManager, a: DiskArchiver, t: DiskState, m: Manifest, faults: seq<Fault>,
                      t': DiskState, id: string, j: nat) returns (i: nat)
    requires WellFormed(t.files, t.dirs) && Archives(fm, a, t, m, faults, t')
    requires id in fm.OutputsOn(t.files, t.dirs).value && j < |fm.OutputsOn(t.files, t.dirs).value[id].crashes|
    ensures var crash := fm.OutputsOn(t.files, t.dirs).value[id].crashes[j];
            var place := Place(a, id, crash.name);
            && i < |m.entries| && DstAt(a, m, i) == place
            && (Copied(t, a, m, faults, i) ==> Body(t'.files, place) == Some(Left(fm, a, crash.body)))
            && (Ready(t, a, m, i) ==>
                  && (Copied(t, a, m, faults, i) <==> faults[i].NoFault?)
                  && Body(t'.files, place) == if faults[i].BeforeCreate? then Body(t.files, place)
                                              else Some(Cut(Left(fm, a, crash.body), faults[i])))
            && Body(t'.files, fm.Basedir + RelCrash(id, crash.name)) ==
               if Apart(fm, a) then Some(crash.body) else Body(t'.files, place)
  {
    i := CrashEntry(fm, a, t, m, faults, t', id, j);
    if Apart(fm, a) {
      CrashCopied(fm, a, t, m, faults, t', i, fm.OutputsOn(t.files, t.dirs).value[id].crashes[j].body);
    } else {
      CrashEmptied(fm, a, t, m, faults, t', i);
    }
  }

  /** Exactly when archiving does what it is for: a non-empty crash with nothing in the way of its place, copied without
      a fault, is in the archive if and only if the archive is apart from the server's files. */
  lemma ArchivedExactlyApart(fm: FleetFileManager, a: DiskArchiver, t: DiskState, m: Manifest, faults: seq<Fault>,
                             t': DiskState, id: string, j: nat) returns (i: nat)
    requires WellFormed(t.files, t.dirs) && Archives(fm, a, t, m, faults, t')
    requires id in fm.OutputsOn(t.files, t.dirs).value && j < |fm.OutputsOn(t.files, t.dirs).value[id].crashes|
    ensures var crash := fm.OutputsOn(t.files, t.dirs).value[id].crashes[j];
            && i < |m.entries| && DstAt(a, m, i) == Place(a, id, crash.name)
            && (Ready(t, a, m, i) && faults[i].NoFault? && crash.body != [] ==>
                  (Body(t'.files, Place(a, id, crash.name)) == Some(crash.body) <==> Apart(fm, a)))
  {
    i := CrashArchived(fm, a, t, m, faults, t', id, j);
  }

  /** Nothing but the places of the server's crashes changes. */
  lemma NothingElseChanges(fm: FleetFileManager, a: DiskArchiver, t: DiskState, m: Manifest, faults: seq<Fault>,
                           t': DiskState, p: Path)
    requires WellFormed(t.files, t.dirs) && Archives(fm, a, t, m, faults, t')
    requires forall q | LocalCrash(fm.OutputsOn(t.files, t.dirs).value, q) :: p != a.DstRoot + [REALTIME_CRASHES] + q
    ensures Body(t'.files, p) == Body(t.files, p)
  {
    forall i | 0 <= i < |m.entries|
      ensures DstAt(a, m, i) != p
    {
      CrashPlaces(fm, a, t, m, faults, t', i);
    }
    Untouched(t, a, m, faults, |m.entries|, p);
  }

  /** Since archived crashes are copied again and again, and a copy starts by truncating, a crash once archived need not
      stay so: it does exactly if its next copy is not cut short, and is not a copy onto itself. */
  lemma StaysArchived(fm: FleetFileManager, a: DiskArchiver, t: DiskState, m: Manifest, faults: seq<Fault>,
                      t': DiskState, id: string, j: nat) returns (i: nat)
    requires WellFormed(t.files, t.dirs) && Archives(fm, a, t, m, faults, t')
    requires id in fm.OutputsOn(t.files, t.dirs).value && j < |fm.OutputsOn(t.files, t.dirs).value[id].crashes|
    requires var crash := fm.OutputsOn(t.files, t.dirs).value[id].crashes[j];
             Body(t.files, Place(a, id, crash.name)) == Some(crash.body)
    ensures var crash := fm.OutputsOn(t.files, t.dirs).value[id].crashes[j];
            && i < |m.entries| && DstAt(a, m, i) == Place(a, id, crash.name)
            && (Body(t'.files, Place(a, id, crash.name)) == Some(crash.body) <==>
                if Apart(fm, a) then !(faults[i].Copying? && faults[i].n < |crash.body|)
                else faults[i].BeforeCreate? || crash.body == [])
  {
    i := CrashArchived(fm, a, t, m, faults, t', id, j);
    ExistingIsReady(t, a, m, i);
    CutWhole(fm.OutputsOn(t.files, t.dirs).value[id].crashes[j].body, faults[i]);
  }

  lemma CutWhole(body: Bytes, fault: Fault)
    ensures Cut(body, fault) == body <==> !(fault.Copying? && fault.n < |body|)
  {
  }

  lemma ExistingIsReady(t: DiskState, a: DiskArchiver, m: Manifest, i: nat)
    requires WellFormed(t.files, t.dirs) && i < |m.entries| && DstAt(a, m, i) in t.files
    ensures Ready(t, a, m, i)
  {
    var dst := DstAt(a, m, i);
    PrefixesAreDirs(t.files, t.dirs, dst);
    assert forall n | 0 <= n < |dst| :: dst[..n] in t.dirs && dst[..n] !in t.files;
  }

  // ---------------------------------------------------------------- an upload

  datatype State = State(Id: string, Stats: Stats.FuzzerStats, AflOutput: AflOutput)

  /** The tree once an upload is stored completely. */
  ghost predicate Stored(fm: FleetFileManager, t: DiskState, id: string, output: Output, t': DiskState) {
    && WellFormed(t'.files, t'.dirs)
    && t'.files == Apply(t.files, fm.Afl(id).OutputWrites(output))
    && t.dirs <= t'.dirs && forall kind: Kind :: fm.Afl(id).Dir(kind) in t'.dirs
  }

  /** The tree once the whole upload is stored. */
  function StoredTree(fm: FleetFileManager, t: DiskState, id: string, output: Output): DiskState {
    DiskState(Apply(t.files, fm.Afl(id).OutputWrites(output)), fm.Afl(id).WithDirs(t.dirs))
  }

  /** All files of the upload can be opened once its directories exist. */
  predicate AllAccepted(fm: FleetFileManager, t: DiskState, id: string, output: Output) {
    var ws := fm.Afl(id).OutputWrites(output);
    Accepted(fm.Afl(id).WithDirs(t.dirs), ws) == ws
  }

  /** Stores the upload, archives, notes the client. The server dies at the first error, before it has noted the
      client: if a directory cannot be made, if a file cannot be opened, or if the archive or the outputs cannot be read
      then. */
  method PostState(disk: Disk, fm: FleetFileManager, a: DiskArchiver, nodes: Nodes.Nodes, state: State, now: Nodes.Time,
                   faults: nat -> Fault)
    returns (alive: bool, ghost m: Manifest)
    requires disk.Valid() && Clean(fm.Basedir) && Clean(a.DstRoot)
    modifies disk`files, disk`dirs, nodes.Stats, nodes.updates
    ensures disk.Valid()
    ensures var t, output := old(StateOf(disk)), old(state.AflOutput.Value());
            var stored := StoredTree(fm, t, state.Id, output);
            && (alive <==> && fm.Afl(state.Id).DirsFree(t.files) && AllAccepted(fm, t, state.Id, output)
                           && Survives(fm, a, stored))
            && (alive ==> && Stored(fm, t, state.Id, output, stored)
                          && Archives(fm, a, stored, m, FaultsOf(m, faults), StateOf(disk)))
            && (!alive ==>
                  disk.files == if !fm.Afl(state.Id).DirsFree(t.files) then t.files
                                else Apply(t.files, Accepted(stored.dirs, fm.Afl(state.Id).OutputWrites(output))))
    ensures Nodes.TableOf(nodes) ==
            if alive then Nodes.Updated(old(Nodes.TableOf(nodes)), state.Id, state.Stats, now)
            else old(Nodes.TableOf(nodes))
  {
    m := Manifest([], []);
    ghost var output, t := state.AflOutput.Value(), StateOf(disk);
    var afl := fm.Afl(state.Id);
    alive := afl.MkAllOutputDirs(disk);
    if !alive {
      return;
    }
    alive := fm.WriteOutput(disk, state.Id, state.AflOutput);
    if !alive {
      return;
    }
    assert StateOf(disk) == StoredTree(fm, t, state.Id, output);
    StoredWhole(fm, t, state.Id, output);
    alive, m := ArchiveNewCrashes(disk, fm, a, faults);
    if alive {
      Nodes.SetStats(nodes, state.Id, state.Stats, now);
    }
  }

  lemma StoredWhole(fm: FleetFileManager, t: DiskState, id: string, output: Output)
    requires var stored := StoredTree(fm, t, id, output); WellFormed(stored.files, stored.dirs)
    ensures Stored(fm, t, id, output, StoredTree(fm, t, id, output))
  {
    var afl := fm.Afl(id);
    forall kind: Kind
      ensures afl.Dir(kind) in afl.WithDirs(t.dirs)
    {
      assert afl.Dir(kind)[..|afl.Dir(kind)|] == afl.Dir(kind);
      match kind case Queue => case Crashes => case Hangs =>
    }
  }

  lemma StoredId(fm: FleetFileManager, t: DiskState, id: string, output: Output, t': DiskState)
    requires Stored(fm, t, id, output, t') && Component(id)
    ensures id in fm.Ids(t'.dirs)
  {
    var dir := fm.Afl(id).Dir(Queue);
    fm.Afl(id).Layout();
    PrefixesAreDirs(t'.files, t'.dirs, dir);
    assert dir in t'.dirs;
    assert dir[..|fm.Basedir| + 2] == fm.TopLevelOutputDir() + [id];
    fm.IdsOf(t'.dirs, id);
  }

  lemma StoredBody(fm: FleetFileManager, t: DiskState, id: string, output: Output, t': DiskState, name: string)
    requires Stored(fm, t, id, output, t') && Component(id) && ComponentOutput(output)
    ensures var p := fm.Basedir + RelCrash(id, name);
            && fm.Afl(id).CrashesDir() + [name] == p
            && Body(t'.files, p) == Merge(Body(t.files, p), BodiesNamed(output.crashes, name))
  {
    var dir := fm.Afl(id).Dir(Crashes);
    fm.Afl(id).Layout();
    assert dir + [name] == fm.Basedir + RelCrash(id, name);
    OutputBodies(fm.Afl(id), output, Crashes, name);
    ApplyOnPath(t.files, fm.Afl(id).OutputWrites(output), dir + [name]);
  }

  /** The stored crash of a given name. */
  lemma StoredCrash(fm: FleetFileManager, t: DiskState, id: string, output: Output, t': DiskState, name: string)
    returns (j: nat)
    requires Stored(fm, t, id, output, t') && Component(id) && ComponentOutput(output)
    requires name in InputNames(output.crashes) && name != README
    ensures j < |CorpusOf(t'.files, fm.Afl(id).CrashesDir())|
    ensures var crash := CorpusOf(t'.files, fm.Afl(id).CrashesDir())[j];
            var was := Body(t.files, fm.Basedir + RelCrash(id, name));
            crash.name == name && Some(crash.body) == Merge(was, BodiesNamed(output.crashes, name))
  {
    StoredBody(fm, t, id, output, t', name);
    NamedHasBody(output.crashes, name);
    j := CorpusHas(t'.files, fm.Afl(id).CrashesDir(), name);
  }

  lemma {:induction false} NamedHasBody(inputs: seq<Input>, name: string)
    ensures BodiesNamed(inputs, name) != [] <==> name in InputNames(inputs)
  {
    if inputs != [] {
      var front := inputs[..|inputs| - 1];
      NamedHasBody(front, name);
      assert InputNames(inputs) == InputNames(front) + [inputs[|inputs| - 1].name];
    }
  }

  /** No crash is lost if the archive is apart from the server's files: when an upload has been handled, each of its
      crashes whose copy did not fail is in the archive, with the body that overlaying the uploaded one on the server's
      earlier one gives. If it is not apart, the crash is empty then. */
  lemma UploadedCrashArchived(fm: FleetFileManager, a: DiskArchiver, t: DiskState, id: string, output: Output,
                              stored: DiskState, m: Manifest, faults: seq<Fault>, t': DiskState, name: string)
    returns (i: nat)
    requires Stored(fm, t, id, output, stored) && Archives(fm, a, stored, m, faults, t')
    requires Component(id) && ComponentOutput(output)
    requires name in InputNames(output.crashes) && name != README
    ensures i < |m.entries| && DstAt(a, m, i) == Place(a, id, name)
    ensures var merged := Merge(Body(t.files, fm.Basedir + RelCrash(id, name)), BodiesNamed(output.crashes, name));
            Copied(stored, a, m, faults, i) ==>
              Body(t'.files, Place(a, id, name)) == if Apart(fm, a) then merged else Some([])
    ensures Ready(stored, a, m, i) ==> (Copied(stored, a, m, faults, i) <==> faults[i].NoFault?)
  {
    StoredId(fm, t, id, output, stored);
    var j := StoredCrash(fm, t, id, output, stored, name);
    i := CrashArchived(fm, a, stored, m, faults, t', id, j);
  }
}
