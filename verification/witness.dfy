/** A server with one fuzzer, on which backups and archives lose something. */
module Witness {
  import opened Text
  import opened Paths
  import opened FileStore
  import opened Disk
  import opened Corpus
  import opened AflFiles
  import opened Fleet
  import opened Archiver
  import Backup
  import Server

  /** The fuzzer `id` has one queue file, one crash, and no hangs. */
  datatype Site = Site(base: Path, id: string, queued: string, crash: string, body: Bytes) {
    ghost predicate Valid() {
      && Clean(base) && Component(id) && Component(queued) && Component(crash) && queued != README && crash != README
    }

    function Manager(): FleetFileManager {
      FleetFileManager(base)
    }

    function Dir(kind: Kind): Path {
      base + [OUTPUT, id, KindName(kind)]
    }

    function QueueFile(): Path {
      base + [OUTPUT, id, QUEUE, queued]
    }

    function CrashFile(): Path {
      base + Server.RelCrash(id, crash)
    }

    function Disk(): DiskState {
      DiskState(map[QueueFile() := body, CrashFile() := body],
                Prefixes(Dir(Queue)) + Prefixes(Dir(Crashes)) + Prefixes(Dir(Hangs)))
    }
  }

  lemma PrefixesClosed(p: Path, d: Path)
    requires d in Prefixes(p)
    ensures |d| <= |p| && d == p[..|d|]
    ensures d != [] ==> Parent(d) in Prefixes(p)
    ensures Clean(p) ==> Clean(d)
  {
    var n :| 0 <= n <= |p| && d == p[..n];
    if d != [] {
      assert Parent(d) == p[..n - 1];
    }
  }

  lemma DirsClean(s: Site, kind: Kind)
    requires s.Valid()
    ensures Clean(s.Dir(kind)) && s.Dir(kind) in Prefixes(s.Dir(kind))
  {
    assert s.Dir(kind)[..|s.Dir(kind)|] == s.Dir(kind);
    match kind case Queue => case Crashes => case Hangs =>
  }

  /** Every directory of the site is on the way to one of the three. */
  lemma SiteDir(s: Site, d: Path)
    requires s.Valid() && d in s.Disk().dirs
    ensures Clean(d) && |d| <= |s.base| + 3 && (d != [] ==> Parent(d) in s.Disk().dirs)
    ensures d == [] || s.base == [] || d[0] == s.base[0]
  {
    var kind: Kind := if d in Prefixes(s.Dir(Queue)) then Queue
                      else if d in Prefixes(s.Dir(Crashes)) then Crashes else Hangs;
    assert d in Prefixes(s.Dir(kind));
    DirsClean(s, kind);
    PrefixesClosed(s.Dir(kind), d);
  }

  lemma SiteDirId(s: Site, d: Path)
    requires d in s.Disk().dirs && |d| >= |s.base| + 2
    ensures d[|s.base| + 1] == s.id
  {
    var kind: Kind := if d in Prefixes(s.Dir(Queue)) then Queue
                      else if d in Prefixes(s.Dir(Crashes)) then Crashes else Hangs;
    PrefixesClosed(s.Dir(kind), d);
  }

  lemma SiteFile(s: Site, p: Path)
    requires s.Valid() && p in s.Disk().files
    ensures Clean(p) && |p| == |s.base| + 4 && Parent(p) in s.Disk().dirs && (s.base == [] || p[0] == s.base[0])
  {
    DirsClean(s, Queue);
    DirsClean(s, Crashes);
    assert Parent(s.QueueFile()) == s.Dir(Queue) && Parent(s.CrashFile()) == s.Dir(Crashes);
  }

  lemma SiteWellFormed(s: Site)
    requires s.Valid()
    ensures WellFormed(s.Disk().files, s.Disk().dirs)
  {
    assert [] in s.Disk().dirs by {
      assert s.Dir(Queue)[..0] == [];
    }
    forall d | d in s.Disk().dirs
      ensures Clean(d) && |d| <= |s.base| + 3 && (d != [] ==> Parent(d) in s.Disk().dirs)
    {
      SiteDir(s, d);
    }
    forall p | p in s.Disk().files
      ensures Clean(p) && |p| == |s.base| + 4 && Parent(p) in s.Disk().dirs
    {
      SiteFile(s, p);
    }
  }

  // ---------------------------------------------------------------- what the server reads

  /** Below `output/` the disk is the site's. */
  ghost predicate Hosts(t: DiskState, s: Site) {
    forall p | s.base + [OUTPUT] <= p ::
      Body(t.files, p) == Body(s.Disk().files, p) && (p in t.dirs <==> p in s.Disk().dirs)
  }

  function Outputs(s: Site): map<string, Output> {
    map[s.id := Output([Input(s.queued, s.body)], [Input(s.crash, s.body)], [])]
  }

  lemma SingleCorpus(files: Files, dir: Path, x: Input)
    requires x.name != README
    requires forall name :: Body(files, dir + [name]) == if name == x.name then Some(x.body) else None
    ensures CorpusOf(files, dir) == [x]
  {
    assert [x][..0] == [];
    forall name
      ensures Lookup([x], name) == if name == README then None else Body(files, dir + [name])
    {
    }
    CorpusIsThe(files, dir, [x]);
  }

  lemma NoCorpus(files: Files, dir: Path)
    requires forall name :: Body(files, dir + [name]) == None
    ensures CorpusOf(files, dir) == []
  {
    CorpusIsThe(files, dir, []);
  }

  lemma SiteBodies(t: DiskState, s: Site, kind: Kind, name: string)
    requires s.Valid() && Hosts(t, s)
    ensures Body(t.files, s.Dir(kind) + [name]) ==
            if (kind == Queue && name == s.queued) || (kind == Crashes && name == s.crash) then Some(s.body) else None
  {
    var p, n := s.Dir(kind) + [name], |s.base|;
    assert s.base + [OUTPUT] <= p;
    assert p[n + 2] == KindName(kind) && p[n + 3] == name;
    assert s.QueueFile()[n + 2] == QUEUE && s.QueueFile()[n + 3] == s.queued;
    assert s.CrashFile()[n + 2] == CRASHES && s.CrashFile()[n + 3] == s.crash;
    assert s.Dir(Queue) + [s.queued] == s.QueueFile() && s.Dir(Crashes) + [s.crash] == s.CrashFile();
    match kind case Queue => case Crashes => case Hangs =>
  }

  lemma SiteCorpora(t: DiskState, s: Site)
    requires s.Valid() && Hosts(t, s)
    ensures CorpusOf(t.files, s.Dir(Queue)) == [Input(s.queued, s.body)]
    ensures CorpusOf(t.files, s.Dir(Crashes)) == [Input(s.crash, s.body)]
    ensures CorpusOf(t.files, s.Dir(Hangs)) == []
  {
    forall kind, name
      ensures Body(t.files, s.Dir(kind) + [name]) ==
              if (kind == Queue && name == s.queued) || (kind == Crashes && name == s.crash) then Some(s.body) else None
    {
      SiteBodies(t, s, kind, name);
    }
    SingleCorpus(t.files, s.Dir(Queue), Input(s.queued, s.body));
    SingleCorpus(t.files, s.Dir(Crashes), Input(s.crash, s.body));
    NoCorpus(t.files, s.Dir(Hangs));
  }

  lemma SiteIds(t: DiskState, s: Site, id: string)
    requires s.Valid() && Hosts(t, s)
    ensures id in s.Manager().Ids(t.dirs) <==> id == s.id
  {
    var top := s.Manager().TopLevelOutputDir();
    var p := top + [id];
    s.Manager().IdsOf(t.dirs, id);
    assert top <= p && p[|top|] == id;
    assert forall kind :: s.Dir(kind)[..|top| + 1] == top + [s.id];
    assert forall kind :: p in Prefixes(s.Dir(kind)) ==> p == s.Dir(kind)[..|top| + 1];
    assert top + [s.id] in Prefixes(s.Dir(Queue));
  }

  lemma SiteDirs(t: DiskState, s: Site)
    requires s.Valid() && Hosts(t, s)
    ensures s.base + [OUTPUT] in t.dirs && forall kind: Kind :: s.Dir(kind) in t.dirs
  {
    forall kind: Kind
      ensures s.Dir(kind) in t.dirs
    {
      DirsClean(s, kind);
      assert s.base + [OUTPUT] <= s.Dir(kind);
      match kind case Queue => case Crashes => case Hangs =>
    }
    assert s.base + [OUTPUT] == s.Dir(Queue)[..|s.base| + 1];
  }

  lemma SiteOutput(t: DiskState, s: Site)
    requires s.Valid() && Hosts(t, s)
    ensures s.Manager().Afl(s.id).OutputOn(t.files, t.dirs) == Some(Outputs(s)[s.id])
  {
    var m := s.Manager().Afl(s.id);
    m.Layout();
    SiteDirs(t, s);
    SiteCorpora(t, s);
    assert m.Dir(Queue) == s.Dir(Queue) && m.Dir(Crashes) == s.Dir(Crashes) && m.Dir(Hangs) == s.Dir(Hangs);
  }

  lemma OneOutput(fm: FleetFileManager, t: DiskState, id: string, output: Output)
    requires fm.TopLevelOutputDir() in t.dirs && fm.Ids(t.dirs) == {id}
    requires fm.Afl(id).OutputOn(t.files, t.dirs) == Some(output)
    ensures fm.OutputsOn(t.files, t.dirs) == Some(map[id := output])
  {
    assert forall i | i in fm.Ids(t.dirs) :: i == id;
    var read := fm.OutputsOn(t.files, t.dirs).value;
    assert read.Keys == {id} && read[id] == output;
    assert read == map[id := output];
  }

  /** The server reads the site's outputs. */
  lemma SiteOutputs(t: DiskState, s: Site)
    requires s.Valid() && Hosts(t, s)
    ensures s.Manager().OutputsOn(t.files, t.dirs) == Some(Outputs(s))
  {
    SiteDirs(t, s);
    SiteOutput(t, s);
    assert s.Manager().Ids(t.dirs) == {s.id} by {
      forall id
        ensures id in s.Manager().Ids(t.dirs) <==> id == s.id
      {
        SiteIds(t, s, id);
      }
    }
    OneOutput(s.Manager(), t, s.id, Outputs(s)[s.id]);
  }

  // ---------------------------------------------------------------- a backup that cannot be read

  /** The site's two files, and their places in a backup. */
  function BackupManifest(s: Site, sub: Path): Manifest {
    var q, c := [OUTPUT, s.id, QUEUE, s.queued], Server.RelCrash(s.id, s.crash);
    Manifest(s.base, [ManifestEntry(q, sub + q), ManifestEntry(c, sub + c)])
  }

  lemma BackupManifestIs(s: Site, sub: Path)
    requires s.Valid()
    ensures Backup.SimpleManifest(s.Disk().files, BackupManifest(s, sub), sub)
  {
    var m := BackupManifest(s, sub);
    assert m.entries[0].src[2] == QUEUE && m.entries[1].src[2] == CRASHES;
    forall p | s.base + p in s.Disk().files
      ensures exists i :: 0 <= i < |m.entries| && m.entries[i].src == p
    {
      assert (s.base + p)[|s.base|..] == p;
      assert s.QueueFile()[|s.base|..] == m.entries[0].src && s.CrashFile()[|s.base|..] == m.entries[1].src;
      if s.base + p == s.QueueFile() {
        assert m.entries[0].src == p;
      } else {
        assert m.entries[1].src == p;
      }
    }
  }

  /** Two directories that part at the root. */
  predicate Elsewhere(d: Path, e: Path) {
    d != [] && e != [] && d[0] != e[0]
  }

  lemma BackupIsFresh(s: Site, d: Path)
    requires s.Valid() && Elsewhere(d, s.base)
    ensures Backup.Fresh(s.Disk(), d)
  {
    forall p | p in s.Disk().files || p in s.Disk().dirs
      ensures p == [] || p[0] == s.base[0]
    {
      if p in s.Disk().dirs {
        SiteDir(s, p);
      } else {
        SiteFile(s, p);
      }
    }
    assert forall n | 1 <= n <= |d| :: d[..n][0] == d[0];
  }

  lemma BackupIsRun(s: Site, a: DiskArchiver, sub: Path)
    requires s.Valid() && Clean(sub) && Elsewhere(a.DstRoot + sub, s.base)
    ensures Backup.FreshBackup(s.Disk(), a, BackupManifest(s, sub), sub, [NoFault, NoFault])
  {
    SiteWellFormed(s);
    BackupManifestIs(s, sub);
    BackupIsFresh(s, a.DstRoot + sub);
  }

  /** The server reads its outputs well, but reading them from a complete backup fails: the empty directory of hangs is
      missing there. */
  lemma BackupUnreadable(s: Site, a: DiskArchiver, sub: Path)
    requires s.Valid() && Clean(sub) && Elsewhere(a.DstRoot + sub, s.base)
    ensures var t, m := s.Disk(), BackupManifest(s, sub);
            var after := After(t, a, m, [NoFault, NoFault], 2);
            && Backup.FreshBackup(t, a, m, sub, [NoFault, NoFault])
            && s.Manager().OutputsOn(t.files, t.dirs) == Some(Outputs(s))
            && FleetFileManager(a.DstRoot + sub).OutputsOn(after.files, after.dirs) == None
  {
    BackupIsRun(s, a, sub);
    SiteOutputs(s.Disk(), s);
    BackupBreaks(s, a, sub, BackupManifest(s, sub));
  }

  lemma BackupBreaks(s: Site, a: DiskArchiver, sub: Path, m: Manifest)
    requires s.Valid() && Backup.FreshBackup(s.Disk(), a, m, sub, [NoFault, NoFault]) && m.srcRoot == s.base
    ensures var after := After(s.Disk(), a, m, [NoFault, NoFault], |m.entries|);
            FleetFileManager(a.DstRoot + sub).OutputsOn(after.files, after.dirs) == None
  {
    s.Manager().Afl(s.id).Layout();
    NoHangs(s);
    Backup.EmptyDirBreaksBackup(s.Manager(), s.Disk(), a, m, sub, [NoFault, NoFault], s.id, Hangs);
  }

  lemma NoHangs(s: Site)
    requires s.Valid()
    ensures !Backup.Inhabited(s.Disk().files, s.Dir(Hangs))
    ensures Backup.Inhabited(s.Disk().files, s.base + [OUTPUT, s.id])
  {
    assert s.base + [OUTPUT, s.id] < s.QueueFile() && s.QueueFile() in s.Disk().files;
    var n := |s.base|;
    assert s.QueueFile()[n + 2] == QUEUE && s.CrashFile()[n + 2] == CRASHES && s.Dir(Hangs)[n + 2] == HANGS;
  }

  // ---------------------------------------------------------------- an archive that loses a crash

  /** The site with its crash archived. */
  function Archived(s: Site, a: DiskArchiver): DiskState {
    var place := Server.Place(a, s.id, s.crash);
    DiskState(s.Disk().files[place := s.body], s.Disk().dirs + Prefixes(DirName(place)))
  }

  lemma ArchivedHosts(s: Site, a: DiskArchiver)
    requires s.Valid() && Elsewhere(a.DstRoot, s.base)
    ensures Hosts(Archived(s, a), s)
  {
    var place := Server.Place(a, s.id, s.crash);
    forall p | s.base + [OUTPUT] <= p
      ensures p != place && p !in Prefixes(DirName(place))
      ensures Body(Archived(s, a).files, p) == Body(s.Disk().files, p)
      ensures p in Archived(s, a).dirs <==> p in s.Disk().dirs
    {
      assert p[0] == s.base[0] && place[0] == a.DstRoot[0];
      if p in Prefixes(DirName(place)) {
        PrefixesClosed(DirName(place), p);
      }
    }
  }

  lemma ArchivedWellFormed(s: Site, a: DiskArchiver)
    requires s.Valid() && Clean(a.DstRoot) && Elsewhere(a.DstRoot, s.base)
    ensures WellFormed(Archived(s, a).files, Archived(s, a).dirs)
  {
    var place := Server.Place(a, s.id, s.crash);
    var parent := DirName(place);
    SiteWellFormed(s);
    assert Clean(place) && Clean(parent);
    assert parent[..|parent|] == parent;
    forall d | d in Prefixes(parent)
      ensures Clean(d) && (d != [] ==> Parent(d) in Prefixes(parent)) && d != place
      ensures d !in s.Disk().files
    {
      PrefixesClosed(parent, d);
      assert d != [] ==> d[0] == a.DstRoot[0];
    }
    assert place !in s.Disk().dirs by {
      BackupIsFresh(s, place);
    }
  }

  lemma OneCrash(s: Site, p: Path)
    ensures Server.LocalCrash(Outputs(s), p) <==> p == Server.RelCrash(s.id, s.crash)
  {
    var outputs := Outputs(s);
    assert outputs[s.id].crashes == [Input(s.crash, s.body)];
    if p == Server.RelCrash(s.id, s.crash) {
      assert p == Server.RelCrash(s.id, outputs[s.id].crashes[0].name);
    }
  }

  function CrashManifest(s: Site): Manifest {
    Manifest(s.base, [Server.EntryOf(Server.RelCrash(s.id, s.crash))])
  }

  lemma CrashManifestIs(s: Site)
    ensures Server.MissingCrashes(s.Manager(), Outputs(s), {}, CrashManifest(s))
  {
    var m := CrashManifest(s);
    forall p
      ensures Server.Covers(m.entries, p) <==> Server.LocalCrash(Outputs(s), p)
    {
      OneCrash(s, p);
      if p == Server.RelCrash(s.id, s.crash) {
        assert m.entries[0].src == p;
      }
    }
  }

  lemma CrashArchivesRun(s: Site, a: DiskArchiver, n: nat)
    requires s.Valid() && Clean(a.DstRoot) && Elsewhere(a.DstRoot, s.base)
    ensures var t, m := Archived(s, a), CrashManifest(s);
            && WellFormed(t.files, t.dirs)
            && s.Manager().OutputsOn(t.files, t.dirs) == Some(Outputs(s))
            && Server.Archives(s.Manager(), a, t, m, [Copying(n)], After(t, a, m, [Copying(n)], 1))
  {
    var t, m := Archived(s, a), CrashManifest(s);
    ArchivedHosts(s, a);
    ArchivedWellFormed(s, a);
    SiteOutputs(t, s);
    CrashManifestIs(s);
  }

  /** A crash that is archived with its current body, and of which a later call leaves the first `n` bytes. */
  lemma CrashLost(s: Site, a: DiskArchiver, n: nat)
    requires s.Valid() && Clean(a.DstRoot) && Elsewhere(a.DstRoot, s.base) && n < |s.body|
    ensures var t, m := Archived(s, a), CrashManifest(s);
            var t' := After(t, a, m, [Copying(n)], 1);
            var place := Server.Place(a, s.id, s.crash);
            && Server.Archives(s.Manager(), a, t, m, [Copying(n)], t')
            && Body(t.files, place) == Some(s.body)
            && Body(t'.files, place) == Some(s.body[..n])
  {
    var t, m := Archived(s, a), CrashManifest(s);
    var t' := After(t, a, m, [Copying(n)], 1);
    CrashArchivesRun(s, a, n);
    assert s.Manager().Basedir != a.DstRoot + [Server.REALTIME_CRASHES];
    var i := Server.CrashArchived(s.Manager(), a, t, m, [Copying(n)], t', s.id, 0);
    Server.ExistingIsReady(t, a, m, i);
  }

  // ---------------------------------------------------------------- an archive over the server's own files

  /** With the base directory at the very place where the archive keeps crashes, a call without any fault reports
      success and empties the crash. */
  lemma CrashCopiedOntoItself(s: Site, root: Path)
    requires s.Valid() && s.base == root + [Server.REALTIME_CRASHES]
    ensures var a, t, m := DiskArchiver(root), s.Disk(), CrashManifest(s);
            var t' := After(t, a, m, [NoFault], 1);
            && Server.Archives(s.Manager(), a, t, m, [NoFault], t')
            && Copied(t, a, m, [NoFault], 0)
            && Body(t.files, s.CrashFile()) == Some(s.body)
            && Server.Place(a, s.id, s.crash) == s.CrashFile()
            && Body(t'.files, s.CrashFile()) == Some([])
  {
    var a, t, m := DiskArchiver(root), s.Disk(), CrashManifest(s);
    var t' := After(t, a, m, [NoFault], 1);
    SiteWellFormed(s);
    SiteOutputs(t, s);
    CrashManifestIs(s);
    Server.CrashEmptied(s.Manager(), a, t, m, [NoFault], t', 0);
    Server.CrashPlaces(s.Manager(), a, t, m, [NoFault], t', 0);
    Server.PlaceSplits(a, s.id, s.crash);
  }
}
