/** The fleet sync protocol: fuzzers upload to the server, workdirs download from it, over stores that only overlay.

    Environment assumptions: ids are distinct (they key `home`), a running fuzzer only creates or extends its own files,
    and the network may lose, delay, repeat and reorder messages (nothing is ever taken out of `net`). */
module Sync {
  import opened FileStore
  import opened AflFiles

  type Workdir = nat
  datatype Key = Key(id: string, kind: Kind, name: string)
  datatype Dir = Dir(id: string, kind: Kind)
  type Tree = map<Key, Bytes>

  function DirOf(k: Key): Dir {
    Dir(k.id, k.kind)
  }

  datatype Site = Server | Client(workdir: Workdir)

  /** A pass that lists directories one by one and reads the listed files piece by piece. `since` records the tree the
      pass started from. */
  datatype Reader = Reader(since: Tree, dirs: seq<Dir>, todo: set<Key>, got: Tree) {
    predicate Done() {
      dirs == [] && todo == {}
    }

    function Buffer(k: Key): Bytes {
      if k in got then got[k] else []
    }
  }

  datatype ReadOp =
    | List                    // list the next directory
    | Chunk(k: Key, n: nat)   // one `read` returning some bytes
    | Eof(k: Key)             // a `read` returning no more bytes

  datatype Message = Upload(id: string, tree: Tree) | Queues(snap: nat, tree: Tree)

  /** A server handler or a client download that installs the files of message number `msg`. */
  datatype Writer = Writer(site: Site, msg: nat, pending: set<Key>)

  datatype State = State(
    server: Tree,
    known: set<string>,           // ids with directories on the server
    work: map<Workdir, Tree>,
    paused: map<string, Reader>,  // the fuzzers stopped by their uploader, with the uploader's progress
    snaps: seq<Reader>,           // the server's passes over its queues
    net: seq<Message>,
    writers: seq<Writer>)

  datatype Action =
    | Grow(f: string, k: Key, body: Bytes)
    | Pause(f: string)
    | UploadRead(f: string, op: ReadOp)
    | Send(f: string)
    | Resume(f: string)
    | Snap(dirs: seq<Dir>)
    | SnapRead(i: nat, op: ReadOp)
    | Respond(i: nat)
    | Deliver(m: nat, site: Site)
    | WritePart(t: nat, k: Key, n: nat)
    | WriteAll(t: nat, k: Key)

  /** Where each fuzzer of the fleet runs, and the one file name that reading a directory skips. */
  datatype Config = Config(home: map<string, Workdir>, readme: string) {
    predicate Owns(w: Workdir, k: Key) {
      k.id in home && home[k.id] == w
    }
  }

  // ---------------------------------------------------------------- steps

  function Own(tree: Tree, f: string): Tree {
    map k | k in tree && k.id == f :: tree[k]
  }

  function QueuePart(tree: Tree): Tree {
    map k | k in tree && k.kind == Queue :: tree[k]
  }

  function Listed(c: Config, tree: Tree, dir: Dir): set<Key> {
    set k | k in tree && DirOf(k) == dir && k.name != c.readme
  }

  predicate CanRead(r: Reader, tree: Tree, op: ReadOp) {
    match op
    case List => r.todo == {} && r.dirs != []
    case Chunk(k, n) => k in r.todo && k in tree && |r.Buffer(k)| <= n <= |tree[k]|
    case Eof(k) => k in r.todo && k in tree && |tree[k]| <= |r.Buffer(k)|
  }

  function Read(c: Config, r: Reader, tree: Tree, op: ReadOp): Reader
    requires CanRead(r, tree, op)
  {
    match op
    case List => r.(dirs := r.dirs[1..], todo := Listed(c, tree, r.dirs[0]))
    case Chunk(k, n) => r.(got := r.got[k := r.Buffer(k) + tree[k][|r.Buffer(k)|..n]])
    case Eof(k) => r.(got := r.got[k := r.Buffer(k)], todo := r.todo - {k})
  }

  function Install(tree: Tree, k: Key, body: Bytes): Tree {
    tree[k := Overlay(if k in tree then tree[k] else [], body)]
  }

  function At(s: State, site: Site): Tree
    requires site.Client? ==> site.workdir in s.work
  {
    match site case Server => s.server case Client(w) => s.work[w]
  }

  function SetAt(s: State, site: Site, tree: Tree): State {
    match site case Server => s.(server := tree) case Client(w) => s.(work := s.work[w := tree])
  }

  predicate CanWrite(s: State, t: nat, k: Key) {
    && t < |s.writers|
    && k in s.writers[t].pending
    && s.writers[t].msg < |s.net|
    && k in s.net[s.writers[t].msg].tree
    && (s.writers[t].site.Client? ==> s.writers[t].site.workdir in s.work)
  }

  predicate Enabled(c: Config, s: State, a: Action) {
    match a
    case Grow(f, k, body) =>
      && f in c.home && c.home[f] in s.work && f !in s.paused && k.id == f
      && (k in s.work[c.home[f]] ==> s.work[c.home[f]][k] <= body)
    case Pause(f) => f in c.home && c.home[f] in s.work && f !in s.paused
    case UploadRead(f, op) =>
      f in c.home && c.home[f] in s.work && f in s.paused && CanRead(s.paused[f], s.work[c.home[f]], op)
    case Send(f) => f in c.home && f in s.paused && s.paused[f].Done()
    case Resume(f) => f in s.paused
    case Snap(dirs) =>
      && (forall d | d in dirs :: d.kind == Queue)
      && (forall id | id in s.known :: Dir(id, Queue) in dirs)
    case SnapRead(i, op) => i < |s.snaps| && CanRead(s.snaps[i], s.server, op)
    case Respond(i) => i < |s.snaps| && s.snaps[i].Done()
    case Deliver(m, site) =>
      && m < |s.net|
      && (s.net[m].Upload? <==> site == Server)
      && (site.Client? ==> site.workdir in s.work)
    case WritePart(t, k, n) => CanWrite(s, t, k) && n <= |s.net[s.writers[t].msg].tree[k]|
    case WriteAll(t, k) => CanWrite(s, t, k)
  }

  function Step(c: Config, s: State, a: Action): State
    requires Enabled(c, s, a)
  {
    match a
    case Grow(f, k, body) => SetAt(s, Client(c.home[f]), s.work[c.home[f]][k := body])
    case Pause(f) =>
      s.(paused := s.paused[f := Reader(Own(s.work[c.home[f]], f), [Dir(f, Queue), Dir(f, Crashes), Dir(f, Hangs)],
                                        {}, map[])])
    case UploadRead(f, op) => s.(paused := s.paused[f := Read(c, s.paused[f], s.work[c.home[f]], op)])
    case Send(f) => s.(net := s.net + [Upload(f, s.paused[f].got)])
    case Resume(f) => s.(paused := s.paused - {f})
    case Snap(dirs) => s.(snaps := s.snaps + [Reader(QueuePart(s.server), dirs, {}, map[])])
    case SnapRead(i, op) => s.(snaps := s.snaps[i := Read(c, s.snaps[i], s.server, op)])
    case Respond(i) => s.(net := s.net + [Queues(i, s.snaps[i].got)])
    case Deliver(m, site) =>
      s.(writers := s.writers + [Writer(site, m, s.net[m].tree.Keys)],
         known := s.known + if s.net[m].Upload? then {s.net[m].id} else {})
    case WritePart(t, k, n) =>
      var w := s.writers[t];
      SetAt(s, w.site, Install(At(s, w.site), k, s.net[w.msg].tree[k][..n]))
    case WriteAll(t, k) =>
      var w := s.writers[t];
      SetAt(s, w.site, Install(At(s, w.site), k, s.net[w.msg].tree[k]))
        .(writers := s.writers[t := w.(pending := w.pending - {k})])
  }

  /** Any files at the origins, nothing anywhere else, nothing under way. */
  ghost predicate Init(c: Config, s: State) {
    && s.server == map[] && s.known == {} && s.paused == map[] && s.snaps == [] && s.net == [] && s.writers == []
    && c.home.Values <= s.work.Keys
    && forall w, k | w in s.work && k in s.work[w] :: c.Owns(w, k)
  }

  ghost predicate Run(c: Config, s: State, acts: seq<Action>, s': State)
    decreases |acts|
  {
    if acts == [] then s' == s else Enabled(c, s, acts[0]) && Run(c, Step(c, s, acts[0]), acts[1..], s')
  }

  // ---------------------------------------------------------------- the invariant

  /** Each file of `a` is in `b` and is a prefix of it there. */
  ghost predicate Below(a: Tree, b: Tree) {
    forall k | k in a :: k in b && a[k] <= b[k]
  }

  /** The fuzzers' own files, wherever they run. */
  ghost function Origins(c: Config, work: map<Workdir, Tree>): Tree {
    var keys := set w, k | w in work && k in work[w] && c.Owns(w, k) :: k;
    map k | k in keys :: work[c.home[k.id]][k]
  }

  ghost predicate NoReadme(c: Config, tree: Tree) {
    forall k | k in tree :: k.name != c.readme
  }

  /** A pass over the directories of `tree` so far: what it started from is still to be listed, being read, or read. */
  ghost predicate ReaderOk(c: Config, r: Reader, tree: Tree) {
    && Below(r.since, tree) && Below(r.got, tree) && NoReadme(c, r.got)
    && (forall k | k in r.todo :: k in tree && k.name != c.readme)
    && (forall k | k in r.since && k.name != c.readme ::
          DirOf(k) in r.dirs || k in r.todo || (k in r.got && r.since[k] <= r.got[k]))
  }

  /** Copies of foreign files are queue files, and prefixes of the server's, which are prefixes of the origin's. */
  ghost predicate TreesOk(c: Config, origins: Tree, server: Tree, known: set<string>, work: map<Workdir, Tree>) {
    && Below(server, origins) && NoReadme(c, server)
    && (forall k | k in server :: k.id in known)
    && (forall w, k | w in work && k in work[w] && !c.Owns(w, k) ::
          k.kind == Queue && k in server && work[w][k] <= server[k])
  }

  ghost predicate MessageOk(c: Config, origins: Tree, server: Tree, snaps: seq<Reader>, m: Message) {
    match m
    case Upload(f, tree) =>
      Below(tree, origins) && NoReadme(c, tree) && forall k | k in tree :: k.id == f
    case Queues(i, tree) =>
      && Below(tree, server)
      && (forall k | k in tree :: k.kind == Queue)
      && i < |snaps| && snaps[i].Done() && snaps[i].got == tree
  }

  ghost predicate NetOk(c: Config, origins: Tree, server: Tree, snaps: seq<Reader>, net: seq<Message>) {
    forall i | 0 <= i < |net| :: MessageOk(c, origins, server, snaps, net[i])
  }

  /** While a fuzzer is stopped its files stay what they were. */
  ghost predicate PassOk(c: Config, origins: Tree, f: string, r: Reader) {
    && r.since == Own(origins, f)
    && ReaderOk(c, r, r.since)
    && (forall d | d in r.dirs :: d.id == f)
    && (forall k | k in r.todo :: k.id == f)
  }

  ghost predicate PausedOk(c: Config, origins: Tree, paused: map<string, Reader>) {
    forall f | f in paused :: f in c.home && PassOk(c, origins, f, paused[f])
  }

  ghost predicate SnapOk(c: Config, server: Tree, r: Reader) {
    && ReaderOk(c, r, server)
    && (forall d | d in r.dirs :: d.kind == Queue)
    && (forall k | k in r.todo || k in r.got || k in r.since :: k.kind == Queue)
  }

  ghost predicate SnapsOk(c: Config, server: Tree, snaps: seq<Reader>) {
    forall i | 0 <= i < |snaps| :: SnapOk(c, server, snaps[i])
  }

  function TreeAt(server: Tree, work: map<Workdir, Tree>, site: Site): Tree
    requires site.Client? ==> site.workdir in work
  {
    match site case Server => server case Client(w) => work[w]
  }

  /** What a writer no longer has to write is installed. */
  ghost predicate WriterOk(server: Tree, work: map<Workdir, Tree>, known: set<string>, net: seq<Message>, w: Writer) {
    && w.msg < |net|
    && (net[w.msg].Upload? <==> w.site == Server)
    && (w.site.Client? ==> w.site.workdir in work)
    && (net[w.msg].Upload? ==> net[w.msg].id in known)
    && w.pending <= net[w.msg].tree.Keys
    && (forall k | k in net[w.msg].tree && k !in w.pending ::
          var tree := TreeAt(server, work, w.site);
          k in tree && net[w.msg].tree[k] <= tree[k])
  }

  ghost predicate WritersOk(server: Tree, work: map<Workdir, Tree>, known: set<string>, net: seq<Message>,
                            writers: seq<Writer>) {
    forall t | 0 <= t < |writers| :: WriterOk(server, work, known, net, writers[t])
  }

  ghost predicate Inv(c: Config, s: State) {
    var origins := Origins(c, s.work);
    && c.home.Values <= s.work.Keys
    && TreesOk(c, origins, s.server, s.known, s.work)
    && NetOk(c, origins, s.server, s.snaps, s.net)
    && PausedOk(c, origins, s.paused)
    && SnapsOk(c, s.server, s.snaps)
    && WritersOk(s.server, s.work, s.known, s.net, s.writers)
  }

  // ---------------------------------------------------------------- every step keeps the invariant

  lemma InitInv(c: Config, s: State)
    requires Init(c, s)
    ensures Inv(c, s)
  {
  }

  lemma OwnIsOrigin(c: Config, work: map<Workdir, Tree>, f: string)
    requires f in c.home && c.home[f] in work
    ensures Own(work[c.home[f]], f) == Own(Origins(c, work), f)
  {
    var a, b := Own(work[c.home[f]], f), Own(Origins(c, work), f);
    forall k
      ensures k in a <==> k in b
    {
      if k in a {
        assert c.Owns(c.home[f], k);
      }
    }
  }

  /** A read keeps a pass on track, whichever piece it returns. */
  lemma ReadOk(c: Config, r: Reader, tree: Tree, op: ReadOp)
    requires ReaderOk(c, r, tree) && CanRead(r, tree, op)
    ensures ReaderOk(c, Read(c, r, tree, op), tree)
  {
    match op
    case List =>
      var d := r.dirs[0];
      assert r.dirs == [d] + r.dirs[1..];
    case Chunk(k, n) =>
      assert r.Buffer(k) <= tree[k];
      assert r.Buffer(k) + tree[k][|r.Buffer(k)|..n] == tree[k][..n];
    case Eof(k) =>
      assert r.Buffer(k) <= tree[k];
  }

  lemma PassStarts(c: Config, origins: Tree, f: string)
    ensures PassOk(c, origins, f, Reader(Own(origins, f), [Dir(f, Queue), Dir(f, Crashes), Dir(f, Hangs)], {}, map[]))
  {
    var dirs := [Dir(f, Queue), Dir(f, Crashes), Dir(f, Hangs)];
    assert dirs[0] == Dir(f, Queue) && dirs[1] == Dir(f, Crashes) && dirs[2] == Dir(f, Hangs);
    assert forall kind: Kind :: Dir(f, kind) in dirs by {
      forall kind: Kind ensures Dir(f, kind) in dirs {
        match kind case Queue => case Crashes => case Hangs =>
      }
    }
  }

  lemma PauseInv(c: Config, s: State, f: string)
    requires Inv(c, s) && Enabled(c, s, Pause(f))
    ensures Inv(c, Step(c, s, Pause(f)))
  {
    OwnIsOrigin(c, s.work, f);
    PassStarts(c, Origins(c, s.work), f);
  }

  lemma PassReads(c: Config, origins: Tree, tree: Tree, f: string, r: Reader, op: ReadOp)
    requires PassOk(c, origins, f, r) && Own(tree, f) == Own(origins, f) && CanRead(r, tree, op)
    ensures PassOk(c, origins, f, Read(c, r, tree, op))
  {
    var own := Own(origins, f);
    assert forall k: Key | k.id == f :: (k in own <==> k in tree) && (k in own ==> own[k] == tree[k]) by {
      assert forall k: Key | k.id == f :: k in Own(tree, f) <==> k in tree;
    }
    if op.List? {
      assert r.dirs[0] in r.dirs;
      assert Listed(c, tree, r.dirs[0]) == Listed(c, own, r.dirs[0]);
    }
    ReadOk(c, r, own, op);
    assert Read(c, r, tree, op) == Read(c, r, own, op);
  }

  lemma UploadReadInv(c: Config, s: State, f: string, op: ReadOp)
    requires Inv(c, s) && Enabled(c, s, UploadRead(f, op))
    ensures Inv(c, Step(c, s, UploadRead(f, op)))
  {
    OwnIsOrigin(c, s.work, f);
    PassReads(c, Origins(c, s.work), s.work[c.home[f]], f, s.paused[f], op);
  }

  lemma NetSnoc(c: Config, origins: Tree, server: Tree, snaps: seq<Reader>, net: seq<Message>, m: Message)
    requires NetOk(c, origins, server, snaps, net) && MessageOk(c, origins, server, snaps, m)
    ensures NetOk(c, origins, server, snaps, net + [m])
  {
  }

  lemma NetGrows(server: Tree, work: map<Workdir, Tree>, known: set<string>, net: seq<Message>, m: Message,
                 writers: seq<Writer>)
    requires WritersOk(server, work, known, net, writers)
    ensures WritersOk(server, work, known, net + [m], writers)
  {
    forall t | 0 <= t < |writers|
      ensures WriterOk(server, work, known, net + [m], writers[t])
    {
      assert WriterOk(server, work, known, net, writers[t]);
    }
  }

  lemma PassSends(c: Config, origins: Tree, server: Tree, snaps: seq<Reader>, f: string, r: Reader)
    requires PassOk(c, origins, f, r) && r.Done()
    ensures MessageOk(c, origins, server, snaps, Upload(f, r.got))
  {
  }

  lemma SendInv(c: Config, s: State, f: string)
    requires Inv(c, s) && Enabled(c, s, Send(f))
    ensures Inv(c, Step(c, s, Send(f)))
  {
    var m := Upload(f, s.paused[f].got);
    PassSends(c, Origins(c, s.work), s.server, s.snaps, f, s.paused[f]);
    NetSnoc(c, Origins(c, s.work), s.server, s.snaps, s.net, m);
    NetGrows(s.server, s.work, s.known, s.net, m, s.writers);
  }

  lemma ResumeInv(c: Config, s: State, f: string)
    requires Inv(c, s) && Enabled(c, s, Resume(f))
    ensures Inv(c, Step(c, s, Resume(f)))
  {
  }

  lemma SnapStarts(c: Config, server: Tree, dirs: seq<Dir>)
    requires NoReadme(c, server)
    requires forall d | d in dirs :: d.kind == Queue
    requires forall k | k in server :: Dir(k.id, Queue) in dirs
    ensures SnapOk(c, server, Reader(QueuePart(server), dirs, {}, map[]))
  {
  }

  lemma SnapsSnoc(c: Config, origins: Tree, server: Tree, snaps: seq<Reader>, r: Reader, net: seq<Message>)
    requires SnapsOk(c, server, snaps) && SnapOk(c, server, r) && NetOk(c, origins, server, snaps, net)
    ensures SnapsOk(c, server, snaps + [r]) && NetOk(c, origins, server, snaps + [r], net)
  {
    forall i | 0 <= i < |net|
      ensures MessageOk(c, origins, server, snaps + [r], net[i])
    {
      assert MessageOk(c, origins, server, snaps, net[i]);
    }
  }

  lemma SnapInv(c: Config, s: State, dirs: seq<Dir>)
    requires Inv(c, s) && Enabled(c, s, Snap(dirs))
    ensures Inv(c, Step(c, s, Snap(dirs)))
  {
    SnapStarts(c, s.server, dirs);
    SnapsSnoc(c, Origins(c, s.work), s.server, s.snaps, Reader(QueuePart(s.server), dirs, {}, map[]), s.net);
  }

  lemma SnapReads(c: Config, server: Tree, r: Reader, op: ReadOp)
    requires SnapOk(c, server, r) && CanRead(r, server, op)
    ensures SnapOk(c, server, Read(c, r, server, op))
  {
    ReadOk(c, r, server, op);
    if op.List? {
      assert r.dirs[0] in r.dirs;
    }
  }

  lemma SnapsUpdate(c: Config, origins: Tree, server: Tree, snaps: seq<Reader>, i: nat, r: Reader, net: seq<Message>)
    requires SnapsOk(c, server, snaps) && SnapOk(c, server, r) && NetOk(c, origins, server, snaps, net)
    requires i < |snaps| && !snaps[i].Done()
    ensures SnapsOk(c, server, snaps[i := r]) && NetOk(c, origins, server, snaps[i := r], net)
  {
    forall j | 0 <= j < |net|
      ensures MessageOk(c, origins, server, snaps[i := r], net[j])
    {
      assert MessageOk(c, origins, server, snaps, net[j]);
    }
  }

  lemma SnapReadInv(c: Config, s: State, i: nat, op: ReadOp)
    requires Inv(c, s) && Enabled(c, s, SnapRead(i, op))
    ensures Inv(c, Step(c, s, SnapRead(i, op)))
  {
    SnapReads(c, s.server, s.snaps[i], op);
    SnapsUpdate(c, Origins(c, s.work), s.server, s.snaps, i, Read(c, s.snaps[i], s.server, op), s.net);
  }

  lemma SnapResponds(c: Config, origins: Tree, server: Tree, snaps: seq<Reader>, i: nat)
    requires SnapsOk(c, server, snaps) && i < |snaps| && snaps[i].Done()
    ensures MessageOk(c, origins, server, snaps, Queues(i, snaps[i].got))
  {
    assert SnapOk(c, server, snaps[i]);
  }

  lemma RespondInv(c: Config, s: State, i: nat)
    requires Inv(c, s) && Enabled(c, s, Respond(i))
    ensures Inv(c, Step(c, s, Respond(i)))
  {
    var m := Queues(i, s.snaps[i].got);
    SnapResponds(c, Origins(c, s.work), s.server, s.snaps, i);
    NetSnoc(c, Origins(c, s.work), s.server, s.snaps, s.net, m);
    NetGrows(s.server, s.work, s.known, s.net, m, s.writers);
  }

  lemma WritersSnoc(server: Tree, work: map<Workdir, Tree>, known: set<string>, more: set<string>, net: seq<Message>,
                    writers: seq<Writer>, w: Writer)
    requires WritersOk(server, work, known, net, writers)
    requires known <= more && WriterOk(server, work, more, net, w)
    ensures WritersOk(server, work, more, net, writers + [w])
  {
    forall t | 0 <= t < |writers|
      ensures WriterOk(server, work, more, net, writers[t])
    {
      assert WriterOk(server, work, known, net, writers[t]);
    }
  }

  lemma DeliverInv(c: Config, s: State, m: nat, site: Site)
    requires Inv(c, s) && Enabled(c, s, Deliver(m, site))
    ensures Inv(c, Step(c, s, Deliver(m, site)))
  {
    var s' := Step(c, s, Deliver(m, site));
    WritersSnoc(s.server, s.work, s.known, s'.known, s.net, s.writers, Writer(site, m, s.net[m].tree.Keys));
    assert TreesOk(c, Origins(c, s.work), s.server, s'.known, s.work);
  }

  // Steps that change a tree. All of them only let trees grow, which keeps what was below them below them.

  lemma NetMono(c: Config, o: Tree, o': Tree, server: Tree, server': Tree, snaps: seq<Reader>, net: seq<Message>)
    requires NetOk(c, o, server, snaps, net) && Below(o, o') && Below(server, server')
    ensures NetOk(c, o', server', snaps, net)
  {
    forall i | 0 <= i < |net|
      ensures MessageOk(c, o', server', snaps, net[i])
    {
      assert MessageOk(c, o, server, snaps, net[i]);
    }
  }

  lemma SnapsMono(c: Config, server: Tree, server': Tree, snaps: seq<Reader>)
    requires SnapsOk(c, server, snaps) && Below(server, server')
    ensures SnapsOk(c, server', snaps)
  {
    forall i | 0 <= i < |snaps|
      ensures SnapOk(c, server', snaps[i])
    {
      assert SnapOk(c, server, snaps[i]);
    }
  }

  ghost predicate WorkBelow(a: map<Workdir, Tree>, b: map<Workdir, Tree>) {
    a.Keys == b.Keys && forall w | w in a :: Below(a[w], b[w])
  }

  lemma WritersMono(server: Tree, server': Tree, work: map<Workdir, Tree>, work': map<Workdir, Tree>,
                    known: set<string>, net: seq<Message>, writers: seq<Writer>)
    requires WritersOk(server, work, known, net, writers) && Below(server, server') && WorkBelow(work, work')
    ensures WritersOk(server', work', known, net, writers)
  {
    forall t | 0 <= t < |writers|
      ensures WriterOk(server', work', known, net, writers[t])
    {
      var w := writers[t];
      assert WriterOk(server, work, known, net, w);
      assert Below(TreeAt(server, work, w.site), TreeAt(server', work', w.site));
    }
  }

  lemma GrowOrigins(c: Config, work: map<Workdir, Tree>, w: Workdir, k: Key, body: Bytes)
    requires w in work && c.Owns(w, k)
    ensures Origins(c, work[w := work[w][k := body]]) == Origins(c, work)[k := body]
    ensures k in Origins(c, work) <==> k in work[w]
    ensures k in work[w] ==> Origins(c, work)[k] == work[w][k]
  {
    var work' := work[w := work[w][k := body]];
    var a, b := Origins(c, work'), Origins(c, work)[k := body];
    forall j
      ensures j in a <==> j in b
    {
      OriginOf(c, work, j);
      OriginOf(c, work', j);
    }
    OriginOf(c, work, k);
  }

  lemma OriginOf(c: Config, work: map<Workdir, Tree>, k: Key)
    ensures k in Origins(c, work) <==> k.id in c.home && c.home[k.id] in work && k in work[c.home[k.id]]
    ensures k in Origins(c, work) ==> Origins(c, work)[k] == work[c.home[k.id]][k]
  {
    if k.id in c.home && c.home[k.id] in work && k in work[c.home[k.id]] {
      assert c.Owns(c.home[k.id], k);
    }
  }

  lemma GrowTrees(c: Config, o: Tree, server: Tree, known: set<string>, work: map<Workdir, Tree>, w: Workdir, k: Key,
                  body: Bytes)
    requires TreesOk(c, o, server, known, work) && w in work && c.Owns(w, k)
    requires k in o ==> o[k] <= body
    ensures TreesOk(c, o[k := body], server, known, work[w := work[w][k := body]])
  {
  }

  lemma GrowPaused(c: Config, o: Tree, paused: map<string, Reader>, k: Key, body: Bytes)
    requires PausedOk(c, o, paused) && k.id !in paused
    ensures PausedOk(c, o[k := body], paused)
  {
    forall f | f in paused
      ensures PassOk(c, o[k := body], f, paused[f])
    {
      assert PassOk(c, o, f, paused[f]);
      assert Own(o[k := body], f) == Own(o, f);
    }
  }

  lemma GrowInv(c: Config, s: State, f: string, k: Key, body: Bytes)
    requires Inv(c, s) && Enabled(c, s, Grow(f, k, body))
    ensures Inv(c, Step(c, s, Grow(f, k, body)))
  {
    var w := c.home[f];
    var o, work' := Origins(c, s.work), s.work[w := s.work[w][k := body]];
    GrowOrigins(c, s.work, w, k, body);
    GrowTrees(c, o, s.server, s.known, s.work, w, k, body);
    NetMono(c, o, o[k := body], s.server, s.server, s.snaps, s.net);
    GrowPaused(c, o, s.paused, k, body);
    WritersMono(s.server, s.server, s.work, work', s.known, s.net, s.writers);
  }

  lemma InstallJoins(tree: Tree, above: Tree, k: Key, body: Bytes)
    requires Below(tree, above) && k in above && body <= above[k]
    ensures Below(tree, Install(tree, k, body)) && Below(Install(tree, k, body), above)
    ensures body <= Install(tree, k, body)[k]
  {
    OverlayJoinsPrefixes(above[k], if k in tree then tree[k] else [], body);
  }

  lemma InstallServerInv(c: Config, s: State, k: Key, body: Bytes)
    requires Inv(c, s)
    requires k in Origins(c, s.work) && body <= Origins(c, s.work)[k] && k.name != c.readme && k.id in s.known
    ensures Inv(c, s.(server := Install(s.server, k, body)))
    ensures body <= Install(s.server, k, body)[k] && Below(s.server, Install(s.server, k, body))
  {
    var o, server' := Origins(c, s.work), Install(s.server, k, body);
    InstallJoins(s.server, o, k, body);
    NetMono(c, o, o, s.server, server', s.snaps, s.net);
    SnapsMono(c, s.server, server', s.snaps);
    WritersMono(s.server, server', s.work, s.work, s.known, s.net, s.writers);
    assert TreesOk(c, o, server', s.known, s.work);
  }

  /** A download that writes a fuzzer's own file back to it changes nothing. */
  lemma WriteBackIsNoOp(c: Config, s: State, w: Workdir, k: Key, body: Bytes)
    requires Inv(c, s) && w in s.work && c.Owns(w, k)
    requires k in s.server && body <= s.server[k]
    ensures k in s.work[w] && Install(s.work[w], k, body) == s.work[w]
  {
    OriginOf(c, s.work, k);
    var own := s.work[w][k];
    OverlayJoinsPrefixes(own, own, body);
    assert own[..|own|] == own;
    assert Overlay(own, body) == own;
  }

  lemma InstallForeign(c: Config, work: map<Workdir, Tree>, w: Workdir, k: Key, body: Bytes)
    requires w in work && !c.Owns(w, k)
    ensures Origins(c, work[w := Install(work[w], k, body)]) == Origins(c, work)
  {
    var work' := work[w := Install(work[w], k, body)];
    forall j
      ensures j in Origins(c, work') <==> j in Origins(c, work)
    {
      OriginOf(c, work, j);
      OriginOf(c, work', j);
    }
  }

  lemma InstallCopy(c: Config, o: Tree, server: Tree, known: set<string>, work: map<Workdir, Tree>, w: Workdir, k: Key,
                    body: Bytes)
    requires TreesOk(c, o, server, known, work) && w in work && !c.Owns(w, k)
    requires k.kind == Queue && k in server && body <= server[k]
    ensures TreesOk(c, o, server, known, work[w := Install(work[w], k, body)])
    ensures WorkBelow(work, work[w := Install(work[w], k, body)]) && body <= Install(work[w], k, body)[k]
  {
    var was := if k in work[w] then work[w][k] else [];
    assert was <= server[k];
    OverlayJoinsPrefixes(server[k], was, body);
  }

  lemma InstallClientInv(c: Config, s: State, w: Workdir, k: Key, body: Bytes)
    requires Inv(c, s) && w in s.work
    requires k.kind == Queue && k in s.server && body <= s.server[k]
    ensures Inv(c, s.(work := s.work[w := Install(s.work[w], k, body)]))
    ensures body <= Install(s.work[w], k, body)[k]
    ensures Origins(c, s.work[w := Install(s.work[w], k, body)]) == Origins(c, s.work)
    ensures WorkBelow(s.work, s.work[w := Install(s.work[w], k, body)])
  {
    if c.Owns(w, k) {
      WriteBackIsNoOp(c, s, w, k, body);
      assert s.work[w := s.work[w]] == s.work;
      OriginOf(c, s.work, k);
    } else {
      InstallForeign(c, s.work, w, k, body);
      InstallCopy(c, Origins(c, s.work), s.server, s.known, s.work, w, k, body);
      WritersMono(s.server, s.server, s.work, s.work[w := Install(s.work[w], k, body)], s.known, s.net, s.writers);
    }
  }

  /** A writer's body fits under the copy it is written to, so installing any piece of it keeps the invariant. */
  lemma PieceInv(c: Config, s: State, t: nat, k: Key, body: Bytes)
    requires Inv(c, s) && CanWrite(s, t, k) && body <= s.net[s.writers[t].msg].tree[k]
    ensures var site := s.writers[t].site;
            var s' := SetAt(s, site, Install(At(s, site), k, body));
            && Inv(c, s')
            && Below(s.server, s'.server) && WorkBelow(s.work, s'.work) && Origins(c, s'.work) == Origins(c, s.work)
            && k in At(s', site) && body <= At(s', site)[k]
  {
    var w := s.writers[t];
    var m := s.net[w.msg];
    assert WriterOk(s.server, s.work, s.known, s.net, w);
    assert MessageOk(c, Origins(c, s.work), s.server, s.snaps, m);
    match w.site
    case Server =>
      InstallServerInv(c, s, k, body);
    case Client(dir) =>
      InstallClientInv(c, s, dir, k, body);
  }

  lemma PendingShrinks(c: Config, s: State, t: nat, k: Key)
    requires Inv(c, s) && t < |s.writers| && s.writers[t].msg < |s.net| && k in s.net[s.writers[t].msg].tree
    requires s.writers[t].site.Client? ==> s.writers[t].site.workdir in s.work
    requires k in At(s, s.writers[t].site) && s.net[s.writers[t].msg].tree[k] <= At(s, s.writers[t].site)[k]
    ensures Inv(c, s.(writers := s.writers[t := s.writers[t].(pending := s.writers[t].pending - {k})]))
  {
    var w := s.writers[t].(pending := s.writers[t].pending - {k});
    assert WriterOk(s.server, s.work, s.known, s.net, s.writers[t]);
    assert WriterOk(s.server, s.work, s.known, s.net, w);
    WritersUpdate(s.server, s.work, s.known, s.net, s.writers, t, w);
  }

  lemma WritersUpdate(server: Tree, work: map<Workdir, Tree>, known: set<string>, net: seq<Message>,
                      writers: seq<Writer>, t: nat, w: Writer)
    requires WritersOk(server, work, known, net, writers) && t < |writers|
    requires WriterOk(server, work, known, net, w)
    ensures WritersOk(server, work, known, net, writers[t := w])
  {
  }

  lemma WriteInv(c: Config, s: State, a: Action)
    requires Inv(c, s) && Enabled(c, s, a) && (a.WritePart? || a.WriteAll?)
    ensures Inv(c, Step(c, s, a))
    ensures Below(s.server, Step(c, s, a).server) && WorkBelow(s.work, Step(c, s, a).work)
    ensures Origins(c, Step(c, s, a).work) == Origins(c, s.work)
    ensures Step(c, s, a).net == s.net && Step(c, s, a).snaps == s.snaps
  {
    var w := s.writers[a.t];
    var body := s.net[w.msg].tree[a.k];
    if a.WritePart? {
      PieceInv(c, s, a.t, a.k, body[..a.n]);
    } else {
      PieceInv(c, s, a.t, a.k, body);
      PendingShrinks(c, SetAt(s, w.site, Install(At(s, w.site), a.k, body)), a.t, a.k);
    }
  }

  lemma StepInv(c: Config, s: State, a: Action)
    requires Inv(c, s) && Enabled(c, s, a)
    ensures Inv(c, Step(c, s, a))
  {
    match a
    case Grow(f, k, body) => GrowInv(c, s, f, k, body);
    case Pause(f) => PauseInv(c, s, f);
    case UploadRead(f, op) => UploadReadInv(c, s, f, op);
    case Send(f) => SendInv(c, s, f);
    case Resume(f) => ResumeInv(c, s, f);
    case Snap(dirs) => SnapInv(c, s, dirs);
    case SnapRead(i, op) => SnapReadInv(c, s, i, op);
    case Respond(i) => RespondInv(c, s, i);
    case Deliver(m, site) => DeliverInv(c, s, m, site);
    case WritePart(t, k, n) => WriteInv(c, s, a);
    case WriteAll(t, k) => WriteInv(c, s, a);
  }

  lemma {:induction false} RunInv(c: Config, s: State, acts: seq<Action>, s': State)
    requires Inv(c, s) && Run(c, s, acts, s')
    ensures Inv(c, s')
    decreases |acts|
  {
    if acts != [] {
      StepInv(c, s, acts[0]);
      RunInv(c, Step(c, s, acts[0]), acts[1..], s');
    }
  }

  // ---------------------------------------------------------------- the prefix chain

  ghost predicate Reachable(c: Config, s: State) {
    exists init, acts :: Init(c, init) && Run(c, init, acts, s)
  }

  lemma ReachableInv(c: Config, s: State)
    requires Reachable(c, s)
    ensures Inv(c, s)
  {
    var init, acts :| Init(c, init) && Run(c, init, acts, s);
    InitInv(c, init);
    RunInv(c, init, acts, s);
  }

  lemma RunFirst(c: Config, s: State, a: Action, rest: seq<Action>, s': State)
    requires Enabled(c, s, a) && Run(c, Step(c, s, a), rest, s')
    ensures Run(c, s, [a] + rest, s')
  {
    assert ([a] + rest)[0] == a && ([a] + rest)[1..] == rest;
  }

  lemma Regroup(a: seq<Action>, b: seq<Action>)
    requires a != []
    ensures [a[0]] + (a[1..] + b) == a + b
  {
  }

  lemma {:induction false} RunConcat(c: Config, s: State, a: seq<Action>, mid: State, b: seq<Action>, s': State)
    requires Run(c, s, a, mid) && Run(c, mid, b, s')
    ensures Run(c, s, a + b, s')
    decreases |a|
  {
    if a == [] {
      assert a + b == b;
    } else {
      RunConcat(c, Step(c, s, a[0]), a[1..], mid, b, s');
      RunFirst(c, s, a[0], a[1..] + b, s');
      Regroup(a, b);
    }
  }

  lemma ReachesOn(c: Config, s: State, acts: seq<Action>, s': State)
    requires Reachable(c, s) && Run(c, s, acts, s')
    ensures Reachable(c, s')
  {
    var init, before :| Init(c, init) && Run(c, init, before, s);
    RunConcat(c, init, before, s, acts, s');
  }

  lemma MessageBelow(c: Config, origins: Tree, server: Tree, snaps: seq<Reader>, m: Message)
    requires MessageOk(c, origins, server, snaps, m) && Below(server, origins)
    ensures Below(m.tree, origins) && (m.Queues? ==> Below(m.tree, server))
  {
  }

  /** In every state of every run, every downloaded copy of a queue file is a prefix of the server's copy, and every
      server copy is a prefix of the file at its origin; bodies in flight fit the same chain. */
  lemma PrefixChain(c: Config, s: State)
    requires Reachable(c, s)
    ensures forall w, k | w in s.work && k in s.work[w] && !c.Owns(w, k) ::
              k.kind == Queue && k in s.server && s.work[w][k] <= s.server[k]
    ensures forall k | k in s.server ::
              && k.id in c.home && c.home[k.id] in s.work && k in s.work[c.home[k.id]]
              && s.server[k] <= s.work[c.home[k.id]][k]
    ensures forall i | 0 <= i < |s.net| ::
              Below(s.net[i].tree, Origins(c, s.work)) && (s.net[i].Queues? ==> Below(s.net[i].tree, s.server))
  {
    ReachableInv(c, s);
    forall k | k in s.server
      ensures k.id in c.home && c.home[k.id] in s.work && k in s.work[c.home[k.id]]
      ensures s.server[k] <= s.work[c.home[k.id]][k]
    {
      OriginOf(c, s.work, k);
    }
    forall i | 0 <= i < |s.net|
      ensures Below(s.net[i].tree, Origins(c, s.work)) && (s.net[i].Queues? ==> Below(s.net[i].tree, s.server))
    {
      MessageBelow(c, Origins(c, s.work), s.server, s.snaps, s.net[i]);
    }
  }

  // ---------------------------------------------------------------- snapshots are atomic

  /** The files that reading directories returns. */
  function Visible(c: Config, tree: Tree): Tree {
    map k | k in tree && k.name != c.readme :: tree[k]
  }

  lemma DoneIsWhole(c: Config, r: Reader)
    requires ReaderOk(c, r, r.since) && r.Done()
    ensures r.got == Visible(c, r.since)
  {
    forall k | k in r.got
      ensures r.got[k] == r.since[k]
    {
      assert r.got[k] <= r.since[k] && r.since[k] <= r.got[k];
    }
  }

  lemma StepStaysPaused(c: Config, s: State, a: Action, f: string)
    requires Enabled(c, s, a) && f in s.paused && a != Resume(f)
    ensures f in Step(c, s, a).paused && Step(c, s, a).paused[f].since == s.paused[f].since
  {
  }

  lemma {:induction false} StaysPaused(c: Config, s: State, acts: seq<Action>, s': State, f: string)
    requires Run(c, s, acts, s') && f in s.paused
    requires forall a | a in acts :: a != Resume(f)
    ensures f in s'.paused && s'.paused[f].since == s.paused[f].since
    decreases |acts|
  {
    if acts != [] {
      assert acts[0] in acts && forall a | a in acts[1..] :: a in acts;
      StepStaysPaused(c, s, acts[0], f);
      StaysPaused(c, Step(c, s, acts[0]), acts[1..], s', f);
    }
  }

  lemma PassWhole(c: Config, origins: Tree, f: string, r: Reader)
    requires PassOk(c, origins, f, r) && r.Done()
    ensures r.got == Visible(c, r.since) == Visible(c, Own(origins, f))
  {
    DoneIsWhole(c, r);
  }

  /** What an uploader sends is the fuzzer's whole tree at the instant the fuzzer was stopped, whatever else happens
      until then, downloads into the very same directories included; and the tree is still the same at that time. */
  lemma SnapshotAtomic(c: Config, s: State, f: string, acts: seq<Action>, s': State)
    requires Reachable(c, s) && Enabled(c, s, Pause(f))
    requires Run(c, Step(c, s, Pause(f)), acts, s') && forall a | a in acts :: a != Resume(f)
    requires Enabled(c, s', Send(f))
    ensures Step(c, s', Send(f)).net == s'.net + [Upload(f, Visible(c, Own(s.work[c.home[f]], f)))]
    ensures c.home[f] in s'.work && Own(s'.work[c.home[f]], f) == Own(s.work[c.home[f]], f)
  {
    ReachableInv(c, s);
    StepInv(c, s, Pause(f));
    StaysPaused(c, Step(c, s, Pause(f)), acts, s', f);
    RunInv(c, Step(c, s, Pause(f)), acts, s');
    PassWhole(c, Origins(c, s'.work), f, s'.paused[f]);
    assert c.home[f] in c.home.Values;
    OwnIsOrigin(c, s'.work, f);
  }

  // ---------------------------------------------------------------- answers

  lemma StepKeepsPass(c: Config, s: State, a: Action, i: nat)
    requires Enabled(c, s, a) && i < |s.snaps|
    ensures i < |Step(c, s, a).snaps| && Step(c, s, a).snaps[i].since == s.snaps[i].since
  {
    if a.SnapRead? {
      assert Step(c, s, a).snaps == s.snaps[a.i := Read(c, s.snaps[a.i], s.server, a.op)];
    } else if a.Snap? {
      assert s.snaps <= Step(c, s, a).snaps;
    } else {
      assert Step(c, s, a).snaps == s.snaps;
    }
  }

  lemma {:induction false} RunKeepsPass(c: Config, s: State, acts: seq<Action>, s': State, i: nat)
    requires Run(c, s, acts, s') && i < |s.snaps|
    ensures i < |s'.snaps| && s'.snaps[i].since == s.snaps[i].since
    decreases |acts|
  {
    if acts != [] {
      StepKeepsPass(c, s, acts[0], i);
      RunKeepsPass(c, Step(c, s, acts[0]), acts[1..], s', i);
    }
  }

  lemma PassBetween(c: Config, server: Tree, was: Tree, r: Reader)
    requires SnapOk(c, server, r) && r.Done() && r.since == QueuePart(was)
    ensures Below(QueuePart(Visible(c, was)), r.got) && Below(r.got, QueuePart(Visible(c, server)))
    ensures server == was ==> r.got == QueuePart(Visible(c, was))
  {
    if server == was {
      var whole := QueuePart(Visible(c, was));
      forall k | k in r.got
        ensures k in whole && r.got[k] == whole[k]
      {
        assert r.got[k] <= server[k] && whole[k] <= r.got[k];
      }
    }
  }

  /** The pass that a request for the queues starts in state `s`, whichever reads it makes and whatever happens
      meanwhile, answers with at least all queue files the server had then and at most those it has at the end; if they
      are the same, with exactly these. */
  lemma AnswerOf(c: Config, s: State, dirs: seq<Dir>, acts: seq<Action>, s': State)
    requires Reachable(c, s) && Enabled(c, s, Snap(dirs))
    requires Run(c, Step(c, s, Snap(dirs)), acts, s') && Enabled(c, s', Respond(|s.snaps|))
    ensures |s.snaps| < |s'.snaps|
    ensures var tree := s'.snaps[|s.snaps|].got;
            && Step(c, s', Respond(|s.snaps|)).net == s'.net + [Queues(|s.snaps|, tree)]
            && Below(QueuePart(Visible(c, s.server)), tree) && Below(tree, QueuePart(Visible(c, s'.server)))
            && (s'.server == s.server ==> tree == QueuePart(Visible(c, s.server)))
  {
    var i, mid := |s.snaps|, Step(c, s, Snap(dirs));
    RunKeepsPass(c, mid, acts, s', i);
    RunFirst(c, s, Snap(dirs), acts, s');
    ReachesOn(c, s, [Snap(dirs)] + acts, s');
    SnapIsOk(c, s', i);
    PassBetween(c, s'.server, s.server, s'.snaps[i]);
  }

  lemma SnapIsOk(c: Config, s: State, i: nat)
    requires Reachable(c, s) && i < |s.snaps|
    ensures SnapOk(c, s.server, s.snaps[i])
  {
    ReachableInv(c, s);
  }

  // ---------------------------------------------------------------- convergence

  ghost predicate Quiet(acts: seq<Action>) {
    forall a | a in acts :: !a.Grow?
  }

  ghost predicate TreesLater(c: Config, s: State, s': State) {
    && Origins(c, s'.work) == Origins(c, s.work)
    && Below(s.server, s'.server)
    && WorkBelow(s.work, s'.work)
  }

  /** New uploads carry everything their fuzzer has. */
  ghost predicate NetLater(c: Config, origins: Tree, net: seq<Message>, net': seq<Message>) {
    && net <= net'
    && forall i | |net| <= i < |net'| && net'[i].Upload? :: net'[i].tree == Visible(c, Own(origins, net'[i].id))
  }

  /** New passes started from at least what the server had. */
  ghost predicate SnapsLater(server: Tree, snaps: seq<Reader>, snaps': seq<Reader>) {
    && |snaps| <= |snaps'|
    && (forall i | 0 <= i < |snaps| :: snaps'[i].since == snaps[i].since)
    && (forall i | |snaps| <= i < |snaps'| :: Below(QueuePart(server), snaps'[i].since))
  }

  /** How a state relates to one it came from while no fuzzer found anything. */
  ghost predicate Later(c: Config, s: State, s': State) {
    && TreesLater(c, s, s')
    && NetLater(c, Origins(c, s.work), s.net, s'.net)
    && SnapsLater(s.server, s.snaps, s'.snaps)
  }

  lemma BelowReflexive(c: Config, s: State, s': State)
    requires s'.server == s.server && s'.work == s.work
    ensures TreesLater(c, s, s')
  {
  }

  lemma SendLater(c: Config, origins: Tree, net: seq<Message>, f: string, r: Reader)
    requires PassOk(c, origins, f, r) && r.Done()
    ensures NetLater(c, origins, net, net + [Upload(f, r.got)])
  {
    PassWhole(c, origins, f, r);
  }

  lemma SnapLater(server: Tree, snaps: seq<Reader>, dirs: seq<Dir>)
    ensures SnapsLater(server, snaps, snaps + [Reader(QueuePart(server), dirs, {}, map[])])
  {
  }

  lemma SnapReadLater(c: Config, server: Tree, snaps: seq<Reader>, i: nat, op: ReadOp)
    requires i < |snaps| && CanRead(snaps[i], server, op)
    ensures SnapsLater(server, snaps, snaps[i := Read(c, snaps[i], server, op)])
  {
  }

  lemma NetLaterReflexive(c: Config, origins: Tree, net: seq<Message>, i: nat, tree: Tree)
    ensures NetLater(c, origins, net, net) && NetLater(c, origins, net, net + [Queues(i, tree)])
  {
  }

  lemma OnlyTreesLater(c: Config, s: State, s': State)
    requires TreesLater(c, s, s') && s'.net == s.net && s'.snaps == s.snaps
    ensures Later(c, s, s')
  {
  }

  lemma BookkeepingLater(c: Config, s: State, a: Action)
    requires Enabled(c, s, a) && !a.Grow? && !a.WritePart? && !a.WriteAll? && !a.Send?
    ensures Later(c, s, Step(c, s, a))
  {
    BelowReflexive(c, s, Step(c, s, a));
    if a.Snap? {
      SnapLater(s.server, s.snaps, a.dirs);
    } else if a.SnapRead? {
      SnapReadLater(c, s.server, s.snaps, a.i, a.op);
    } else if a.Respond? {
      NetLaterReflexive(c, Origins(c, s.work), s.net, a.i, s.snaps[a.i].got);
    }
  }

  lemma StepLater(c: Config, s: State, a: Action)
    requires Inv(c, s) && Enabled(c, s, a) && !a.Grow?
    ensures Later(c, s, Step(c, s, a))
  {
    if a.WritePart? || a.WriteAll? {
      WriteInv(c, s, a);
      OnlyTreesLater(c, s, Step(c, s, a));
    } else if a.Send? {
      BelowReflexive(c, s, Step(c, s, a));
      SendLater(c, Origins(c, s.work), s.net, a.f, s.paused[a.f]);
    } else {
      BookkeepingLater(c, s, a);
    }
  }

  lemma BelowTransitive(a: Tree, b: Tree, d: Tree)
    requires Below(a, b) && Below(b, d)
    ensures Below(a, d)
  {
  }

  lemma {:induction false} RunLater(c: Config, s: State, acts: seq<Action>, s': State)
    requires Inv(c, s) && Run(c, s, acts, s') && Quiet(acts)
    ensures Later(c, s, s')
    decreases |acts|
  {
    if acts != [] {
      var mid := Step(c, s, acts[0]);
      StepInv(c, s, acts[0]);
      StepLater(c, s, acts[0]);
      RunLater(c, mid, acts[1..], s');
      LaterTransitive(c, s, mid, s');
    }
  }

  lemma TreesLaterTransitive(c: Config, s: State, mid: State, s': State)
    requires TreesLater(c, s, mid) && TreesLater(c, mid, s')
    ensures TreesLater(c, s, s')
  {
    BelowTransitive(s.server, mid.server, s'.server);
    forall w | w in s.work
      ensures Below(s.work[w], s'.work[w])
    {
      BelowTransitive(s.work[w], mid.work[w], s'.work[w]);
    }
  }

  lemma NetLaterTransitive(c: Config, origins: Tree, a: seq<Message>, b: seq<Message>, d: seq<Message>)
    requires NetLater(c, origins, a, b) && NetLater(c, origins, b, d)
    ensures NetLater(c, origins, a, d)
  {
  }

  lemma SnapsLaterTransitive(server: Tree, server': Tree, a: seq<Reader>, b: seq<Reader>, d: seq<Reader>)
    requires SnapsLater(server, a, b) && SnapsLater(server', b, d) && Below(server, server')
    ensures SnapsLater(server, a, d)
  {
    forall i | |a| <= i < |d|
      ensures Below(QueuePart(server), d[i].since)
    {
      if i >= |b| {
        BelowTransitive(QueuePart(server), QueuePart(server'), d[i].since);
      }
    }
  }

  lemma LaterTransitive(c: Config, s: State, mid: State, s': State)
    requires Later(c, s, mid) && Later(c, mid, s')
    ensures Later(c, s, s')
  {
    TreesLaterTransitive(c, s, mid, s');
    NetLaterTransitive(c, Origins(c, s.work), s.net, mid.net, s'.net);
    SnapsLaterTransitive(s.server, mid.server, s.snaps, mid.snaps, s'.snaps);
  }

  /** Fuzzer `f` has had an upload, sent after `s`, installed completely. */
  ghost predicate UploadedSince(s: State, s': State, f: string) {
    exists t: nat :: t < |s'.writers| && UploadDone(s, s', f, s'.writers[t])
  }

  ghost predicate UploadDone(s: State, s': State, f: string, w: Writer) {
    w.pending == {} && |s.net| <= w.msg < |s'.net| && s'.net[w.msg].Upload? && s'.net[w.msg].id == f
  }

  /** Workdir `dir` has had a download, whose pass over the server began after `s`, installed completely. */
  ghost predicate DownloadedSince(s: State, s': State, dir: Workdir) {
    exists t: nat :: t < |s'.writers| && DownloadDone(s, s', dir, s'.writers[t])
  }

  ghost predicate DownloadDone(s: State, s': State, dir: Workdir, w: Writer) {
    && w.pending == {} && w.site == Client(dir) && w.msg < |s'.net|
    && s'.net[w.msg].Queues? && |s.snaps| <= s'.net[w.msg].snap
  }

  lemma Installed(server: Tree, work: map<Workdir, Tree>, known: set<string>, net: seq<Message>, w: Writer, k: Key)
    requires WriterOk(server, work, known, net, w) && w.pending == {} && k in net[w.msg].tree
    ensures k in TreeAt(server, work, w.site) && net[w.msg].tree[k] <= TreeAt(server, work, w.site)[k]
  {
  }

  lemma OwnUploaded(c: Config, s: State, s': State, k: Key)
    requires WritersOk(s'.server, s'.work, s'.known, s'.net, s'.writers) && Later(c, s, s')
    requires UploadedSince(s, s', k.id) && k in Origins(c, s'.work) && k.name != c.readme
    ensures k in s'.server && Origins(c, s'.work)[k] <= s'.server[k]
  {
    var t: nat :| t < |s'.writers| && UploadDone(s, s', k.id, s'.writers[t]);
    assert k in Own(Origins(c, s'.work), k.id);
    assert WriterOk(s'.server, s'.work, s'.known, s'.net, s'.writers[t]);
    Installed(s'.server, s'.work, s'.known, s'.net, s'.writers[t], k);
  }

  lemma SameBothWays(c: Config, server: Tree, origins: Tree)
    requires Below(server, origins) && NoReadme(c, server) && Below(Visible(c, origins), server)
    ensures server == Visible(c, origins)
  {
    forall k | k in server
      ensures server[k] == origins[k]
    {
      assert k in Visible(c, origins) && server[k] <= origins[k];
    }
  }

  lemma UploadsComplete(c: Config, s: State, s': State)
    requires Inv(c, s') && Later(c, s, s')
    requires forall f | f in c.home :: UploadedSince(s, s', f)
    ensures s'.server == Visible(c, Origins(c, s'.work))
  {
    forall k | k in Origins(c, s'.work) && k.name != c.readme
      ensures k in s'.server && Origins(c, s'.work)[k] <= s'.server[k]
    {
      OriginOf(c, s'.work, k);
      OwnUploaded(c, s, s', k);
    }
    SameBothWays(c, s'.server, Origins(c, s'.work));
  }

  /** Everything a workdir holds of the queues is what the server holds of them. */
  ghost predicate InSync(c: Config, server: Tree, tree: Tree) {
    QueuePart(Visible(c, tree)) == QueuePart(server)
  }

  ghost predicate AllInSync(c: Config, server: Tree, work: map<Workdir, Tree>) {
    forall dir | dir in work :: InSync(c, server, work[dir])
  }

  lemma AnswerWhole(c: Config, origins: Tree, server: Tree, snaps: seq<Reader>, i: nat, tree: Tree, k: Key)
    requires MessageOk(c, origins, server, snaps, Queues(i, tree)) && SnapsOk(c, server, snaps)
    requires k in server && k.kind == Queue && k.name != c.readme && Below(QueuePart(server), snaps[i].since)
    ensures k in tree && server[k] <= tree[k]
  {
    assert SnapOk(c, server, snaps[i]);
    assert k in QueuePart(server);
  }

  lemma QueueDownloaded(c: Config, origins: Tree, server: Tree, work: map<Workdir, Tree>, known: set<string>,
                        snaps: seq<Reader>, net: seq<Message>, w: Writer, k: Key)
    requires WriterOk(server, work, known, net, w) && NetOk(c, origins, server, snaps, net) && SnapsOk(c, server, snaps)
    requires w.pending == {} && net[w.msg].Queues? && net[w.msg].snap < |snaps|
    requires Below(QueuePart(server), snaps[net[w.msg].snap].since)
    requires k in server && k.kind == Queue && k.name != c.readme
    ensures k in TreeAt(server, work, w.site) && server[k] <= TreeAt(server, work, w.site)[k]
  {
    var m := net[w.msg];
    assert MessageOk(c, origins, server, snaps, m);
    AnswerWhole(c, origins, server, snaps, m.snap, m.tree, k);
    Installed(server, work, known, net, w, k);
  }

  lemma CopiesMatch(c: Config, origins: Tree, server: Tree, known: set<string>, work: map<Workdir, Tree>, dir: Workdir)
    requires TreesOk(c, origins, server, known, work) && origins == Origins(c, work)
    requires dir in work && server == Visible(c, origins)
    requires Below(QueuePart(server), work[dir])
    ensures InSync(c, server, work[dir])
  {
    forall k | k in work[dir] && k.kind == Queue && k.name != c.readme
      ensures k in server && work[dir][k] == server[k]
    {
      OriginOf(c, work, k);
      if !c.Owns(dir, k) {
        assert k in QueuePart(server) && work[dir][k] <= server[k];
      }
    }
    forall k | k in QueuePart(server)
      ensures k in work[dir]
    {
    }
  }

  lemma DownloadComplete(c: Config, origins: Tree, server: Tree, known: set<string>, work: map<Workdir, Tree>,
                         snaps: seq<Reader>, net: seq<Message>, w: Writer, dir: Workdir)
    requires w.msg < |net| && net[w.msg].Queues? && net[w.msg].snap < |snaps|
    requires w.site == Client(dir) && w.pending == {} && dir in work
    requires Below(QueuePart(server), snaps[net[w.msg].snap].since)
    requires TreesOk(c, origins, server, known, work) && origins == Origins(c, work) && server == Visible(c, origins)
    requires WriterOk(server, work, known, net, w) && NetOk(c, origins, server, snaps, net) && SnapsOk(c, server, snaps)
    ensures InSync(c, server, work[dir])
  {
    forall k | k in QueuePart(server)
      ensures k in work[dir] && server[k] <= work[dir][k]
    {
      QueueDownloaded(c, origins, server, work, known, snaps, net, w, k);
    }
    CopiesMatch(c, origins, server, known, work, dir);
  }

  lemma AnswerNumbered(c: Config, origins: Tree, server: Tree, snaps: seq<Reader>, net: seq<Message>, m: nat)
    requires NetOk(c, origins, server, snaps, net) && m < |net| && net[m].Queues?
    ensures net[m].snap < |snaps|
  {
    assert MessageOk(c, origins, server, snaps, net[m]);
  }

  lemma WorkdirConverges(c: Config, s: State, s': State, dir: Workdir)
    requires Inv(c, s') && Later(c, s, s') && s'.server == s.server == Visible(c, Origins(c, s'.work))
    requires dir in s'.work && DownloadedSince(s, s', dir)
    ensures InSync(c, s'.server, s'.work[dir])
  {
    var t: nat :| t < |s'.writers| && DownloadDone(s, s', dir, s'.writers[t]);
    var w := s'.writers[t];
    AnswerNumbered(c, Origins(c, s'.work), s'.server, s'.snaps, s'.net, w.msg);
    assert WriterOk(s'.server, s'.work, s'.known, s'.net, w);
    DownloadComplete(c, Origins(c, s'.work), s'.server, s'.known, s'.work, s'.snaps, s'.net, w, dir);
  }

  lemma DownloadsConverge(c: Config, s: State, s': State)
    requires Inv(c, s') && Later(c, s, s') && s'.server == s.server == Visible(c, Origins(c, s'.work))
    requires AllDownloaded(s, s')
    ensures AllInSync(c, s'.server, s'.work)
  {
    forall dir | dir in s'.work
      ensures InSync(c, s'.server, s'.work[dir])
    {
      WorkdirConverges(c, s, s', dir);
    }
  }

  lemma ServerComplete(c: Config, s: State, s': State)
    requires Inv(c, s') && Later(c, s, s') && s.server == Visible(c, Origins(c, s.work))
    ensures s'.server == s.server == Visible(c, Origins(c, s'.work))
  {
    ServerStable(c, s, s');
  }

  /** The server holds all files of all fuzzers, and every workdir all queue files of all fuzzers. */
  ghost predicate Converged(c: Config, s: State) {
    s.server == Visible(c, Origins(c, s.work)) && AllInSync(c, s.server, s.work)
  }

  lemma AfterRun(c: Config, s: State, acts: seq<Action>, s': State)
    requires Reachable(c, s) && Run(c, s, acts, s') && Quiet(acts)
    ensures Reachable(c, s') && Later(c, s, s')
  {
    ReachesOn(c, s, acts, s');
    ReachableInv(c, s);
    RunLater(c, s, acts, s');
  }

  ghost predicate AllUploaded(c: Config, s: State, s': State) {
    forall f | f in c.home :: UploadedSince(s, s', f)
  }

  ghost predicate AllDownloaded(s: State, s': State) {
    forall dir | dir in s.work :: DownloadedSince(s, s', dir)
  }

  lemma UploadPhase(c: Config, s: State, s': State)
    requires Reachable(c, s') && Later(c, s, s') && AllUploaded(c, s, s')
    ensures s'.server == Visible(c, Origins(c, s'.work))
  {
    ReachableInv(c, s');
    UploadsComplete(c, s, s');
  }

  lemma DownloadPhase(c: Config, s: State, s': State)
    requires Reachable(c, s') && Later(c, s, s') && s.server == Visible(c, Origins(c, s.work))
    requires AllDownloaded(s, s')
    ensures Converged(c, s')
  {
    ReachableInv(c, s');
    ServerComplete(c, s, s');
    DownloadsConverge(c, s, s');
  }

  /** If from a reachable state on no fuzzer finds anything, and every fuzzer completes an upload and after that every
      workdir a download, then the server holds the union of all the fuzzers' files and every workdir all its queues. */
  lemma Convergence(c: Config, s0: State, acts1: seq<Action>, s1: State, acts2: seq<Action>, s2: State)
    requires Reachable(c, s0)
    requires Run(c, s0, acts1, s1) && Quiet(acts1) && AllUploaded(c, s0, s1)
    requires Run(c, s1, acts2, s2) && Quiet(acts2) && AllDownloaded(s1, s2)
    ensures Converged(c, s2) && Origins(c, s2.work) == Origins(c, s0.work)
  {
    AfterRun(c, s0, acts1, s1);
    AfterRun(c, s1, acts2, s2);
    UploadPhase(c, s0, s1);
    DownloadPhase(c, s1, s2);
  }

  lemma GapCloses(c: Config, a: Tree, b: Tree, origins: Tree)
    requires a == Visible(c, origins) && Below(a, b) && Below(b, origins) && NoReadme(c, b)
    ensures a == b
  {
    forall k | k in b
      ensures k in a && a[k] == b[k]
    {
      assert b[k] <= origins[k];
      assert k in Visible(c, origins);
      assert a[k] <= b[k];
    }
  }

  lemma ServerStable(c: Config, s: State, s': State)
    requires Inv(c, s') && Later(c, s, s') && s.server == Visible(c, Origins(c, s.work))
    ensures s'.server == s.server
  {
    GapCloses(c, s.server, s'.server, Origins(c, s.work));
  }

  lemma CopyStable(c: Config, origins: Tree, server: Tree, known: set<string>, work: map<Workdir, Tree>,
                   work': map<Workdir, Tree>, dir: Workdir, k: Key)
    requires TreesOk(c, origins, server, known, work') && dir in work && dir in work'
    requires InSync(c, server, work[dir]) && Below(work[dir], work'[dir])
    requires k in work'[dir] && !c.Owns(dir, k)
    ensures k in work[dir] && work[dir][k] == work'[dir][k]
  {
    assert k in QueuePart(server) && work'[dir][k] <= server[k];
    assert k in QueuePart(Visible(c, work[dir])) && QueuePart(Visible(c, work[dir]))[k] == QueuePart(server)[k];
    assert work[dir][k] == server[k];
  }

  lemma WorkdirStable(c: Config, origins: Tree, server: Tree, known: set<string>, work: map<Workdir, Tree>,
                      work': map<Workdir, Tree>, dir: Workdir)
    requires TreesOk(c, origins, server, known, work') && dir in work && dir in work'
    requires Origins(c, work) == Origins(c, work')
    requires InSync(c, server, work[dir]) && Below(work[dir], work'[dir])
    ensures work'[dir] == work[dir]
  {
    forall k | k in work'[dir]
      ensures k in work[dir] && work[dir][k] == work'[dir][k]
    {
      if c.Owns(dir, k) {
        OriginOf(c, work, k);
        OriginOf(c, work', k);
      } else {
        CopyStable(c, origins, server, known, work, work', dir, k);
      }
    }
  }

  /** Once the fleet has converged, no step changes any tree, whatever stale or repeated messages arrive, until a
      fuzzer finds something. */
  lemma StaysConverged(c: Config, s: State, acts: seq<Action>, s': State)
    requires Reachable(c, s) && Converged(c, s)
    requires Run(c, s, acts, s') && Quiet(acts)
    ensures s'.server == s.server && s'.work == s.work
  {
    AfterRun(c, s, acts, s');
    ReachableInv(c, s');
    ConvergedLater(c, s, s');
  }

  lemma WorkStable(c: Config, origins: Tree, server: Tree, known: set<string>, work: map<Workdir, Tree>,
                   work': map<Workdir, Tree>)
    requires TreesOk(c, origins, server, known, work') && Origins(c, work) == Origins(c, work')
    requires AllInSync(c, server, work) && WorkBelow(work, work')
    ensures work' == work
  {
    forall dir | dir in work
      ensures work'[dir] == work[dir]
    {
      WorkdirStable(c, origins, server, known, work, work', dir);
    }
  }

  lemma ConvergedLater(c: Config, s: State, s': State)
    requires Converged(c, s) && Inv(c, s') && Later(c, s, s')
    ensures s'.server == s.server && s'.work == s.work
  {
    ServerStable(c, s, s');
    WorkStable(c, Origins(c, s'.work), s'.server, s'.known, s.work, s'.work);
  }
}
