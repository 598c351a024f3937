/** The loops that read and write directories take the steps of the sync protocol. */
module Refinement {
  import opened Text
  import opened Paths
  import opened FileStore
  import opened Names
  import opened Disk
  import opened Corpus
  import opened AflFiles
  import opened Fleet
  import Sync
  import Progress

  // ---------------------------------------------------------------- a directory as a protocol tree

  function KeyPath(base: Path, k: Sync.Key): Path {
    base + [OUTPUT, k.id, KindName(k.kind), k.name]
  }

  /** A path of the form `<base>/output/<id>/{queue,crashes,hangs}/<name>`. */
  predicate OnKey(base: Path, p: Path) {
    |p| == |base| + 4 && base + [OUTPUT] <= p && p[|base| + 2] in {QUEUE, CRASHES, HANGS}
  }

  function KeyOf(base: Path, p: Path): Sync.Key
    requires OnKey(base, p)
  {
    var kind := if p[|base| + 2] == QUEUE then Queue else if p[|base| + 2] == CRASHES then Crashes else Hangs;
    Sync.Key(p[|base| + 1], kind, p[|base| + 3])
  }

  lemma KeyPathRoundTrip(base: Path, k: Sync.Key)
    ensures OnKey(base, KeyPath(base, k)) && KeyOf(base, KeyPath(base, k)) == k
  {
    var p := KeyPath(base, k);
    assert p[|base| + 1] == k.id && p[|base| + 2] == KindName(k.kind) && p[|base| + 3] == k.name;
    match k.kind case Queue => case Crashes => case Hangs =>
  }

  ghost function TreeOf(base: Path, files: Files): Sync.Tree {
    var keys := set p | p in files && OnKey(base, p) :: KeyOf(base, p);
    map k | k in keys && KeyPath(base, k) in files :: files[KeyPath(base, k)]
  }

  lemma TreeHas(base: Path, files: Files, k: Sync.Key)
    ensures k in TreeOf(base, files) <==> KeyPath(base, k) in files
    ensures k in TreeOf(base, files) ==> TreeOf(base, files)[k] == files[KeyPath(base, k)]
  {
    KeyPathRoundTrip(base, k);
  }

  /** One `WriteInputToFile` is one installation. */
  lemma PutIsInstall(base: Path, files: Files, k: Sync.Key, body: Bytes)
    ensures TreeOf(base, Put(files, Write(KeyPath(base, k), body))) == Sync.Install(TreeOf(base, files), k, body)
  {
    var a, b := TreeOf(base, Put(files, Write(KeyPath(base, k), body))), Sync.Install(TreeOf(base, files), k, body);
    forall j
      ensures j in a <==> j in b
      ensures j in a ==> a[j] == b[j]
    {
      TreeHas(base, files, j);
      TreeHas(base, Put(files, Write(KeyPath(base, k), body)), j);
      KeyPathRoundTrip(base, j);
      KeyPathRoundTrip(base, k);
    }
  }

  // ---------------------------------------------------------------- a series of writes as a run

  datatype KeyedWrite = KeyedWrite(key: Sync.Key, body: Bytes)

  function OnDisk(base: Path, kws: seq<KeyedWrite>): (ws: seq<Write>)
    ensures |ws| == |kws|
  {
    seq(|kws|, i requires 0 <= i < |kws| => Write(KeyPath(base, kws[i].key), kws[i].body))
  }

  function Keys(kws: seq<KeyedWrite>): set<Sync.Key> {
    set kw | kw in kws :: kw.key
  }

  ghost predicate DistinctKeys(kws: seq<KeyedWrite>) {
    forall i, j | 0 <= i < j < |kws| :: kws[i].key != kws[j].key
  }

  function WriteActs(t: nat, kws: seq<KeyedWrite>): (acts: seq<Sync.Action>)
    ensures |acts| == |kws|
  {
    seq(|kws|, i requires 0 <= i < |kws| => Sync.WriteAll(t, kws[i].key))
  }

  /** Writer `t` exists, its message too, and its site. */
  predicate WriterAt(s: Sync.State, t: nat) {
    && t < |s.writers| && s.writers[t].msg < |s.net|
    && (s.writers[t].site.Client? ==> s.writers[t].site.workdir in s.work)
  }

  function Target(s: Sync.State, t: nat): Sync.Tree
    requires WriterAt(s, t)
  {
    Sync.At(s, s.writers[t].site)
  }

  /** The state once writer `t` has made its site's tree `tree` by writing `keys`. */
  function Written(s: Sync.State, t: nat, tree: Sync.Tree, keys: set<Sync.Key>): Sync.State
    requires WriterAt(s, t)
  {
    var w := s.writers[t];
    Sync.SetAt(s, w.site, tree).(writers := s.writers[t := w.(pending := w.pending - keys)])
  }

  /** The writer still has to write this file, and this is its body in the message. */
  predicate Owes(s: Sync.State, t: nat, kw: KeyedWrite)
    requires WriterAt(s, t)
  {
    && kw.key in s.writers[t].pending
    && kw.key in s.net[s.writers[t].msg].tree && s.net[s.writers[t].msg].tree[kw.key] == kw.body
  }

  ghost predicate OwesAll(s: Sync.State, t: nat, kws: seq<KeyedWrite>)
    requires WriterAt(s, t)
  {
    DistinctKeys(kws) && forall i | 0 <= i < |kws| :: Owes(s, t, kws[i])
  }

  lemma MayWrite(c: Sync.Config, s: Sync.State, t: nat, tree: Sync.Tree, keys: set<Sync.Key>, kw: KeyedWrite)
    requires WriterAt(s, t) && Owes(s, t, kw) && kw.key !in keys
    ensures Sync.CanWrite(Written(s, t, tree, keys), t, kw.key)
    ensures Sync.Enabled(c, Written(s, t, tree, keys), Sync.WriteAll(t, kw.key))
  {
  }

  lemma WriteStep(c: Sync.Config, s: Sync.State, t: nat, tree: Sync.Tree, keys: set<Sync.Key>, kw: KeyedWrite)
    requires WriterAt(s, t) && Owes(s, t, kw) && kw.key !in keys
    ensures var a := Sync.WriteAll(t, kw.key);
            && Sync.Enabled(c, Written(s, t, tree, keys), a)
            && Sync.Step(c, Written(s, t, tree, keys), a) ==
               Written(s, t, Sync.Install(tree, kw.key, kw.body), keys + {kw.key})
  {
    MayWrite(c, s, t, tree, keys, kw);
    var w := s.writers[t];
    assert w.pending - keys - {kw.key} == w.pending - (keys + {kw.key});
    assert s.writers[t := w.(pending := w.pending - keys)][t := w.(pending := w.pending - (keys + {kw.key}))]
        == s.writers[t := w.(pending := w.pending - (keys + {kw.key}))];
    if w.site.Client? {
      var d := w.site.workdir;
      var more := Sync.Install(tree, kw.key, kw.body);
      assert s.work[d := tree][d := more] == s.work[d := more];
    }
  }

  lemma WriteMore(c: Sync.Config, s: Sync.State, t: nat, tree: Sync.Tree, keys: set<Sync.Key>, kw: KeyedWrite,
                  acts: seq<Sync.Action>)
    requires WriterAt(s, t) && Owes(s, t, kw) && kw.key !in keys
    requires Sync.Run(c, s, acts, Written(s, t, tree, keys))
    ensures Sync.Run(c, s, acts + [Sync.WriteAll(t, kw.key)],
                     Written(s, t, Sync.Install(tree, kw.key, kw.body), keys + {kw.key}))
  {
    WriteStep(c, s, t, tree, keys, kw);
    RunSnoc(c, s, acts, Written(s, t, tree, keys), Sync.WriteAll(t, kw.key));
  }

  lemma {:induction false} WritesRun(c: Sync.Config, s: Sync.State, t: nat, base: Path, files: Files,
                                     kws: seq<KeyedWrite>)
    requires WriterAt(s, t) && Target(s, t) == TreeOf(base, files) && OwesAll(s, t, kws)
    ensures Sync.Run(c, s, WriteActs(t, kws), Written(s, t, TreeOf(base, Apply(files, OnDisk(base, kws))), Keys(kws)))
  {
    if kws == [] {
      assert Keys(kws) == {} && OnDisk(base, kws) == [] && WriteActs(t, kws) == [];
      NothingWritten(s, t);
    } else {
      var front, last := kws[..|kws| - 1], kws[|kws| - 1];
      WritesRun(c, s, t, base, files, front);
      KeysSplit(kws);
      LastWrite(base, files, kws);
      var tree := TreeOf(base, Apply(files, OnDisk(base, front)));
      WriteMore(c, s, t, tree, Keys(front), last, WriteActs(t, front));
      ActsSplit(t, kws);
    }
  }

  lemma ActsSplit(t: nat, kws: seq<KeyedWrite>)
    requires kws != []
    ensures WriteActs(t, kws) == WriteActs(t, kws[..|kws| - 1]) + [Sync.WriteAll(t, kws[|kws| - 1].key)]
  {
  }

  lemma LastWrite(base: Path, files: Files, kws: seq<KeyedWrite>)
    requires kws != []
    ensures var front, last := kws[..|kws| - 1], kws[|kws| - 1];
            TreeOf(base, Apply(files, OnDisk(base, kws))) ==
            Sync.Install(TreeOf(base, Apply(files, OnDisk(base, front))), last.key, last.body)
  {
    var front, last := kws[..|kws| - 1], kws[|kws| - 1];
    assert OnDisk(base, kws)[..|kws| - 1] == OnDisk(base, front);
    PutIsInstall(base, Apply(files, OnDisk(base, front)), last.key, last.body);
  }

  lemma RunSnoc(c: Sync.Config, s: Sync.State, acts: seq<Sync.Action>, mid: Sync.State, a: Sync.Action)
    requires Sync.Run(c, s, acts, mid) && Sync.Enabled(c, mid, a)
    ensures Sync.Run(c, s, acts + [a], Sync.Step(c, mid, a))
  {
    Progress.GoesOnce(c, mid, a);
    Sync.RunConcat(c, s, acts, mid, [a], Sync.Step(c, mid, a));
  }

  lemma NothingWritten(s: Sync.State, t: nat)
    requires WriterAt(s, t)
    ensures Written(s, t, Target(s, t), {}) == s
  {
    assert s.writers[t].pending - {} == s.writers[t].pending;
    assert s.writers[t := s.writers[t]] == s.writers;
    if s.writers[t].site.Client? {
      assert s.work[s.writers[t].site.workdir := s.work[s.writers[t].site.workdir]] == s.work;
    }
  }

  lemma KeysSplit(kws: seq<KeyedWrite>)
    requires kws != [] && DistinctKeys(kws)
    ensures Keys(kws) == Keys(kws[..|kws| - 1]) + {kws[|kws| - 1].key}
    ensures kws[|kws| - 1].key !in Keys(kws[..|kws| - 1])
  {
    assert kws == kws[..|kws| - 1] + [kws[|kws| - 1]];
  }

  lemma WrittenTarget(s: Sync.State, t: nat, tree: Sync.Tree, keys: set<Sync.Key>)
    requires WriterAt(s, t)
    ensures WriterAt(Written(s, t, tree, keys), t) && Target(Written(s, t, tree, keys), t) == tree
    ensures Written(s, t, tree, keys).writers[t].pending == s.writers[t].pending - keys
  {
  }

  lemma OwesPrefix(s: Sync.State, t: nat, kws: seq<KeyedWrite>, n: nat)
    requires WriterAt(s, t) && OwesAll(s, t, kws) && n <= |kws|
    ensures OwesAll(s, t, kws[..n])
  {
  }

  /** Writing the first `n` files of a message is a run of the protocol. */
  lemma HandlerRuns(c: Sync.Config, s: Sync.State, t: nat, base: Path, files: Files, kws: seq<KeyedWrite>, n: nat)
    returns (acts: seq<Sync.Action>, s': Sync.State)
    requires WriterAt(s, t) && Target(s, t) == TreeOf(base, files) && OwesAll(s, t, kws) && n <= |kws|
    ensures Sync.Run(c, s, acts, s')
    ensures WriterAt(s', t) && s'.writers[t].site == s.writers[t].site
    ensures Target(s', t) == TreeOf(base, Apply(files, OnDisk(base, kws)[..n]))
    ensures n == |kws| && s.writers[t].pending <= Keys(kws) ==> s'.writers[t].pending == {}
  {
    OwesPrefix(s, t, kws, n);
    WritesRun(c, s, t, base, files, kws[..n]);
    assert OnDisk(base, kws[..n]) == OnDisk(base, kws)[..n];
    var tree := TreeOf(base, Apply(files, OnDisk(base, kws)[..n]));
    WrittenTarget(s, t, tree, Keys(kws[..n]));
    acts, s' := WriteActs(t, kws[..n]), Written(s, t, tree, Keys(kws[..n]));
    assert n == |kws| ==> kws[..n] == kws;
  }

  // ---------------------------------------------------------------- corpora as messages

  /** The corpora of an upload, and of a set of queues, by fuzzer and kind. */
  type Corpora = (string, Kind) -> seq<Input>

  function UploadCorpora(f: string, output: Output): Corpora {
    (id: string, kind: Kind) => if id == f then output.Of(kind) else []
  }

  function QueueCorpora(queues: map<string, seq<Input>>): Corpora {
    (id: string, kind: Kind) => if kind == Queue && id in queues then queues[id] else []
  }

  /** The tree of a message holds exactly the inputs of these corpora. */
  ghost predicate Holds(tree: Sync.Tree, corpora: Corpora) {
    forall k: Sync.Key ::
      (if k in tree then Some(tree[k]) else None) == Lookup(corpora(k.id, k.kind), k.name)
  }

  function Keyed(id: string, kind: Kind, inputs: seq<Input>): (kws: seq<KeyedWrite>)
    ensures |kws| == |inputs|
  {
    seq(|inputs|, i requires 0 <= i < |inputs| => KeyedWrite(Sync.Key(id, kind, inputs[i].name), inputs[i].body))
  }

  lemma KeyedOnDisk(base: Path, id: string, kind: Kind, inputs: seq<Input>)
    requires Component(id) && ComponentNames(inputs)
    ensures OnDisk(base, Keyed(id, kind, inputs)) == Writes(AflFileManager(base, id).Dir(kind), inputs)
  {
    var m := AflFileManager(base, id);
    m.Layout();
    WritesBelow(m.Dir(kind), inputs, m.Dir(kind));
    forall i | 0 <= i < |inputs|
      ensures OnDisk(base, Keyed(id, kind, inputs))[i] == Writes(m.Dir(kind), inputs)[i]
    {
      var k := Sync.Key(id, kind, inputs[i].name);
      assert base + [OUTPUT, id, KindName(kind)] + [inputs[i].name] == KeyPath(base, k);
    }
  }

  lemma OnDiskConcat(base: Path, a: seq<KeyedWrite>, b: seq<KeyedWrite>)
    ensures OnDisk(base, a + b) == OnDisk(base, a) + OnDisk(base, b)
    ensures Keys(a + b) == Keys(a) + Keys(b)
  {
  }

  /** What a writer owes of one corpus. */
  lemma KeyedOwed(s: Sync.State, t: nat, corpora: Corpora, id: string, kind: Kind)
    requires WriterAt(s, t) && Holds(s.net[s.writers[t].msg].tree, corpora)
    requires s.writers[t].pending == s.net[s.writers[t].msg].tree.Keys
    requires AscendingInputs(corpora(id, kind))
    ensures OwesAll(s, t, Keyed(id, kind, corpora(id, kind)))
    ensures forall name :: Sync.Key(id, kind, name) in s.writers[t].pending ==>
                             Sync.Key(id, kind, name) in Keys(Keyed(id, kind, corpora(id, kind)))
  {
    var inputs := corpora(id, kind);
    var kws := Keyed(id, kind, inputs);
    forall i | 0 <= i < |kws|
      ensures Owes(s, t, kws[i])
    {
      LookupAt(inputs, i);
      assert kws[i].key in s.net[s.writers[t].msg].tree;
    }
    forall i, j | 0 <= i < j < |kws|
      ensures kws[i].key != kws[j].key
    {
      assert Less(inputs[i].name, inputs[j].name);
      LessIrreflexive(inputs[i].name);
    }
    forall name | Sync.Key(id, kind, name) in s.writers[t].pending
      ensures Sync.Key(id, kind, name) in Keys(kws)
    {
      LookupSome(inputs, name);
      var i :| 0 <= i < |inputs| && InputNames(inputs)[i] == name;
      assert kws[i].key == Sync.Key(id, kind, name) && kws[i] in kws;
    }
  }

  lemma OwesConcat(s: Sync.State, t: nat, a: seq<KeyedWrite>, b: seq<KeyedWrite>)
    requires WriterAt(s, t) && OwesAll(s, t, a) && OwesAll(s, t, b)
    requires Keys(a) !! Keys(b)
    ensures OwesAll(s, t, a + b)
  {
    forall i, j | 0 <= i < |a| && 0 <= j < |b|
      ensures a[i].key != b[j].key
    {
      assert a[i] in a && b[j] in b;
      assert a[i].key in Keys(a) && b[j].key in Keys(b);
    }
  }

  lemma KeyedKeys(id: string, kind: Kind, inputs: seq<Input>)
    ensures forall k | k in Keys(Keyed(id, kind, inputs)) :: k.id == id && k.kind == kind
  {
  }

  // ---------------------------------------------------------------- the server's handler

  ghost predicate AscendingOutput(output: Output) {
    AscendingInputs(output.queue) && AscendingInputs(output.crashes) && AscendingInputs(output.hangs)
  }

  function KeyedUpload(f: string, output: Output): seq<KeyedWrite> {
    Keyed(f, Queue, output.queue) + Keyed(f, Crashes, output.crashes) + Keyed(f, Hangs, output.hangs)
  }

  lemma UploadOnDisk(base: Path, f: string, output: Output)
    requires Component(f) && ComponentOutput(output)
    ensures OnDisk(base, KeyedUpload(f, output)) == AflFileManager(base, f).OutputWrites(output)
  {
    var q, c, h := Keyed(f, Queue, output.queue), Keyed(f, Crashes, output.crashes), Keyed(f, Hangs, output.hangs);
    OnDiskConcat(base, q + c, h);
    OnDiskConcat(base, q, c);
    KeyedOnDisk(base, f, Queue, output.queue);
    KeyedOnDisk(base, f, Crashes, output.crashes);
    KeyedOnDisk(base, f, Hangs, output.hangs);
  }

  lemma UploadOwed(s: Sync.State, t: nat, f: string, output: Output)
    requires WriterAt(s, t) && Holds(s.net[s.writers[t].msg].tree, UploadCorpora(f, output))
    requires s.writers[t].pending == s.net[s.writers[t].msg].tree.Keys
    requires AscendingOutput(output)
    ensures OwesAll(s, t, KeyedUpload(f, output)) && s.writers[t].pending <= Keys(KeyedUpload(f, output))
  {
    var q, c, h := Keyed(f, Queue, output.queue), Keyed(f, Crashes, output.crashes), Keyed(f, Hangs, output.hangs);
    KeyedOwed(s, t, UploadCorpora(f, output), f, Queue);
    KeyedOwed(s, t, UploadCorpora(f, output), f, Crashes);
    KeyedOwed(s, t, UploadCorpora(f, output), f, Hangs);
    KeyedKeys(f, Queue, output.queue);
    KeyedKeys(f, Crashes, output.crashes);
    KeyedKeys(f, Hangs, output.hangs);
    OwesConcat(s, t, q, c);
    OnDiskConcat([], q, c);
    OwesConcat(s, t, q + c, h);
    OnDiskConcat([], q + c, h);
    forall k | k in s.writers[t].pending
      ensures k in Keys(KeyedUpload(f, output))
    {
      assert k.id == f;
      match k.kind case Queue => case Crashes => case Hangs =>
    }
  }

  /** A writer that has an upload to install has written nothing yet. */
  ghost predicate UploadDue(s: Sync.State, t: nat, f: string, output: Output) {
    && WriterAt(s, t) && s.writers[t].site == Sync.Server
    && Holds(s.net[s.writers[t].msg].tree, UploadCorpora(f, output))
    && s.writers[t].pending == s.net[s.writers[t].msg].tree.Keys
  }

  lemma UploadRuns(c: Sync.Config, s: Sync.State, t: nat, base: Path, files: Files, f: string, output: Output,
                   done: seq<Write>)
    returns (acts: seq<Sync.Action>, s': Sync.State)
    requires Component(f) && ComponentOutput(output) && AscendingOutput(output)
    requires UploadDue(s, t, f, output) && s.server == TreeOf(base, files)
    requires done <= AflFileManager(base, f).OutputWrites(output)
    ensures Sync.Run(c, s, acts, s') && s'.server == TreeOf(base, Apply(files, done)) && t < |s'.writers|
    ensures done == AflFileManager(base, f).OutputWrites(output) ==> s'.writers[t].pending == {}
  {
    UploadOnDisk(base, f, output);
    UploadOwed(s, t, f, output);
    assert OnDisk(base, KeyedUpload(f, output))[..|done|] == done;
    acts, s' := HandlerRuns(c, s, t, base, files, KeyedUpload(f, output), |done|);
  }

  /** `WriteOutput` on the server's disk takes the steps of a writer on the message that holds the upload. However far
      it gets, the disk is what the protocol's server then holds; if it succeeds the writer has finished. */
  method HandleUpload(disk: Disk, fm: FleetFileManager, fuzzerId: string, output: AflOutput, ghost c: Sync.Config,
                      ghost s: Sync.State, ghost t: nat)
    returns (ok: bool, ghost acts: seq<Sync.Action>, ghost s': Sync.State)
    requires disk.Valid() && Clean(fm.Basedir)
    requires Component(fuzzerId) && ComponentOutput(output.Value()) && AscendingOutput(output.Value())
    requires UploadDue(s, t, fuzzerId, output.Value()) && s.server == TreeOf(fm.Basedir, disk.files)
    modifies disk`files
    ensures disk.Valid()
    ensures var ws := fm.Afl(fuzzerId).OutputWrites(output.Value());
            && disk.files == Apply(old(disk.files), Accepted(disk.dirs, ws))
            && (ok <==> Accepted(disk.dirs, ws) == ws)
    ensures Sync.Run(c, s, acts, s') && s'.server == TreeOf(fm.Basedir, disk.files)
    ensures ok ==> t < |s'.writers| && s'.writers[t].pending == {}
  {
    ghost var done := Accepted(disk.dirs, fm.Afl(fuzzerId).OutputWrites(output.Value()));
    acts, s' := UploadRuns(c, s, t, fm.Basedir, disk.files, fuzzerId, output.Value(), done);
    ok := fm.WriteOutput(disk, fuzzerId, output);
  }

  // ---------------------------------------------------------------- the client's download

  function KeyedQueues(order: seq<string>, queues: map<string, seq<Input>>): seq<KeyedWrite>
    requires forall id | id in order :: id in queues
  {
    if order == [] then []
    else
      var last := order[|order| - 1];
      KeyedQueues(order[..|order| - 1], queues) + Keyed(last, Queue, queues[last])
  }

  ghost predicate ProperQueues(queues: map<string, seq<Input>>) {
    forall id | id in queues :: Component(id) && ComponentNames(queues[id]) && AscendingInputs(queues[id])
  }

  lemma {:induction false} QueuesOnDisk(fm: FleetFileManager, order: seq<string>, queues: map<string, seq<Input>>)
    requires ProperQueues(queues) && forall id | id in order :: id in queues
    ensures OnDisk(fm.Basedir, KeyedQueues(order, queues)) == fm.QueueWrites(order, queues)
  {
    if order != [] {
      var front, last := order[..|order| - 1], order[|order| - 1];
      QueuesOnDisk(fm, front, queues);
      OnDiskConcat(fm.Basedir, KeyedQueues(front, queues), Keyed(last, Queue, queues[last]));
      KeyedOnDisk(fm.Basedir, last, Queue, queues[last]);
    }
  }

  /** A writer that has queues to install in a workdir has written nothing yet. */
  ghost predicate DownloadDue(s: Sync.State, t: nat, workdir: Sync.Workdir, queues: map<string, seq<Input>>) {
    && WriterAt(s, t) && s.writers[t].site == Sync.Client(workdir)
    && Holds(s.net[s.writers[t].msg].tree, QueueCorpora(queues))
    && s.writers[t].pending == s.net[s.writers[t].msg].tree.Keys
  }

  lemma {:induction false} QueuesOwed(s: Sync.State, t: nat, w: Sync.Workdir, order: seq<string>,
                                      queues: map<string, seq<Input>>)
    requires DownloadDue(s, t, w, queues) && ProperQueues(queues)
    requires NoRepeats(order) && forall id | id in order :: id in queues
    ensures OwesAll(s, t, KeyedQueues(order, queues))
    ensures forall k | k in Keys(KeyedQueues(order, queues)) :: k.id in order
    ensures forall k | k in s.writers[t].pending && k.id in order :: k in Keys(KeyedQueues(order, queues))
  {
    if order != [] {
      var front, last := order[..|order| - 1], order[|order| - 1];
      NoRepeatsSplit(order);
      QueuesOwed(s, t, w, front, queues);
      KeyedOwed(s, t, QueueCorpora(queues), last, Queue);
      KeyedKeys(last, Queue, queues[last]);
      OwesConcat(s, t, KeyedQueues(front, queues), Keyed(last, Queue, queues[last]));
      OnDiskConcat([], KeyedQueues(front, queues), Keyed(last, Queue, queues[last]));
      forall k | k in s.writers[t].pending && k.id == last
        ensures k in Keys(Keyed(last, Queue, queues[last]))
      {
        assert k.kind == Queue;
        assert k == Sync.Key(last, Queue, k.name);
      }
    }
  }

  lemma DownloadRuns(c: Sync.Config, s: Sync.State, t: nat, w: Sync.Workdir, fm: FleetFileManager, files: Files,
                     order: seq<string>, queues: map<string, seq<Input>>, done: seq<Write>)
    returns (acts: seq<Sync.Action>, s': Sync.State)
    requires DownloadDue(s, t, w, queues) && ProperQueues(queues) && s.work[w] == TreeOf(fm.Basedir, files)
    requires NoRepeats(order) && (forall id | id in order :: id in queues)
    requires done <= fm.QueueWrites(order, queues)
    ensures Sync.Run(c, s, acts, s') && w in s'.work && s'.work[w] == TreeOf(fm.Basedir, Apply(files, done))
    ensures t < |s'.writers|
    ensures done == fm.QueueWrites(order, queues) && (forall id | id in queues :: id in order) ==>
              s'.writers[t].pending == {}
  {
    QueuesOnDisk(fm, order, queues);
    QueuesOwed(s, t, w, order, queues);
    assert OnDisk(fm.Basedir, KeyedQueues(order, queues))[..|done|] == done;
    acts, s' := HandlerRuns(c, s, t, fm.Basedir, files, KeyedQueues(order, queues), |done|);
    if forall id | id in queues :: id in order {
      assert s.writers[t].pending <= Keys(KeyedQueues(order, queues)) by {
        forall k | k in s.writers[t].pending
          ensures k.id in queues
        {
          assert k in s.net[s.writers[t].msg].tree;
          assert Lookup(QueueCorpora(queues)(k.id, k.kind), k.name).Some?;
        }
      }
    }
  }

  /** The end of `WriteQueues`: what it stored, the workdir of the protocol now holds. */
  lemma DownloadEnds(c: Sync.Config, s: Sync.State, t: nat, w: Sync.Workdir, fm: FleetFileManager, was: Storing,
                     order: seq<string>, queues: map<string, seq<Input>>, done: seq<Write>, st: Storing)
    returns (acts: seq<Sync.Action>, s': Sync.State)
    requires DownloadDue(s, t, w, queues) && ProperQueues(queues) && s.work[w] == TreeOf(fm.Basedir, was.files)
    requires fm.StoredSoFar(was.files, was.dirs, order, queues, done, st)
    ensures Sync.Run(c, s, acts, s') && w in s'.work && s'.work[w] == TreeOf(fm.Basedir, st.files)
    ensures st.ok && (forall id | id in queues :: id in order) ==> t < |s'.writers| && s'.writers[t].pending == {}
  {
    acts, s' := DownloadRuns(c, s, t, w, fm, was.files, order, queues, done);
  }

  /** `WriteQueues` on a workdir's disk takes the steps of a writer on the message that holds the queues, in whatever
      order it goes through the fuzzers. */
  method HandleDownload(disk: Disk, fm: FleetFileManager, queues: Queues, ghost c: Sync.Config, ghost s: Sync.State,
                        ghost t: nat, ghost w: Sync.Workdir)
    returns (ok: bool, ghost acts: seq<Sync.Action>, ghost s': Sync.State)
    requires disk.Valid() && Clean(fm.Basedir) && ProperQueues(Contents(queues))
    requires DownloadDue(s, t, w, Contents(queues)) && s.work[w] == TreeOf(fm.Basedir, disk.files)
    modifies disk`files, disk`dirs
    ensures disk.Valid()
    ensures fm.Downloaded(old(disk.files), old(disk.dirs), old(Contents(queues)), ok, disk.files, disk.dirs)
    ensures Sync.Run(c, s, acts, s') && w in s'.work && s'.work[w] == TreeOf(fm.Basedir, disk.files)
    ensures ok ==> t < |s'.writers| && s'.writers[t].pending == {}
  {
    ghost var was, contents := Storing(disk.files, disk.dirs, true), Contents(queues);
    ghost var order, done;
    ok, order, done := fm.WriteQueues(disk, queues);
    acts, s' := DownloadEnds(c, s, t, w, fm, was, order, contents, done, Storing(disk.files, disk.dirs, ok));
  }

  // ---------------------------------------------------------------- reading

  /** What `ReadOutput` returns is what the protocol's uploader sends: all visible files of the fuzzer. */
  lemma OutputIsMessage(c: Sync.Config, base: Path, files: Files, dirs: set<Path>, f: string)
    requires c.readme == README && Component(f) && AflFileManager(base, f).OutputOn(files, dirs).Some?
    ensures Holds(Sync.Visible(c, Sync.Own(TreeOf(base, files), f)),
                  UploadCorpora(f, AflFileManager(base, f).OutputOn(files, dirs).value))
  {
    var m := AflFileManager(base, f);
    var output := m.OutputOn(files, dirs).value;
    var tree := Sync.Visible(c, Sync.Own(TreeOf(base, files), f));
    m.Layout();
    forall k: Sync.Key
      ensures (if k in tree then Some(tree[k]) else None) == Lookup(UploadCorpora(f, output)(k.id, k.kind), k.name)
    {
      TreeHas(base, files, k);
      if k.id == f {
        LookupCorpus(files, m.Dir(k.kind), k.name);
        assert m.Dir(k.kind) + [k.name] == KeyPath(base, k);
        assert output.Of(k.kind) == CorpusOf(files, m.Dir(k.kind));
      }
    }
  }

  lemma IdListed(fm: FleetFileManager, files: Files, dirs: set<Path>, k: Sync.Key)
    requires WellFormed(files, dirs) && KeyPath(fm.Basedir, k) in files
    ensures k.id in fm.Ids(dirs)
  {
    var p := KeyPath(fm.Basedir, k);
    PrefixesAreDirs(files, dirs, p);
    assert p[..|fm.Basedir| + 2] == fm.TopLevelOutputDir() + [k.id];
    fm.IdsOf(dirs, k.id);
  }

  /** The file of a key, as the queues read hold it. */
  lemma QueueFileIs(fm: FleetFileManager, files: Files, dirs: set<Path>, k: Sync.Key)
    requires WellFormed(files, dirs) && fm.QueuesOn(files, dirs).Some?
    ensures Lookup(QueueCorpora(fm.QueuesOn(files, dirs).value)(k.id, k.kind), k.name) ==
            if k.kind == Queue && k.name != README then Body(files, KeyPath(fm.Basedir, k)) else None
  {
    if k.kind == Queue {
      if k.id in fm.Ids(dirs) {
        fm.IdIsComponent(files, dirs, k.id);
        fm.Afl(k.id).Layout();
        LookupCorpus(files, fm.Afl(k.id).QueueDir(), k.name);
        assert fm.Afl(k.id).QueueDir() + [k.name] == KeyPath(fm.Basedir, k);
      } else if KeyPath(fm.Basedir, k) in files {
        IdListed(fm, files, dirs, k);
      }
    }
  }

  /** The queues that `ReadQueues` returns are, as a message, the visible queue files of the tree. */
  lemma QueuesAreMessage(c: Sync.Config, fm: FleetFileManager, files: Files, dirs: set<Path>)
    requires c.readme == README && WellFormed(files, dirs) && fm.QueuesOn(files, dirs).Some?
    ensures Holds(Sync.QueuePart(Sync.Visible(c, TreeOf(fm.Basedir, files))),
                  QueueCorpora(fm.QueuesOn(files, dirs).value))
  {
    var tree := Sync.QueuePart(Sync.Visible(c, TreeOf(fm.Basedir, files)));
    forall k: Sync.Key
      ensures (if k in tree then Some(tree[k]) else None) ==
              Lookup(QueueCorpora(fm.QueuesOn(files, dirs).value)(k.id, k.kind), k.name)
    {
      TreeHas(fm.Basedir, files, k);
      QueueFileIs(fm, files, dirs, k);
    }
  }

  /** Reading the output of a fuzzer stopped in state `s`: the protocol's uploader, whichever reads it makes and
      whatever happens meanwhile, sends a message that holds exactly this output. */
  method ReadForUpload(disk: Disk, m: AflFileManager, ghost c: Sync.Config, ghost s: Sync.State,
                       ghost acts: seq<Sync.Action>, ghost s': Sync.State)
    returns (output: Option<AflOutput>)
    requires disk.Valid() && c.readme == README && Component(m.fuzzerId)
    requires Sync.Reachable(c, s) && Sync.Enabled(c, s, Sync.Pause(m.fuzzerId))
    requires s.work[c.home[m.fuzzerId]] == TreeOf(m.basedir, disk.files)
    requires Sync.Run(c, Sync.Step(c, s, Sync.Pause(m.fuzzerId)), acts, s')
    requires forall a | a in acts :: a != Sync.Resume(m.fuzzerId)
    requires Sync.Enabled(c, s', Sync.Send(m.fuzzerId))
    ensures output.Some? <==> m.QueueDir() in disk.dirs && m.CrashesDir() in disk.dirs && m.HangsDir() in disk.dirs
    ensures output.Some? ==>
              exists tree :: && Sync.Step(c, s', Sync.Send(m.fuzzerId)).net == s'.net + [Sync.Upload(m.fuzzerId, tree)]
                             && Holds(tree, UploadCorpora(m.fuzzerId, output.value.Value()))
  {
    output := m.ReadOutput(disk);
    if output.Some? {
      Sync.SnapshotAtomic(c, s, m.fuzzerId, acts, s');
      OutputIsMessage(c, m.basedir, disk.files, disk.dirs, m.fuzzerId);
    }
  }

  function QueueDirs(ids: seq<string>): (dirs: seq<Sync.Dir>)
    ensures forall d | d in dirs :: d.kind == Queue
    ensures forall id | id in ids :: Sync.Dir(id, Queue) in dirs
  {
    if ids == [] then [] else [Sync.Dir(ids[0], Queue)] + QueueDirs(ids[1..])
  }

  /** A request for the queues that the protocol's server takes up in state `s` and can answer in state `s'`, its files
      being the same. */
  ghost predicate Answerable(c: Sync.Config, s: Sync.State, passes: seq<Sync.Dir>, acts: seq<Sync.Action>,
                             s': Sync.State) {
    && Sync.Reachable(c, s) && Sync.Enabled(c, s, Sync.Snap(passes))
    && Sync.Run(c, Sync.Step(c, s, Sync.Snap(passes)), acts, s') && s'.server == s.server
    && Sync.Enabled(c, s', Sync.Respond(|s.snaps|))
  }

  /** It answers with a message that holds these queues. */
  ghost predicate Answers(c: Sync.Config, s: Sync.State, s': Sync.State, queues: map<string, seq<Input>>) {
    && Sync.Enabled(c, s', Sync.Respond(|s.snaps|))
    && exists tree :: && Sync.Step(c, s', Sync.Respond(|s.snaps|)).net == s'.net + [Sync.Queues(|s.snaps|, tree)]
                      && Holds(tree, QueueCorpora(queues))
  }

  lemma AnswerHolds(c: Sync.Config, fm: FleetFileManager, files: Files, dirs: set<Path>, s: Sync.State,
                    passes: seq<Sync.Dir>, acts: seq<Sync.Action>, s': Sync.State)
    requires c.readme == README && WellFormed(files, dirs) && fm.QueuesOn(files, dirs).Some?
    requires s.server == TreeOf(fm.Basedir, files) && Answerable(c, s, passes, acts, s')
    ensures Answers(c, s, s', fm.QueuesOn(files, dirs).value)
  {
    Sync.AnswerOf(c, s, passes, acts, s');
    QueuesAreMessage(c, fm, files, dirs);
    var tree := s'.snaps[|s.snaps|].got;
    assert Holds(tree, QueueCorpora(fm.QueuesOn(files, dirs).value));
  }

  /** Answering a request for the queues while the server's files do not change: the protocol's server, started on its
      pass in state `s` over the fuzzers that `FuzzerIds` lists, answers with a message that holds exactly what
      `ReadQueues` returns, whichever reads the protocol makes. */
  method ServeQueues(disk: Disk, fm: FleetFileManager, ghost c: Sync.Config, ghost s: Sync.State,
                     ghost acts: seq<Sync.Action>, ghost s': Sync.State)
    returns (queues: Option<Queues>)
    requires disk.Valid() && c.readme == README
    requires s.server == TreeOf(fm.Basedir, disk.files) && s.known == fm.Ids(disk.dirs)
    requires Answerable(c, s, QueueDirs(Sorted(fm.Ids(disk.dirs))), acts, s')
    ensures queues.Some? <==>
              && fm.TopLevelOutputDir() in disk.dirs
              && forall id | id in s.known :: fm.Afl(id).QueueDir() in disk.dirs
    ensures queues.Some? ==> Answers(c, s, s', Contents(queues.value))
  {
    ghost var read := fm.QueuesOn(disk.files, disk.dirs);
    if read.Some? {
      AnswerHolds(c, fm, disk.files, disk.dirs, s, QueueDirs(Sorted(fm.Ids(disk.dirs))), acts, s');
    }
    queues := fm.ReadQueues(disk);
  }

  /** Such a pass may start. */
  lemma PassMayStart(c: Sync.Config, fm: FleetFileManager, dirs: set<Path>, s: Sync.State)
    requires s.known == fm.Ids(dirs)
    ensures Sync.Enabled(c, s, Sync.Snap(QueueDirs(Sorted(fm.Ids(dirs)))))
  {
    assert Enumerates(Sorted(fm.Ids(dirs)), fm.Ids(dirs));
  }
}
