/** The output directories of all fuzzers below one base directory. */
module Fleet {
  import opened Text
  import opened Paths
  import opened FileStore
  import opened Names
  import opened Disk
  import opened Corpus
  import opened AflFiles

  type Queues = map<string, InputCorpus>

  /** The queues by value. */
  ghost function Contents(queues: Queues): (contents: map<string, seq<Input>>)
    reads queues.Values
  {
    map id | id in queues :: queues[id].Inputs
  }

  /** The outputs by value. */
  ghost function Values(outputs: map<string, AflOutput>): map<string, Output>
    reads set id | id in outputs :: outputs[id].Queue
    reads set id | id in outputs :: outputs[id].Crashes
    reads set id | id in outputs :: outputs[id].Hangs
  {
    map id | id in outputs :: outputs[id].Value()
  }

  ghost predicate ComponentQueues(queues: map<string, seq<Input>>) {
    forall id | id in queues :: Component(id) && ComponentNames(queues[id])
  }

  /** The tree and the success of storing queues. */
  datatype Storing = Storing(files: Files, dirs: set<Path>, ok: bool)

  datatype FleetFileManager = FleetFileManager(Basedir: Path) {
    function TopLevelOutputDir(): Path {
      Basedir + [OUTPUT]
    }

    function Afl(fuzzerId: string): AflFileManager {
      AflFileManager(Basedir, fuzzerId)
    }

    function CrashPath(fuzzerId: string, name: string): Option<Path> {
      Afl(fuzzerId).InputPath(CRASHES, name)
    }

    /** A crash's path is in the fuzzer's directory of crashes exactly for well-formed names. */
    lemma CrashPathIsInside(fuzzerId: string, name: string)
      requires Clean(Basedir) && Component(fuzzerId)
      ensures CrashPath(fuzzerId, name) == Some(Basedir + [OUTPUT, fuzzerId, CRASHES, name]) <==> Component(name)
    {
      Afl(fuzzerId).Layout();
      assert Afl(fuzzerId).CorpusDir(CRASHES) == Some(Afl(fuzzerId).Dir(Crashes));
      Afl(fuzzerId).InputPathIsInside(CRASHES, name);
      assert Afl(fuzzerId).Dir(Crashes) + [name] == Basedir + [OUTPUT, fuzzerId, CRASHES, name];
    }

    /** A name that leads out of it. */
    lemma CrashPathEscapes(fuzzerId: string)
      requires Component(fuzzerId)
      ensures CrashPath(fuzzerId, "..") == Some(Basedir + [OUTPUT, fuzzerId])
    {
      Afl(fuzzerId).Layout();
      assert Afl(fuzzerId).CorpusDir(CRASHES) == Some(Afl(fuzzerId).Dir(Crashes));
      JoinSpecial(Afl(fuzzerId).Dir(Crashes));
      assert Parent(Basedir + [OUTPUT, fuzzerId, CRASHES]) == Basedir + [OUTPUT, fuzzerId];
    }

    /** The directories directly below `output/`. */
    function Ids(dirs: set<Path>): set<string> {
      var top := TopLevelOutputDir();
      set p | p in dirs && |p| == |top| + 1 && p[..|top|] == top :: p[|top|]
    }

    lemma IdsOf(dirs: set<Path>, id: string)
      ensures id in Ids(dirs) <==> TopLevelOutputDir() + [id] in dirs
    {
      var top := TopLevelOutputDir();
      if id in Ids(dirs) {
        var p :| p in dirs && |p| == |top| + 1 && p[..|top|] == top && p[|top|] == id;
        assert p == top + [id];
      } else {
        var p := top + [id];
        assert |p| == |top| + 1 && p[..|top|] == top && p[|top|] == id;
      }
    }

    /** Making the directories of an upload adds its fuzzer to those listed, and no other. */
    lemma DirsAddId(dirs: set<Path>, f: string)
      requires Component(f)
      ensures Ids(Afl(f).WithDirs(dirs)) == Ids(dirs) + {f}
    {
      var m, top := Afl(f), TopLevelOutputDir();
      m.Layout();
      forall id
        ensures id in Ids(m.WithDirs(dirs)) <==> id in Ids(dirs) || id == f
      {
        IdsOf(m.WithDirs(dirs), id);
        IdsOf(dirs, id);
        assert (top + [id])[|top|] == id;
        assert forall kind: Kind :: m.Dir(kind)[..|top| + 1] == top + [f];
        assert top + [f] in Prefixes(m.QueueDir());
        assert forall kind: Kind :: top + [id] in Prefixes(m.Dir(kind)) ==> top + [id] == m.Dir(kind)[..|top| + 1];
      }
    }

    lemma IdIsComponent(files: Files, dirs: set<Path>, id: string)
      requires WellFormed(files, dirs) && id in Ids(dirs)
      ensures Component(id)
    {
      IdsOf(dirs, id);
      assert (TopLevelOutputDir() + [id])[|TopLevelOutputDir()|] == id;
    }

    /** `ReadOutputs` by value: every fuzzer's output, provided each has all three directories. */
    ghost function OutputsOn(files: Files, dirs: set<Path>): Option<map<string, Output>> {
      if TopLevelOutputDir() in dirs && forall id | id in Ids(dirs) :: Afl(id).OutputOn(files, dirs).Some?
      then Some(map id | id in Ids(dirs) :: Afl(id).OutputOn(files, dirs).value)
      else None
    }

    /** `ReadQueues` by value. */
    ghost function QueuesOn(files: Files, dirs: set<Path>): Option<map<string, seq<Input>>> {
      if TopLevelOutputDir() in dirs && forall id | id in Ids(dirs) :: Afl(id).QueueDir() in dirs
      then Some(map id | id in Ids(dirs) :: CorpusOf(files, Afl(id).QueueDir()))
      else None
    }

    method FuzzerIds(disk: Disk) returns (ids: Option<seq<string>>)
      requires disk.Valid()
      ensures ids.Some? <==> TopLevelOutputDir() in disk.dirs
      ensures ids.Some? ==> ids.value == Sorted(Ids(disk.dirs))
    {
      var top := TopLevelOutputDir();
      var listing := disk.ReadDir(top);
      if listing.None? {
        return None;
      }
      var names := listing.value;
      var found: seq<string> := [];
      for k := 0 to |names|
        invariant Ascending(found)
        invariant forall i, j | 0 <= i < |found| && k <= j < |names| :: Less(found[i], names[j])
        invariant forall i | 0 <= i < |found| :: top + [found[i]] in disk.dirs
        invariant forall j | 0 <= j < k && top + [names[j]] in disk.dirs :: names[j] in found
      {
        if top + [names[k]] in disk.dirs {
          found := found + [names[k]];
        }
      }
      forall n
        ensures n in found <==> n in Ids(disk.dirs)
      {
        IdsOf(disk.dirs, n);
        EntriesOf(disk.files, disk.dirs, top, n);
      }
      SortedIsThe(Ids(disk.dirs), found);
      ids := Some(found);
    }

    /** The outputs read are those of all fuzzers. */
    lemma OutputsAre(files: Files, dirs: set<Path>, outputs: map<string, Output>)
      requires TopLevelOutputDir() in dirs && outputs.Keys == Ids(dirs)
      requires forall id | id in outputs :: Afl(id).OutputOn(files, dirs) == Some(outputs[id])
      ensures OutputsOn(files, dirs) == Some(outputs)
    {
      forall id | id in Ids(dirs)
        ensures Afl(id).OutputOn(files, dirs) == Some(outputs[id])
      {
        assert id in outputs;
      }
      var read := OutputsOn(files, dirs).value;
      assert read.Keys == outputs.Keys && forall id | id in outputs :: read[id] == outputs[id];
      assert read == outputs;
    }

    /** The outputs read after going through the first `k` fuzzers. */
    ghost predicate ReadSoFar(files: Files, dirs: set<Path>, names: seq<string>, k: nat, outputs: map<string, Output>)
      requires k <= |names|
    {
      && (forall j | 0 <= j < k :: names[j] in outputs)
      && (forall id | id in outputs :: id in names && Afl(id).OutputOn(files, dirs) == Some(outputs[id]))
    }

    lemma ReadNext(files: Files, dirs: set<Path>, names: seq<string>, k: nat, outputs: map<string, Output>)
      requires k < |names| && ReadSoFar(files, dirs, names, k, outputs)
      requires Afl(names[k]).OutputOn(files, dirs).Some?
      ensures ReadSoFar(files, dirs, names, k + 1, outputs[names[k] := Afl(names[k]).OutputOn(files, dirs).value])
    {
    }

    lemma ReadAll(files: Files, dirs: set<Path>, names: seq<string>, outputs: map<string, Output>)
      requires TopLevelOutputDir() in dirs && names == Sorted(Ids(dirs))
      requires ReadSoFar(files, dirs, names, |names|, outputs)
      ensures OutputsOn(files, dirs) == Some(outputs)
    {
      forall id
        ensures id in outputs <==> id in Ids(dirs)
      {
        assert id in names <==> id in Ids(dirs);
      }
      OutputsAre(files, dirs, outputs);
    }

    lemma MissingOutput(files: Files, dirs: set<Path>, names: seq<string>, k: nat)
      requires names == Sorted(Ids(dirs)) && k < |names| && Afl(names[k]).OutputOn(files, dirs).None?
      ensures OutputsOn(files, dirs) == None
    {
      assert names[k] in names;
      assert names[k] in Ids(dirs);
    }

    lemma QueuesAre(files: Files, dirs: set<Path>, names: seq<string>, queues: map<string, seq<Input>>)
      requires TopLevelOutputDir() in dirs && names == Sorted(Ids(dirs))
      requires QueuesSoFar(files, dirs, names, |names|, queues)
      ensures QueuesOn(files, dirs) == Some(queues)
    {
      forall id
        ensures id in queues <==> id in Ids(dirs)
      {
        assert id in names <==> id in Ids(dirs);
      }
      var read := QueuesOn(files, dirs).value;
      assert read.Keys == queues.Keys && forall id | id in queues :: read[id] == queues[id];
      assert read == queues;
    }

    /** The queues read after going through the first `k` fuzzers. */
    ghost predicate QueuesSoFar(files: Files, dirs: set<Path>, names: seq<string>, k: nat,
                                queues: map<string, seq<Input>>)
      requires k <= |names|
    {
      && (forall j | 0 <= j < k :: names[j] in queues)
      && (forall id | id in queues ::
            && id in names && Afl(id).QueueDir() in dirs
            && queues[id] == CorpusOf(files, Afl(id).QueueDir()))
    }

    lemma NextQueue(files: Files, dirs: set<Path>, names: seq<string>, k: nat, queues: map<string, seq<Input>>)
      requires k < |names| && QueuesSoFar(files, dirs, names, k, queues)
      requires Afl(names[k]).QueueDir() in dirs
      ensures QueuesSoFar(files, dirs, names, k + 1, queues[names[k] := CorpusOf(files, Afl(names[k]).QueueDir())])
    {
    }

    lemma MissingQueue(files: Files, dirs: set<Path>, names: seq<string>, k: nat)
      requires names == Sorted(Ids(dirs)) && k < |names| && Afl(names[k]).QueueDir() !in dirs
      ensures QueuesOn(files, dirs) == None
    {
      assert names[k] in names;
      assert names[k] in Ids(dirs);
    }

    /** One round of the loop of `ReadOutputs`. */
    method ReadInto(disk: Disk, id: string, outputs: map<string, AflOutput>)
      returns (more: Option<map<string, AflOutput>>)
      requires disk.Valid()
      ensures more.Some? <==> Afl(id).OutputOn(disk.files, disk.dirs).Some?
      ensures more.Some? ==>
                Values(more.value) == Values(outputs)[id := Afl(id).OutputOn(disk.files, disk.dirs).value]
    {
      var output := Afl(id).ReadOutput(disk);
      if output.None? {
        return None;
      }
      more := Some(outputs[id := output.value]);
    }

    method ReadOutputs(disk: Disk) returns (outputs: Option<map<string, AflOutput>>)
      requires disk.Valid()
      ensures OutputsOn(disk.files, disk.dirs) == if outputs.Some? then Some(Values(outputs.value)) else None
    {
      var ids := FuzzerIds(disk);
      if ids.None? {
        return None;
      }
      outputs := Some(map[]);
      var names := ids.value;
      for k := 0 to |names|
        invariant outputs.Some? && ReadSoFar(disk.files, disk.dirs, names, k, Values(outputs.value))
      {
        ghost var before := Values(outputs.value);
        outputs := ReadInto(disk, names[k], outputs.value);
        if outputs.None? {
          MissingOutput(disk.files, disk.dirs, names, k);
          return;
        }
        ReadNext(disk.files, disk.dirs, names, k, before);
      }
      ReadAll(disk.files, disk.dirs, names, Values(outputs.value));
    }

    /** One round of the loop of `ReadQueues`. */
    method ReadQueueInto(disk: Disk, id: string, queues: Queues) returns (more: Option<Queues>)
      requires disk.Valid()
      ensures more.Some? <==> Afl(id).QueueDir() in disk.dirs
      ensures more.Some? ==>
                && fresh(more.value.Values - queues.Values)
                && Contents(more.value) == Contents(queues)[id := CorpusOf(disk.files, Afl(id).QueueDir())]
    {
      var queue := ReadInputCorpus(disk, Afl(id).QueueDir());
      if queue.None? {
        return None;
      }
      more := Some(queues[id := queue.value]);
    }

    method ReadQueues(disk: Disk) returns (queues: Option<Queues>)
      requires disk.Valid()
      ensures QueuesOn(disk.files, disk.dirs) == if queues.Some? then Some(Contents(queues.value)) else None
      ensures queues.Some? ==> fresh(queues.value.Values)
    {
      var ids := FuzzerIds(disk);
      if ids.None? {
        return None;
      }
      queues := Some(map[]);
      var names := ids.value;
      for k := 0 to |names|
        invariant queues.Some? && QueuesSoFar(disk.files, disk.dirs, names, k, Contents(queues.value))
        invariant fresh(queues.value.Values)
      {
        ghost var before := Contents(queues.value);
        queues := ReadQueueInto(disk, names[k], queues.value);
        if queues.None? {
          MissingQueue(disk.files, disk.dirs, names, k);
          return;
        }
        NextQueue(disk.files, disk.dirs, names, k, before);
      }
      QueuesAre(disk.files, disk.dirs, names, Contents(queues.value));
    }

    method WriteOutput(disk: Disk, fuzzerId: string, output: AflOutput) returns (ok: bool)
      requires disk.Valid() && Clean(Basedir)
      modifies disk`files
      ensures disk.Valid()
      ensures var ws := Afl(fuzzerId).OutputWrites(output.Value());
              && disk.files == Apply(old(disk.files), Accepted(disk.dirs, ws))
              && (ok <==> Accepted(disk.dirs, ws) == ws)
    {
      ok := Afl(fuzzerId).WriteOutput(disk, output);
    }

    /** The writes for some queues, fuzzer by fuzzer in the given order. */
    function QueueWrites(order: seq<string>, queues: map<string, seq<Input>>): seq<Write>
      requires forall id | id in order :: id in queues
    {
      if order == [] then []
      else
        var last := order[|order| - 1];
        QueueWrites(order[..|order| - 1], queues) + Writes(Afl(last).QueueDir(), queues[last])
    }

    /** No file is in the way of a queue's directory. */
    predicate QueueDirFree(files: Files, id: string) {
      forall n | 0 <= n <= |Afl(id).QueueDir()| :: Afl(id).QueueDir()[..n] !in files
    }

    /** The writes of one queue that take place. */
    function QueueAccepted(files: Files, dirs: set<Path>, id: string, queue: seq<Input>): seq<Write> {
      var dir := Afl(id).QueueDir();
      if QueueDirFree(files, id) then Accepted(dirs + Prefixes(dir), Writes(dir, queue)) else []
    }

    /** Storing one queue: make the directory, write until something is in the way. */
    function StoreOne(st: Storing, id: string, queue: seq<Input>): Storing {
      var done := QueueAccepted(st.files, st.dirs, id, queue);
      Storing(Apply(st.files, done),
              if QueueDirFree(st.files, id) then st.dirs + Prefixes(Afl(id).QueueDir()) else st.dirs,
              QueueDirFree(st.files, id) && done == Writes(Afl(id).QueueDir(), queue))
    }

    /** Storing queues in a given order. */
    function StoreAll(files: Files, dirs: set<Path>, order: seq<string>, queues: map<string, seq<Input>>): Storing
      requires forall id | id in order :: id in queues
    {
      if order == [] then Storing(files, dirs, true)
      else
        var last := order[|order| - 1];
        StoreOne(StoreAll(files, dirs, order[..|order| - 1], queues), last, queues[last])
    }

    /** One round of the loop of `WriteQueues`: make the directory, write the corpus. */
    method StoreQueue(disk: Disk, id: string, queue: InputCorpus) returns (ok: bool, ghost done: seq<Write>)
      requires disk.Valid() && Clean(Basedir)
      modifies disk`files, disk`dirs
      ensures disk.Valid() && old(disk.dirs) <= disk.dirs
      ensures done == QueueAccepted(old(disk.files), old(disk.dirs), id, queue.Inputs)
      ensures disk.files == Apply(old(disk.files), done)
      ensures Storing(disk.files, disk.dirs, ok) ==
              StoreOne(Storing(old(disk.files), old(disk.dirs), true), id, queue.Inputs)
    {
      var dir := Afl(id).QueueDir();
      Afl(id).DirsClean();
      done := [];
      ok := disk.MkdirAll(dir);
      if !ok {
        return;
      }
      assert dir == dir[..|dir|] && dir in Prefixes(dir);
      done := Accepted(disk.dirs, Writes(dir, queue.Inputs));
      ok := WriteInputCorpusToFile(disk, queue, dir);
    }

    /** The loop of `WriteQueues` so far: the fuzzers in `order`, all but perhaps the last stored completely. */
    ghost predicate StoredSoFar(files: Files, dirs: set<Path>, order: seq<string>, queues: map<string, seq<Input>>,
                                done: seq<Write>, st: Storing) {
      && NoRepeats(order) && (forall id | id in order :: id in queues)
      && st == StoreAll(files, dirs, order, queues)
      && AllButLast(files, dirs, order, queues)
      && WroteSoFar(files, order, queues, done, st)
    }

    /** All but perhaps the last are stored completely. */
    ghost predicate AllButLast(files: Files, dirs: set<Path>, order: seq<string>, queues: map<string, seq<Input>>)
      requires forall id | id in order :: id in queues
    {
      order != [] ==>
        && StoreAll(files, dirs, order[..|order| - 1], queues).ok
        && AllButLast(files, dirs, order[..|order| - 1], queues)
    }

    /** What was written is what the fuzzers in `order` ask for, or the beginning of it. */
    ghost predicate WroteSoFar(files: Files, order: seq<string>, queues: map<string, seq<Input>>, done: seq<Write>,
                               st: Storing)
      requires forall id | id in order :: id in queues
    {
      && done <= QueueWrites(order, queues) && (st.ok ==> done == QueueWrites(order, queues))
      && st.files == Apply(files, done)
    }

    lemma StoreAllSnoc(files: Files, dirs: set<Path>, order: seq<string>, queues: map<string, seq<Input>>, id: string)
      requires (forall i | i in order :: i in queues) && id in queues
      ensures forall i | i in order + [id] :: i in queues
      ensures StoreAll(files, dirs, order + [id], queues) ==
              StoreOne(StoreAll(files, dirs, order, queues), id, queues[id])
      ensures StoreAll(files, dirs, order, queues).ok && AllButLast(files, dirs, order, queues) ==>
              AllButLast(files, dirs, order + [id], queues)
    {
      assert (order + [id])[..|order|] == order;
    }

    lemma WritesOn(files: Files, order: seq<string>, queues: map<string, seq<Input>>, done: seq<Write>, st: Storing,
                   id: string)
      requires (forall i | i in order :: i in queues) && id in queues
      requires st.ok && WroteSoFar(files, order, queues, done, st)
      ensures forall i | i in order + [id] :: i in queues
      ensures WroteSoFar(files, order + [id], queues, done + QueueAccepted(st.files, st.dirs, id, queues[id]),
                         StoreOne(st, id, queues[id]))
    {
      var more := QueueAccepted(st.files, st.dirs, id, queues[id]);
      ApplyConcat(files, done, more);
      QueueWritesSnoc(order, id, queues);
      assert done + more <= done + Writes(Afl(id).QueueDir(), queues[id]);
    }

    lemma StoredOn(files: Files, dirs: set<Path>, order: seq<string>, queues: map<string, seq<Input>>,
                   done: seq<Write>, st: Storing, id: string)
      requires StoredSoFar(files, dirs, order, queues, done, st) && st.ok && id in queues && id !in order
      ensures StoredSoFar(files, dirs, order + [id], queues, done + QueueAccepted(st.files, st.dirs, id, queues[id]),
                          StoreOne(st, id, queues[id]))
    {
      StoreAllSnoc(files, dirs, order, queues, id);
      WritesOn(files, order, queues, done, st, id);
    }

    lemma {:induction false} StoredDirs(files: Files, dirs: set<Path>, order: seq<string>,
                                        queues: map<string, seq<Input>>, id: string)
      requires (forall i | i in order :: i in queues) && AllButLast(files, dirs, order, queues)
      ensures var st := StoreAll(files, dirs, order, queues);
              st.ok && id in order ==> Afl(id).QueueDir() in st.dirs
    {
      if order != [] {
        var front, last := order[..|order| - 1], order[|order| - 1];
        StoredDirs(files, dirs, front, queues, id);
        InPrefixes(Afl(last).QueueDir());
        assert id in order ==> id in front || id == last;
      }
    }

    lemma InPrefixes(p: Path)
      ensures p in Prefixes(p)
    {
      assert p[..|p|] == p;
    }

    /** Writes the queues in whatever order the map yields them; `order` records it. The first queue that cannot be
        stored ends the loop, and the writes made so far stay. With well-formed ids and names that depends on the
        tree at the start alone: it succeeds exactly if nothing there is in the way of any queue. */
    method WriteQueues(disk: Disk, queues: Queues) returns (ok: bool, ghost order: seq<string>, ghost done: seq<Write>)
      requires disk.Valid() && Clean(Basedir)
      modifies disk`files, disk`dirs
      ensures disk.Valid() && old(disk.dirs) <= disk.dirs
      ensures StoredSoFar(old(disk.files), old(disk.dirs), order, old(Contents(queues)), done,
                          Storing(disk.files, disk.dirs, ok))
      ensures ok ==> forall id | id in queues :: id in order && Afl(id).QueueDir() in disk.dirs
      ensures !ok ==> order != []
      ensures ComponentQueues(old(Contents(queues))) ==>
                Downloaded(old(disk.files), old(disk.dirs), old(Contents(queues)), ok, disk.files, disk.dirs)
    {
      ghost var contents, files, dirs := Contents(queues), disk.files, disk.dirs;
      var left := queues.Keys;
      order, done := [], [];
      ok := true;
      while left != {} && ok
        invariant disk.Valid() && dirs <= disk.dirs
        invariant left <= queues.Keys
        invariant forall id :: id in order <==> id in queues && id !in left
        invariant StoredSoFar(files, dirs, order, contents, done, Storing(disk.files, disk.dirs, ok))
        invariant !ok ==> order != []
        decreases left
      {
        var id :| id in left;
        ghost var st := Storing(disk.files, disk.dirs, ok);
        ghost var more;
        ok, more := StoreQueue(disk, id, queues[id]);
        StoredOn(files, dirs, order, contents, done, st, id);
        order, done, left := order + [id], done + more, left - {id};
      }
      forall id | id in order
        ensures ok ==> Afl(id).QueueDir() in disk.dirs
      {
        StoredDirs(files, dirs, order, contents, id);
      }
      if ComponentQueues(contents) {
        StoredExactly(files, dirs, order, contents, done, Storing(disk.files, disk.dirs, ok));
      }
    }

    /** Nothing in the tree is in the way of a queue: no file where its directory goes, no directory where a file
        goes. */
    predicate Storable(files: Files, dirs: set<Path>, id: string, queue: seq<Input>) {
      && QueueDirFree(files, id)
      && forall i | 0 <= i < |queue| :: Afl(id).QueueDir() + [queue[i].name] !in dirs
    }

    /** How storing a set of queues ends: it succeeds exactly if nothing was in the way of any, and then everything is
        written; otherwise what some of them and the beginning of one more ask for. */
    ghost predicate Downloaded(files: Files, dirs: set<Path>, queues: map<string, seq<Input>>, ok: bool, files': Files,
                               dirs': set<Path>) {
      exists order, done ::
        && StoredSoFar(files, dirs, order, queues, done, Storing(files', dirs', ok))
        && (ok <==> forall id | id in queues :: Storable(files, dirs, id, queues[id]))
        && (if ok then forall id | id in queues :: id in order
            else order != [] && !Storable(files, dirs, order[|order| - 1], queues[order[|order| - 1]]))
    }

    lemma StorableIsStored(st: Storing, id: string, queue: seq<Input>)
      requires ComponentNames(queue)
      ensures StoreOne(st, id, queue).ok <==> Storable(st.files, st.dirs, id, queue)
    {
      var dir := Afl(id).QueueDir();
      var ws, dirs := Writes(dir, queue), st.dirs + Prefixes(dir);
      WritesBelow(dir, queue, dir);
      assert dir == dir[..|dir|];
      forall i | 0 <= i < |queue|
        ensures CanOpen(dirs, ws[i].path) <==> dir + [queue[i].name] !in st.dirs
      {
        assert Parent(dir + [queue[i].name]) == dir;
      }
      if forall i | 0 <= i < |queue| :: dir + [queue[i].name] !in st.dirs {
        AcceptedIsThe(dirs, ws, ws);
      }
      if Accepted(dirs, ws) == ws {
        assert forall i | 0 <= i < |ws| :: CanOpen(dirs, Accepted(dirs, ws)[i].path);
      }
    }

    /** Storing queues makes no file as short as a queue's directory and no directory as long as a queue's file. */
    ghost predicate SameApart(files: Files, dirs: set<Path>, st: Storing, p: Path) {
      && (|p| <= |Basedir| + 3 ==> (p in st.files <==> p in files))
      && (|p| > |Basedir| + 3 ==> (p in st.dirs <==> p in dirs))
    }

    lemma StoreOneApart(st: Storing, id: string, queue: seq<Input>, p: Path)
      requires Component(id) && ComponentNames(queue)
      ensures SameApart(st.files, st.dirs, StoreOne(st, id, queue), p)
    {
      Afl(id).Layout();
      WritesBelow(Afl(id).QueueDir(), queue, Afl(id).QueueDir());
      var done := QueueAccepted(st.files, st.dirs, id, queue);
      assert done <= Writes(Afl(id).QueueDir(), queue);
      ApplyDomain(st.files, done, p);
    }

    lemma {:induction false} StoreAllApart(files: Files, dirs: set<Path>, order: seq<string>,
                                           queues: map<string, seq<Input>>, p: Path)
      requires ComponentQueues(queues) && forall id | id in order :: id in queues
      ensures SameApart(files, dirs, StoreAll(files, dirs, order, queues), p)
    {
      if order != [] {
        var front, last := order[..|order| - 1], order[|order| - 1];
        StoreAllApart(files, dirs, front, queues, p);
        StoreOneApart(StoreAll(files, dirs, front, queues), last, queues[last], p);
      }
    }

    lemma StillStorable(files: Files, dirs: set<Path>, order: seq<string>, queues: map<string, seq<Input>>, id: string)
      requires ComponentQueues(queues) && (forall i | i in order :: i in queues) && id in queues
      ensures var st := StoreAll(files, dirs, order, queues);
              Storable(st.files, st.dirs, id, queues[id]) <==> Storable(files, dirs, id, queues[id])
    {
      Afl(id).Layout();
      var st, dir := StoreAll(files, dirs, order, queues), Afl(id).QueueDir();
      forall n | 0 <= n <= |dir|
        ensures dir[..n] in st.files <==> dir[..n] in files
      {
        StoreAllApart(files, dirs, order, queues, dir[..n]);
      }
      forall name
        ensures dir + [name] in st.dirs <==> dir + [name] in dirs
      {
        StoreAllApart(files, dirs, order, queues, dir + [name]);
      }
    }

    lemma OneStored(files: Files, dirs: set<Path>, order: seq<string>, queues: map<string, seq<Input>>)
      requires ComponentQueues(queues) && (forall i | i in order :: i in queues) && order != []
      ensures var last := order[|order| - 1];
              StoreAll(files, dirs, order, queues).ok <==> Storable(files, dirs, last, queues[last])
    {
      var front, last := order[..|order| - 1], order[|order| - 1];
      StillStorable(files, dirs, front, queues, last);
      StorableIsStored(StoreAll(files, dirs, front, queues), last, queues[last]);
    }

    lemma {:induction false} AllStorable(files: Files, dirs: set<Path>, order: seq<string>,
                                         queues: map<string, seq<Input>>, id: string)
      requires ComponentQueues(queues) && (forall i | i in order :: i in queues) && id in order
      requires AllButLast(files, dirs, order, queues) && StoreAll(files, dirs, order, queues).ok
      ensures Storable(files, dirs, id, queues[id])
    {
      OneStored(files, dirs, order, queues);
      if id != order[|order| - 1] {
        AllStorable(files, dirs, order[..|order| - 1], queues, id);
      }
    }

    lemma StoredExactly(files: Files, dirs: set<Path>, order: seq<string>, queues: map<string, seq<Input>>,
                        done: seq<Write>, st: Storing)
      requires StoredSoFar(files, dirs, order, queues, done, st) && ComponentQueues(queues)
      requires if st.ok then forall id | id in queues :: id in order else order != []
      ensures Downloaded(files, dirs, queues, st.ok, st.files, st.dirs)
    {
      if st.ok {
        forall id | id in queues
          ensures Storable(files, dirs, id, queues[id])
        {
          AllStorable(files, dirs, order, queues, id);
        }
      } else {
        OneStored(files, dirs, order, queues);
        assert order[|order| - 1] in order;
      }
      assert st == Storing(st.files, st.dirs, st.ok);
    }

    lemma QueueWritesSnoc(order: seq<string>, id: string, queues: map<string, seq<Input>>)
      requires forall i | i in order :: i in queues
      requires id in queues
      ensures forall i | i in order + [id] :: i in queues
      ensures QueueWrites(order + [id], queues) == QueueWrites(order, queues) + Writes(Afl(id).QueueDir(), queues[id])
    {
      assert (order + [id])[..|order|] == order;
    }
  }

  // ---------------------------------------------------------------- round trips over the whole store

  /** A corpus depends on nothing but the bodies directly in its directory. */
  lemma CorpusDependsOnDir(a: Files, b: Files, dirA: Path, dirB: Path)
    requires forall name :: Body(a, dirA + [name]) == Body(b, dirB + [name])
    ensures CorpusOf(a, dirA) == CorpusOf(b, dirB)
  {
    forall name
      ensures Lookup(CorpusOf(a, dirA), name) == Lookup(CorpusOf(b, dirB), name)
    {
      LookupCorpus(a, dirA, name);
      LookupCorpus(b, dirB, name);
    }
    LookupDetermines(CorpusOf(a, dirA), CorpusOf(b, dirB));
  }

  lemma {:induction false} BodiesOnConcat(a: seq<Write>, b: seq<Write>, p: Path)
    ensures BodiesOn(a + b, p) == BodiesOn(a, p) + BodiesOn(b, p)
  {
    if b == [] {
      assert a + b == a;
    } else {
      assert (a + b)[..|a + b| - 1] == a + b[..|b| - 1];
      BodiesOnConcat(a, b[..|b| - 1], p);
    }
  }

  lemma {:induction false} BodiesElsewhere(ws: seq<Write>, p: Path)
    requires forall i | 0 <= i < |ws| :: ws[i].path != p
    ensures BodiesOn(ws, p) == []
  {
    if ws != [] {
      BodiesElsewhere(ws[..|ws| - 1], p);
    }
  }

  lemma KindWrites(m: AflFileManager, output: Output, in_: Kind, kind: Kind, name: string)
    requires Component(m.fuzzerId) && ComponentOutput(output)
    ensures BodiesOn(Writes(m.Dir(in_), output.Of(in_)), m.Dir(kind) + [name]) ==
            if in_ == kind then BodiesNamed(output.Of(kind), name) else []
  {
    m.Layout();
    if in_ == kind {
      BodiesOnWrites(m.Dir(kind), output.Of(kind), name);
    } else {
      WritesBelow(m.Dir(in_), output.Of(in_), m.Dir(in_));
      var n := |m.basedir| + 2;
      assert (m.Dir(kind) + [name])[n] == KindName(kind) != KindName(in_);
      assert forall x: string :: (m.Dir(in_) + [x])[n] == KindName(in_);
      BodiesElsewhere(Writes(m.Dir(in_), output.Of(in_)), m.Dir(kind) + [name]);
    }
  }

  lemma OutputBodies(m: AflFileManager, output: Output, kind: Kind, name: string)
    requires Component(m.fuzzerId) && ComponentOutput(output)
    ensures BodiesOn(m.OutputWrites(output), m.Dir(kind) + [name]) == BodiesNamed(output.Of(kind), name)
  {
    var p := m.Dir(kind) + [name];
    var q, c, h := Writes(m.QueueDir(), output.queue), Writes(m.CrashesDir(), output.crashes),
                   Writes(m.HangsDir(), output.hangs);
    BodiesOnConcat(q + c, h, p);
    BodiesOnConcat(q, c, p);
    assert BodiesOn(m.OutputWrites(output), p) == BodiesOn(q, p) + BodiesOn(c, p) + BodiesOn(h, p);
    KindBodies(m, output, kind, name);
  }

  lemma KindBodies(m: AflFileManager, output: Output, kind: Kind, name: string)
    requires Component(m.fuzzerId) && ComponentOutput(output)
    ensures var p := m.Dir(kind) + [name];
            BodiesOn(Writes(m.QueueDir(), output.queue), p) + BodiesOn(Writes(m.CrashesDir(), output.crashes), p)
            + BodiesOn(Writes(m.HangsDir(), output.hangs), p) == BodiesNamed(output.Of(kind), name)
  {
    KindWrites(m, output, Queue, kind, name);
    KindWrites(m, output, Crashes, kind, name);
    KindWrites(m, output, Hangs, kind, name);
  }

  /** Uploads of several fuzzers, interleaved in any way: each corpus reads back as if its own upload had been the only
      one, so it is the merge, name by name, of the old corpus and of what that upload holds. */
  lemma StoreMerge(base: Path, files: Files, outputs: map<string, Output>, run: seq<Tagged>, id: string, kind: Kind)
    requires ComponentOutputs(outputs) && Interleaves(run, UploadsOf(base, outputs)) && id in outputs
    ensures var dir := AflFileManager(base, id).Dir(kind);
            CorpusOf(Apply(files, Erase(run)), dir) == CorpusOf(Apply(files, Writes(dir, outputs[id].Of(kind))), dir)
  {
    var m := AflFileManager(base, id);
    var dir := m.Dir(kind);
    m.Layout();
    InterleavedStaysHome(base, outputs, run);
    forall name
      ensures Body(Apply(files, Erase(run)), dir + [name])
           == Body(Apply(files, Writes(dir, outputs[id].Of(kind))), dir + [name])
    {
      var p := dir + [name];
      var root := base + [OUTPUT];
      assert p[..|root|] == root && p[|root|] == id;
      BodiesComeFromOwner(root, run, p);
      OutputBodies(m, outputs[id], kind, name);
      KindWrites(m, outputs[id], kind, kind, name);
      ApplyOnPath(files, Erase(run), p);
      ApplyOnPath(files, Writes(dir, outputs[id].Of(kind)), p);
    }
    CorpusDependsOnDir(Apply(files, Erase(run)), Apply(files, Writes(dir, outputs[id].Of(kind))), dir, dir);
  }

  /** The fuzzer has all its directories and no file in them, and its upload has each name once in each corpus. */
  ghost predicate FreshFor(m: AflFileManager, files: Files, dirs: set<Path>, output: Output) {
    forall kind :: && DistinctNames(output.Of(kind))
                   && EmptyDir(files, m.Dir(kind))
                   && m.Dir(kind) in dirs
  }

  lemma FreshCorpus(base: Path, files: Files, dirs: set<Path>, outputs: map<string, Output>, run: seq<Tagged>,
                    id: string, kind: Kind)
    requires ComponentOutputs(outputs) && Interleaves(run, UploadsOf(base, outputs)) && id in outputs
    requires FreshFor(AflFileManager(base, id), files, dirs, outputs[id])
    ensures AflFileManager(base, id).Dir(kind) in dirs
    ensures SortedFrom(CorpusOf(Apply(files, Erase(run)), AflFileManager(base, id).Dir(kind)), outputs[id].Of(kind))
  {
    var dir := AflFileManager(base, id).Dir(kind);
    assert EmptyDir(files, dir) && dir in dirs;
    StoreMerge(base, files, outputs, run, id, kind);
    assert ComponentOutput(outputs[id]);
    WriteThenReadSorts(files, dir, outputs[id].Of(kind));
  }

  /** Each corpus as uploaded, but sorted by name and without the README. */
  ghost predicate SortedOutput(read: Option<Output>, output: Output) {
    read.Some? && forall kind: Kind :: SortedFrom(read.value.Of(kind), output.Of(kind))
  }

  lemma FreshOutput(base: Path, files: Files, dirs: set<Path>, outputs: map<string, Output>, run: seq<Tagged>,
                    id: string)
    requires ComponentOutputs(outputs) && Interleaves(run, UploadsOf(base, outputs)) && id in outputs
    requires FreshFor(AflFileManager(base, id), files, dirs, outputs[id])
    ensures SortedOutput(AflFileManager(base, id).OutputOn(Apply(files, Erase(run)), dirs), outputs[id])
  {
    var m := AflFileManager(base, id);
    var read := m.OutputOn(Apply(files, Erase(run)), dirs);
    forall kind: Kind
      ensures read.Some? && SortedFrom(read.value.Of(kind), outputs[id].Of(kind))
    {
      FreshCorpus(base, files, dirs, outputs, run, id, Queue);
      FreshCorpus(base, files, dirs, outputs, run, id, Crashes);
      FreshCorpus(base, files, dirs, outputs, run, id, Hangs);
      match kind case Queue => case Crashes => case Hangs =>
    }
  }

  /** The outputs of all fuzzers, each sorted from what was uploaded for it. */
  ghost predicate SortedOutputs(read: Option<map<string, Output>>, outputs: map<string, Output>) {
    && read.Some? && read.value.Keys == outputs.Keys
    && forall id | id in outputs :: SortedOutput(Some(read.value[id]), outputs[id])
  }

  lemma OutputsTogether(fm: FleetFileManager, files: Files, dirs: set<Path>, outputs: map<string, Output>)
    requires fm.TopLevelOutputDir() in dirs && fm.Ids(dirs) == outputs.Keys
    requires forall id | id in outputs :: SortedOutput(fm.Afl(id).OutputOn(files, dirs), outputs[id])
    ensures SortedOutputs(fm.OutputsOn(files, dirs), outputs)
  {
    var read: map<string, Output> := map id | id in outputs :: fm.Afl(id).OutputOn(files, dirs).value;
    fm.OutputsAre(files, dirs, read);
  }

  /** On fresh directories `ReadOutputs` returns exactly what was uploaded, each corpus sorted by name, README aside. */
  lemma StoreRoundTrip(fm: FleetFileManager, files: Files, dirs: set<Path>, outputs: map<string, Output>,
                       run: seq<Tagged>)
    requires ComponentOutputs(outputs) && Interleaves(run, UploadsOf(fm.Basedir, outputs))
    requires forall id | id in outputs :: FreshFor(fm.Afl(id), files, dirs, outputs[id])
    requires fm.TopLevelOutputDir() in dirs && fm.Ids(dirs) == outputs.Keys
    ensures SortedOutputs(fm.OutputsOn(Apply(files, Erase(run)), dirs), outputs)
  {
    forall id | id in outputs
      ensures SortedOutput(fm.Afl(id).OutputOn(Apply(files, Erase(run)), dirs), outputs[id])
    {
      FreshOutput(fm.Basedir, files, dirs, outputs, run, id);
    }
    OutputsTogether(fm, Apply(files, Erase(run)), dirs, outputs);
  }

  lemma {:induction false} QueueBodies(fm: FleetFileManager, order: seq<string>, queues: map<string, seq<Input>>,
                                       id: string, name: string)
    requires forall i | i in order :: i in queues && Component(i) && ComponentNames(queues[i])
    requires NoRepeats(order) && Component(id)
    ensures BodiesOn(fm.QueueWrites(order, queues), fm.Afl(id).QueueDir() + [name]) ==
            if id in order then BodiesNamed(queues[id], name) else []
  {
    if order != [] {
      var front, last := order[..|order| - 1], order[|order| - 1];
      NoRepeatsSplit(order);
      QueueBodies(fm, front, queues, id, name);
      BodiesOnConcat(fm.QueueWrites(front, queues), Writes(fm.Afl(last).QueueDir(), queues[last]),
                     fm.Afl(id).QueueDir() + [name]);
      if last == id {
        BodiesOnWrites(fm.Afl(id).QueueDir(), queues[id], name);
      } else {
        fm.Afl(id).Layout();
        fm.Afl(last).Layout();
        WritesBelow(fm.Afl(last).QueueDir(), queues[last], fm.Afl(last).QueueDir());
        var n := |fm.Basedir| + 1;
        assert (fm.Afl(id).Dir(Queue) + [name])[n] == id;
        assert forall x: string :: (fm.Afl(last).Dir(Queue) + [x])[n] == last;
        BodiesElsewhere(Writes(fm.Afl(last).QueueDir(), queues[last]), fm.Afl(id).QueueDir() + [name]);
      }
    }
  }

  /** A complete `WriteQueues`, in any order, then `ReadQueues`: the per-name merge in general, and exactly what was
      written (README aside) where the directory was fresh. */
  lemma QueuesRoundTrip(fm: FleetFileManager, files: Files, order: seq<string>, queues: map<string, seq<Input>>,
                        id: string)
    requires forall i :: i in order <==> i in queues
    requires forall i | i in queues :: Component(i) && ComponentNames(queues[i])
    requires NoRepeats(order) && id in queues
    ensures var dir := fm.Afl(id).QueueDir();
            var after := CorpusOf(Apply(files, fm.QueueWrites(order, queues)), dir);
            && after == CorpusOf(Apply(files, Writes(dir, queues[id])), dir)
            && (DistinctNames(queues[id]) && EmptyDir(files, dir) ==> SortedFrom(after, queues[id]))
            && (AscendingInputs(queues[id]) && EmptyDir(files, dir) ==> after == DropReadme(queues[id]))
  {
    var dir := fm.Afl(id).QueueDir();
    var a, b := Apply(files, fm.QueueWrites(order, queues)), Apply(files, Writes(dir, queues[id]));
    forall name
      ensures Body(a, dir + [name]) == Body(b, dir + [name])
    {
      QueueBodies(fm, order, queues, id, name);
      BodiesOnWrites(dir, queues[id], name);
      ApplyOnPath(files, fm.QueueWrites(order, queues), dir + [name]);
      ApplyOnPath(files, Writes(dir, queues[id]), dir + [name]);
    }
    CorpusDependsOnDir(a, b, dir, dir);
    if DistinctNames(queues[id]) && EmptyDir(files, dir) {
      WriteThenReadSorts(files, dir, queues[id]);
    }
    if AscendingInputs(queues[id]) && EmptyDir(files, dir) {
      WriteThenRead(files, dir, queues[id]);
    }
  }

  /** No run of uploads and downloads, by whichever fuzzers, removes a file or makes one shorter. */
  lemma {:induction false} GrowOnly(files: Files, rounds: seq<seq<Write>>, p: Path)
    requires p in files
    ensures p in ApplyRounds(files, rounds) && |files[p]| <= |ApplyRounds(files, rounds)[p]|
  {
    if rounds != [] {
      GrowOnly(files, rounds[..|rounds| - 1], p);
      ApplyGrows(ApplyRounds(files, rounds[..|rounds| - 1]), rounds[|rounds| - 1], p);
    }
  }

  function ApplyRounds(files: Files, rounds: seq<seq<Write>>): Files {
    if rounds == [] then files else Apply(ApplyRounds(files, rounds[..|rounds| - 1]), rounds[|rounds| - 1])
  }
}
