/** The output directory of one fuzzer. */
module AflFiles {
  import opened Text
  import opened Paths
  import opened FileStore
  import opened Disk
  import opened Corpus

  const OUTPUT := "output"
  const QUEUE := "queue"
  const CRASHES := "crashes"
  const HANGS := "hangs"

  datatype AflOutput = AflOutput(Queue: InputCorpus, Crashes: InputCorpus, Hangs: InputCorpus) {
    /** The corpora by value. */
    ghost function Value(): Output
      reads Queue, Crashes, Hangs
    {
      Output(Queue.Inputs, Crashes.Inputs, Hangs.Inputs)
    }
  }

  datatype Kind = Queue | Crashes | Hangs

  function KindName(kind: Kind): string {
    match kind case Queue => QUEUE case Crashes => CRASHES case Hangs => HANGS
  }

  datatype Output = Output(queue: seq<Input>, crashes: seq<Input>, hangs: seq<Input>) {
    function Of(kind: Kind): seq<Input> {
      match kind case Queue => queue case Crashes => crashes case Hangs => hangs
    }
  }

  predicate ValidateInputName(inputName: string) {
    Base(inputName) == inputName
  }

  /** The name check lets through all components, and three names that are not. */
  lemma PassesCheck(name: string)
    ensures ValidateInputName(name) <==> Component(name) || name in {".", "..", "/"}
  {
    OwnBase(name);
  }

  lemma CheckedJoin(dir: Path, name: string)
    requires Clean(dir) && dir != [] && (Component(name) || name in {".", "..", "/"})
    ensures Join(dir, name) != dir + [name] <==> name in {".", "..", "/"}
    ensures !(dir <= Join(dir, name)) <==> name == ".."
  {
    JoinIsStepDown(dir, name);
    JoinSpecial(dir);
    assert !Component(".") && !Component("..") && !Component("/") by {
      assert "/"[0] == '/';
    }
  }

  datatype AflFileManager = AflFileManager(basedir: Path, fuzzerId: string) {
    function OutputDirToPassIntoAfl(): Path {
      basedir + [OUTPUT]
    }

    function OutputDir(): Path {
      if fuzzerId == "" then OutputDirToPassIntoAfl() else Join(OutputDirToPassIntoAfl(), fuzzerId)
    }

    function Dir(kind: Kind): Path {
      OutputDir() + [KindName(kind)]
    }

    function QueueDir(): Path {
      Dir(Queue)
    }

    function CrashesDir(): Path {
      Dir(Crashes)
    }

    function HangsDir(): Path {
      Dir(Hangs)
    }

    function CorpusDir(corpusType: string): Option<Path> {
      if corpusType == QUEUE then Some(QueueDir())
      else if corpusType == CRASHES then Some(CrashesDir())
      else if corpusType == HANGS then Some(HangsDir())
      else None
    }

    /** The error of `ValidateInputName` is dropped, so any name is joined as it is. */
    function InputPath(inputType: string, inputName: string): Option<Path> {
      match CorpusDir(inputType)
      case None => None
      case Some(dir) => Some(Join(dir, inputName))
    }

    /** The writes of a whole upload, in order. */
    function OutputWrites(output: Output): seq<Write> {
      Writes(QueueDir(), output.queue) + Writes(CrashesDir(), output.crashes) + Writes(HangsDir(), output.hangs)
    }

    lemma DirsClean()
      requires Clean(basedir)
      ensures Clean(OutputDir()) && Clean(QueueDir()) && Clean(CrashesDir()) && Clean(HangsDir())
    {
      JoinClean(basedir + [OUTPUT], fuzzerId);
    }

    /** The layout `output/<id>/{queue,crashes,hangs}` holds for ids that are single components. */
    lemma Layout()
      requires Component(fuzzerId)
      ensures OutputDir() == basedir + [OUTPUT, fuzzerId]
      ensures forall kind :: Dir(kind) == basedir + [OUTPUT, fuzzerId, KindName(kind)]
    {
      JoinComponent(basedir + [OUTPUT], fuzzerId);
    }

    /** The kinds of corpora by name. No other name is one. */
    lemma CorpusDirs(kind: Kind, corpusType: string)
      ensures CorpusDir(KindName(kind)) == Some(Dir(kind))
      ensures CorpusDir(corpusType).Some? <==> corpusType in {"queue", "crashes", "hangs"}
    {
      match kind
      case Queue =>
      case Crashes => assert CRASHES[0] != QUEUE[0];
      case Hangs => assert HANGS[0] != QUEUE[0] && HANGS[0] != CRASHES[0];
    }

    /** Where everything is, literally. */
    lemma LiteralLayout()
      requires Component(fuzzerId)
      ensures OutputDirToPassIntoAfl() == basedir + ["output"]
      ensures QueueDir() == basedir + ["output", fuzzerId, "queue"]
      ensures CrashesDir() == basedir + ["output", fuzzerId, "crashes"]
      ensures HangsDir() == basedir + ["output", fuzzerId, "hangs"]
    {
      Layout();
    }

    /** An id has the directory of its own name exactly if it is a component. */
    lemma OutputDirIsOwn()
      requires Clean(basedir)
      ensures OutputDir() == basedir + [OUTPUT, fuzzerId] <==> Component(fuzzerId)
    {
      JoinIsStepDown(basedir + [OUTPUT], fuzzerId);
      assert basedir + [OUTPUT] + [fuzzerId] == basedir + [OUTPUT, fuzzerId];
    }

    /** The path of an input is in its corpus directory, under the input's name, exactly if the name is a component. */
    lemma InputPathIsInside(inputType: string, inputName: string)
      requires Clean(basedir) && CorpusDir(inputType).Some?
      ensures var dir := CorpusDir(inputType).value;
              InputPath(inputType, inputName) == Some(dir + [inputName]) <==> Component(inputName)
    {
      DirsClean();
      JoinIsStepDown(CorpusDir(inputType).value, inputName);
    }

    /** Were the error heeded, three names would still not give a path of their own in the corpus directory, and one of
        them would still lead out of it. */
    lemma CheckIsNotEnough(inputType: string, inputName: string)
      requires Clean(basedir) && CorpusDir(inputType).Some? && ValidateInputName(inputName)
      ensures var dir := CorpusDir(inputType).value;
              var path := InputPath(inputType, inputName).value;
              && (path != dir + [inputName] <==> inputName in {".", "..", "/"})
              && (!(dir <= path) <==> inputName == "..")
    {
      PassesCheck(inputName);
      DirsClean();
      CheckedJoin(CorpusDir(inputType).value, inputName);
    }

    /** No file is in the way of the three directories. */
    predicate DirsFree(files: Files) {
      forall n, d | d in {QueueDir(), CrashesDir(), HangsDir()} && 0 <= n <= |d| :: d[..n] !in files
    }

    function WithDirs(dirs: set<Path>): set<Path> {
      dirs + Prefixes(QueueDir()) + Prefixes(HangsDir()) + Prefixes(CrashesDir())
    }

    method MkAllOutputDirs(disk: Disk) returns (ok: bool)
      requires disk.Valid() && Clean(basedir)
      modifies disk`dirs
      ensures disk.Valid()
      ensures old(disk.dirs) <= disk.dirs
      ensures ok <==> DirsFree(disk.files)
      ensures ok ==> disk.dirs == WithDirs(old(disk.dirs))
      ensures ok ==> QueueDir() in disk.dirs && CrashesDir() in disk.dirs && HangsDir() in disk.dirs
    {
      DirsClean();
      ok := disk.MkdirAll(QueueDir());
      if ok {
        ok := disk.MkdirAll(HangsDir());
      }
      if ok {
        ok := disk.MkdirAll(CrashesDir());
      }
      assert forall d: Path :: d[..|d|] == d;
      assert forall d: Path :: d in Prefixes(d);
    }

    /** Queue first, then crashes, then hangs, each in its own order and in its own directory. */
    lemma InOrder(output: Output, i: nat)
      requires i < |OutputWrites(output)|
      ensures var ws, q, c := OutputWrites(output), |output.queue|, |output.crashes|;
              && |ws| == q + c + |output.hangs|
              && ws[i] == if i < q then Write(Join(QueueDir(), output.queue[i].name), output.queue[i].body)
                          else if i < q + c
                          then Write(Join(CrashesDir(), output.crashes[i - q].name), output.crashes[i - q].body)
                          else Write(Join(HangsDir(), output.hangs[i - q - c].name), output.hangs[i - q - c].body)
    {
    }

    /** Writes queue, crashes and hangs in turn and stops at the first file that cannot be opened. */
    method WriteOutput(disk: Disk, output: AflOutput) returns (ok: bool)
      requires disk.Valid() && Clean(basedir)
      modifies disk`files
      ensures disk.Valid()
      ensures var ws := OutputWrites(output.Value());
              && disk.files == Apply(old(disk.files), Accepted(disk.dirs, ws))
              && (ok <==> Accepted(disk.dirs, ws) == ws)
    {
      DirsClean();
      ghost var q := Writes(QueueDir(), output.Queue.Inputs);
      ghost var c := Writes(CrashesDir(), output.Crashes.Inputs);
      ghost var h := Writes(HangsDir(), output.Hangs.Inputs);
      AcceptedConcat(disk.dirs, q, c);
      AcceptedConcat(disk.dirs, q + c, h);
      ok := WriteInputCorpusToFile(disk, output.Queue, QueueDir());
      if !ok {
        return;
      }
      ok := WriteInputCorpusToFile(disk, output.Crashes, CrashesDir());
      ApplyConcat(old(disk.files), q, Accepted(disk.dirs, c));
      if !ok {
        return;
      }
      ok := WriteInputCorpusToFile(disk, output.Hangs, HangsDir());
      ApplyConcat(old(disk.files), q + c, Accepted(disk.dirs, h));
    }

    /** What reading the three corpora yields, if all three directories exist. */
    ghost function OutputOn(files: Files, dirs: set<Path>): Option<Output> {
      if QueueDir() in dirs && CrashesDir() in dirs && HangsDir() in dirs
      then Some(Output(CorpusOf(files, QueueDir()), CorpusOf(files, CrashesDir()), CorpusOf(files, HangsDir())))
      else None
    }

    method ReadOutput(disk: Disk) returns (output: Option<AflOutput>)
      requires disk.Valid()
      ensures output.Some? <==> OutputOn(disk.files, disk.dirs).Some?
      ensures output.Some? ==>
                && fresh({output.value.Queue, output.value.Crashes, output.value.Hangs})
                && Some(output.value.Value()) == OutputOn(disk.files, disk.dirs)
    {
      var queue := ReadInputCorpus(disk, QueueDir());
      if queue.None? {
        return None;
      }
      var crashes := ReadInputCorpus(disk, CrashesDir());
      if crashes.None? {
        return None;
      }
      var hangs := ReadInputCorpus(disk, HangsDir());
      if hangs.None? {
        return None;
      }
      return Some(AflOutput(queue.value, crashes.value, hangs.value));
    }
  }

  /** The fixed names of the layout are components, so stepping down by one of them is joining it. */
  lemma FixedNames(dir: Path, kind: Kind)
    ensures Join(dir, OUTPUT) == dir + [OUTPUT] && Join(dir, KindName(kind)) == dir + [KindName(kind)]
  {
    JoinComponent(dir, OUTPUT);
    JoinComponent(dir, KindName(kind));
  }

  // ---------------------------------------------------------------- the layout keeps fuzzers apart

  /** Writes below a directory stay below it when names are single components. */
  lemma WritesBelow(dir: Path, inputs: seq<Input>, root: Path)
    requires ComponentNames(inputs) && root <= dir
    ensures forall i | 0 <= i < |inputs| :: root <= Writes(dir, inputs)[i].path
    ensures forall i | 0 <= i < |inputs| :: Writes(dir, inputs)[i].path == dir + [inputs[i].name]
  {
    forall i | 0 <= i < |inputs| ensures Writes(dir, inputs)[i].path == dir + [inputs[i].name] {
      JoinComponent(dir, inputs[i].name);
    }
  }

  ghost predicate ComponentOutput(output: Output) {
    ComponentNames(output.queue) && ComponentNames(output.crashes) && ComponentNames(output.hangs)
  }

  lemma OutputStaysBelow(m: AflFileManager, output: Output)
    requires Component(m.fuzzerId) && ComponentOutput(output)
    ensures forall w | w in m.OutputWrites(output) :: m.basedir + [OUTPUT, m.fuzzerId] <= w.path
  {
    m.Layout();
    var root := m.basedir + [OUTPUT, m.fuzzerId];
    WritesBelow(m.QueueDir(), output.queue, root);
    WritesBelow(m.CrashesDir(), output.crashes, root);
    WritesBelow(m.HangsDir(), output.hangs, root);
  }

  /** The writes of each fuzzer's upload. */
  function UploadsOf(base: Path, outputs: map<string, Output>): map<string, seq<Write>> {
    map id | id in outputs :: AflFileManager(base, id).OutputWrites(outputs[id])
  }

  ghost predicate ComponentOutputs(outputs: map<string, Output>) {
    forall id | id in outputs :: Component(id) && ComponentOutput(outputs[id])
  }

  /** `run` consists of the given uploads, each in its own order, interleaved write by write. */
  ghost predicate Interleaves(run: seq<Tagged>, uploads: map<string, seq<Write>>) {
    forall id :: UploadOf(run, id) == if id in uploads then uploads[id] else []
  }

  lemma UploadsBelow(base: Path, outputs: map<string, Output>, id: string, j: nat)
    requires ComponentOutputs(outputs)
    requires id in outputs && j < |UploadsOf(base, outputs)[id]|
    ensures base + [OUTPUT] + [id] <= UploadsOf(base, outputs)[id][j].path
  {
    OutputStaysBelow(AflFileManager(base, id), outputs[id]);
    assert base + [OUTPUT] + [id] == base + [OUTPUT, id];
    assert UploadsOf(base, outputs)[id][j] in UploadsOf(base, outputs)[id];
  }

  lemma InterleavedStaysHome(base: Path, outputs: map<string, Output>, run: seq<Tagged>)
    requires ComponentOutputs(outputs) && Interleaves(run, UploadsOf(base, outputs))
    ensures StaysHome(base + [OUTPUT], run)
  {
    forall i | 0 <= i < |run|
      ensures base + [OUTPUT] + [run[i].id] <= run[i].write.path
    {
      var id := run[i].id;
      InUpload(run, i);
      var uploads: map<string, seq<Write>> := UploadsOf(base, outputs);
      assert run[i].write in UploadOf(run, id);
      assert id in uploads;
      var j :| 0 <= j < |uploads[id]| && uploads[id][j] == run[i].write;
      UploadsBelow(base, outputs, id, j);
    }
  }

  /** Uploads of distinct fuzzers, interleaved write by write in any way, leave the tree that the same uploads leave
      when they run one after the other, in whatever order. */
  lemma ConcurrentUploads(base: Path, files: Files, outputs: map<string, Output>, run: seq<Tagged>, order: seq<string>)
    requires ComponentOutputs(outputs) && Interleaves(run, UploadsOf(base, outputs))
    requires NoRepeats(order) && forall id :: id in order <==> id in outputs
    ensures Apply(files, Erase(run)) == Apply(files, Erase(InTurn(order, UploadsOf(base, outputs))))
  {
    var uploads: map<string, seq<Write>> := UploadsOf(base, outputs);
    InterleavedStaysHome(base, outputs, run);
    forall id: string, j: nat | id in uploads && j < |uploads[id]|
      ensures base + [OUTPUT] + [id] <= uploads[id][j].path
    {
      UploadsBelow(base, outputs, id, j);
    }
    InterleavedEqualsSequential(files, base + [OUTPUT], run, order, uploads);
  }

  lemma {:induction false} InUpload(run: seq<Tagged>, i: nat)
    requires i < |run|
    ensures run[i].write in UploadOf(run, run[i].id)
  {
    if i < |run| - 1 {
      InUpload(run[..|run| - 1], i);
    }
  }

  /** Repeating a whole upload changes nothing. */
  lemma UploadIdempotent(m: AflFileManager, files: Files, output: Output)
    ensures Apply(Apply(files, m.OutputWrites(output)), m.OutputWrites(output)) == Apply(files, m.OutputWrites(output))
  {
    ApplyIdempotent(files, m.OutputWrites(output));
  }

  /** A fuzzer's directory is strictly below `output/`, and at or below no other well-named fuzzer's. */
  ghost predicate HasOwnTree(base: Path, id: string) {
    && base + [OUTPUT] < AflFileManager(base, id).OutputDir()
    && forall other | Component(other) && other != id ::
         !(AflFileManager(base, other).OutputDir() <= AflFileManager(base, id).OutputDir())
  }

  /** The ids that have a tree of their own are the components. */
  lemma OwnTrees(base: Path, id: string)
    requires Clean(base)
    ensures HasOwnTree(base, id) <==> Component(id)
  {
    var top, dir := base + [OUTPUT], AflFileManager(base, id).OutputDir();
    AflFileManager(base, id).DirsClean();
    if Component(id) {
      AflFileManager(base, id).Layout();
      forall other | Component(other) && other != id
        ensures !(AflFileManager(base, other).OutputDir() <= dir)
      {
        AflFileManager(base, other).Layout();
        assert (base + [OUTPUT, other])[|base| + 1] == other;
        assert (base + [OUTPUT, id])[|base| + 1] == id;
      }
    } else if top < dir {
      var other := dir[|top|];
      assert Component(other);
      AflFileManager(base, other).Layout();
      assert base + [OUTPUT, other] == dir[..|top| + 1];
    }
  }

  /** Two pairs of ids that share a tree. */
  lemma IdsCanCollide(base: Path)
    ensures AflFileManager(base, "a").QueueDir() == AflFileManager(base, "./a").QueueDir()
    ensures AflFileManager(base, "").QueueDir() == AflFileManager(base, ".").QueueDir()
  {
    SplitWhole("a", '/');
    assert Split("/a", '/') == ["", "a"] by {
      assert "/a"[1..] == "a";
    }
    assert Split("./a", '/') == [".", "a"] by {
      assert "./a"[1..] == "/a";
      assert ['.'] + "" == ".";
    }
    SplitWhole(".", '/');
    var out := Join(base, OUTPUT);
    assert Walk(out, [".", "a"]) == Walk(out, ["a"]) by {
      assert [".", "a"][1..] == ["a"];
    }
    assert Walk(out, ["."]) == Walk(out, []) by {
      assert ["."][1..] == [];
    }
  }
}
