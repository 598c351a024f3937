/** Inputs and corpora, and how they are written to and read from a directory. */
module Corpus {
  import opened Text
  import opened Paths
  import opened FileStore
  import opened Names
  import opened Disk

  const README := "README.txt"

  datatype Input = Input(name: string, body: Bytes)

  class InputCorpus {
    var Inputs: seq<Input>

    constructor (inputs: seq<Input>)
      ensures Inputs == inputs
    {
      Inputs := inputs;
    }

    method Add(other: Input)
      modifies this
      ensures Inputs == old(Inputs) + [other]
    {
      Inputs := Inputs + [other];
    }
  }

  // ---------------------------------------------------------------- writing

  /** The writes a corpus asks for, in order. */
  function Writes(dir: Path, inputs: seq<Input>): (ws: seq<Write>)
    ensures |ws| == |inputs|
  {
    seq(|inputs|, i requires 0 <= i < |inputs| => Write(Join(dir, inputs[i].name), inputs[i].body))
  }

  /** The writes that take place: all those before the first file that cannot be opened. */
  function Accepted(dirs: set<Path>, ws: seq<Write>): (done: seq<Write>)
    ensures done <= ws
    ensures forall i | 0 <= i < |done| :: CanOpen(dirs, done[i].path)
    ensures |done| < |ws| ==> !CanOpen(dirs, ws[|done|].path)
  {
    if ws == [] || !CanOpen(dirs, ws[0].path) then [] else [ws[0]] + Accepted(dirs, ws[1..])
  }

  /** There is only one such prefix. */
  lemma AcceptedIsThe(dirs: set<Path>, ws: seq<Write>, done: seq<Write>)
    requires done <= ws
    requires forall i | 0 <= i < |done| :: CanOpen(dirs, done[i].path)
    requires |done| < |ws| ==> !CanOpen(dirs, ws[|done|].path)
    ensures done == Accepted(dirs, ws)
  {
    var other := Accepted(dirs, ws);
    assert forall i | 0 <= i < |done| :: done[i] == ws[i];
    assert forall i | 0 <= i < |other| :: other[i] == ws[i];
  }

  lemma {:induction false} AcceptedConcat(dirs: set<Path>, a: seq<Write>, b: seq<Write>)
    ensures Accepted(dirs, a + b) ==
            if Accepted(dirs, a) == a then a + Accepted(dirs, b) else Accepted(dirs, a)
  {
    if a == [] {
      assert a + b == b;
    } else {
      assert (a + b)[0] == a[0] && (a + b)[1..] == a[1..] + b;
      AcceptedConcat(dirs, a[1..], b);
      assert a == [a[0]] + a[1..];
    }
  }

  method WriteInputToFile(disk: Disk, input: Input, dir: Path) returns (ok: bool)
    requires disk.Valid() && Clean(dir)
    modifies disk`files
    ensures disk.Valid()
    ensures ok <==> CanOpen(disk.dirs, Join(dir, input.name))
    ensures disk.files == if ok then Put(old(disk.files), Write(Join(dir, input.name), input.body))
                          else old(disk.files)
  {
    var fp := Join(dir, input.name);
    JoinClean(dir, input.name);
    ok := disk.WriteFile(fp, input.body);
  }

  /** An input is written into the directory, under its own name, exactly if that name is a component. */
  lemma WrittenInside(dir: Path, inputs: seq<Input>, i: nat)
    requires Clean(dir) && i < |inputs|
    ensures Writes(dir, inputs)[i].path == dir + [inputs[i].name] <==> Component(inputs[i].name)
  {
    JoinIsStepDown(dir, inputs[i].name);
  }

  method WriteInputCorpusToFile(disk: Disk, corpus: InputCorpus, dir: Path) returns (ok: bool)
    requires disk.Valid() && Clean(dir)
    modifies disk`files
    ensures disk.Valid()
    ensures var ws := Writes(dir, corpus.Inputs);
            && disk.files == Apply(old(disk.files), Accepted(disk.dirs, ws))
            && (ok <==> Accepted(disk.dirs, ws) == ws)
  {
    ghost var ws := Writes(dir, corpus.Inputs);
    ghost var was := disk.files;
    for i := 0 to |corpus.Inputs|
      invariant disk.Valid()
      invariant WrittenSoFar(was, disk.files, disk.dirs, ws, i)
    {
      ghost var before := disk.files;
      ok := WriteInputToFile(disk, corpus.Inputs[i], dir);
      if !ok {
        WritingStops(was, disk.files, disk.dirs, ws, i);
        return;
      }
      WritingGoesOn(was, before, disk.dirs, ws, i);
    }
    WritingStops(was, disk.files, disk.dirs, ws, |ws|);
    ok := true;
  }

  /** The first `i` writes have taken place. */
  ghost predicate WrittenSoFar(was: Files, files: Files, dirs: set<Path>, ws: seq<Write>, i: nat)
    requires i <= |ws|
  {
    files == Apply(was, ws[..i]) && forall j | 0 <= j < i :: CanOpen(dirs, ws[j].path)
  }

  lemma WritingGoesOn(was: Files, files: Files, dirs: set<Path>, ws: seq<Write>, i: nat)
    requires i < |ws| && WrittenSoFar(was, files, dirs, ws, i) && CanOpen(dirs, ws[i].path)
    ensures WrittenSoFar(was, Put(files, ws[i]), dirs, ws, i + 1)
  {
    ApplyNext(was, ws, i);
  }

  lemma WritingStops(was: Files, files: Files, dirs: set<Path>, ws: seq<Write>, i: nat)
    requires i <= |ws| && WrittenSoFar(was, files, dirs, ws, i) && (i < |ws| ==> !CanOpen(dirs, ws[i].path))
    ensures files == Apply(was, Accepted(dirs, ws)) && (Accepted(dirs, ws) == ws <==> i == |ws|)
  {
    AcceptedIsThe(dirs, ws, ws[..i]);
    assert ws[..|ws|] == ws;
  }

  lemma ApplyNext(files: Files, ws: seq<Write>, i: nat)
    requires i < |ws|
    ensures Apply(files, ws[..i + 1]) == Put(Apply(files, ws[..i]), ws[i])
  {
    assert ws[..i + 1][..i] == ws[..i];
  }

  // ---------------------------------------------------------------- reading

  /** The names of the files directly in `dir`, AFL's README aside. */
  function FileNames(files: Files, dir: Path): set<string> {
    set p | p in files && |p| == |dir| + 1 && p[..|dir|] == dir && p[|dir|] != README :: p[|dir|]
  }

  lemma FileNamesOf(files: Files, dir: Path, name: string)
    ensures name in FileNames(files, dir) <==> dir + [name] in files && name != README
  {
    if name in FileNames(files, dir) {
      var p :| p in files && |p| == |dir| + 1 && p[..|dir|] == dir && p[|dir|] == name;
      assert p == dir + [name];
    } else {
      assert |dir + [name]| == |dir| + 1 && (dir + [name])[..|dir|] == dir && (dir + [name])[|dir|] == name;
    }
  }

  function Inputs(files: Files, dir: Path, names: seq<string>): seq<Input>
    requires forall i | 0 <= i < |names| :: dir + [names[i]] in files
  {
    seq(|names|, i requires 0 <= i < |names| => Input(names[i], files[dir + [names[i]]]))
  }

  ghost predicate AscendingInputs(inputs: seq<Input>) {
    forall i, j | 0 <= i < j < |inputs| :: Less(inputs[i].name, inputs[j].name)
  }

  /** The body a corpus gives to a name, if it has that name. */
  function Lookup(inputs: seq<Input>, name: string): Option<Bytes> {
    if inputs == [] then None
    else if inputs[|inputs| - 1].name == name then Some(inputs[|inputs| - 1].body)
    else Lookup(inputs[..|inputs| - 1], name)
  }

  /** `inputs` is the content of the directory `dir`: every file directly in it but the README, in ascending order. */
  ghost predicate IsCorpus(files: Files, dir: Path, inputs: seq<Input>) {
    && AscendingInputs(inputs)
    && forall name :: Lookup(inputs, name) == if name == README then None else Body(files, dir + [name])
  }

  lemma {:induction false} LookupInputs(files: Files, dir: Path, names: seq<string>, name: string)
    requires forall i | 0 <= i < |names| :: dir + [names[i]] in files
    ensures Lookup(Inputs(files, dir, names), name) ==
            if name in names then Some(files[dir + [name]]) else None
  {
    if names != [] {
      var front := names[..|names| - 1];
      assert Inputs(files, dir, names)[..|names| - 1] == Inputs(files, dir, front);
      LookupInputs(files, dir, front, name);
      assert names == front + [names[|names| - 1]];
    }
  }

  lemma ListedIsCorpus(files: Files, dir: Path, names: seq<string>)
    requires Ascending(names)
    requires forall n :: n in names <==> dir + [n] in files && n != README
    ensures forall i | 0 <= i < |names| :: dir + [names[i]] in files
    ensures IsCorpus(files, dir, Inputs(files, dir, names))
  {
    assert forall i | 0 <= i < |names| :: names[i] in names;
    forall n
      ensures Lookup(Inputs(files, dir, names), n) == if n == README then None else Body(files, dir + [n])
    {
      LookupInputs(files, dir, names, n);
    }
  }

  /** An ascending corpus is determined by what it gives to each name. */
  lemma {:induction false} LookupDetermines(a: seq<Input>, b: seq<Input>)
    requires AscendingInputs(a) && AscendingInputs(b)
    requires forall n :: Lookup(a, n) == Lookup(b, n)
    ensures a == b
    decreases |a|
  {
    var na, nb := InputNames(a), InputNames(b);
    forall n
      ensures n in na <==> n in nb
    {
      LookupSome(a, n);
      LookupSome(b, n);
    }
    AscendingUnique(na, nb);
    forall i | 0 <= i < |a|
      ensures a[i] == b[i]
    {
      assert na[i] == a[i].name && nb[i] == b[i].name;
      LookupAt(a, i);
      LookupAt(b, i);
      assert Lookup(a, a[i].name) == Lookup(b, a[i].name);
    }
  }

  function InputNames(inputs: seq<Input>): (names: seq<string>)
    ensures |names| == |inputs|
  {
    seq(|inputs|, i requires 0 <= i < |inputs| => inputs[i].name)
  }

  lemma {:induction false} LookupSome(inputs: seq<Input>, name: string)
    ensures Lookup(inputs, name).Some? <==> name in InputNames(inputs)
  {
    if inputs != [] {
      var front := inputs[..|inputs| - 1];
      LookupSome(front, name);
      assert InputNames(inputs) == InputNames(front) + [inputs[|inputs| - 1].name];
    }
  }

  lemma {:induction false} LookupAt(inputs: seq<Input>, i: nat)
    requires AscendingInputs(inputs) && i < |inputs|
    ensures Lookup(inputs, inputs[i].name) == Some(inputs[i].body)
  {
    var last := |inputs| - 1;
    if i < last {
      LookupAt(inputs[..last], i);
      assert Less(inputs[i].name, inputs[last].name);
      LessIrreflexive(inputs[i].name);
    }
  }

  /** What reading the directory `dir` as a corpus yields. */
  ghost function CorpusOf(files: Files, dir: Path): (inputs: seq<Input>)
    ensures IsCorpus(files, dir, inputs)
  {
    CorpusExists(files, dir);
    var inputs :| IsCorpus(files, dir, inputs);
    inputs
  }

  /** Each input of a corpus read from a directory is a file in it. */
  lemma CorpusEntry(files: Files, dir: Path, i: nat)
    requires i < |CorpusOf(files, dir)|
    ensures var input := CorpusOf(files, dir)[i];
            input.name != README && Body(files, dir + [input.name]) == Some(input.body)
  {
    var inputs := CorpusOf(files, dir);
    LookupAt(inputs, i);
    LookupCorpus(files, dir, inputs[i].name);
  }

  lemma CorpusHas(files: Files, dir: Path, name: string) returns (j: nat)
    requires dir + [name] in files && name != README
    ensures j < |CorpusOf(files, dir)| && CorpusOf(files, dir)[j] == Input(name, files[dir + [name]])
  {
    var inputs := CorpusOf(files, dir);
    LookupCorpus(files, dir, name);
    LookupSome(inputs, name);
    j :| 0 <= j < |inputs| && InputNames(inputs)[j] == name;
    LookupAt(inputs, j);
  }

  lemma CorpusDistinct(files: Files, dirs: set<Path>, dir: Path)
    requires WellFormed(files, dirs)
    ensures ComponentNames(CorpusOf(files, dir)) && DistinctNames(CorpusOf(files, dir))
  {
    var inputs := CorpusOf(files, dir);
    forall i | 0 <= i < |inputs|
      ensures Component(inputs[i].name)
    {
      CorpusEntry(files, dir, i);
      assert (dir + [inputs[i].name])[|dir|] == inputs[i].name;
    }
    AscendingIsDistinct(inputs);
  }

  lemma CorpusExists(files: Files, dir: Path)
    ensures exists inputs :: IsCorpus(files, dir, inputs)
  {
    var names := Sorted(FileNames(files, dir));
    forall n
      ensures n in names <==> dir + [n] in files && n != README
    {
      FileNamesOf(files, dir, n);
    }
    ListedIsCorpus(files, dir, names);
  }

  lemma CorpusIsThe(files: Files, dir: Path, inputs: seq<Input>)
    requires IsCorpus(files, dir, inputs)
    ensures inputs == CorpusOf(files, dir)
  {
    LookupDetermines(inputs, CorpusOf(files, dir));
  }

  method ReadInputCorpus(disk: Disk, dir: Path) returns (corpus: Option<InputCorpus>)
    requires disk.Valid()
    ensures corpus.Some? <==> dir in disk.dirs
    ensures corpus.Some? ==> fresh(corpus.value) && corpus.value.Inputs == CorpusOf(disk.files, dir)
  {
    var listing := disk.ReadDir(dir);
    if listing.None? {
      return None;
    }
    var names := listing.value;
    var result := new InputCorpus([]);
    ghost var picked: seq<string> := [];
    for k := 0 to |names|
      invariant Ascending(picked)
      invariant forall i, j | 0 <= i < |picked| && k <= j < |names| :: Less(picked[i], names[j])
      invariant forall i | 0 <= i < |picked| :: dir + [picked[i]] in disk.files && picked[i] != README
      invariant forall j | 0 <= j < k && dir + [names[j]] in disk.files && names[j] != README :: names[j] in picked
      invariant result.Inputs == Inputs(disk.files, dir, picked)
      invariant fresh(result)
    {
      var name := names[k];
      if name == README {
        continue;
      }
      assert name in names;
      EntriesOf(disk.files, disk.dirs, dir, name);
      assert Component(name) by {
        assert Clean(dir + [name]);
        assert (dir + [name])[|dir|] == name;
      }
      JoinComponent(dir, name);
      var path := Join(dir, name);
      if path in disk.dirs {
        continue;
      }
      result.Add(Input(name, disk.files[path]));
      picked := picked + [name];
    }
    forall n
      ensures n in picked <==> dir + [n] in disk.files && n != README
    {
      EntriesOf(disk.files, disk.dirs, dir, n);
    }
    ListedIsCorpus(disk.files, dir, picked);
    CorpusIsThe(disk.files, dir, result.Inputs);
    corpus := Some(result);
  }

  // ---------------------------------------------------------------- round trips

  /** All bodies a corpus has under a name, in order. */
  function BodiesNamed(inputs: seq<Input>, name: string): seq<Bytes> {
    if inputs == [] then []
    else
      var last := inputs[|inputs| - 1];
      BodiesNamed(inputs[..|inputs| - 1], name) + if last.name == name then [last.body] else []
  }

  ghost predicate ComponentNames(inputs: seq<Input>) {
    forall i | 0 <= i < |inputs| :: Component(inputs[i].name)
  }

  lemma LookupCorpus(files: Files, dir: Path, name: string)
    ensures Lookup(CorpusOf(files, dir), name) == if name == README then None else Body(files, dir + [name])
  {
    assert IsCorpus(files, dir, CorpusOf(files, dir));
  }

  /** A corpus read holds every file in the directory but one. */
  lemma AllButReadme(files: Files, dir: Path, name: string)
    ensures Lookup(CorpusOf(files, dir), name) == if name == "README.txt" then None else Body(files, dir + [name])
  {
    LookupCorpus(files, dir, name);
  }

  lemma {:induction false} BodiesOnWrites(dir: Path, inputs: seq<Input>, name: string)
    requires ComponentNames(inputs)
    ensures BodiesOn(Writes(dir, inputs), dir + [name]) == BodiesNamed(inputs, name)
  {
    if inputs != [] {
      var front, last := inputs[..|inputs| - 1], inputs[|inputs| - 1];
      assert Writes(dir, inputs)[..|inputs| - 1] == Writes(dir, front);
      BodiesOnWrites(dir, front, name);
      JoinComponent(dir, last.name);
      assert (dir + [last.name])[|dir|] == last.name && (dir + [name])[|dir|] == name;
    }
  }

  /** Reading back what was written over an existing directory: each name holds the merge of the old body and the
      bodies written to it, and names come in order without the README. */
  lemma ReadAfterWrite(files: Files, dir: Path, inputs: seq<Input>, name: string)
    requires ComponentNames(inputs)
    ensures var after := CorpusOf(Apply(files, Writes(dir, inputs)), dir);
            && AscendingInputs(after)
            && Lookup(after, name) == if name == README then None
                                      else Merge(Lookup(CorpusOf(files, dir), name), BodiesNamed(inputs, name))
  {
    LookupCorpus(files, dir, name);
    LookupCorpus(Apply(files, Writes(dir, inputs)), dir, name);
    ApplyOnPath(files, Writes(dir, inputs), dir + [name]);
    BodiesOnWrites(dir, inputs, name);
  }

  /** No file directly in `dir` but possibly the README. */
  ghost predicate EmptyDir(files: Files, dir: Path) {
    forall name :: dir + [name] in files ==> name == README
  }

  function DropReadme(inputs: seq<Input>): seq<Input> {
    if inputs == [] then []
    else DropReadme(inputs[..|inputs| - 1]) +
         if inputs[|inputs| - 1].name == README then [] else [inputs[|inputs| - 1]]
  }

  ghost predicate DistinctNames(inputs: seq<Input>) {
    forall i, j | 0 <= i < j < |inputs| :: inputs[i].name != inputs[j].name
  }

  lemma {:induction false} NotNamed(inputs: seq<Input>, name: string)
    requires forall i | 0 <= i < |inputs| :: inputs[i].name != name
    ensures BodiesNamed(inputs, name) == [] && Lookup(inputs, name) == None
  {
    if inputs != [] {
      NotNamed(inputs[..|inputs| - 1], name);
    }
  }

  lemma {:induction false} DistinctMerge(inputs: seq<Input>, name: string)
    requires DistinctNames(inputs)
    ensures Merge(None, BodiesNamed(inputs, name)) == Lookup(inputs, name)
  {
    if inputs != [] {
      var front, last := inputs[..|inputs| - 1], inputs[|inputs| - 1];
      if last.name == name {
        NotNamed(front, name);
        assert BodiesNamed(inputs, name) == [last.body];
        assert Merge(None, [last.body][..0]) == None;
      } else {
        DistinctMerge(front, name);
        assert BodiesNamed(inputs, name) == BodiesNamed(front, name);
      }
    }
  }

  /** Whatever a directory of distinct component names holds reads back as one corpus: the same names and bodies as
      were written, in ascending order, the README dropped. */
  lemma FreshRoundTrip(files: Files, dir: Path, inputs: seq<Input>, name: string)
    requires ComponentNames(inputs) && DistinctNames(inputs)
    requires EmptyDir(files, dir)
    ensures Lookup(CorpusOf(Apply(files, Writes(dir, inputs)), dir), name) ==
            if name == README then None else Lookup(inputs, name)
  {
    ReadAfterWrite(files, dir, inputs, name);
    LookupCorpus(files, dir, name);
    DistinctMerge(inputs, name);
  }

  lemma {:induction false} DropReadmeIn(inputs: seq<Input>, x: Input)
    requires x in DropReadme(inputs)
    ensures x in inputs
  {
    if inputs != [] && x in DropReadme(inputs[..|inputs| - 1]) {
      DropReadmeIn(inputs[..|inputs| - 1], x);
    }
  }

  lemma {:induction false} DropReadmeAscends(inputs: seq<Input>)
    requires AscendingInputs(inputs)
    ensures AscendingInputs(DropReadme(inputs))
  {
    if inputs != [] {
      var front, last := inputs[..|inputs| - 1], inputs[|inputs| - 1];
      var d := DropReadme(front);
      DropReadmeAscends(front);
      forall i | 0 <= i < |d|
        ensures Less(d[i].name, last.name)
      {
        DropReadmeIn(front, d[i]);
      }
    }
  }

  lemma {:induction false} DropReadmeLookup(inputs: seq<Input>, name: string)
    ensures Lookup(DropReadme(inputs), name) == if name == README then None else Lookup(inputs, name)
  {
    if inputs != [] {
      var front, last := inputs[..|inputs| - 1], inputs[|inputs| - 1];
      DropReadmeLookup(front, name);
      var d := DropReadme(front);
      if last.name == README {
        assert d + [] == d;
      } else {
        assert (d + [last])[..|d|] == d;
      }
    }
  }

  lemma AscendingIsDistinct(inputs: seq<Input>)
    requires AscendingInputs(inputs)
    ensures DistinctNames(inputs)
  {
    forall i, j | 0 <= i < j < |inputs|
      ensures inputs[i].name != inputs[j].name
    {
      assert Less(inputs[i].name, inputs[j].name);
      LessIrreflexive(inputs[i].name);
    }
  }

  /** Writing a corpus in listing order into a fresh directory and reading it back is the identity, README aside. */
  lemma WriteThenRead(files: Files, dir: Path, inputs: seq<Input>)
    requires ComponentNames(inputs) && AscendingInputs(inputs)
    requires EmptyDir(files, dir)
    ensures CorpusOf(Apply(files, Writes(dir, inputs)), dir) == DropReadme(inputs)
  {
    AscendingIsDistinct(inputs);
    var after := CorpusOf(Apply(files, Writes(dir, inputs)), dir);
    DropReadmeAscends(inputs);
    forall n
      ensures Lookup(after, n) == Lookup(DropReadme(inputs), n)
    {
      FreshRoundTrip(files, dir, inputs, n);
      DropReadmeLookup(inputs, n);
    }
    LookupDetermines(after, DropReadme(inputs));
  }

  // ---------------------------------------------------------------- in any order

  /** The same inputs, README aside, in ascending order of their names. */
  ghost predicate SortedFrom(sorted: seq<Input>, inputs: seq<Input>) {
    AscendingInputs(sorted) && multiset(sorted) == multiset(DropReadme(inputs))
  }

  lemma {:induction false} LookupMember(inputs: seq<Input>, x: Input)
    requires DistinctNames(inputs)
    ensures x in inputs <==> Lookup(inputs, x.name) == Some(x.body)
  {
    if inputs != [] {
      var front, last := inputs[..|inputs| - 1], inputs[|inputs| - 1];
      LookupMember(front, x);
      assert inputs == front + [last];
      if last.name == x.name {
        NotNamed(front, x.name);
      }
    }
  }

  lemma {:induction false} DistinctOnce(inputs: seq<Input>, x: Input)
    requires DistinctNames(inputs)
    ensures multiset(inputs)[x] == if x in inputs then 1 else 0
  {
    if inputs != [] {
      var front, last := inputs[..|inputs| - 1], inputs[|inputs| - 1];
      DistinctOnce(front, x);
      assert inputs == front + [last];
    }
  }

  /** Corpora of distinct names are rearrangements of each other if they agree on every name. */
  lemma SameInputs(a: seq<Input>, b: seq<Input>)
    requires DistinctNames(a) && DistinctNames(b)
    requires forall n :: Lookup(a, n) == Lookup(b, n)
    ensures multiset(a) == multiset(b)
  {
    forall x: Input
      ensures multiset(a)[x] == multiset(b)[x]
    {
      LookupMember(a, x);
      LookupMember(b, x);
      DistinctOnce(a, x);
      DistinctOnce(b, x);
    }
  }

  lemma {:induction false} DropReadmeDistinct(inputs: seq<Input>)
    requires DistinctNames(inputs)
    ensures DistinctNames(DropReadme(inputs))
  {
    if inputs != [] {
      var front, last := inputs[..|inputs| - 1], inputs[|inputs| - 1];
      var d := DropReadme(front);
      DropReadmeDistinct(front);
      forall i | 0 <= i < |d|
        ensures d[i].name != last.name
      {
        DropReadmeIn(front, d[i]);
      }
    }
  }

  /** Writing distinct inputs in any order into a fresh directory and reading them back sorts them by name. */
  lemma WriteThenReadSorts(files: Files, dir: Path, inputs: seq<Input>)
    requires ComponentNames(inputs) && DistinctNames(inputs)
    requires EmptyDir(files, dir)
    ensures SortedFrom(CorpusOf(Apply(files, Writes(dir, inputs)), dir), inputs)
  {
    var after := CorpusOf(Apply(files, Writes(dir, inputs)), dir);
    assert IsCorpus(Apply(files, Writes(dir, inputs)), dir, after);
    AscendingIsDistinct(after);
    DropReadmeDistinct(inputs);
    forall n
      ensures Lookup(after, n) == Lookup(DropReadme(inputs), n)
    {
      FreshRoundTrip(files, dir, inputs, n);
      DropReadmeLookup(inputs, n);
    }
    SameInputs(after, DropReadme(inputs));
  }

  /** Sorting is unique, and does nothing to what is in order. */
  lemma SortedFromUnique(a: seq<Input>, b: seq<Input>, inputs: seq<Input>)
    requires SortedFrom(a, inputs) && SortedFrom(b, inputs)
    ensures a == b
    ensures AscendingInputs(inputs) ==> a == DropReadme(inputs)
  {
    SortedSame(a, b);
    if AscendingInputs(inputs) {
      DropReadmeAscends(inputs);
      SortedSame(a, DropReadme(inputs));
    }
  }

  lemma SortedSame(a: seq<Input>, b: seq<Input>)
    requires AscendingInputs(a) && AscendingInputs(b) && multiset(a) == multiset(b)
    ensures a == b
  {
    AscendingIsDistinct(a);
    AscendingIsDistinct(b);
    forall n
      ensures Lookup(a, n) == Lookup(b, n)
    {
      SameLookup(a, b, n);
      SameLookup(b, a, n);
    }
    LookupDetermines(a, b);
  }

  lemma SameLookup(a: seq<Input>, b: seq<Input>, n: string)
    requires DistinctNames(a) && DistinctNames(b) && multiset(a) == multiset(b)
    ensures Lookup(a, n).Some? ==> Lookup(b, n) == Lookup(a, n)
  {
    if Lookup(a, n).Some? {
      var x := Input(n, Lookup(a, n).value);
      LookupMember(a, x);
      assert x in multiset(a) && x in multiset(b);
      LookupMember(b, x);
    }
  }
}
