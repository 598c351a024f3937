/** The operating system calls roving makes, over one file tree. */
module Disk {
  import opened Text
  import opened Paths
  import opened FileStore
  import opened Names

  /** Files and directories form a tree below the root and every name in it is a single component. */
  ghost predicate WellFormed(files: Files, dirs: set<Path>) {
    && [] in dirs
    && (forall p | p in files :: p !in dirs && p != [] && Parent(p) in dirs && Clean(p))
    && (forall p | p in dirs :: Clean(p) && (p != [] ==> Parent(p) in dirs))
  }

  /** Whether `open` for writing with `O_CREATE` succeeds. */
  predicate CanOpen(dirs: set<Path>, p: Path) {
    p != [] && p !in dirs && Parent(p) in dirs
  }

  /** The names of everything directly in `dir`. */
  function Entries(files: Files, dirs: set<Path>, dir: Path): set<string> {
    set p | p in files.Keys + dirs && |p| == |dir| + 1 && p[..|dir|] == dir :: p[|dir|]
  }

  lemma EntriesOf(files: Files, dirs: set<Path>, dir: Path, name: string)
    ensures name in Entries(files, dirs, dir) <==> dir + [name] in files || dir + [name] in dirs
  {
    if name in Entries(files, dirs, dir) {
      var p :| p in files.Keys + dirs && |p| == |dir| + 1 && p[..|dir|] == dir && p[|dir|] == name;
      assert p == dir + [name];
    } else {
      assert |dir + [name]| == |dir| + 1 && (dir + [name])[..|dir|] == dir && (dir + [name])[|dir|] == name;
    }
  }

  lemma {:induction false} PrefixesAreDirs(files: Files, dirs: set<Path>, p: Path)
    requires WellFormed(files, dirs)
    requires p in dirs || p in files
    ensures forall n | 0 <= n < |p| :: p[..n] in dirs
    decreases |p|
  {
    if p != [] {
      PrefixesAreDirs(files, dirs, Parent(p));
      forall n | 0 <= n < |p|
        ensures p[..n] in dirs
      {
        if n < |p| - 1 {
          assert p[..n] == Parent(p)[..n];
        }
      }
    }
  }

  class Disk {
    var files: Files
    var dirs: set<Path>

    ghost predicate Valid()
      reads this
    {
      WellFormed(files, dirs)
    }

    constructor ()
      ensures Valid() && files == map[] && dirs == {[]}
    {
      files, dirs := map[], {[]};
    }

    /** `os.MkdirAll`: creates the whole chain, or nothing when a file is in the way. */
    method MkdirAll(p: Path) returns (ok: bool)
      requires Valid() && Clean(p)
      modifies this`dirs
      ensures Valid()
      ensures ok <==> forall n | 0 <= n <= |p| :: p[..n] !in files
      ensures dirs == if ok then old(dirs) + Prefixes(p) else old(dirs)
    {
      ok := forall n | 0 <= n <= |p| :: p[..n] !in files;
      if ok {
        dirs := dirs + Prefixes(p);
        forall d | d in dirs && d != []
          ensures Parent(d) in dirs && Clean(d)
        {
          if d in Prefixes(p) {
            var n :| 0 <= n <= |p| && d == p[..n];
            assert Parent(d) == p[..n - 1];
          }
        }
        assert forall q | q in files :: q !in Prefixes(p);
      }
    }

    /** `os.OpenFile(p, O_WRONLY|O_CREATE)` followed by one `Write`. */
    method WriteFile(p: Path, body: Bytes) returns (ok: bool)
      requires Valid() && (CanOpen(dirs, p) ==> Clean(p))
      modifies this`files
      ensures Valid()
      ensures ok <==> CanOpen(dirs, p)
      ensures files == if ok then Put(old(files), Write(p, body)) else old(files)
    {
      ok := CanOpen(dirs, p);
      if ok {
        files := Put(files, Write(p, body));
      }
    }

    /** `os.Create` followed by a copy: unlike `WriteFile`, this truncates. */
    method CreateFile(p: Path, body: Bytes) returns (ok: bool)
      requires Valid() && (CanOpen(dirs, p) ==> Clean(p))
      modifies this`files
      ensures Valid()
      ensures ok <==> CanOpen(dirs, p)
      ensures files == if ok then old(files)[p := body] else old(files)
    {
      ok := CanOpen(dirs, p);
      if ok {
        files := files[p := body];
      }
    }

    /** `ioutil.ReadDir`: the entries in ascending order. */
    method ReadDir(dir: Path) returns (names: Option<seq<string>>)
      ensures names.Some? <==> dir in dirs
      ensures names.Some? ==> names.value == Sorted(Entries(files, dirs, dir))
    {
      if dir !in dirs {
        return None;
      }
      var sorted := SortNames(Entries(files, dirs, dir));
      return Some(sorted);
    }
  }
}
