/** Archiving crashes only once: what `archiveNewCrashes` needs of a listing, and which archivers provide it. */
module Dedup {
  import opened Text
  import opened Paths
  import opened FileStore
  import opened Corpus
  import opened AflFiles
  import opened Fleet
  import opened Archiver
  import opened Server

  // ---------------------------------------------------------------- with listings as the interface promises them

  function Sources(m: Manifest): (srcs: seq<Path>)
    ensures |srcs| == |m.entries|
  {
    seq(|m.entries|, i requires 0 <= i < |m.entries| => m.entries[i].src)
  }

  /** All crashes copied by a series of calls, in order. */
  function CopyLog(calls: seq<Manifest>): seq<Path> {
    if calls == [] then [] else CopyLog(calls[..|calls| - 1]) + Sources(calls[|calls| - 1])
  }

  function PathsIn(log: seq<Path>): set<Path> {
    set p | p in log
  }

  /** A run of calls without failures: the k-th finds the outputs `found[k]` and a listing of exactly what the calls
      before it copied. */
  ghost predicate FaithfulRun(fm: FleetFileManager, found: seq<map<string, Output>>, calls: seq<Manifest>) {
    && |found| == |calls|
    && forall k | 0 <= k < |calls| :: MissingCrashes(fm, found[k], PathsIn(CopyLog(calls[..k])), calls[k])
  }

  lemma SourcesAre(fm: FleetFileManager, outputs: map<string, Output>, archived: set<Path>, m: Manifest, p: Path)
    requires MissingCrashes(fm, outputs, archived, m)
    ensures NoRepeats(Sources(m))
    ensures p in Sources(m) <==> LocalCrash(outputs, p) && p !in archived
  {
    var srcs := Sources(m);
    assert forall i | 0 <= i < |srcs| :: srcs[i] == m.entries[i].src;
    if Covers(m.entries, p) {
      var i :| 0 <= i < |m.entries| && m.entries[i].src == p;
      assert srcs[i] == p;
    }
  }

  lemma NoRepeatsConcat(a: seq<Path>, b: seq<Path>)
    requires NoRepeats(a) && NoRepeats(b) && forall p | p in b :: p !in a
    ensures NoRepeats(a + b)
  {
    forall i, j | 0 <= i < j < |a + b|
      ensures (a + b)[i] != (a + b)[j]
    {
      if i < |a| <= j {
        assert (a + b)[j] in b && (a + b)[i] in a;
      }
    }
  }

  /** Some call found the crash `p`. */
  ghost predicate Found(found: seq<map<string, Output>>, p: Path) {
    exists k :: 0 <= k < |found| && LocalCrash(found[k], p)
  }

  /** Over such a run each crash is copied at most once, and exactly those are copied that any call found. */
  lemma {:induction false} CopiedOnce(fm: FleetFileManager, found: seq<map<string, Output>>, calls: seq<Manifest>)
    requires FaithfulRun(fm, found, calls)
    ensures NoRepeats(CopyLog(calls))
    ensures forall p :: p in CopyLog(calls) <==> Found(found, p)
    decreases |calls|
  {
    if calls != [] {
      var last := |calls| - 1;
      var front := calls[..last];
      assert forall k | 0 <= k < last :: front[..k] == calls[..k];
      CopiedOnce(fm, found[..last], front);
      forall p
        ensures p in Sources(calls[last]) <==> LocalCrash(found[last], p) && p !in CopyLog(front)
      {
        SourcesAre(fm, found[last], PathsIn(CopyLog(front)), calls[last], p);
      }
      SourcesAre(fm, found[last], PathsIn(CopyLog(front)), calls[last], []);
      NoRepeatsConcat(CopyLog(front), Sources(calls[last]));
      forall p
        ensures p in CopyLog(calls) <==> Found(found, p)
      {
        FoundLast(found, p);
      }
    }
  }

  lemma FoundLast(found: seq<map<string, Output>>, p: Path)
    requires found != []
    ensures Found(found, p) <==> LocalCrash(found[|found| - 1], p) || Found(found[..|found| - 1], p)
  {
    var front := found[..|found| - 1];
    if Found(found, p) {
      var k :| 0 <= k < |found| && LocalCrash(found[k], p);
      assert k < |front| ==> front[k] == found[k];
    }
    if Found(front, p) {
      var k :| 0 <= k < |front| && LocalCrash(front[k], p);
      assert found[k] == front[k];
    }
  }

  ghost predicate NothingNew(was: map<string, Output>, now: map<string, Output>) {
    forall p :: LocalCrash(now, p) ==> LocalCrash(was, p)
  }

  lemma SomeMember(s: seq<Path>)
    ensures s == [] || exists p :: p in s
  {
    if s != [] {
      assert s[0] in s;
    }
  }

  /** A call that finds nothing new has nothing to copy. */
  lemma RepeatCallIsEmpty(fm: FleetFileManager, found: seq<map<string, Output>>, calls: seq<Manifest>)
    requires FaithfulRun(fm, found, calls) && |calls| >= 2
    requires NothingNew(found[|found| - 2], found[|found| - 1])
    ensures calls[|calls| - 1].entries == []
  {
    var last := |calls| - 1;
    var front := calls[..last];
    assert forall k | 0 <= k < last :: front[..k] == calls[..k];
    CopiedOnce(fm, found[..last], front);
    forall p
      ensures p !in Sources(calls[last])
    {
      SourcesAre(fm, found[last], PathsIn(CopyLog(front)), calls[last], p);
      assert LocalCrash(found[..last][last - 1], p) ==> Found(found[..last], p);
    }
    SomeMember(Sources(calls[last]));
  }

  // ---------------------------------------------------------------- what copying once costs

  /** The body of a crash on the server. */
  function BodyOf(outputs: map<string, Output>, p: Path): Option<Bytes> {
    if |p| == 4 && p == RelCrash(p[1], p[3]) && p[1] in outputs then Lookup(outputs[p[1]].crashes, p[3]) else None
  }

  lemma BodyOfLocal(outputs: map<string, Output>, p: Path)
    ensures BodyOf(outputs, p).Some? <==> LocalCrash(outputs, p)
  {
    if LocalCrash(outputs, p) {
      var id, j :| id in outputs && 0 <= j < |outputs[id].crashes| && p == RelCrash(id, outputs[id].crashes[j].name);
      LookupSome(outputs[id].crashes, p[3]);
      assert InputNames(outputs[id].crashes)[j] == p[3];
    }
    if BodyOf(outputs, p).Some? {
      LookupSome(outputs[p[1]].crashes, p[3]);
      var j :| 0 <= j < |outputs[p[1]].crashes| && InputNames(outputs[p[1]].crashes)[j] == p[3];
      assert p == RelCrash(p[1], outputs[p[1]].crashes[j].name);
    }
  }

  /** What the archive holds of a crash after a series of calls: what the server held when it was copied last. */
  function ArchivedBody(found: seq<map<string, Output>>, calls: seq<Manifest>, p: Path): Option<Bytes>
    requires |found| == |calls|
  {
    if calls == [] then None
    else
      var last := |calls| - 1;
      if p in Sources(calls[last]) then BodyOf(found[last], p) else ArchivedBody(found[..last], calls[..last], p)
  }

  /** What the server held of a crash in the first call that found it. */
  function FirstBody(found: seq<map<string, Output>>, p: Path): Option<Bytes> {
    if found == [] then None
    else
      var before := FirstBody(found[..|found| - 1], p);
      if before.Some? then before else BodyOf(found[|found| - 1], p)
  }

  lemma {:induction false} FirstBodyFound(found: seq<map<string, Output>>, p: Path)
    ensures FirstBody(found, p).Some? <==> Found(found, p)
  {
    if found != [] {
      FirstBodyFound(found[..|found| - 1], p);
      FoundLast(found, p);
      BodyOfLocal(found[|found| - 1], p);
    }
  }

  /** Over a run with faithful listings the archive keeps of each crash what the first call found, and so holds the
      current body exactly if that is still the body of then. */
  lemma {:induction false} KeepsFirstBody(fm: FleetFileManager, found: seq<map<string, Output>>, calls: seq<Manifest>,
                                          p: Path)
    requires FaithfulRun(fm, found, calls)
    ensures ArchivedBody(found, calls, p) == FirstBody(found, p)
    decreases |calls|
  {
    if calls != [] {
      var last := |calls| - 1;
      var front := calls[..last];
      assert forall k | 0 <= k < last :: front[..k] == calls[..k];
      KeepsFirstBody(fm, found[..last], front, p);
      CopiedOnce(fm, found[..last], front);
      SourcesAre(fm, found[last], PathsIn(CopyLog(front)), calls[last], p);
      FirstBodyFound(found[..last], p);
      BodyOfLocal(found[last], p);
    }
  }

  // ---------------------------------------------------------------- the S3 archiver

  /** The key under which the S3 archiver keeps the crash with relative path `p`. */
  function Key(rootKey: Path, p: Path): Path {
    rootKey + [REALTIME_CRASHES] + p
  }

  /** What its listing makes of that key: the path relative to the listed directory, not to the root key. */
  function Listing(keys: set<Path>): set<Path> {
    set key | key in keys :: Rel([REALTIME_CRASHES], key)
  }

  lemma ListedAs(rootKey: Path, p: Path)
    ensures rootKey == [] ==> Rel([REALTIME_CRASHES], Key(rootKey, p)) == p
    ensures rootKey != [] ==> |Rel([REALTIME_CRASHES], Key(rootKey, p))| > |p|
  {
    if rootKey == [] {
      assert Key(rootKey, p) == [REALTIME_CRASHES] + p;
      RelBelow([REALTIME_CRASHES], p);
    }
  }

  /** The S3 listing recognises an archived crash if and only if the archive has no root key; otherwise it recognises
      none, and all crashes are copied in every call. */
  lemma S3Dedups(fm: FleetFileManager, outputs: map<string, Output>, rootKey: Path, archived: set<Path>, m: Manifest)
    requires forall p | p in archived :: |p| == 4
    requires MissingCrashes(fm, outputs, Listing(set p | p in archived :: Key(rootKey, p)), m)
    ensures MissingCrashes(fm, outputs, if rootKey == [] then archived else {}, m)
  {
    var keys := set p | p in archived :: Key(rootKey, p);
    forall p | |p| == 4
      ensures p in Listing(keys) <==> rootKey == [] && p in archived
    {
      if p in Listing(keys) {
        var q :| q in archived && p == Rel([REALTIME_CRASHES], Key(rootKey, q));
        ListedAs(rootKey, q);
      }
      if rootKey == [] && p in archived {
        ListedAs(rootKey, p);
        assert Key(rootKey, p) in keys;
      }
    }
    forall p | LocalCrash(outputs, p)
      ensures |p| == 4
    {
    }
  }
}
