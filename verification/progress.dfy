/** The fleet can always converge: from every reachable state some schedule without new finds leads to agreement. */
module Progress {
  import opened AflFiles
  import opened Sync

  /** `s'` can follow `s` without any fuzzer finding anything. */
  ghost predicate Goes(c: Config, s: State, s': State) {
    exists acts :: Run(c, s, acts, s') && Quiet(acts)
  }

  lemma GoesTransitive(c: Config, s: State, mid: State, s': State)
    requires Goes(c, s, mid) && Goes(c, mid, s')
    ensures Goes(c, s, s')
  {
    var a :| Run(c, s, a, mid) && Quiet(a);
    var b :| Run(c, mid, b, s') && Quiet(b);
    RunConcat(c, s, a, mid, b, s');
  }

  lemma GoesOnce(c: Config, s: State, a: Action)
    requires Enabled(c, s, a)
    ensures Run(c, s, [a], Step(c, s, a))
  {
    assert Run(c, Step(c, s, a), [], Step(c, s, a));
  }

  lemma GoesStep(c: Config, s: State, a: Action)
    requires Reachable(c, s) && Enabled(c, s, a) && !a.Grow?
    ensures Goes(c, s, Step(c, s, a)) && Reachable(c, Step(c, s, a)) && Keeps(s, Step(c, s, a))
  {
    GoesOnce(c, s, a);
    ReachesOn(c, s, [a], Step(c, s, a));
    StepKeeps(c, s, a);
  }

  lemma GoesNowhere(c: Config, s: State)
    ensures Goes(c, s, s) && Keeps(s, s)
  {
    assert Run(c, s, [], s);
  }

  /** What a run never takes back: messages, passes, and what a writer has written. */
  ghost predicate Keeps(s: State, s': State) {
    && s.net <= s'.net && |s.snaps| <= |s'.snaps| && s'.work.Keys == s.work.Keys
    && |s.writers| <= |s'.writers|
    && forall t | 0 <= t < |s.writers| ::
         && s'.writers[t].msg == s.writers[t].msg && s'.writers[t].site == s.writers[t].site
         && s'.writers[t].pending <= s.writers[t].pending
  }

  lemma TreesKeep(s: State, site: Site, tree: Tree)
    requires site.Client? ==> site.workdir in s.work
    ensures Keeps(s, SetAt(s, site, tree))
  {
  }

  lemma WritersKeep(s: State, t: nat, k: Key)
    requires t < |s.writers|
    ensures Keeps(s, s.(writers := s.writers[t := s.writers[t].(pending := s.writers[t].pending - {k})]))
  {
  }

  lemma StepKeeps(c: Config, s: State, a: Action)
    requires Enabled(c, s, a) && !a.Grow?
    ensures Keeps(s, Step(c, s, a))
  {
    if a.WritePart? {
      WritePartKeeps(c, s, a);
    } else if a.WriteAll? {
      WriteAllKeeps(c, s, a);
    } else if a.Deliver? {
      DeliverKeeps(c, s, a);
    } else {
      OtherKeeps(c, s, a);
    }
  }

  lemma WritePartKeeps(c: Config, s: State, a: Action)
    requires Enabled(c, s, a) && a.WritePart?
    ensures Keeps(s, Step(c, s, a))
  {
    var w := s.writers[a.t];
    TreesKeep(s, w.site, Install(Sync.At(s, w.site), a.k, s.net[w.msg].tree[a.k][..a.n]));
  }

  lemma WriteAllKeeps(c: Config, s: State, a: Action)
    requires Enabled(c, s, a) && a.WriteAll?
    ensures Keeps(s, Step(c, s, a))
  {
    var w := s.writers[a.t];
    var mid := SetAt(s, w.site, Install(Sync.At(s, w.site), a.k, s.net[w.msg].tree[a.k]));
    TreesKeep(s, w.site, Install(Sync.At(s, w.site), a.k, s.net[w.msg].tree[a.k]));
    WritersKeep(mid, a.t, a.k);
    KeepsTransitive(s, mid, Step(c, s, a));
  }

  lemma DeliverKeeps(c: Config, s: State, a: Action)
    requires Enabled(c, s, a) && a.Deliver?
    ensures Keeps(s, Step(c, s, a))
  {
  }

  lemma OtherKeeps(c: Config, s: State, a: Action)
    requires Enabled(c, s, a) && !a.Grow? && !a.WritePart? && !a.WriteAll? && !a.Deliver?
    ensures Keeps(s, Step(c, s, a))
  {
    assert Step(c, s, a).writers == s.writers && Step(c, s, a).work == s.work;
  }

  lemma KeepsTransitive(s: State, mid: State, s': State)
    requires Keeps(s, mid) && Keeps(mid, s')
    ensures Keeps(s, s')
  {
  }

  lemma Onward(c: Config, s: State, mid: State, s': State)
    requires Goes(c, s, mid) && Keeps(s, mid) && Goes(c, mid, s') && Keeps(mid, s')
    ensures Goes(c, s, s') && Keeps(s, s')
  {
    GoesTransitive(c, s, mid, s');
    KeepsTransitive(s, mid, s');
  }

  // ---------------------------------------------------------------- passes and writers finish

  lemma UploadReads(c: Config, s: State, f: string, op: ReadOp) returns (s': State)
    requires Reachable(c, s) && Enabled(c, s, UploadRead(f, op))
    ensures Reachable(c, s') && Goes(c, s, s') && Keeps(s, s')
    ensures s'.net == s.net && f in s'.paused && s'.work == s.work
    ensures s'.paused[f] == Read(c, s.paused[f], s.work[c.home[f]], op)
  {
    GoesStep(c, s, UploadRead(f, op));
    s' := Step(c, s, UploadRead(f, op));
  }

  lemma PausedReader(c: Config, s: State, f: string)
    requires Reachable(c, s) && f in s.paused
    ensures f in c.home && c.home[f] in s.work
    ensures forall k | k in s.paused[f].todo ::
              k in s.work[c.home[f]] && s.paused[f].Buffer(k) <= s.work[c.home[f]][k]
  {
    ReachableInv(c, s);
    assert c.home[f] in c.home.Values;
    OwnIsOrigin(c, s.work, f);
    assert PassOk(c, Origins(c, s.work), f, s.paused[f]);
    forall k | k in s.paused[f].todo
      ensures k in s.work[c.home[f]] && s.paused[f].Buffer(k) <= s.work[c.home[f]][k]
    {
      assert k in Own(Origins(c, s.work), f);
      assert k in Own(s.work[c.home[f]], f);
      assert Own(s.work[c.home[f]], f)[k] == s.work[c.home[f]][k];
    }
  }

  /** The uploader of a stopped fuzzer can finish its pass. */
  lemma {:induction false} UploadPassEnds(c: Config, s: State, f: string) returns (s': State)
    requires Reachable(c, s) && f in s.paused
    ensures Reachable(c, s') && Goes(c, s, s') && Keeps(s, s')
    ensures s'.net == s.net && f in s'.paused && s'.paused[f].Done()
    decreases |s.paused[f].dirs|, |s.paused[f].todo|
  {
    PausedReader(c, s, f);
    var r := s.paused[f];
    if r.Done() {
      GoesNowhere(c, s);
      s' := s;
    } else if r.todo == {} {
      var s1 := UploadReads(c, s, f, List);
      s' := UploadPassEnds(c, s1, f);
      Onward(c, s, s1, s');
    } else {
      var k :| k in r.todo;
      var s1 := UploadReads(c, s, f, Chunk(k, |s.work[c.home[f]][k]|));
      var s2 := UploadReads(c, s1, f, Eof(k));
      s' := UploadPassEnds(c, s2, f);
      Onward(c, s, s1, s2);
      Onward(c, s, s2, s');
    }
  }

  lemma SnapReads(c: Config, s: State, i: nat, op: ReadOp) returns (s': State)
    requires Reachable(c, s) && Enabled(c, s, SnapRead(i, op))
    ensures Reachable(c, s') && Goes(c, s, s') && Keeps(s, s')
    ensures s'.net == s.net && s'.server == s.server && i < |s'.snaps| == |s.snaps|
    ensures s'.snaps[i] == Read(c, s.snaps[i], s.server, op)
  {
    GoesStep(c, s, SnapRead(i, op));
    s' := Step(c, s, SnapRead(i, op));
  }

  lemma SnapReader(c: Config, s: State, i: nat)
    requires Reachable(c, s) && i < |s.snaps|
    ensures forall k | k in s.snaps[i].todo :: k in s.server && s.snaps[i].Buffer(k) <= s.server[k]
  {
    ReachableInv(c, s);
    assert SnapOk(c, s.server, s.snaps[i]);
  }

  /** A pass of the server over its queues can finish. */
  lemma {:induction false} SnapPassEnds(c: Config, s: State, i: nat) returns (s': State)
    requires Reachable(c, s) && i < |s.snaps|
    ensures Reachable(c, s') && Goes(c, s, s') && Keeps(s, s')
    ensures s'.net == s.net && |s'.snaps| == |s.snaps| && s'.snaps[i].Done()
    decreases |s.snaps[i].dirs|, |s.snaps[i].todo|
  {
    SnapReader(c, s, i);
    var r := s.snaps[i];
    if r.Done() {
      GoesNowhere(c, s);
      s' := s;
    } else if r.todo == {} {
      var s1 := SnapReads(c, s, i, List);
      s' := SnapPassEnds(c, s1, i);
      Onward(c, s, s1, s');
    } else {
      var k :| k in r.todo;
      var s1 := SnapReads(c, s, i, Chunk(k, |s.server[k]|));
      var s2 := SnapReads(c, s1, i, Eof(k));
      s' := SnapPassEnds(c, s2, i);
      Onward(c, s, s1, s2);
      Onward(c, s, s2, s');
    }
  }

  lemma CanWriteNext(c: Config, s: State, t: nat, k: Key)
    requires Reachable(c, s) && t < |s.writers| && k in s.writers[t].pending
    ensures CanWrite(s, t, k)
  {
    ReachableInv(c, s);
    assert WriterOk(s.server, s.work, s.known, s.net, s.writers[t]);
  }

  /** A writer can finish. */
  lemma {:induction false} WriterEnds(c: Config, s: State, t: nat) returns (s': State)
    requires Reachable(c, s) && t < |s.writers|
    ensures Reachable(c, s') && Goes(c, s, s') && Keeps(s, s')
    ensures s'.net == s.net && t < |s'.writers| && s'.writers[t] == s.writers[t].(pending := {})
    decreases |s.writers[t].pending|
  {
    if s.writers[t].pending == {} {
      GoesNowhere(c, s);
      s' := s;
    } else {
      var k :| k in s.writers[t].pending;
      CanWriteNext(c, s, t, k);
      GoesStep(c, s, WriteAll(t, k));
      var s1 := Step(c, s, WriteAll(t, k));
      s' := WriterEnds(c, s1, t);
      Onward(c, s, s1, s');
    }
  }

  /** A message can be delivered and written out completely. */
  lemma Delivers(c: Config, s: State, m: nat, site: Site) returns (s': State)
    requires Reachable(c, s) && Enabled(c, s, Deliver(m, site))
    ensures Reachable(c, s') && Goes(c, s, s') && Keeps(s, s')
    ensures |s.writers| < |s'.writers| && s'.writers[|s.writers|] == Writer(site, m, {})
  {
    GoesStep(c, s, Deliver(m, site));
    var s1 := Step(c, s, Deliver(m, site));
    s' := WriterEnds(c, s1, |s.writers|);
    Onward(c, s, s1, s');
  }

  // ---------------------------------------------------------------- one upload, one download

  lemma HomeExists(c: Config, s: State, f: string)
    requires Reachable(c, s) && f in c.home
    ensures c.home[f] in s.work
  {
    ReachableInv(c, s);
    assert c.home[f] in c.home.Values;
  }

  lemma Pauses(c: Config, s: State, f: string) returns (s': State)
    requires Reachable(c, s) && f in c.home
    ensures Reachable(c, s') && Goes(c, s, s') && Keeps(s, s') && f in s'.paused && s'.net == s.net
  {
    if f in s.paused {
      GoesNowhere(c, s);
      s' := s;
    } else {
      HomeExists(c, s, f);
      GoesStep(c, s, Pause(f));
      s' := Step(c, s, Pause(f));
    }
  }

  lemma Uploads(c: Config, s: State, f: string) returns (s': State)
    requires Reachable(c, s) && f in c.home
    ensures Reachable(c, s') && Goes(c, s, s') && Keeps(s, s') && UploadedSince(s, s', f)
  {
    var s1 := Pauses(c, s, f);
    var s2 := UploadPassEnds(c, s1, f);
    GoesStep(c, s2, Send(f));
    var s3 := Step(c, s2, Send(f));
    var m := |s.net|;
    assert s3.net[m] == Upload(f, s2.paused[f].got);
    s' := Delivers(c, s3, m, Server);
    Onward(c, s, s1, s2);
    Onward(c, s, s2, s3);
    Onward(c, s, s3, s');
    assert s'.net[m] == s3.net[m];
    assert UploadDone(s, s', f, s'.writers[|s3.writers|]);
  }

  lemma {:induction false} DirsExist(ids: set<string>) returns (dirs: seq<Dir>)
    ensures forall d | d in dirs :: d.kind == Queue
    ensures forall id | id in ids :: Dir(id, Queue) in dirs
  {
    dirs := [];
    if ids != {} {
      var id :| id in ids;
      var rest := DirsExist(ids - {id});
      dirs := [Dir(id, Queue)] + rest;
    }
  }

  lemma Snaps(c: Config, s: State) returns (s': State)
    requires Reachable(c, s)
    ensures Reachable(c, s') && Goes(c, s, s') && Keeps(s, s') && s'.net == s.net
    ensures |s'.snaps| == |s.snaps| + 1 && s'.snaps[|s.snaps|].Done()
  {
    var dirs := DirsExist(s.known);
    GoesStep(c, s, Snap(dirs));
    var s1 := Step(c, s, Snap(dirs));
    s' := SnapPassEnds(c, s1, |s.snaps|);
    Onward(c, s, s1, s');
  }

  lemma Downloads(c: Config, s: State, dir: Workdir) returns (s': State)
    requires Reachable(c, s) && dir in s.work
    ensures Reachable(c, s') && Goes(c, s, s') && Keeps(s, s') && DownloadedSince(s, s', dir)
  {
    var i, m := |s.snaps|, |s.net|;
    var s1 := Snaps(c, s);
    GoesStep(c, s1, Respond(i));
    var s2 := Step(c, s1, Respond(i));
    assert s2.net[m] == Queues(i, s1.snaps[i].got);
    assert s2.work.Keys == s.work.Keys;
    s' := Delivers(c, s2, m, Client(dir));
    Onward(c, s, s1, s2);
    Onward(c, s, s2, s');
    assert s'.net[m] == s2.net[m];
    assert DownloadDone(s, s', dir, s'.writers[|s2.writers|]);
  }

  // ---------------------------------------------------------------- all of them

  lemma UploadLasts(s0: State, s: State, s': State, s'': State, f: string)
    requires Keeps(s0, s) && Keeps(s, s') && Keeps(s', s'') && UploadedSince(s, s', f)
    ensures UploadedSince(s0, s'', f)
  {
    var t: nat :| t < |s'.writers| && UploadDone(s, s', f, s'.writers[t]);
    assert s''.net[s'.writers[t].msg] == s'.net[s'.writers[t].msg];
    assert UploadDone(s0, s'', f, s''.writers[t]);
  }

  lemma DownloadLasts(s0: State, s: State, s': State, s'': State, dir: Workdir)
    requires Keeps(s0, s) && Keeps(s, s') && Keeps(s', s'') && DownloadedSince(s, s', dir)
    ensures DownloadedSince(s0, s'', dir)
  {
    var t: nat :| t < |s'.writers| && DownloadDone(s, s', dir, s'.writers[t]);
    assert s''.net[s'.writers[t].msg] == s'.net[s'.writers[t].msg];
    assert DownloadDone(s0, s'', dir, s''.writers[t]);
  }

  lemma {:induction false} AllUpload(c: Config, s: State, fs: set<string>) returns (s': State)
    requires Reachable(c, s) && fs <= c.home.Keys
    ensures Reachable(c, s') && Goes(c, s, s') && Keeps(s, s')
    ensures forall f | f in fs :: UploadedSince(s, s', f)
    decreases fs
  {
    if fs == {} {
      GoesNowhere(c, s);
      s' := s;
    } else {
      var f :| f in fs;
      var s1 := AllUpload(c, s, fs - {f});
      s' := Uploads(c, s1, f);
      Onward(c, s, s1, s');
      GoesNowhere(c, s);
      GoesNowhere(c, s');
      forall g | g in fs
        ensures UploadedSince(s, s', g)
      {
        if g == f {
          UploadLasts(s, s1, s', s', f);
        } else {
          UploadLasts(s, s, s1, s', g);
        }
      }
    }
  }

  lemma {:induction false} AllDownload(c: Config, s: State, dirs: set<Workdir>) returns (s': State)
    requires Reachable(c, s) && dirs <= s.work.Keys
    ensures Reachable(c, s') && Goes(c, s, s') && Keeps(s, s')
    ensures forall dir | dir in dirs :: DownloadedSince(s, s', dir)
    decreases dirs
  {
    if dirs == {} {
      GoesNowhere(c, s);
      s' := s;
    } else {
      var dir :| dir in dirs;
      var s1 := AllDownload(c, s, dirs - {dir});
      s' := Downloads(c, s1, dir);
      Onward(c, s, s1, s');
      GoesNowhere(c, s);
      GoesNowhere(c, s');
      forall other | other in dirs
        ensures DownloadedSince(s, s', other)
      {
        if other == dir {
          DownloadLasts(s, s1, s', s', dir);
        } else {
          DownloadLasts(s, s, s1, s', other);
        }
      }
    }
  }

  /** From every reachable state, in the middle of whatever uploads and downloads, the fleet can come to hold the same
      files everywhere without finding anything new: all the files there were at their origins. */
  lemma CanConverge(c: Config, s: State) returns (s': State)
    requires Reachable(c, s)
    ensures Goes(c, s, s') && Converged(c, s') && Origins(c, s'.work) == Origins(c, s.work)
  {
    var s1 := AllUpload(c, s, c.home.Keys);
    s' := AllDownload(c, s1, s1.work.Keys);
    var acts1 :| Run(c, s, acts1, s1) && Quiet(acts1);
    var acts2 :| Run(c, s1, acts2, s') && Quiet(acts2);
    Convergence(c, s, acts1, s1, acts2, s');
    GoesTransitive(c, s, s1, s');
  }
}
